/** server/controllers/maintenanceController.js: a resident files a maintenance
    request, which starts Pending with no ratings. */
module MaintenanceController {
  import opened Common
  import opened Models

  /** Maintenance.js:13: `enum: ['Pending', 'Done'], default: 'Pending'`. */
  datatype MaintenanceStatus = Pending | Done

  /** One entry of `ratings` (Maintenance.js:15-20). */
  datatype Rating = Rating(resident: Id, stars: int)

  /** A Maintenance document. The apartment-code path is spelled `apartmentcode`. */
  datatype MaintenanceRequest = MaintenanceRequest(
    title: string,
    description: string,
    resident: Id,
    residentName: string,
    apartmentcode: string,
    status: MaintenanceStatus,
    createdAt: nat,
    ratings: seq<Rating>)

  /** The schema's required paths, checked when the request is saved. */
  predicate MaintenanceSavable(title: Option<string>, description: Option<string>, r: Resident)
  {
    Present(title) && Present(description) && r.name != "" && Present(r.apartmentCode)
  }

  class MaintenanceRequests {
    var requests: map<Id, MaintenanceRequest>
    var nextId: Id

    /** Ids come from the counter and every rating is 1 to 5 stars. */
    ghost predicate Valid()
      reads this
    {
      forall id :: id in requests ==>
        id < nextId && forall k :: 0 <= k < |requests[id].ratings| ==> 1 <= requests[id].ratings[k].stars <= 5
    }

    constructor ()
      ensures Valid() && requests == map[]
    {
      requests := map[];
      nextId := 0;
    }

    /** `createMaintenanceRequest`. A requester with no resident record makes
        line 17 throw, which answers 500. */
    method Create(user: Id, title: Option<string>, description: Option<string>,
                  residents: map<string, Resident>, now: nat) returns (resp: Response)
      requires Valid() && UniqueResidentIds(residents)
      modifies this
      ensures Valid()
      ensures ResidentById(residents, user).None? ==> resp == Response(500, ServerErrorMessage) && requests == old(requests)
      ensures ResidentById(residents, user).Some? && !MaintenanceSavable(title, description, ResidentById(residents, user).value) ==>
                resp == Response(500, ServerErrorMessage) && requests == old(requests)
      ensures ResidentById(residents, user).Some? && MaintenanceSavable(title, description, ResidentById(residents, user).value) ==>
                var r := ResidentById(residents, user).value;
                && old(nextId) !in old(requests)
                && requests == old(requests)[old(nextId) := MaintenanceRequest(title.value, description.value, user,
                                                                               r.name, r.apartmentCode.value, Pending, now, [])]
                && resp == Response(201, "Maintenance request sent")
    {
      var resident := ResidentById(residents, user);
      if resident.None? {
        return Response(500, ServerErrorMessage);
      }
      var r := resident.value;
      if !MaintenanceSavable(title, description, r) {
        return Response(500, ServerErrorMessage);
      }
      requests := requests[nextId := MaintenanceRequest(title.value, description.value, user,
                                                        r.name, r.apartmentCode.value, Pending, now, [])];
      nextId := nextId + 1;
      resp := Response(201, "Maintenance request sent");
    }
  }
}
