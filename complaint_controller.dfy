/** server/controllers/complaintController.js: residents file complaints,
    which carry their apartment code; the listing shows all of them newest first. */
module ComplaintController {
  import opened Common
  import opened Models
  import opened Listing

  /** A Complaint document (Complaint.js:3-13). */
  datatype Complaint = Complaint(title: string, description: string, resident: Id, apartmentCode: string, createdAt: nat)

  /** The schema's required paths, checked when the complaint is saved. */
  predicate ComplaintSavable(title: Option<string>, description: Option<string>, r: Resident)
  {
    Present(title) && Present(description) && Present(r.apartmentCode)
  }

  class Complaints {
    var complaints: map<Id, Complaint>
    var nextId: Id

    ghost predicate Valid()
      reads this
    {
      forall id :: id in complaints ==> id < nextId
    }

    constructor ()
      ensures Valid() && complaints == map[]
    {
      complaints := map[];
      nextId := 0;
    }

    /** `getComplaints` (line 30): every complaint, newest first. */
    ghost function ListNewestFirst(): (ids: seq<Id>)
      reads this
      ensures forall id :: id in ids <==> id in complaints
      ensures forall i, j :: 0 <= i < j < |ids| ==>
                ids[i] != ids[j] && complaints[ids[j]].createdAt <= complaints[ids[i]].createdAt
    {
      NewestFirstListing(complaints.Keys, StampsOf(complaints, (r: Complaint) => r.createdAt))
    }

    /** `createComplaint`. A requester with no resident record makes line 16
        throw, which answers 500. */
    method Create(user: Id, title: Option<string>, description: Option<string>,
                  residents: map<string, Resident>, now: nat) returns (resp: Response)
      requires Valid() && UniqueResidentIds(residents)
      modifies this
      ensures Valid()
      ensures ResidentById(residents, user).None? ==> resp == Response(500, ServerErrorMessage) && complaints == old(complaints)
      ensures ResidentById(residents, user).Some? && !ComplaintSavable(title, description, ResidentById(residents, user).value) ==>
                resp == Response(500, ServerErrorMessage) && complaints == old(complaints)
      ensures ResidentById(residents, user).Some? && ComplaintSavable(title, description, ResidentById(residents, user).value) ==>
                && old(nextId) !in old(complaints)
                && complaints == old(complaints)[old(nextId) := Complaint(title.value, description.value, user,
                                                   ResidentById(residents, user).value.apartmentCode.value, now)]
                && resp == Response(201, "Complaint submitted successfully!")
    {
      var resident := ResidentById(residents, user);
      if resident.None? {
        return Response(500, ServerErrorMessage);
      }
      var r := resident.value;
      if !ComplaintSavable(title, description, r) {
        return Response(500, ServerErrorMessage);
      }
      complaints := complaints[nextId := Complaint(title.value, description.value, user, r.apartmentCode.value, now)];
      nextId := nextId + 1;
      resp := Response(201, "Complaint submitted successfully!");
    }
  }
}
