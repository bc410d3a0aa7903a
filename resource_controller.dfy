/** server/controllers/resourceController.js: residents request resources; the
    listing shows the Active requests newest first; deletion is soft and only
    sets the status to Deleted. */
module ResourceController {
  import opened Common
  import opened Models
  import opened Listing

  /** Resource.js:14: `enum: ['Active', 'Deleted'], default: 'Active'`. */
  datatype ResourceStatus = Active | Deleted

  /** A Resource document (Resource.js:3-16). */
  datatype ResourceRequest = ResourceRequest(
    resourceName: string,
    description: string,
    quantity: string,
    resident: Id,
    residentName: string,
    apartmentCode: string,
    status: ResourceStatus,
    createdAt: nat)

  /** The schema's required paths, checked when the request is saved. */
  predicate RequestSavable(resourceName: Option<string>, description: Option<string>, quantity: Option<string>, r: Resident)
  {
    Present(resourceName) && Present(description) && Present(quantity) && r.name != "" && Present(r.apartmentCode)
  }

  /** The requests the listing shows. */
  function ActiveIds(requests: map<Id, ResourceRequest>): (s: set<Id>)
    ensures forall id :: id in s <==> id in requests && requests[id].status == Active
  {
    set id | id in requests && requests[id].status == Active
  }

  /** Lines 53-54: the record stays, only its status becomes Deleted. */
  function SoftDeleted(requests: map<Id, ResourceRequest>, id: Id): (m: map<Id, ResourceRequest>)
    requires id in requests
    ensures m.Keys == requests.Keys
    ensures m[id].status == Deleted && m[id].(status := requests[id].status) == requests[id]
    ensures forall k :: k in requests && k != id ==> m[k] == requests[k]
  {
    requests[id := requests[id].(status := Deleted)]
  }

  /** A soft-deleted request drops out of the listing and nothing else does. */
  lemma SoftDeleteLeavesListing(requests: map<Id, ResourceRequest>, id: Id)
    requires id in requests
    ensures ActiveIds(SoftDeleted(requests, id)) == ActiveIds(requests) - {id}
  {
    var after := SoftDeleted(requests, id);
    assert forall k :: k in ActiveIds(after) <==> k in ActiveIds(requests) - {id};
  }

  /** Deleting an already deleted request leaves it deleted. */
  lemma SoftDeleteIsIdempotent(requests: map<Id, ResourceRequest>, id: Id)
    requires id in requests
    ensures SoftDeleted(SoftDeleted(requests, id), id) == SoftDeleted(requests, id)
  {
  }

  /** The Resource collection. */
  class ResourceRequests {
    var requests: map<Id, ResourceRequest>
    var nextId: Id

    ghost predicate Valid()
      reads this
    {
      forall id :: id in requests ==> id < nextId
    }

    constructor ()
      ensures Valid() && requests == map[]
    {
      requests := map[];
      nextId := 0;
    }

    /** `getResourceRequest` (lines 34-36): the Active requests, newest first. */
    ghost function ActiveNewestFirst(): (ids: seq<Id>)
      reads this
      ensures forall id :: id in ids <==> id in requests && requests[id].status == Active
      ensures forall i, j :: 0 <= i < j < |ids| ==>
                ids[i] != ids[j] && requests[ids[j]].createdAt <= requests[ids[i]].createdAt
    {
      NewestFirstListing(ActiveIds(requests), StampsOf(requests, (r: ResourceRequest) => r.createdAt))
    }

    /** `createResourceRequest`. `user` is the requester's id; a requester with
        no resident record makes line 18 throw, which answers 500. */
    method Create(user: Id, resourceName: Option<string>, description: Option<string>, quantity: Option<string>,
                  residents: map<string, Resident>, now: nat) returns (resp: Response)
      requires Valid() && UniqueResidentIds(residents)
      modifies this
      ensures Valid()
      ensures ResidentById(residents, user).None? ==> resp == Response(500, ServerErrorMessage) && requests == old(requests)
      ensures ResidentById(residents, user).Some?
              && !RequestSavable(resourceName, description, quantity, ResidentById(residents, user).value) ==>
                resp == Response(500, ServerErrorMessage) && requests == old(requests)
      ensures ResidentById(residents, user).Some?
              && RequestSavable(resourceName, description, quantity, ResidentById(residents, user).value) ==>
                var r := ResidentById(residents, user).value;
                && old(nextId) !in old(requests)
                && requests == old(requests)[old(nextId) := ResourceRequest(resourceName.value, description.value, quantity.value,
                                                                            user, r.name, r.apartmentCode.value, Active, now)]
                && resp == Response(201, "Resource request cereated successfully")
    {
      var resident := ResidentById(residents, user);
      if resident.None? {
        return Response(500, ServerErrorMessage);
      }
      var r := resident.value;
      if !RequestSavable(resourceName, description, quantity, r) {
        return Response(500, ServerErrorMessage);
      }
      requests := requests[nextId := ResourceRequest(resourceName.value, description.value, quantity.value,
                                                     user, r.name, r.apartmentCode.value, Active, now)];
      nextId := nextId + 1;
      resp := Response(201, "Resource request cereated successfully");
    }

    /** `deleteResourceRequest`. The requester's id is read but not checked: any
        user may delete any request. A missing request makes line 53 throw. */
    method Delete(id: Id, user: Id) returns (resp: Response)
      requires Valid()
      modifies this
      ensures Valid() && nextId == old(nextId)
      ensures id !in old(requests) ==> resp == Response(500, ServerErrorMessage) && requests == old(requests)
      ensures id in old(requests) ==>
                requests == SoftDeleted(old(requests), id) && resp == Response(200, "Resource request deleted successfully")
    {
      if id !in requests {
        return Response(500, ServerErrorMessage);
      }
      requests := requests[id := requests[id].(status := Deleted)];
      resp := Response(200, "Resource request deleted successfully");
    }
  }
}
