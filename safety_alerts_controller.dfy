/** server/controllers/safetyAlertsController.js: managers post safety alerts,
    everyone lists them newest first, and an alert can be deleted by id. */
module SafetyAlertsController {
  import opened Common
  import opened Listing

  /** A SafetyAlerts document (SafetyAlerts.js:3-8). */
  datatype SafetyAlert = SafetyAlert(title: string, description: string, createdBy: Id, createdAt: nat)

  class SafetyAlerts {
    var alerts: map<Id, SafetyAlert>
    var nextId: Id

    ghost predicate Valid()
      reads this
    {
      forall id :: id in alerts ==> id < nextId
    }

    constructor ()
      ensures Valid() && alerts == map[]
    {
      alerts := map[];
      nextId := 0;
    }

    /** `getSafetyAlerts` (lines 27-29): every alert, newest first. */
    ghost function ListNewestFirst(): (ids: seq<Id>)
      reads this
      ensures forall id :: id in ids <==> id in alerts
      ensures forall i, j :: 0 <= i < j < |ids| ==> ids[i] != ids[j] && alerts[ids[j]].createdAt <= alerts[ids[i]].createdAt
    {
      NewestFirstListing(alerts.Keys, StampsOf(alerts, (r: SafetyAlert) => r.createdAt))
    }

    /** `createSafetyAlert`. */
    method Create(user: Id, title: Option<string>, description: Option<string>, now: nat) returns (resp: Response)
      requires Valid()
      modifies this
      ensures Valid()
      ensures !(Present(title) && Present(description)) ==>
                resp == Response(400, "Title and description are required") && alerts == old(alerts)
      ensures Present(title) && Present(description) ==>
                && old(nextId) !in old(alerts)
                && alerts == old(alerts)[old(nextId) := SafetyAlert(title.value, description.value, user, now)]
                && resp == Response(201, "Safety Alert Created successfully!")
    {
      if !Present(title) || !Present(description) {
        return Response(400, "Title and description are required");
      }
      alerts := alerts[nextId := SafetyAlert(title.value, description.value, user, now)];
      nextId := nextId + 1;
      resp := Response(201, "Safety Alert Created successfully!");
    }

    /** `deleteSafetyAlert`. `id` is the route parameter. */
    method Delete(id: Option<Id>) returns (resp: Response)
      requires Valid()
      modifies this
      ensures Valid() && nextId == old(nextId)
      ensures id.None? ==> resp == Response(400, "Safety alert ID is required") && alerts == old(alerts)
      ensures id.Some? && id.value !in old(alerts) ==>
                resp == Response(404, "Safety alert not found") && alerts == old(alerts)
      ensures id.Some? && id.value in old(alerts) ==>
                resp == Response(200, "Safety Alert deleted successfully!") && alerts == old(alerts) - {id.value}
    {
      if id.None? {
        return Response(400, "Safety alert ID is required");
      }
      if id.value !in alerts {
        return Response(404, "Safety alert not found");
      }
      alerts := alerts - {id.value};
      resp := Response(200, "Safety Alert deleted successfully!");
    }
  }
}
