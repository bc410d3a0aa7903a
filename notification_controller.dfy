/** server/controllers/notificationController.js: management notifications
    (create, list newest first, remove) and community notifications (create,
    list newest first without those the caller hid, remove by a manager,
    delete or edit by their creator, hide for the caller). A handler's `user`
    parameter is the `id` of the verified token payload. */
module NotificationController {
  import opened Common
  import opened Listing

  // ---------------------------------------------------------------------------
  // Management notifications

  /** A ManagementNotification document (ManagementNotifications.js:3-8). */
  datatype ManagementNotification = ManagementNotification(title: string, message: string, createdBy: Id, createdAt: nat)

  class ManagementBoard {
    var notes: map<Id, ManagementNotification>
    var nextId: Id

    ghost predicate Valid()
      reads this
    {
      forall id :: id in notes ==> id < nextId
    }

    constructor ()
      ensures Valid() && notes == map[]
    {
      notes := map[];
      nextId := 0;
    }

    /** `getManagementNotification` (line 25): every notification, newest first. */
    ghost function ListNewestFirst(): (ids: seq<Id>)
      reads this
      ensures forall id :: id in ids <==> id in notes
      ensures forall i, j :: 0 <= i < j < |ids| ==> ids[i] != ids[j] && notes[ids[j]].createdAt <= notes[ids[i]].createdAt
    {
      NewestFirstListing(notes.Keys, StampsOf(notes, (r: ManagementNotification) => r.createdAt))
    }

    /** `createManagementNotification`. The schema requires title and message. */
    method Create(user: Id, title: Option<string>, message: Option<string>, now: nat) returns (resp: Response)
      requires Valid()
      modifies this
      ensures Valid()
      ensures Present(title) && Present(message) ==>
                && old(nextId) !in old(notes)
                && notes == old(notes)[old(nextId) := ManagementNotification(title.value, message.value, user, now)]
                && resp == Response(201, "Management Notification created successfully!")
      ensures !(Present(title) && Present(message)) ==> notes == old(notes) && resp == Response(500, ServerErrorMessage)
    {
      if !(Present(title) && Present(message)) {
        return Response(500, ServerErrorMessage);
      }
      notes := notes[nextId := ManagementNotification(title.value, message.value, user, now)];
      nextId := nextId + 1;
      resp := Response(201, "Management Notification created successfully!");
    }

    /** `removeManagementNotification`: `findByIdAndDelete`, which succeeds
        whether or not the id exists. */
    method Remove(id: Id) returns (resp: Response)
      requires Valid()
      modifies this
      ensures Valid()
      ensures notes == old(notes) - {id}
      ensures resp == Response(200, "Management notification removed successfully!")
    {
      notes := notes - {id};
      resp := Response(200, "Management notification removed successfully!");
    }
  }

  // ---------------------------------------------------------------------------
  // Community notifications

  /** A CommunityNotification document (CommunityNotification.js:3-9). */
  datatype CommunityNotification = CommunityNotification(
    title: string, message: string, createdBy: Id, createdAt: nat, removedFor: seq<Id>)

  /** No user appears twice in a hide-list. */
  ghost predicate NoRepeats(s: seq<Id>)
  {
    forall i, j :: 0 <= i < j < |s| ==> s[i] != s[j]
  }

  /** Lines 128-131: add `user` to the hide-list unless already there. */
  function Hidden(n: CommunityNotification, user: Id): (h: CommunityNotification)
    ensures user in h.removedFor
    ensures forall u :: u in h.removedFor <==> u in n.removedFor || u == user
    ensures h.(removedFor := n.removedFor) == n
    ensures NoRepeats(n.removedFor) ==> NoRepeats(h.removedFor)
  {
    if user in n.removedFor then n else n.(removedFor := n.removedFor + [user])
  }

  /** Hiding twice is hiding once. */
  lemma HideIsIdempotent(n: CommunityNotification, user: Id)
    ensures Hidden(Hidden(n, user), user) == Hidden(n, user)
  {
  }

  /** Lines 153-154: an empty or absent title or message keeps the old one. */
  function Edited(n: CommunityNotification, title: Option<string>, message: Option<string>): (e: CommunityNotification)
    ensures e.title == (if Present(title) then title.value else n.title)
    ensures e.message == (if Present(message) then message.value else n.message)
    ensures e.createdBy == n.createdBy && e.createdAt == n.createdAt && e.removedFor == n.removedFor
  {
    n.(title := if Present(title) then title.value else n.title,
       message := if Present(message) then message.value else n.message)
  }

  /** The ids the community listing shows `user`: those whose hide-list lacks them. */
  function VisibleIds(notes: map<Id, CommunityNotification>, user: Id): (s: set<Id>)
    ensures forall id :: id in s <==> id in notes && user !in notes[id].removedFor
  {
    set id | id in notes && user !in notes[id].removedFor
  }

  /** After `user` hides a notification it is gone from their listing, and
      every other user sees what they saw before. */
  lemma HiddenLeavesListing(notes: map<Id, CommunityNotification>, id: Id, user: Id, other: Id)
    requires id in notes && other != user
    ensures id !in VisibleIds(notes[id := Hidden(notes[id], user)], user)
    ensures VisibleIds(notes[id := Hidden(notes[id], user)], user) == VisibleIds(notes, user) - {id}
    ensures VisibleIds(notes[id := Hidden(notes[id], user)], other) == VisibleIds(notes, other)
  {
    var after := notes[id := Hidden(notes[id], user)];
    assert forall k :: k in VisibleIds(after, user) <==> k in VisibleIds(notes, user) - {id};
    assert forall k :: k in VisibleIds(after, other) <==> k in VisibleIds(notes, other);
  }

  class CommunityBoard {
    var notes: map<Id, CommunityNotification>
    var nextId: Id

    ghost predicate Valid()
      reads this
    {
      forall id :: id in notes ==> id < nextId && NoRepeats(notes[id].removedFor)
    }

    constructor ()
      ensures Valid() && notes == map[]
    {
      notes := map[];
      nextId := 0;
    }

    /** `getAllCommunityNotifications` (lines 72-76): the notifications `user`
        has not hidden, newest first. */
    ghost function VisibleNewestFirst(user: Id): (ids: seq<Id>)
      reads this
      ensures forall id :: id in ids <==> id in notes && user !in notes[id].removedFor
      ensures forall i, j :: 0 <= i < j < |ids| ==> ids[i] != ids[j] && notes[ids[j]].createdAt <= notes[ids[i]].createdAt
    {
      NewestFirstListing(VisibleIds(notes, user), StampsOf(notes, (r: CommunityNotification) => r.createdAt))
    }

    /** `createCommunityNotification`. The schema requires title and message;
        the hide-list starts empty. */
    method Create(user: Id, title: Option<string>, message: Option<string>, now: nat) returns (resp: Response)
      requires Valid()
      modifies this
      ensures Valid()
      ensures Present(title) && Present(message) ==>
                && old(nextId) !in old(notes)
                && notes == old(notes)[old(nextId) := CommunityNotification(title.value, message.value, user, now, [])]
                && resp == Response(201, "Community Notification Created successfully!")
      ensures !(Present(title) && Present(message)) ==> notes == old(notes) && resp == Response(500, ServerErrorMessage)
    {
      if !(Present(title) && Present(message)) {
        return Response(500, ServerErrorMessage);
      }
      notes := notes[nextId := CommunityNotification(title.value, message.value, user, now, [])];
      nextId := nextId + 1;
      resp := Response(201, "Community Notification Created successfully!");
    }

    /** `removeCommunityNotificationByManager`: deletes whatever the id names. */
    method RemoveByManager(id: Id) returns (resp: Response)
      requires Valid()
      modifies this
      ensures Valid()
      ensures notes == old(notes) - {id}
      ensures resp == Response(200, "Community Notification removed successfully!")
    {
      notes := notes - {id};
      resp := Response(200, "Community Notification removed successfully!");
    }

    /** `deleteCommunityNotification`: only the creator may delete. A missing
        notification makes line 107 throw, which answers 500. */
    method DeleteByCreator(id: Id, user: Id) returns (resp: Response)
      requires Valid()
      modifies this
      ensures Valid()
      ensures id !in old(notes) ==> resp == Response(500, ServerErrorMessage) && notes == old(notes)
      ensures id in old(notes) && old(notes)[id].createdBy != user ==>
                resp == Response(403, "You are not authorized to delete this notification") && notes == old(notes)
      ensures id in old(notes) && old(notes)[id].createdBy == user ==>
                resp == Response(200, "Notification deleted successfully!") && notes == old(notes) - {id}
    {
      if id !in notes {
        return Response(500, ServerErrorMessage);
      }
      if notes[id].createdBy != user {
        return Response(403, "You are not authorized to delete this notification");
      }
      notes := notes - {id};
      resp := Response(200, "Notification deleted successfully!");
    }

    /** `removeCommunityNotificationsFromUser`: hide for the caller only. */
    method HideForUser(id: Id, user: Id) returns (resp: Response)
      requires Valid()
      modifies this
      ensures Valid() && nextId == old(nextId)
      ensures id !in old(notes) ==> resp == Response(500, ServerErrorMessage) && notes == old(notes)
      ensures id in old(notes) ==>
                && notes == old(notes)[id := Hidden(old(notes)[id], user)]
                && resp == Response(200, "Notification removed for current user")
    {
      if id !in notes {
        return Response(500, ServerErrorMessage);
      }
      var n := notes[id];
      if user !in n.removedFor {
        notes := notes[id := n.(removedFor := n.removedFor + [user])];
      }
      resp := Response(200, "Notification removed for current user");
    }

    /** `editCommunityNotification`: only the creator may edit. */
    method Edit(id: Id, user: Id, title: Option<string>, message: Option<string>)
      returns (resp: Response, edited: Option<CommunityNotification>)
      requires Valid()
      modifies this
      ensures Valid() && nextId == old(nextId)
      ensures id !in old(notes) ==> resp == Response(500, ServerErrorMessage) && edited.None? && notes == old(notes)
      ensures id in old(notes) && old(notes)[id].createdBy != user ==>
                && resp == Response(403, "You are not authorized to edit this notification")
                && edited.None? && notes == old(notes)
      ensures id in old(notes) && old(notes)[id].createdBy == user ==>
                && notes == old(notes)[id := Edited(old(notes)[id], title, message)]
                && resp == Response(200, "Notification updated successfully!")
                && edited == Some(notes[id])
    {
      edited := None;
      if id !in notes {
        return Response(500, ServerErrorMessage), None;
      }
      var n := notes[id];
      if n.createdBy != user {
        return Response(403, "You are not authorized to edit this notification"), None;
      }
      var updated := n.(title := if Present(title) then title.value else n.title,
                        message := if Present(message) then message.value else n.message);
      notes := notes[id := updated];
      resp, edited := Response(200, "Notification updated successfully!"), Some(updated);
    }
  }
}
