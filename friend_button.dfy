/** app/components/FriendButton.tsx: the add-friend button on a user card. */
module FriendButton {
  import opened Wrappers
  import opened Store
  import FriendActions

  datatype Status = NoRequest | PendingRequest | Friends

  class Button {
    const targetUserId: string
    var currentStatus: Status
    var loading: bool
    /** Whether the failure alert was shown. */
    var alerted: bool

    constructor (targetUserId: string, status: Status)
      ensures this.targetUserId == targetUserId && currentStatus == status
      ensures !loading && !alerted
    {
      this.targetUserId := targetUserId;
      currentStatus, loading, alerted := status, false, false;
    }

    /** Only the "none" state renders a clickable button, and it is disabled while loading. */
    predicate CanSend()
      reads this
    {
      currentStatus == NoRequest && !loading
    }

    /** The start of the click handler: the button is disabled while the send runs. */
    method Press()
      requires CanSend()
      modifies this`loading
      ensures loading && !CanSend() && currentStatus == NoRequest
    {
      loading := true;
    }

    /** The end of the click handler, given how the send went. */
    method Settle(outcome: Outcome)
      requires loading && currentStatus == NoRequest
      modifies this`currentStatus, this`loading, this`alerted
      ensures !loading
      ensures outcome.Ok? ==> currentStatus == PendingRequest && alerted == old(alerted)
      ensures outcome.Err? ==> currentStatus == NoRequest && alerted
    {
      if outcome.Ok? {
        currentStatus := PendingRequest;
      } else {
        alerted := true;
      }
      loading := false;
    }

    /** One click, with the server action run against `db`. */
    method Click(db: Db, newId: string, fault: bool)
      requires CanSend() && db.Valid()
      modifies this`currentStatus, this`loading, this`alerted, db`friendRequests
      ensures db.Valid() && !loading
      ensures var check := FriendActions.SendCheck(db.caller, db.profiles, old(db.friendRequests), targetUserId);
        var sent := check.Ok? && !fault;
        (sent ==> (currentStatus == PendingRequest && db.friendRequests ==
           old(db.friendRequests) + [FriendRequest(newId, db.caller.value.id, targetUserId, Pending)]))
        && (!sent ==> (currentStatus == NoRequest && alerted && db.friendRequests == old(db.friendRequests)))
    {
      Press();
      var outcome := FriendActions.SendFriendRequest(db, targetUserId, newId, fault);
      Settle(outcome);
    }
  }
}
