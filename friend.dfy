/** actions/friend.ts: sending, accepting and rejecting friend requests over the
    `friend_requests` table, and the two form wrappers. */
module FriendActions {
  import opened Wrappers
  import opened Store

  const InvalidUserId := "Invalid user ID"
  const NotAuthenticated := "Not authenticated"
  const SelfRequest := "Cannot send friend request to yourself"
  const TargetNotFound := "Target user not found"
  const AlreadyFriends := "You are already friends with this user"
  const AlreadyPending := "Friend request already pending"
  const SendFailed := "Failed to send friend request"
  const InvalidRequestId := "Invalid request ID"
  const AcceptFailed := "Failed to accept friend request"
  const RejectFailed := "Failed to reject friend request"
  const MissingRequestId := "Missing requestId"

  /** The duplicate lookup: the one request between the pair, in either direction, if
      exactly one exists. Its error (several rows under maybeSingle) is not read. */
  function ExistingRequest(rs: seq<FriendRequest>, a: string, b: string): Option<FriendRequest> {
    MaybeSingle(RequestsBetween(rs, a, b))
  }

  /** The guards of sendFriendRequest, in source order; Ok means the insert is issued. */
  function SendCheck(caller: Option<AuthUser>, profiles: seq<Profile>, rs: seq<FriendRequest>, target: string): Outcome {
    if target == "" then Err(InvalidUserId)
    else if caller.None? then Err(NotAuthenticated)
    else if caller.value.id == target then Err(SelfRequest)
    else if FindProfile(profiles, target).None? then Err(TargetNotFound)
    else
      var existing := ExistingRequest(rs, caller.value.id, target);
      if existing.Some? && existing.value.status == Accepted then Err(AlreadyFriends)
      else if existing.Some? && existing.value.status == Pending then Err(AlreadyPending)
      else Ok
  }

  method SendFriendRequest(db: Db, targetUserId: string, newId: string, fault: bool) returns (r: Outcome)
    requires db.Valid()
    modifies db`friendRequests
    ensures db.Valid()
    ensures var check := SendCheck(db.caller, db.profiles, old(db.friendRequests), targetUserId);
      r == (if check.Err? then check else if fault then Err(SendFailed) else Ok)
    ensures r.Err? ==> db.friendRequests == old(db.friendRequests)
    ensures r.Ok? ==> (db.caller.Some? &&
      db.friendRequests == old(db.friendRequests) + [FriendRequest(newId, db.caller.value.id, targetUserId, Pending)])
  {
    var check := SendCheck(db.caller, db.profiles, db.friendRequests, targetUserId);
    if check.Err? {
      return check;
    }
    if fault {
      return Err(SendFailed);
    }
    var row := FriendRequest(newId, db.caller.value.id, targetUserId, Pending);
    db.friendRequests := db.friendRequests + [row];
    r := Ok;
  }

  /** Shared guards of accept and reject. */
  function RespondCheck(caller: Option<AuthUser>, requestId: string): Outcome {
    if requestId == "" then Err(InvalidRequestId)
    else if caller.None? then Err(NotAuthenticated)
    else Ok
  }

  method AcceptFriendRequest(db: Db, requestId: string, fault: bool) returns (r: Outcome)
    requires db.Valid()
    modifies db`friendRequests
    ensures db.Valid()
    ensures var check := RespondCheck(db.caller, requestId);
      r == (if check.Err? then check else if fault then Err(AcceptFailed) else Ok)
    ensures r.Err? ==> db.friendRequests == old(db.friendRequests)
    ensures r.Ok? ==> (db.caller.Some? &&
      db.friendRequests == SetRequestStatus(old(db.friendRequests), requestId, db.caller.value.id, Accepted))
  {
    r := Respond(db, requestId, Accepted, fault, AcceptFailed);
  }

  method RejectFriendRequest(db: Db, requestId: string, fault: bool) returns (r: Outcome)
    requires db.Valid()
    modifies db`friendRequests
    ensures db.Valid()
    ensures var check := RespondCheck(db.caller, requestId);
      r == (if check.Err? then check else if fault then Err(RejectFailed) else Ok)
    ensures r.Err? ==> db.friendRequests == old(db.friendRequests)
    ensures r.Ok? ==> (db.caller.Some? &&
      db.friendRequests == SetRequestStatus(old(db.friendRequests), requestId, db.caller.value.id, Rejected))
  {
    r := Respond(db, requestId, Rejected, fault, RejectFailed);
  }

  /** The update both handlers issue: `.update({status}).eq("id", requestId).eq("receiver_id", caller)`. */
  method Respond(db: Db, requestId: string, status: RequestStatus, fault: bool, failure: string) returns (r: Outcome)
    requires db.Valid()
    modifies db`friendRequests
    ensures db.Valid()
    ensures var check := RespondCheck(db.caller, requestId);
      r == (if check.Err? then check else if fault then Err(failure) else Ok)
    ensures r.Err? ==> db.friendRequests == old(db.friendRequests)
    ensures r.Ok? ==> (db.caller.Some? &&
      db.friendRequests == SetRequestStatus(old(db.friendRequests), requestId, db.caller.value.id, status))
  {
    var check := RespondCheck(db.caller, requestId);
    if check.Err? {
      return check;
    }
    if fault {
      return Err(failure);
    }
    db.friendRequests := SetRequestStatus(db.friendRequests, requestId, db.caller.value.id, status);
    r := Ok;
  }

  /** `formData.get("requestId")`, then `if (!requestId) throw`. */
  function FormRequestId(form: map<string, string>): Option<string> {
    if "requestId" in form && form["requestId"] != "" then Some(form["requestId"]) else None
  }

  method AcceptFriendRequestAction(db: Db, form: map<string, string>, fault: bool) returns (r: Outcome)
    requires db.Valid()
    modifies db`friendRequests
    ensures db.Valid()
    ensures FormRequestId(form).None? ==> r == Err(MissingRequestId) && db.friendRequests == old(db.friendRequests)
    ensures FormRequestId(form).Some? ==> var id := FormRequestId(form).value;
      r == (if db.caller.None? then Err(NotAuthenticated) else if fault then Err(AcceptFailed) else Ok) &&
      db.friendRequests == (if r.Ok? then SetRequestStatus(old(db.friendRequests), id, db.caller.value.id, Accepted)
                            else old(db.friendRequests))
  {
    var requestId := FormRequestId(form);
    if requestId.None? {
      return Err(MissingRequestId);
    }
    r := AcceptFriendRequest(db, requestId.value, fault);
  }

  method RejectFriendRequestAction(db: Db, form: map<string, string>, fault: bool) returns (r: Outcome)
    requires db.Valid()
    modifies db`friendRequests
    ensures db.Valid()
    ensures FormRequestId(form).None? ==> r == Err(MissingRequestId) && db.friendRequests == old(db.friendRequests)
    ensures FormRequestId(form).Some? ==> var id := FormRequestId(form).value;
      r == (if db.caller.None? then Err(NotAuthenticated) else if fault then Err(RejectFailed) else Ok) &&
      db.friendRequests == (if r.Ok? then SetRequestStatus(old(db.friendRequests), id, db.caller.value.id, Rejected)
                            else old(db.friendRequests))
  {
    var requestId := FormRequestId(form);
    if requestId.None? {
      return Err(MissingRequestId);
    }
    r := RejectFriendRequest(db, requestId.value, fault);
  }

  // Properties of the send guards.

  /** A request to oneself is always refused. */
  lemma SelfRequestRefused(caller: AuthUser, profiles: seq<Profile>, rs: seq<FriendRequest>)
    requires caller.id != ""
    ensures SendCheck(Some(caller), profiles, rs, caller.id) == Err(SelfRequest)
  {
  }

  /** A target without a profile row is refused. */
  lemma UnknownTargetRefused(caller: AuthUser, profiles: seq<Profile>, rs: seq<FriendRequest>, target: string)
    requires target != "" && caller.id != target
    requires forall p :: p in profiles ==> p.id != target
    ensures SendCheck(Some(caller), profiles, rs, target) == Err(TargetNotFound)
  {
  }

  /** The single row between the pair, in either direction, decides: accepted and pending
      block the send, rejected lets it through. */
  lemma {:induction false} SingleExistingRowDecides(caller: AuthUser, profiles: seq<Profile>, rs: seq<FriendRequest>, target: string, row: FriendRequest)
    requires target != "" && caller.id != target && FindProfile(profiles, target).Some?
    requires RequestsBetween(rs, caller.id, target) == [row]
    ensures row.status == Accepted ==> SendCheck(Some(caller), profiles, rs, target) == Err(AlreadyFriends)
    ensures row.status == Pending ==> SendCheck(Some(caller), profiles, rs, target) == Err(AlreadyPending)
    ensures row.status == Rejected ==> SendCheck(Some(caller), profiles, rs, target) == Ok
  {
    assert ExistingRequest(rs, caller.id, target) == Some(row);
  }

  /** With no row or with several rows between the pair, the lookup yields nothing and
      the send goes ahead, whatever the statuses of those rows. */
  lemma LookupWithoutSingleRowDoesNotBlock(caller: AuthUser, profiles: seq<Profile>, rs: seq<FriendRequest>, target: string)
    requires target != "" && caller.id != target && FindProfile(profiles, target).Some?
    requires |RequestsBetween(rs, caller.id, target)| != 1
    ensures SendCheck(Some(caller), profiles, rs, target) == Ok
  {
  }

  lemma {:induction false} RequestsBetweenAppend(rs: seq<FriendRequest>, row: FriendRequest, a: string, b: string)
    ensures RequestsBetween(rs + [row], a, b) ==
      RequestsBetween(rs, a, b) + (if Befriends(row, a, b) then [row] else [])
  {
    FilterAppend(rs, [row], (x: FriendRequest) => Befriends(x, a, b));
  }

  /** After a first successful send between two users who had no request, a second send
      by either of them is refused as already pending: the sender's resend, and the
      receiver's send back (which needs the sender to have a profile). */
  lemma {:induction false} SecondSendRefused(caller: AuthUser, receiver: AuthUser, profiles: seq<Profile>, rs: seq<FriendRequest>, target: string, newId: string)
    requires target != "" && caller.id != target && FindProfile(profiles, target).Some?
    requires RequestsBetween(rs, caller.id, target) == []
    ensures var rs' := rs + [FriendRequest(newId, caller.id, target, Pending)];
      SendCheck(Some(caller), profiles, rs', target) == Err(AlreadyPending)
    ensures var rs' := rs + [FriendRequest(newId, caller.id, target, Pending)];
      receiver.id == target && caller.id != "" && FindProfile(profiles, caller.id).Some? ==>
      SendCheck(Some(receiver), profiles, rs', caller.id) == Err(AlreadyPending)
  {
    var row := FriendRequest(newId, caller.id, target, Pending);
    RequestsBetweenAppend(rs, row, caller.id, target);
    assert RequestsBetween(rs + [row], caller.id, target) == [row];
    RequestsBetweenSymmetric(rs + [row], caller.id, target);
  }

  /** After a rejection, whatever else the table holds, a new send goes through and
      leaves two rows for the pair. */
  lemma {:induction false} ResendAfterRejection(caller: AuthUser, profiles: seq<Profile>, rs: seq<FriendRequest>, rejected: FriendRequest, target: string, newId: string)
    requires target != "" && caller.id != target && FindProfile(profiles, target).Some?
    requires rejected.status == Rejected && RequestsBetween(rs, caller.id, target) == [rejected]
    ensures SendCheck(Some(caller), profiles, rs, target) == Ok
    ensures var rs' := rs + [FriendRequest(newId, caller.id, target, Pending)];
      |RequestsBetween(rs', caller.id, target)| == 2
  {
    SingleExistingRowDecides(caller, profiles, rs, target, rejected);
    RequestsBetweenAppend(rs, FriendRequest(newId, caller.id, target, Pending), caller.id, target);
  }

  /** Once two rows join the pair, the lookup is discarded for good: every further send,
      by either user, goes through and adds one more row, so nothing blocks the pair
      again, not even an accepted row (friends can be sent new requests). */
  lemma {:induction false} TwoRowsNeverBlock(sender: AuthUser, profiles: seq<Profile>, rs: seq<FriendRequest>, target: string, newId: string)
    requires target != "" && sender.id != target && FindProfile(profiles, target).Some?
    requires |RequestsBetween(rs, sender.id, target)| >= 2
    ensures SendCheck(Some(sender), profiles, rs, target) == Ok
    ensures var rs' := rs + [FriendRequest(newId, sender.id, target, Pending)];
      |RequestsBetween(rs', sender.id, target)| == |RequestsBetween(rs, sender.id, target)| + 1
  {
    LookupWithoutSingleRowDoesNotBlock(sender, profiles, rs, target);
    RequestsBetweenAppend(rs, FriendRequest(newId, sender.id, target, Pending), sender.id, target);
  }

  /** The rows between a pair do not depend on which of the two is named first. */
  lemma {:induction false} RequestsBetweenSymmetric(rs: seq<FriendRequest>, a: string, b: string)
    ensures RequestsBetween(rs, a, b) == RequestsBetween(rs, b, a)
  {
    if rs != [] {
      var init, last := rs[..|rs| - 1], rs[|rs| - 1];
      assert rs == init + [last];
      RequestsBetweenSymmetric(init, a, b);
      RequestsBetweenAppend(init, last, a, b);
      RequestsBetweenAppend(init, last, b, a);
    }
  }

  // Properties of the status updates.

  /** A caller who is not the receiver of the named request changes nothing. */
  lemma NonReceiverChangesNothing(rs: seq<FriendRequest>, requestId: string, callerId: string, status: RequestStatus)
    requires forall x :: x in rs && x.id == requestId ==> x.receiverId != callerId
    ensures SetRequestStatus(rs, requestId, callerId, status) == rs
  {
    var r := SetRequestStatus(rs, requestId, callerId, status);
    forall i | 0 <= i < |rs| ensures r[i] == rs[i] {
      assert rs[i] in rs;
    }
  }
}
