/** app/api/follow/route.ts: the HTTP endpoint `POST /api/follow` with a JSON body
    `{ action, targetUserId }`. */
module FollowRoute {
  import opened Wrappers
  import opened Store

  /** The JSON response: the status code and either `{ ok: true }` or `{ error }`. */
  datatype Response = Response(status: nat, body: ResponseBody)
  datatype ResponseBody = OkBody | ErrorBody(error: string)

  /** The parsed body's string fields; None when the body is not JSON (parsed as `{}`). */
  function Field(body: Option<map<string, string>>, key: string): string {
    if body.Some? && key in body.value then body.value[key] else ""
  }

  /** The response the endpoint gives; `insertError` is the text of a failing insert (its
      message, else its string form). A failing delete is not looked at. */
  function Reply(body: Option<map<string, string>>, caller: Option<AuthUser>, insertError: Option<string>): Response {
    var action, target := Field(body, "action"), Field(body, "targetUserId");
    if action == "" || target == "" then Response(400, ErrorBody("missing parameters"))
    else if caller.None? then Response(401, ErrorBody("not authenticated"))
    else if action == "follow" && insertError.Some? then Response(500, ErrorBody(insertError.value))
    else if action == "follow" || action == "unfollow" then Response(200, OkBody)
    else Response(400, ErrorBody("invalid action"))
  }

  method Post(db: Db, body: Option<map<string, string>>, insertError: Option<string>, deleteFails: bool)
    returns (r: Response)
    modifies db`follows
    ensures r == Reply(body, db.caller, insertError)
    ensures var action, target := Field(body, "action"), Field(body, "targetUserId");
      db.follows ==
        if r.status != 200 then old(db.follows)
        else if action == "follow" then old(db.follows) + [Follow(db.caller.value.id, target)]
        else if deleteFails then old(db.follows)
        else DeleteFollow(old(db.follows), db.caller.value.id, target)
  {
    var action, target := Field(body, "action"), Field(body, "targetUserId");
    if action == "" || target == "" {
      return Response(400, ErrorBody("missing parameters"));
    }
    if db.caller.None? {
      return Response(401, ErrorBody("not authenticated"));
    }
    var userId := db.caller.value.id;
    if action == "follow" {
      if insertError.Some? {
        return Response(500, ErrorBody(insertError.value));
      }
      db.follows := db.follows + [Follow(userId, target)];
    } else if action == "unfollow" {
      if !deleteFails {
        db.follows := DeleteFollow(db.follows, userId, target);
      }
    } else {
      return Response(400, ErrorBody("invalid action"));
    }
    r := Response(200, OkBody);
  }

  /** A body that is not JSON is answered as one with missing parameters, before the session
      is looked at. */
  lemma UnparsableBodyIsMissingParameters(caller: Option<AuthUser>, insertError: Option<string>)
    ensures Reply(None, caller, insertError) == Response(400, ErrorBody("missing parameters"))
  {
  }

  /** The endpoint has no self check: following oneself through it succeeds (and the edge is
      added), where the follow action refuses. */
  lemma RouteAcceptsSelfFollow(user: AuthUser)
    requires user.id != ""
    ensures Reply(Some(map["action" := "follow", "targetUserId" := user.id]), Some(user), None) == Response(200, OkBody)
  {
  }

  /** A failing unfollow is still answered with success. */
  lemma UnfollowAlwaysSucceeds(user: AuthUser, target: string, insertError: Option<string>)
    requires target != ""
    ensures Reply(Some(map["action" := "unfollow", "targetUserId" := target]), Some(user), insertError).status == 200
  {
  }

  /** Any action other than the two known ones is a 400 once the caller is signed in. */
  lemma UnknownActionRejected(user: AuthUser, action: string, target: string, insertError: Option<string>)
    requires action != "" && target != "" && action != "follow" && action != "unfollow"
    ensures Reply(Some(map["action" := action, "targetUserId" := target]), Some(user), insertError)
      == Response(400, ErrorBody("invalid action"))
  {
  }
}
