/** app/components/UsernameChanger.tsx: the settings form for the one-time username
    change, with its own checks before the server action. */
module UsernameChanger {
  import opened Wrappers
  import opened Text
  import opened Store
  import UsernameActions

  const EmptyName := "Username cannot be empty"
  const ShortName := "Username must be at least 3 characters"
  const BadCharacters := "Username can only contain letters, numbers, and underscores"
  const FallbackError := "Failed to update username"

  /** The checks of handleSubmit, in order. Only the emptiness check trims; the length and
      the pattern are tested on the text exactly as typed, and there is no upper bound. */
  function ClientError(username: string): (r: Option<string>)
    ensures r.None? <==> Trim(username) != "" && Utf16Length(username) >= 3 && MatchesWordPattern(username)
  {
    if Trim(username) == "" then Some(EmptyName)
    else if Utf16Length(username) < 3 then Some(ShortName)
    else if !MatchesWordPattern(username) then Some(BadCharacters)
    else None
  }

  /** `err.message || "Failed to update username"`. */
  function ShownError(message: string): (r: string)
    ensures r != ""
    ensures message != "" ==> r == message
  {
    if message == "" then FallbackError else message
  }

  class Form {
    /** The `hasChanged` prop: the user already used their change. */
    const hasChanged: bool
    var username: string
    var error: string
    var loading: bool
    /** Where the router was sent after a successful change. */
    var navigatedTo: Option<string>

    constructor (hasChanged: bool)
      ensures this.hasChanged == hasChanged
      ensures username == "" && error == "" && !loading && navigatedTo.None?
    {
      this.hasChanged := hasChanged;
      username, error, loading, navigatedTo := "", "", false, None;
    }

    /** The form is rendered only while the change is still available, and its input and
        submit button are disabled while an update is in flight. */
    predicate Editable()
      reads this
    {
      !hasChanged && !loading
    }

    method Type(text: string)
      requires Editable()
      modifies this`username
      ensures username == text
    {
      username := text;
    }

    /** The `try`/`catch` around the server call: go to the new profile on success, show
        the error otherwise. */
    method Settle(outcome: Outcome)
      modifies this`error, this`navigatedTo
      ensures outcome.Ok? ==> error == old(error) && navigatedTo == Some("/profile/" + username)
      ensures outcome.Err? ==> error == ShownError(outcome.message) && navigatedTo == old(navigatedTo)
    {
      if outcome.Ok? {
        navigatedTo := Some("/profile/" + username);
      } else {
        error := ShownError(outcome.message);
      }
    }

    /** The part of handleSubmit after the form's checks: call setUsername, then go to the
        new profile or show the error. */
    method Send(db: Db, lookupFails: bool, fault: bool) returns (outcome: Outcome)
      requires db.Valid()
      modifies this`error, this`loading, this`navigatedTo, db`profiles
      ensures db.Valid() && !loading && username == old(username)
      ensures outcome == UsernameActions.SetUsernameOutcome(db.caller, old(db.profiles), username, lookupFails, fault)
      ensures outcome.Ok? ==> (db.caller.Some? && error == old(error) && navigatedTo == Some("/profile/" + username)
        && db.profiles == SetUsernameOf(old(db.profiles), db.caller.value.id, Trim(username)))
      ensures outcome.Err? ==> (error == ShownError(outcome.message)
        && navigatedTo == old(navigatedTo) && db.profiles == old(db.profiles))
    {
      loading := true;
      outcome := UsernameActions.SetUsername(db, username, lookupFails, fault);
      Settle(outcome);
      loading := false;
    }

    /** The start of handleSubmit: clear the error, then show the first failing check. */
    method Check() returns (clientError: Option<string>)
      modifies this`error
      ensures username == old(username)
      ensures clientError == ClientError(username)
      ensures error == if clientError.Some? then clientError.value else ""
    {
      error := "";
      clientError := ClientError(username);
      if clientError.Some? {
        error := clientError.value;
      }
    }

    /** handleSubmit, with the server action run against `db`; `sent` is the server's
        answer when the form got as far as sending the name. */
    method HandleSubmit(db: Db, lookupFails: bool, fault: bool) returns (sent: Option<Outcome>)
      requires Editable() && db.Valid()
      modifies this`error, this`loading, this`navigatedTo, db`profiles
      ensures db.Valid() && !loading
      ensures sent.None? <==> ClientError(username).Some?
      ensures sent.None? ==>
        error == ClientError(username).value && db.profiles == old(db.profiles) && navigatedTo == old(navigatedTo)
      ensures sent.Some? ==> sent.value == UsernameActions.SetUsernameOutcome(db.caller, old(db.profiles), username, lookupFails, fault)
      ensures sent.Some? && sent.value.Ok? ==> (db.caller.Some? && error == "" && navigatedTo == Some("/profile/" + username)
        && db.profiles == SetUsernameOf(old(db.profiles), db.caller.value.id, Trim(username)))
      ensures sent.Some? && sent.value.Err? ==> (error == ShownError(sent.value.message)
        && navigatedTo == old(navigatedTo) && db.profiles == old(db.profiles))
    {
      var clientError := Check();
      if clientError.Some? {
        return None;
      }
      var outcome := Send(db, lookupFails, fault);
      sent := Some(outcome);
    }
  }

  /** A name typed with surrounding spaces is refused by the form, though the server would
      trim and accept it. */
  lemma SpacesRefusedByForm(name: string)
    requires UsernameActions.WellFormedName(name)
    ensures ClientError([' '] + name + [' ']) == Some(BadCharacters)
    ensures UsernameActions.NameError([' '] + name + [' ']) == None
  {
    UsernameActions.SurroundingSpaceIgnored(name);
    var typed := [' '] + name + [' '];
    assert !IsWordChar(typed[0]);
  }

  /** For a name the form lets through, the server's input checks agree exactly when it
      has at most 30 characters: longer names reach the server and are refused there. */
  lemma FormDefersUpperBound(username: string)
    requires ClientError(username).None?
    ensures UsernameActions.NameError(username).None? <==> |username| <= 30
    ensures |username| > 30 ==> UsernameActions.NameError(username) == Some(UsernameActions.TooLong)
  {
    UsernameActions.WordNameBounds(username);
    UsernameActions.WordCharsAreOneUnit(username);
    WordPatternIsTrimmed(username);
  }

  /** A name the form refuses is never sent, and a name that is blank after trimming is
      refused as empty whatever its length. */
  lemma BlankIsEmpty(username: string)
    requires forall i :: 0 <= i < |username| ==> IsJsWhitespace(username[i])
    ensures ClientError(username) == Some(EmptyName)
  {
  }

  /** The checks run in order and the first failure is the message shown: a blank name is
      "empty" though it is also short. */
  lemma EmptyBeforeShort()
    ensures ClientError("  ") == Some(EmptyName)
  {
    BlankIsEmpty("  ");
  }

  /** A short name with a bad character is reported as short (a character outside the
      Basic Multilingual Plane would count twice and make it long enough). */
  lemma ShortBeforeBadCharacters(c: char)
    requires !IsJsWhitespace(c) && !IsWordChar(c) && (c as int) < 0x10000
    ensures ClientError(['a', c]) == Some(ShortName)
  {
    var typed := ['a', c];
    assert typed[1..] == [c];
    assert Utf16Length(typed) == 2;
    assert TrimStart(typed) == typed;
    assert TrimEnd(typed) == typed;
  }
}
