/** actions/username.ts: the one-time username change and its availability check. */
module UsernameActions {
  import opened Wrappers
  import opened Store
  import opened Text
  import PostActions

  const MinLength := 3
  const MaxLength := 30

  const Required := "Username is required"
  const TooShort := "Username must be at least 3 characters"
  const TooLong := "Username must be less than 30 characters"
  const BadCharacters := "Username can only contain letters, numbers, and underscores"
  const NotAuthenticated := "Not authenticated"
  const ProfileMissing := "Profile not found"
  const ChangedOnce := "Username can be changed only once"
  const Taken := "Username is already taken"
  const UpdateFailed := "Failed to update username"

  /** The trimmed name has an allowed length (in UTF-16 code units) and only word characters. */
  predicate WellFormedName(trimmed: string) {
    MinLength <= Utf16Length(trimmed) <= MaxLength && MatchesWordPattern(trimmed)
  }

  /** isUsernameAvailable. The case-insensitive lookup matches with `.maybeSingle()`, so
      the name counts as taken only when exactly one profile matches; a failing lookup
      (`lookupFails`) reports the name as available. */
  function IsUsernameAvailable(ps: seq<Profile>, username: string, lookupFails: bool): (r: bool)
    ensures r ==> username != "" && WellFormedName(Trim(username))
    ensures username != "" && WellFormedName(Trim(username)) ==>
      (r <==> lookupFails || |ProfilesMatching(ps, Trim(username))| != 1)
  {
    if username == "" then false
    else
      var trimmed := Trim(username);
      if !WellFormedName(trimmed) then false
      else if lookupFails then true
      else MaybeSingle(ProfilesMatching(ps, trimmed)).None?
  }

  /** The input checks of setUsername, in source order. */
  function NameError(username: string): (r: Option<string>)
    ensures r.None? <==> username != "" && WellFormedName(Trim(username))
  {
    if username == "" then Some(Required)
    else
      var trimmed := Trim(username);
      if Utf16Length(trimmed) < MinLength then Some(TooShort)
      else if Utf16Length(trimmed) > MaxLength then Some(TooLong)
      else if !MatchesWordPattern(trimmed) then Some(BadCharacters)
      else None
  }

  /** Every guard of setUsername before the update; Ok means the update is issued. */
  function SetUsernameCheck(caller: Option<AuthUser>, ps: seq<Profile>, username: string, lookupFails: bool): Outcome {
    var nameError := NameError(username);
    if nameError.Some? then Err(nameError.value)
    else if caller.None? then Err(NotAuthenticated)
    else
      var profile := FindProfile(ps, caller.value.id);
      if profile.None? then Err(ProfileMissing)
      else if profile.value.usernameChanged then Err(ChangedOnce)
      else if !IsUsernameAvailable(ps, Trim(username), lookupFails) then Err(Taken)
      else Ok
  }

  /** What setUsername answers: the first failing guard, else the update's own failure. */
  function SetUsernameOutcome(caller: Option<AuthUser>, ps: seq<Profile>, username: string, lookupFails: bool, fault: bool): (r: Outcome)
    ensures r.Ok? <==> SetUsernameCheck(caller, ps, username, lookupFails).Ok? && !fault
    ensures r.Ok? ==> caller.Some?
    ensures SetUsernameCheck(caller, ps, username, lookupFails).Err? ==> r == SetUsernameCheck(caller, ps, username, lookupFails)
  {
    var check := SetUsernameCheck(caller, ps, username, lookupFails);
    if check.Err? then check else if fault then Err(UpdateFailed) else Ok
  }

  lemma SetUsernameKeepsIds(ps: seq<Profile>, id: string, username: string)
    requires UniqueProfileIds(ps)
    ensures UniqueProfileIds(SetUsernameOf(ps, id, username))
  {
    var r := SetUsernameOf(ps, id, username);
    forall i, j | 0 <= i < j < |r| ensures r[i].id != r[j].id {
      assert r[i].id == ps[i].id && r[j].id == ps[j].id;
    }
  }

  method SetUsername(db: Db, username: string, lookupFails: bool, fault: bool) returns (r: Outcome)
    requires db.Valid()
    modifies db`profiles
    ensures db.Valid()
    ensures r == SetUsernameOutcome(db.caller, old(db.profiles), username, lookupFails, fault)
    ensures r.Err? ==> db.profiles == old(db.profiles)
    ensures r.Ok? ==> (db.caller.Some? &&
      db.profiles == SetUsernameOf(old(db.profiles), db.caller.value.id, Trim(username)))
  {
    r := SetUsernameOutcome(db.caller, db.profiles, username, lookupFails, fault);
    if r.Err? {
      return;
    }
    Rename(db, db.caller.value.id, Trim(username));
  }

  /** The update `.update({ username, username_changed: true }).eq("id", user.id)`. */
  method Rename(db: Db, id: string, username: string)
    requires db.Valid()
    modifies db`profiles
    ensures db.Valid()
    ensures db.profiles == SetUsernameOf(old(db.profiles), id, username)
  {
    SetUsernameKeepsIds(db.profiles, id, username);
    db.profiles := SetUsernameOf(db.profiles, id, username);
  }

  /** setUsernameAction: `String(formData.get("username") || "").trim()`. */
  function FormUsername(form: map<string, string>): string {
    if "username" in form then Trim(form["username"]) else ""
  }

  method SetUsernameAction(db: Db, form: map<string, string>, lookupFails: bool, fault: bool) returns (r: Outcome)
    requires db.Valid()
    modifies db`profiles
    ensures db.Valid()
    ensures FormUsername(form) == "" ==> r == Err(Required) && db.profiles == old(db.profiles)
    ensures FormUsername(form) != "" ==>
      r == SetUsernameOutcome(db.caller, old(db.profiles), FormUsername(form), lookupFails, fault)
    ensures r.Err? ==> db.profiles == old(db.profiles)
    ensures r.Ok? ==> (db.caller.Some? &&
      db.profiles == SetUsernameOf(old(db.profiles), db.caller.value.id, FormUsername(form)))
  {
    var username := FormUsername(form);
    if username == "" {
      return Err(Required);
    }
    TrimIdempotent(if "username" in form then form["username"] else "");
    r := SetUsername(db, username, lookupFails, fault);
  }

  // Properties of the checks.

  /** A stored name is trimmed, 3 to 30 code units long and made of word characters. */
  lemma AcceptedNameIsWellFormed(caller: Option<AuthUser>, ps: seq<Profile>, username: string, lookupFails: bool)
    requires SetUsernameCheck(caller, ps, username, lookupFails) == Ok
    ensures var stored := Trim(username);
      3 <= |stored| <= 30 && MatchesWordPattern(stored) && Trim(stored) == stored
  {
    assert NameError(username).None?;
    var stored := Trim(username);
    WordPatternIsTrimmed(stored);
    WordCharsAreOneUnit(stored);
  }

  /** A name of word characters is accepted exactly when it has 3 to 30 characters: 30
      itself passes, although the message for longer names says "less than 30". */
  lemma WordNameBounds(s: string)
    requires MatchesWordPattern(s)
    ensures NameError(s).None? <==> 3 <= |s| <= 30
  {
    WordPatternIsTrimmed(s);
    WordCharsAreOneUnit(s);
    var t := Trim(s);
    assert t == s;
  }

  lemma WordCharsAreOneUnit(s: string)
    requires MatchesWordPattern(s)
    ensures Utf16Length(s) == |s|
  {
    forall i | 0 <= i < |s| ensures (s[i] as int) < 0x10000 {
      assert IsWordChar(s[i]);
    }
  }

  /** Surrounding whitespace is not part of the name: " " + name + " " is checked, and
      stored, as the name itself. */
  lemma SurroundingSpaceIgnored(name: string)
    requires WellFormedName(name)
    ensures Trim([' '] + name + [' ']) == name
    ensures NameError([' '] + name + [' ']) == None
  {
    assert !IsJsWhitespace(name[0]) && !IsJsWhitespace(name[|name| - 1]);
    TrimSpaces(name);
  }

  /** A name one profile already has, in any capitalisation, is taken. */
  lemma TakenIgnoringCase(ps: seq<Profile>, k: nat, username: string)
    requires k < |ps| && WellFormedName(username)
    requires |ps[k].username| == |username|
    requires forall i :: 0 <= i < |username| ==> AsciiLower(ps[k].username[i]) == AsciiLower(username[i])
    requires forall i :: 0 <= i < |ps| && i != k ==> !ILike(ps[i].username, username)
    ensures !IsUsernameAvailable(ps, username, false)
  {
    WordPatternIsTrimmed(username);
    ILikeIgnoresCase(ps[k].username, username);
    FilterSingle(ps, (p: Profile) => ILike(p.username, username), k);
  }

  /** `_` in the requested name matches any character: "a_b" is taken once "axb" exists. */
  lemma UnderscoreMatchesAnyCharacter()
    ensures !IsUsernameAvailable([Profile("1", "axb", false)], "a_b", false)
  {
    var ps := [Profile("1", "axb", false)];
    assert WellFormedName("a_b") by {
      assert |"a_b"| == 3;
    }
    WordPatternIsTrimmed("a_b");
    assert ILike(ps[0].username, "a_b");
    FilterSingle(ps, (p: Profile) => ILike(p.username, "a_b"), 0);
  }

  /** A well-formed name that no profile matches is available, and so is every
      well-formed name while the lookup fails. */
  lemma AvailableWhenNobodyHasIt(ps: seq<Profile>, username: string, lookupFails: bool)
    requires WellFormedName(username)
    requires lookupFails || forall p :: p in ps ==> !ILike(p.username, username)
    ensures IsUsernameAvailable(ps, username, lookupFails)
  {
    WordPatternIsTrimmed(username);
  }

  /** When two profiles already match, the lookup errors out under `.maybeSingle()` and the
      name is reported available, so a third profile can take it. */
  lemma TwoMatchesReportAvailable(ps: seq<Profile>, username: string)
    requires WellFormedName(username)
    requires |ProfilesMatching(ps, username)| >= 2
    ensures IsUsernameAvailable(ps, username, false)
  {
    WordPatternIsTrimmed(username);
  }

  /** After the update the user's profile is still found, and it has the flag set. */
  lemma {:induction false} FlagSetAfterRename(ps: seq<Profile>, id: string, username: string)
    requires UniqueProfileIds(ps) && FindProfile(ps, id).Some?
    ensures var found := FindProfile(SetUsernameOf(ps, id, username), id);
      found.Some? && found.value.usernameChanged
  {
    var ps' := SetUsernameOf(ps, id, username);
    var k :| 0 <= k < |ps| && ps[k].id == id;
    SetUsernameKeepsIds(ps, id, username);
    FindProfileUnique(ps', id, k);
  }

  /** The user's profile exists and its one change is used up. */
  predicate ChangeUsed(ps: seq<Profile>, id: string) {
    FindProfile(ps, id).Some? && FindProfile(ps, id).value.usernameChanged
  }

  /** A successful change uses up the flag, so the next attempt by the same user is refused
      with "changed only once", before the availability lookup and whether or not that
      lookup would fail. */
  lemma SecondChangeRefused(caller: AuthUser, ps: seq<Profile>, first: string, second: string,
                            lookupFails: bool, lookupFails2: bool)
    requires UniqueProfileIds(ps)
    requires SetUsernameCheck(Some(caller), ps, first, lookupFails) == Ok
    requires NameError(second) == None
    ensures ChangeUsed(SetUsernameOf(ps, caller.id, Trim(first)), caller.id)
    ensures SetUsernameCheck(Some(caller), SetUsernameOf(ps, caller.id, Trim(first)), second, lookupFails2) == Err(ChangedOnce)
  {
    assert FindProfile(ps, caller.id).Some?;
    FlagSetAfterRename(ps, caller.id, Trim(first));
  }

  /** A used-up change stays used up through every other update of the profile table: the
      profile step of createPost and any user's rename. */
  lemma {:induction false} ChangeUsedSurvives(ps: seq<Profile>, id: string, other: string, username: string, user: AuthUser)
    requires UniqueProfileIds(ps) && ChangeUsed(ps, id)
    ensures ChangeUsed(SetUsernameOf(ps, other, username), id)
    ensures ChangeUsed(PostActions.WithProfile(ps, user), id)
  {
    var k :| 0 <= k < |ps| && ps[k].id == id;
    FindProfileUnique(ps, id, k);
    var renamed := SetUsernameOf(ps, other, username);
    SetUsernameKeepsIds(ps, other, username);
    FindProfileUnique(renamed, id, k);
    var ensured := PostActions.WithProfile(ps, user);
    PostActions.WithProfileKeepsIds(ps, user);
    assert ensured[k] == ps[k];
    FindProfileUnique(ensured, id, k);
  }

  /** While the change is used up, every attempt with a well-formed name is refused with
      "changed only once", whatever the availability lookup would answer. */
  lemma UsedChangeRefuses(caller: AuthUser, ps: seq<Profile>, username: string, lookupFails: bool)
    requires ChangeUsed(ps, caller.id) && NameError(username) == None
    ensures SetUsernameCheck(Some(caller), ps, username, lookupFails) == Err(ChangedOnce)
  {
  }

  /** Once a user takes a name that no profile matched, the same name in any spelling that
      matches it is reported taken for everyone else. */
  lemma {:induction false} ChosenNameBecomesTaken(ps: seq<Profile>, id: string, chosen: string, other: string)
    requires UniqueProfileIds(ps) && FindProfile(ps, id).Some?
    requires WellFormedName(other) && ILike(chosen, other)
    requires ProfilesMatching(ps, other) == []
    ensures !IsUsernameAvailable(SetUsernameOf(ps, id, chosen), other, false)
  {
    var ps' := SetUsernameOf(ps, id, chosen);
    var k :| 0 <= k < |ps| && ps[k].id == id;
    assert ps'[k].username == chosen;
    forall i | 0 <= i < |ps'| && i != k ensures !ILike(ps'[i].username, other) {
      assert ps[i].id != id && ps'[i] == ps[i];
      assert ps[i] in ps;
    }
    WordPatternIsTrimmed(other);
    FilterSingle(ps', (p: Profile) => ILike(p.username, other), k);
  }
}
