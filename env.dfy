/** lib/env.ts: the start-up check that the backend's address and key are configured. */
module Env {
  import opened Wrappers
  import Store
  import Text

  const SupabaseUrl := "NEXT_PUBLIC_SUPABASE_URL"
  const SupabaseAnonKey := "NEXT_PUBLIC_SUPABASE_ANON_KEY"
  const RequiredVars := [SupabaseUrl, SupabaseAnonKey]
  const InvalidUrl := "NEXT_PUBLIC_SUPABASE_URL must be a valid URL"

  /** A variable counts as set only with a non-empty value. */
  predicate IsSet(env: map<string, string>, name: string) {
    name in env && env[name] != ""
  }

  /** The required names whose value is unset or empty, in the order listed. */
  function Missing(env: map<string, string>): (r: seq<string>)
    ensures forall v :: v in r <==> v in RequiredVars && !IsSet(env, v)
  {
    Store.Filter(RequiredVars, (v: string) => !IsSet(env, v))
  }

  function MissingMessage(missing: seq<string>): string {
    "Missing required environment variables: " + Text.Join(missing, ", ") + "\n"
    + "Please check your .env file and ensure all required variables are set."
  }

  /** validateEnv; `isValidUrl` stands for whether `new URL(...)` accepts the address. */
  function ValidateEnv(env: map<string, string>, isValidUrl: string -> bool): (r: Outcome)
    ensures r.Ok? <==> IsSet(env, SupabaseUrl) && IsSet(env, SupabaseAnonKey) && isValidUrl(env[SupabaseUrl])
  {
    MissingInOrder(env);
    var missing := Missing(env);
    if |missing| > 0 then Err(MissingMessage(missing))
    else if !isValidUrl(env[SupabaseUrl]) then Err(InvalidUrl)
    else Ok
  }

  /** The missing list keeps the listed order. */
  lemma MissingInOrder(env: map<string, string>)
    ensures Missing(env) ==
      (if IsSet(env, SupabaseUrl) then [] else [SupabaseUrl]) + (if IsSet(env, SupabaseAnonKey) then [] else [SupabaseAnonKey])
  {
    var keep := (v: string) => !IsSet(env, v);
    assert RequiredVars[0] == SupabaseUrl && RequiredVars[1..] == [SupabaseAnonKey];
    assert [SupabaseAnonKey][1..] == [];
    assert Store.Filter([SupabaseAnonKey], keep) == (if keep(SupabaseAnonKey) then [SupabaseAnonKey] else []);
  }

  /** With both missing the message names both, separated by ", ". */
  lemma BothMissingMessage(isValidUrl: string -> bool)
    ensures ValidateEnv(map[], isValidUrl) == Err(MissingMessage(Missing(map[])))
    ensures Text.Join(Missing(map[]), ", ") == SupabaseUrl + ", " + SupabaseAnonKey
  {
    MissingInOrder(map[]);
    assert Missing(map[]) == [SupabaseUrl, SupabaseAnonKey];
    assert [SupabaseUrl, SupabaseAnonKey][1..] == [SupabaseAnonKey];
    assert Text.Join([SupabaseUrl, SupabaseAnonKey], ", ") == SupabaseUrl + ", " + SupabaseAnonKey;
    assert ValidateEnv(map[], isValidUrl) == Err(MissingMessage([SupabaseUrl, SupabaseAnonKey]));
  }

  /** The address is checked only once both variables are set: while one is missing the
      result does not depend on the URL check. */
  lemma UrlCheckedLast(env: map<string, string>, valid1: string -> bool, valid2: string -> bool)
    requires !IsSet(env, SupabaseUrl) || !IsSet(env, SupabaseAnonKey)
    ensures ValidateEnv(env, valid1) == ValidateEnv(env, valid2)
    ensures ValidateEnv(env, valid1) == Err(MissingMessage(Missing(env)))
  {
    MissingInOrder(env);
    assert |Missing(env)| > 0;
  }
}
