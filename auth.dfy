/** Authentication of cron callers by a preshared key in the `Authorization` header. The
    header is a parameter (`None` when the request has none); the keys are configuration. */
module Auth {
  import opened Wrappers

  /** The scopes of `presharedKeys` in `utils/server.ts`. */
  datatype Scope = Cron | NyTimes

  /** The configured secrets, one per scope. */
  datatype Secrets = Secrets(cron: string, nytimes: string)

  function KeyFor(keys: Secrets, scope: Scope): (k: string)
    ensures scope == Cron ==> k == keys.cron
    ensures scope == NyTimes ==> k == keys.nytimes
  {
    match scope
    case Cron => keys.cron
    case NyTimes => keys.nytimes
  }

  /** The header value that authorises a caller holding `key`. */
  function Bearer(key: string): string {
    "Bearer " + key
  }

  /** `validatePresharedKey(scope)`: `None` (the `null` result) to accept, or the 401 response. */
  function ValidatePresharedKey(keys: Secrets, scope: Scope, authorization: Option<string>): (r: Option<Outcome>)
    ensures r == None || r == Some(Unauthorized)
    ensures r == None <==> authorization == Some(Bearer(KeyFor(keys, scope)))
    ensures authorization == None ==> r == Some(Unauthorized)
  {
    if authorization != Some(Bearer(KeyFor(keys, scope))) then Some(Unauthorized) else None
  }

  /** What `${presharedKeys[key]}` writes when the call names no scope: `undefined`. */
  const Unscoped := "undefined"

  /** `validatePresharedKey()` called without a scope: `presharedKeys[undefined]` is
      `undefined`, so only the header `Bearer undefined` is accepted. */
  function ValidateWithoutScope(authorization: Option<string>): (r: Option<Outcome>)
    ensures r == None || r == Some(Unauthorized)
    ensures r == None <==> authorization == Some(Bearer(Unscoped))
  {
    if authorization != Some(Bearer(Unscoped)) then Some(Unauthorized) else None
  }

  /** Without a scope the configured secrets count for nothing: a caller holding the right
      key of either scope is turned away, unless that key is the text `undefined`. */
  lemma WithoutScopeRejectsKeys(keys: Secrets, scope: Scope, authorization: Option<string>)
    requires KeyFor(keys, scope) != Unscoped
    ensures ValidatePresharedKey(keys, scope, authorization) == None ==>
      ValidateWithoutScope(authorization) == Some(Unauthorized)
  {
    if ValidatePresharedKey(keys, scope, authorization) == None {
      var p := "Bearer ";
      assert Bearer(KeyFor(keys, scope))[|p|..] == KeyFor(keys, scope);
      assert Bearer(Unscoped)[|p|..] == Unscoped;
    }
  }

  /** The older `validatePresharedKey()` of `src/utils/server.ts`: one key, no scope, and a
      mismatch throws instead of answering 401. */
  function ValidateLegacy(key: string, authorization: Option<string>): (r: Result<()>)
    ensures r.Ok? <==> authorization == Some(Bearer(key))
    ensures r.Err? ==> r.msg == "Invalid pre-shared key"
  {
    if authorization != Some(Bearer(key)) then Err("Invalid pre-shared key") else Ok(())
  }

  /** The Bearer prefix keeps keys apart: a header accepted for one key is rejected for any
      other, so with distinct secrets the cron and NYTimes scopes never share a caller. */
  lemma ScopesSeparate(keys: Secrets, authorization: Option<string>)
    requires keys.cron != keys.nytimes
    ensures ValidatePresharedKey(keys, Cron, authorization) == None ==>
      ValidatePresharedKey(keys, NyTimes, authorization) == Some(Unauthorized)
  {
    if ValidatePresharedKey(keys, Cron, authorization) == None {
      var p := "Bearer ";
      assert Bearer(keys.cron)[|p|..] == keys.cron;
      assert Bearer(keys.nytimes)[|p|..] == keys.nytimes;
    }
  }

  /** The two validators agree on who is let in when the legacy key is the one configured. */
  lemma LegacyAgrees(keys: Secrets, scope: Scope, authorization: Option<string>)
    ensures ValidateLegacy(KeyFor(keys, scope), authorization).Ok? <==>
      ValidatePresharedKey(keys, scope, authorization) == None
  {
  }
}
