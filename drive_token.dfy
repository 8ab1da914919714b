/** The Drive access token of a browser tab (client/auth.js): the token in
    memory and its copy in `sessionStorage` with an expiry a little before
    the one Google gives. The clock and Google's answers are parameters. */
module DriveToken {
  import opened Options
  import opened JsText
  import opened JsIds

  const TokenKey: string := "gdriveAccessToken"
  const ExpiryKey: string := "gdriveAccessTokenExpiry"
  /** Five minutes in milliseconds: the early-refresh margin and the least
      lifetime a stored token gets. */
  const Margin: int := 5 * 60 * 1000
  const DefaultLifetimeSeconds: int := 3600

  /** `Number(v)` of a stored value that is an integer, `null` or white
      space; `None` stands for `NaN`. */
  function NumberOf(v: Option<string>): (r: Option<int>)
  {
    if v.None? then Some(0)
    else
      var t := Trim(v.value);
      if t == "" then Some(0)
      else if t[0] == '-' then (if ParseDecimal(t[1..]).Some? then Some(-(ParseDecimal(t[1..]).value as int)) else None)
      else if t[0] == '+' then (if ParseDecimal(t[1..]).Some? then Some(ParseDecimal(t[1..]).value) else None)
      else (if ParseDecimal(t).Some? then Some(ParseDecimal(t).value) else None)
  }

  /** The expiry `persistToken` stores for a lifetime of `expiresIn`
      seconds (absent or zero meaning an hour). */
  function ExpiryFor(now: int, expiresIn: Option<int>): (exp: int)
    ensures exp >= now + Margin
    ensures exp == now + Margin || exp == now + TtlOf(expiresIn) - Margin
  {
    var ttl := TtlOf(expiresIn);
    now + (if Margin >= ttl - Margin then Margin else ttl - Margin)
  }

  /** The lifetime in milliseconds. */
  function TtlOf(expiresIn: Option<int>): int {
    (if expiresIn.None? || expiresIn.value == 0 then DefaultLifetimeSeconds else expiresIn.value) * 1000
  }

  /** `loadStoredToken`'s test: a non-empty token and a non-zero expiry still
      in the future. */
  predicate Restorable(storage: map<string, string>, now: int) {
    && TokenKey in storage && storage[TokenKey] != ""
    && var exp := NumberOf(if ExpiryKey in storage then Some(storage[ExpiryKey]) else None);
       exp.Some? && exp.value != 0 && now < exp.value
  }

  class DriveSession {
    /** `accessToken`; `None` is `null`. */
    var accessToken: Option<string>
    /** The tab's `sessionStorage`. */
    var storage: map<string, string>

    constructor (storage: map<string, string>)
      ensures accessToken.None? && this.storage == storage
    {
      accessToken := None;
      this.storage := storage;
    }

    /** `loadStoredToken`: adopt the stored token while it is valid,
        otherwise forget both stored keys. */
    method LoadStoredToken(now: int)
      modifies this
      ensures Restorable(old(storage), now) ==> accessToken == Some(old(storage)[TokenKey]) && storage == old(storage)
      ensures !Restorable(old(storage), now) ==>
        accessToken == old(accessToken) && storage == old(storage) - {TokenKey, ExpiryKey}
      ensures IsAuthenticated() <==> Restorable(old(storage), now) || old(IsAuthenticated())
    {
      if Restorable(storage, now) {
        accessToken := Some(storage[TokenKey]);
      } else {
        storage := storage - {TokenKey, ExpiryKey};
      }
    }

    /** `persistToken`: keep the token and store it with its expiry. */
    method PersistToken(token: string, expiresIn: Option<int>, now: int)
      modifies this
      ensures accessToken == Some(token)
      ensures IsAuthenticated() <==> token != ""
      ensures storage == old(storage)[TokenKey := token][ExpiryKey := IntText(ExpiryFor(now, expiresIn))]
    {
      accessToken := Some(token);
      var exp := ExpiryFor(now, expiresIn);
      storage := storage[TokenKey := token];
      storage := storage[ExpiryKey := IntText(exp)];
    }

    /** `isAuthenticated`: `!!accessToken`. */
    function IsAuthenticated(): (r: bool)
      reads this
    {
      match accessToken
      case None => false
      case Some(t) => t != ""
    }

    /** `signOut`: without a token, or before Google's script has loaded,
        nothing happens; otherwise the token is forgotten in memory and in
        storage and handed back for revocation. */
    method SignOut(googleLoaded: bool) returns (revoke: Option<string>)
      modifies this
      ensures !old(IsAuthenticated()) || !googleLoaded ==>
        revoke.None? && accessToken == old(accessToken) && storage == old(storage)
      ensures old(IsAuthenticated()) && googleLoaded ==>
        revoke == old(accessToken) && accessToken.None? && storage == old(storage) - {TokenKey, ExpiryKey}
      ensures googleLoaded ==> !IsAuthenticated()
      ensures old(IsAuthenticated()) && googleLoaded ==> forall later :: !Restorable(storage, later)
    {
      if !IsAuthenticated() || !googleLoaded {
        return None;
      }
      revoke := accessToken;
      accessToken := None;
      storage := storage - {TokenKey, ExpiryKey};
    }
  }

  // ---- properties ----

  /** A stored expiry reads back as the number written. */
  lemma ExpiryReadsBack(n: int)
    ensures NumberOf(Some(IntText(n))) == Some(n)
  {
    if n < 0 {
      NegativeReadsBack(-n);
    } else {
      NaturalReadsBack(n);
    }
  }

  lemma NaturalReadsBack(m: nat)
    ensures NumberOf(Some(IntText(m))) == Some(m)
  {
    var d := Decimal(m);
    DecimalRoundTrip(m);
    assert IntText(m) == d;
    TrimKeepsBareText(d);
  }

  lemma NegativeReadsBack(m: nat)
    requires m > 0
    ensures NumberOf(Some(IntText(-(m as int)))) == Some(-(m as int))
  {
    var d := Decimal(m);
    DecimalRoundTrip(m);
    var s := "-" + d;
    assert IntText(-(m as int)) == s;
    assert s[|s| - 1] == d[|d| - 1];
    TrimKeepsBareText(s);
    assert s[1..] == d;
  }

  /** Text without white space at either end is its own trim. */
  lemma TrimKeepsBareText(s: string)
    requires s != [] && !IsSpace(s[0]) && !IsSpace(s[|s| - 1])
    ensures Trim(s) == s
  {
    assert TrimStart(s) == s;
    assert TrimEnd(s) == s;
  }

  /** A token just persisted is restored by a later load exactly while its
      stored expiry has not passed. */
  lemma PersistedTokenRestorable(storage: map<string, string>, token: string, expiresIn: Option<int>, now: int, later: int)
    requires token != "" && now >= 0
    ensures var s := storage[TokenKey := token][ExpiryKey := IntText(ExpiryFor(now, expiresIn))];
      Restorable(s, later) <==> later < ExpiryFor(now, expiresIn)
  {
    ExpiryReadsBack(ExpiryFor(now, expiresIn));
  }

  /** A stored token lives at least the five-minute margin, and without a
      lifetime from Google it lives 55 minutes. */
  lemma StoredLifetime(now: int, expiresIn: Option<int>)
    ensures ExpiryFor(now, expiresIn) - now >= Margin
    ensures ExpiryFor(now, None) == ExpiryFor(now, Some(0)) == now + 55 * 60 * 1000
    ensures expiresIn.Some? && expiresIn.value * 1000 >= 2 * Margin ==>
      ExpiryFor(now, expiresIn) == now + expiresIn.value * 1000 - Margin
  {
  }

  /** A token that failed the check is gone from storage, so loading again
      leaves the session as it is. */
  lemma FailedLoadIsFinal(storage: map<string, string>, now: int, later: int)
    requires !Restorable(storage, now)
    ensures !Restorable(storage - {TokenKey, ExpiryKey}, later)
  {
  }
}
