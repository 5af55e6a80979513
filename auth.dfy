/** The token gate (hooks/authHooks.tsx): the browser's local storage with
    the keys "access" and "refresh", the navigations the hooks perform, and
    the decision whether the stored access token can be used, must be
    refreshed, or the session is over.

    The refresh endpoint is an oracle: its answer is a parameter. The JWT
    payload's `exp` is given by a function of the token. */
module Auth {
  import opened Types

  const AccessKey: string := "access"
  const RefreshKey: string := "refresh"
  const LoginPath: string := "/login"
  const RegisterPath: string := "/register"

  /** `localStorage.getItem(key)`: the stored string, or null. */
  function GetItem(store: map<string, string>, key: string): (r: Option<string>)
    ensures r.Some? <==> key in store
    ensures r.Some? ==> r.value == store[key]
  {
    if key in store then Some(store[key]) else None
  }

  /** JavaScript truthiness of a stored value: present and not empty. */
  predicate Present(v: Option<string>) {
    v.Some? && v.value != ""
  }

  /** `isTokenExpired`: the token's `exp` is in seconds, the clock in
      milliseconds. */
  predicate IsTokenExpired(exp: int, now: int) {
    now >= exp * 1000
  }

  /** A token counts as expired from its exact expiry millisecond on, and
      not one millisecond before. */
  lemma ExpiredFromExpiryMillisecond(exp: int)
    ensures IsTokenExpired(exp, exp * 1000)
    ensures !IsTokenExpired(exp, exp * 1000 - 1)
  {
  }

  /** Once expired, a token stays expired. */
  lemma ExpiryIsFinal(exp: int, now: int, later: int)
    requires IsTokenExpired(exp, now) && now <= later
    ensures IsTokenExpired(exp, later)
  {
  }

  /** What the refresh request comes to: `Answered` with whether the
      status is 2xx and the `access` field of the body (None when it is
      missing); `Rejected` when the chain throws instead, because `fetch`
      rejects (a network error) or `response.json()` throws on a 2xx body
      that is not JSON. */
  datatype Reply = Rejected | Answered(ok: bool, access: Option<string>)

  /** The result of `refreshAccessToken`: whether the endpoint was asked,
      whether the promise rejected, and the token it yields (None for null,
      and when it rejected). */
  datatype Refreshed = Refreshed(requested: bool, threw: bool, token: Option<string>)

  /** `refreshAccessToken(refreshToken)`: without a refresh token nothing
      is requested; a rejected request rejects the call; a non-2xx answer
      yields null; a 2xx answer yields the body's `access` field. */
  function RefreshAccessToken(refreshToken: Option<string>, reply: Reply): (r: Refreshed)
    ensures r.requested <==> Present(refreshToken)
    ensures r.threw <==> r.requested && reply.Rejected?
    ensures !r.requested || r.threw ==> r.token.None?
    ensures r.requested && reply.Answered? && !reply.ok ==> r.token.None?
    ensures r.requested && reply.Answered? && reply.ok ==> r.token == reply.access
  {
    if !Present(refreshToken) then Refreshed(false, false, None)
    else if reply.Rejected? then Refreshed(true, true, None)
    else if reply.ok then Refreshed(true, false, reply.access)
    else Refreshed(true, false, None)
  }

  /** Whether `fetchWithToken` has to refresh: no usable access token, or an
      expired one. */
  predicate NeedsRefresh(store: map<string, string>, now: int, expOf: string -> int) {
    var access := GetItem(store, AccessKey);
    !Present(access) || IsTokenExpired(expOf(access.value), now)
  }

  /** Everything one `fetchWithToken` does: the storage afterwards, the
      navigations, whether the refresh endpoint was asked, whether the
      promise rejected, and the token returned (None for null, and when it
      rejected). */
  datatype Fetched = Fetched(store: map<string, string>, navigations: seq<string>, requested: bool,
                             threw: bool, token: Option<string>)

  /** The specification of `fetchWithToken`. A rejected refresh rejects the
      call before the storage is touched. */
  function FetchOutcome(store: map<string, string>, now: int, expOf: string -> int, reply: Reply): (r: Fetched)
    ensures r.threw ==> r.store == store && r.navigations == [] && r.token.None?
    ensures r.token.Some? ==> !r.threw && Present(r.token) && GetItem(r.store, AccessKey) == r.token
    ensures r.token.None? && !r.threw ==>
              AccessKey !in r.store && RefreshKey !in r.store && r.navigations == [LoginPath]
    ensures |r.navigations| <= 1
  {
    if !NeedsRefresh(store, now, expOf) then Fetched(store, [], false, false, GetItem(store, AccessKey))
    else
      var refreshed := RefreshAccessToken(GetItem(store, RefreshKey), reply);
      if refreshed.threw then
        Fetched(store, [], true, true, None)
      else if !Present(refreshed.token) then
        Fetched(store - {AccessKey, RefreshKey}, [LoginPath], refreshed.requested, false, None)
      else
        Fetched(store[AccessKey := refreshed.token.value], [], refreshed.requested, false, refreshed.token)
  }

  /** A present, unexpired access token is returned as it is: no refresh,
      no storage change, no navigation. */
  lemma UsableTokenReturned(store: map<string, string>, now: int, expOf: string -> int, reply: Reply)
    requires Present(GetItem(store, AccessKey))
    requires !IsTokenExpired(expOf(store[AccessKey]), now)
    ensures var r := FetchOutcome(store, now, expOf, reply);
            && r.token == Some(store[AccessKey]) && r.store == store && r.navigations == []
            && !r.requested && !r.threw
  {
  }

  /** A missing, empty or expired access token asks the endpoint once when
      a refresh token is stored; on success the new token overwrites
      "access", "refresh" is kept and the new token is returned. */
  lemma RefreshReplacesAccess(store: map<string, string>, now: int, expOf: string -> int, reply: Reply)
    requires NeedsRefresh(store, now, expOf)
    requires Present(GetItem(store, RefreshKey))
    requires reply.Answered? && reply.ok && Present(reply.access)
    ensures var r := FetchOutcome(store, now, expOf, reply);
            && r.requested && !r.threw && r.token == reply.access && r.navigations == []
            && r.store == store[AccessKey := reply.access.value]
            && GetItem(r.store, RefreshKey) == GetItem(store, RefreshKey)
            && forall k :: k != AccessKey ==> GetItem(r.store, k) == GetItem(store, k)
  {
    var r := FetchOutcome(store, now, expOf, reply);
    assert RefreshKey != AccessKey;
    forall k | k != AccessKey
      ensures GetItem(r.store, k) == GetItem(store, k)
    {
    }
  }

  /** When the refresh yields null (no refresh token, a non-2xx answer, or
      an answer without a usable token) both keys are removed, the browser
      goes to the login page and null is returned; nothing else in the
      storage changes. */
  lemma RefreshFailureLogsOut(store: map<string, string>, now: int, expOf: string -> int, reply: Reply)
    requires NeedsRefresh(store, now, expOf)
    requires !RefreshAccessToken(GetItem(store, RefreshKey), reply).threw
    requires !Present(RefreshAccessToken(GetItem(store, RefreshKey), reply).token)
    ensures var r := FetchOutcome(store, now, expOf, reply);
            && r.token.None? && !r.threw && r.navigations == [LoginPath]
            && AccessKey !in r.store && RefreshKey !in r.store
            && forall k :: k != AccessKey && k != RefreshKey ==> GetItem(r.store, k) == GetItem(store, k)
  {
  }

  /** The endpoint is asked exactly when a refresh is needed and a refresh
      token is stored. */
  lemma RefreshRequestedIff(store: map<string, string>, now: int, expOf: string -> int, reply: Reply)
    ensures FetchOutcome(store, now, expOf, reply).requested <==>
              NeedsRefresh(store, now, expOf) && Present(GetItem(store, RefreshKey))
  {
  }

  /** `fetchWithToken` rejects exactly when it asks the endpoint and that
      request rejects; then it leaves the storage alone, navigates nowhere
      and returns nothing. */
  lemma FetchRejectsIff(store: map<string, string>, now: int, expOf: string -> int, reply: Reply)
    ensures var r := FetchOutcome(store, now, expOf, reply);
            && (r.threw <==> NeedsRefresh(store, now, expOf) && Present(GetItem(store, RefreshKey)) && reply.Rejected?)
            && (r.threw ==> r.store == store && r.navigations == [] && r.token.None?)
  {
  }

  /** The browser as the hooks see it: local storage, the navigations made
      (`window.location.href` and `router.push` alike), the number of
      requests sent to the refresh endpoint and the number of account
      DELETE requests sent. */
  class Browser {
    var storage: map<string, string>
    var navigations: seq<string>
    var refreshRequests: nat
    var deleteRequests: nat

    constructor (store: map<string, string>)
      ensures storage == store && navigations == [] && refreshRequests == 0 && deleteRequests == 0
    {
      storage := store;
      navigations := [];
      refreshRequests := 0;
      deleteRequests := 0;
    }

    /** `fetchWithToken()`, with the clock, the payload decoder and the
        endpoint's answer as parameters. `threw` says the promise rejected;
        `token` is then None. */
    method FetchWithToken(now: int, expOf: string -> int, reply: Reply) returns (threw: bool, token: Option<string>)
      modifies this
      ensures var r := FetchOutcome(old(storage), now, expOf, reply);
              && storage == r.store && threw == r.threw && token == r.token
              && navigations == old(navigations) + r.navigations
              && refreshRequests == old(refreshRequests) + (if r.requested then 1 else 0)
      ensures deleteRequests == old(deleteRequests)
    {
      var accessToken := GetItem(storage, AccessKey);
      var refreshToken := GetItem(storage, RefreshKey);
      if !Present(accessToken) || IsTokenExpired(expOf(accessToken.value), now) {
        if Present(refreshToken) {
          refreshRequests := refreshRequests + 1;
        }
        var refreshed := RefreshAccessToken(refreshToken, reply);
        if refreshed.threw {
          return true, None;
        }
        accessToken := refreshed.token;
        if !Present(accessToken) {
          storage := storage - {AccessKey};
          storage := storage - {RefreshKey};
          navigations := navigations + [LoginPath];
          return false, None;
        }
        storage := storage[AccessKey := accessToken.value];
      }
      return false, accessToken;
    }

    /** `handleLogout`: both keys go, then the login page. */
    method Logout()
      modifies this
      ensures storage == old(storage) - {AccessKey, RefreshKey}
      ensures navigations == old(navigations) + [LoginPath]
      ensures refreshRequests == old(refreshRequests) && deleteRequests == old(deleteRequests)
    {
      storage := storage - {AccessKey};
      storage := storage - {RefreshKey};
      navigations := navigations + [LoginPath];
    }

    /** `handleDeleteAccount`: obtain a token (which may itself end the
        session); unless that rejected, send the DELETE whatever the token,
        and only on a 2xx answer remove both keys and go to the
        registration page. `deleteOk` is false for a non-2xx answer and for
        a rejected DELETE alike: neither changes anything. */
    method DeleteAccount(now: int, expOf: string -> int, reply: Reply, deleteOk: bool)
      modifies this
      ensures var r := FetchOutcome(old(storage), now, expOf, reply);
              var done := !r.threw && deleteOk;
              && deleteRequests == old(deleteRequests) + (if r.threw then 0 else 1)
              && storage == (if done then r.store - {AccessKey, RefreshKey} else r.store)
              && navigations == old(navigations) + r.navigations + (if done then [RegisterPath] else [])
              && refreshRequests == old(refreshRequests) + (if r.requested then 1 else 0)
    {
      var threw, token := FetchWithToken(now, expOf, reply);
      if threw {
        return;
      }
      deleteRequests := deleteRequests + 1;
      if deleteOk {
        storage := storage - {AccessKey};
        storage := storage - {RefreshKey};
        navigations := navigations + [RegisterPath];
      }
    }

    /** The effect of `useAuthCheck`: a redirect exactly when no usable
        access token is stored; the expiry is not looked at. */
    method AuthCheck()
      modifies this
      ensures storage == old(storage) && refreshRequests == old(refreshRequests)
      ensures deleteRequests == old(deleteRequests)
      ensures navigations == old(navigations) + (if Present(GetItem(storage, AccessKey)) then [] else [LoginPath])
    {
      var token := GetItem(storage, AccessKey);
      if !Present(token) {
        navigations := navigations + [LoginPath];
      }
    }
  }
}
