/** The application shell (app/_app.tsx): the token check on mount, the
    redirect to the login page, and whether the page is rendered at all. */
module App {
  import opened Types
  import Auth

  /** The pages that are shown without a session. */
  predicate IsPublic(path: string) {
    path == Auth.LoginPath || path == Auth.RegisterPath
  }

  /** The render condition: the page component, or nothing. */
  predicate Shown(isAuthenticated: bool, path: string) {
    isAuthenticated || path == Auth.LoginPath || path == Auth.RegisterPath
  }

  /** The login and registration pages are always shown. */
  lemma PublicAlwaysShown(isAuthenticated: bool, path: string)
    requires IsPublic(path)
    ensures Shown(isAuthenticated, path)
  {
  }

  /** Any other page is shown exactly when the check found a token. */
  lemma ProtectedNeedsSession(isAuthenticated: bool, path: string)
    requires !IsPublic(path)
    ensures Shown(isAuthenticated, path) <==> isAuthenticated
  {
  }

  /** The `isAuthenticated` state and the router's current path. */
  class AppShell {
    var isAuthenticated: bool
    var pathname: string

    /** Before the check settles nobody is authenticated, so a protected
        page renders nothing. */
    constructor (path: string)
      ensures !isAuthenticated && pathname == path
      ensures Shown(isAuthenticated, pathname) <==> IsPublic(path)
    {
      isAuthenticated := false;
      pathname := path;
    }

    /** `checkToken`: a token (a present, non-empty string) authenticates;
        null does not, and then a protected path is pushed to the login
        page, after the navigation `fetchWithToken` itself may have made.
        When `fetchWithToken` rejects, `checkToken` rejects with it: the
        state is not set and nothing is pushed. */
    method CheckToken(browser: Auth.Browser, now: int, expOf: string -> int, reply: Auth.Reply)
      modifies this, browser
      ensures var r := Auth.FetchOutcome(old(browser.storage), now, expOf, reply);
              && isAuthenticated == (if r.threw then old(isAuthenticated) else r.token.Some?)
              && browser.storage == r.store
              && browser.navigations == old(browser.navigations) + r.navigations +
                   (if !r.threw && r.token.None? && !IsPublic(pathname) then [Auth.LoginPath] else [])
              && browser.refreshRequests == old(browser.refreshRequests) + (if r.requested then 1 else 0)
      ensures browser.deleteRequests == old(browser.deleteRequests)
      ensures pathname == old(pathname)
      ensures var r := Auth.FetchOutcome(old(browser.storage), now, expOf, reply);
              !r.threw && !Shown(isAuthenticated, pathname) ==>
                |browser.navigations| > 0 && browser.navigations[|browser.navigations| - 1] == Auth.LoginPath
      ensures var r := Auth.FetchOutcome(old(browser.storage), now, expOf, reply);
              r.threw ==> browser.storage == old(browser.storage) && browser.navigations == old(browser.navigations)
    {
      var threw, token := browser.FetchWithToken(now, expOf, reply);
      if threw {
        return;
      }
      if Auth.Present(token) {
        isAuthenticated := true;
      } else {
        isAuthenticated := false;
        if pathname != Auth.LoginPath && pathname != Auth.RegisterPath {
          browser.navigations := browser.navigations + [Auth.LoginPath];
        }
      }
    }
  }
}
