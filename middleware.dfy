/** The admin route guard (middleware.js): a request under `/admin` without
    a session is sent to the login page. The session lookup itself is an
    input of the model. */
module Middleware {
  import opened Text

  const AdminPrefix: string := "/admin"
  const LoginPath: string := "/admin/login"

  /** What the guard answers: a redirect to a location, or `NextResponse.next()`. */
  datatype Decision = Redirect(location: string) | PassThrough

  /** `middleware(req)` for a request to `pathname`, `hasSession` being
      whether the auth service returned a session. */
  function Guard(hasSession: bool, pathname: string): Decision
  {
    if !hasSession && StartsWith(pathname, AdminPrefix) && pathname != LoginPath
    then Redirect(LoginPath)
    else PassThrough
  }

  /** Without a session, the guard sends every path made of `/admin` and any
      further text to the login page, except the login page itself. Which
      requests reach the guard at all is `Matched`. */
  lemma {:induction false} AnonymousAdminRedirected(rest: string)
    requires AdminPrefix + rest != LoginPath
    ensures Guard(false, AdminPrefix + rest) == Redirect(LoginPath)
  {
    assert (AdminPrefix + rest)[..|AdminPrefix|] == AdminPrefix;
  }

  /** `config.matcher: ["/admin/:path*"]`: the guard runs on `/admin` and on
      every path below `/admin/`; any other request is served untouched. */
  predicate Matched(pathname: string)
  {
    pathname == AdminPrefix || StartsWith(pathname, AdminPrefix + "/")
  }

  /** What the site answers: the guard on matched paths, otherwise the page. */
  function Respond(hasSession: bool, pathname: string): Decision
  {
    if Matched(pathname) then Guard(hasSession, pathname) else PassThrough
  }

  /** Without a session, `/admin` and every page below it other than the
      login page are sent to the login page. */
  lemma {:induction false} AnonymousAdminPagesRedirected(page: string)
    requires page != "login"
    ensures Respond(false, AdminPrefix) == Redirect(LoginPath)
    ensures Respond(false, AdminPrefix + "/" + page) == Redirect(LoginPath)
  {
    var p := AdminPrefix + "/" + page;
    assert p[..|AdminPrefix + "/"|] == AdminPrefix + "/";
    assert p[..|AdminPrefix|] == AdminPrefix;
  }

  /** The site redirects exactly the session-less requests to matched paths
      other than the login page; a path that only starts with the letters
      `/admin`, such as `/administrator`, never reaches the guard. */
  lemma {:induction false} RespondRedirectsExactly(hasSession: bool, pathname: string)
    ensures Respond(hasSession, pathname).Redirect? <==>
      !hasSession && Matched(pathname) && pathname != LoginPath
    ensures Respond(hasSession, pathname).Redirect? ==> Respond(hasSession, pathname).location == LoginPath
  {
    if Matched(pathname) && pathname != AdminPrefix {
      assert pathname[..|AdminPrefix|] == (AdminPrefix + "/")[..|AdminPrefix|];
    }
  }

  /** `/administrator` starts with `/admin` but is not matched, so it is
      served whatever the session, although the guard alone would redirect it. */
  lemma {:induction false} AdministratorNotGuarded(hasSession: bool)
    ensures Respond(hasSession, "/administrator") == PassThrough
    ensures Guard(false, "/administrator") == Redirect(LoginPath)
  {
    assert "/administrator"[..|AdminPrefix|] == AdminPrefix;
    assert "/administrator"[..|AdminPrefix + "/"|] != AdminPrefix + "/" by {
      assert "/administrator"[6] == 'i';
    }
  }

  /** With a session present no request is redirected. */
  lemma {:induction false} SessionPassesThrough(pathname: string)
    ensures Guard(true, pathname) == PassThrough
  {
  }

  /** The login page itself is never redirected, so a redirect is followed
      by a request that passes: the guard cannot loop. */
  lemma {:induction false} RedirectTargetPasses(hasSession: bool, pathname: string)
    ensures Guard(hasSession, LoginPath) == PassThrough
    ensures Guard(hasSession, pathname).Redirect? ==>
      Guard(hasSession, Guard(hasSession, pathname).location) == PassThrough
  {
  }

  /** Paths outside `/admin` are never redirected. */
  lemma {:induction false} PublicPagesPass(hasSession: bool, pathname: string)
    requires !StartsWith(pathname, AdminPrefix)
    ensures Guard(hasSession, pathname) == PassThrough
  {
  }
}
