/** The request middleware: signed-out visitors of the dashboard, profile
    and settings pages are sent to /login, signed-in visitors of the login
    and register pages are sent to /dashboard, and every other request
    passes through. Sections are matched by prefix. The middleware only runs
    on the paths its matcher lists. */
module RouteGuard {
  import opened Strings

  datatype Decision = RedirectTo(target: string) | PassThrough

  /** A page that needs a session. */
  predicate Protected(path: string)
  {
    StartsWith(path, "/dashboard") || StartsWith(path, "/profile") || StartsWith(path, "/settings")
  }

  /** A page only for visitors without a session. */
  predicate AuthPage(path: string)
  {
    StartsWith(path, "/login") || StartsWith(path, "/register")
  }

  /** `middleware(req)` for a request to `path`, with or without a session. */
  function Guard(path: string, hasSession: bool): (d: Decision)
    ensures d == RedirectTo("/login") <==> Protected(path) && !hasSession
    ensures d == RedirectTo("/dashboard") <==> AuthPage(path) && hasSession
    ensures d == PassThrough <==> !(Protected(path) && !hasSession) && !(AuthPage(path) && hasSession)
  {
    if Protected(path) && !hasSession then RedirectTo("/login")
    else if hasSession && AuthPage(path) then RedirectTo("/dashboard")
    else PassThrough
  }

  lemma PrefixesDiffer(path: string, a: string, b: string, i: nat)
    requires i < |a| && i < |b| && a[i] != b[i]
    ensures !(StartsWith(path, a) && StartsWith(path, b))
  {
  }

  /** No path is both a protected page and an auth page, so at most one
      redirect can apply to any request, whatever the session. */
  lemma ProtectedAndAuthDisjoint(path: string)
    ensures !(Protected(path) && AuthPage(path))
  {
    PrefixesDiffer(path, "/dashboard", "/login", 1);
    PrefixesDiffer(path, "/dashboard", "/register", 1);
    PrefixesDiffer(path, "/profile", "/login", 1);
    PrefixesDiffer(path, "/profile", "/register", 1);
    PrefixesDiffer(path, "/settings", "/login", 1);
    PrefixesDiffer(path, "/settings", "/register", 1);
  }

  lemma StartsWithAppend(prefix: string, rest: string)
    ensures StartsWith(prefix + rest, prefix)
  {
    assert (prefix + rest)[..|prefix|] == prefix;
  }

  /** Matching is by prefix: anything that begins "/login" or "/register",
      such as "/login2", counts as an auth page, and anything that begins
      with a protected section's name counts as protected. */
  lemma MatchesByPrefix(suffix: string)
    ensures AuthPage("/login" + suffix) && AuthPage("/register" + suffix)
    ensures Protected("/dashboard" + suffix) && Protected("/profile" + suffix) && Protected("/settings" + suffix)
  {
    StartsWithAppend("/login", suffix);
    StartsWithAppend("/register", suffix);
    StartsWithAppend("/dashboard", suffix);
    StartsWithAppend("/profile", suffix);
    StartsWithAppend("/settings", suffix);
  }

  /** `config.matcher`: `/section/:path*` is the section itself or anything
      below it; `/login` and `/register` are exact. */
  predicate Under(path: string, section: string)
  {
    path == section || StartsWith(path, section + "/")
  }

  predicate Matched(path: string)
  {
    || Under(path, "/dashboard") || Under(path, "/profile") || Under(path, "/settings")
    || path == "/login" || path == "/register"
  }

  /** What the application does with a request: the middleware's decision
      on the matched paths, and nothing on the others. */
  function Middleware(path: string, hasSession: bool): (d: Decision)
    ensures !Matched(path) ==> d == PassThrough
    ensures Matched(path) ==> d == Guard(path, hasSession)
  {
    if Matched(path) then Guard(path, hasSession) else PassThrough
  }

  lemma UnderStartsWith(path: string, section: string)
    requires Under(path, section)
    ensures StartsWith(path, section)
  {
    if path != section {
      assert path[..|section|] == path[..|section| + 1][..|section|];
    }
  }

  /** On the paths the middleware runs on, the prefix tests agree with the
      matcher: a signed-out visitor is redirected exactly on the three
      sections, and a signed-in one exactly on /login and /register. */
  lemma MatchedRedirects(path: string, hasSession: bool)
    requires Matched(path)
    ensures (Middleware(path, hasSession) == RedirectTo("/login"))
              <==> !hasSession && (Under(path, "/dashboard") || Under(path, "/profile") || Under(path, "/settings"))
    ensures (Middleware(path, hasSession) == RedirectTo("/dashboard"))
              <==> hasSession && (path == "/login" || path == "/register")
  {
    ProtectedAndAuthDisjoint(path);
    if Under(path, "/dashboard") {
      UnderStartsWith(path, "/dashboard");
    } else if Under(path, "/profile") {
      UnderStartsWith(path, "/profile");
    } else if Under(path, "/settings") {
      UnderStartsWith(path, "/settings");
    } else {
      MatchesByPrefix("");
      assert "/login" + "" == "/login" && "/register" + "" == "/register";
    }
  }
}
