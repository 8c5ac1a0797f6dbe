/** The edge middleware (middleware.ts): paths under a protected prefix need
    a non-empty `token` cookie, otherwise the request is redirected to the
    login page. `token` is the value the framework parsed from the cookie
    header (`None` when there is no such cookie). */
module Middleware {
  import opened Common
  import Text

  const ProtectedPrefixes: seq<string> := ["/dashboard", "/registrar"]

  datatype Decision = Proceed | Redirect(path: string)

  /** `protectedRoutes.some(path => pathname.startsWith(path))` */
  predicate IsProtected(pathname: string)
  {
    exists i :: 0 <= i < |ProtectedPrefixes| && Text.StartsWith(pathname, ProtectedPrefixes[i])
  }

  /** `middleware`: redirect to login when a protected path comes without a
      truthy token; proceed otherwise. */
  function Decide(pathname: string, token: Option<string>): (d: Decision)
    ensures d.Redirect? ==> d.path == LoginPath
    ensures d.Redirect? <==> IsProtected(pathname) && !Truthy(token)
    ensures !IsProtected(pathname) ==> d == Proceed
  {
    if IsProtected(pathname) && !Truthy(token) then Redirect(LoginPath) else Proceed
  }

  /** `config.matcher`: the framework only runs the middleware on
      `/dashboard/:path*` and `/registrar/:path*`, that is the prefix itself
      or the prefix followed by a further path segment. */
  predicate MatcherAdmits(pathname: string)
  {
    exists i :: 0 <= i < |ProtectedPrefixes| &&
      (pathname == ProtectedPrefixes[i] || Text.StartsWith(pathname, ProtectedPrefixes[i] + "/"))
  }

  /** What a request to `pathname` meets: the middleware where the matcher
      runs it, and nothing elsewhere. */
  function Route(pathname: string, token: Option<string>): (d: Decision)
    ensures d.Redirect? <==> MatcherAdmits(pathname) && !Truthy(token)
  {
    if MatcherAdmits(pathname) then Decide(pathname, token) else Proceed
  }

  /** Every path the matcher admits is one the middleware itself protects. */
  lemma MatchedPathsAreProtected(pathname: string)
    requires MatcherAdmits(pathname)
    ensures IsProtected(pathname)
  {
    var i :| 0 <= i < |ProtectedPrefixes| &&
      (pathname == ProtectedPrefixes[i] || Text.StartsWith(pathname, ProtectedPrefixes[i] + "/"));
    var p := ProtectedPrefixes[i];
    if pathname != p {
      assert pathname[..|p|] == (p + "/")[..|p|] == p;
    }
    assert Text.StartsWith(pathname, p);
  }

  /** Plain prefix matching: the middleware gates "/registrarX" but not
      "/history", and an empty cookie value counts as no token. */
  lemma PrefixExamples()
    ensures Decide("/registrarX", None) == Redirect(LoginPath)
    ensures Decide("/history", None) == Proceed
    ensures Decide("/dashboard", Some("")) == Redirect(LoginPath)
    ensures Decide("/dashboard", Some("abc")) == Proceed
  {
    assert Text.StartsWith("/registrarX", ProtectedPrefixes[1]);
    assert !Text.StartsWith("/history", ProtectedPrefixes[0]);
    assert !Text.StartsWith("/history", ProtectedPrefixes[1]);
    assert Text.StartsWith("/dashboard", ProtectedPrefixes[0]);
  }

  /** The matcher never routes "/registrarX" to the middleware, so that
      path proceeds without a token. */
  lemma UnmatchedPrefixProceeds()
    ensures Route("/registrarX", None) == Proceed
  {
    var path := "/registrarX";
    assert path != ProtectedPrefixes[0] && path != ProtectedPrefixes[1];
    assert !Text.StartsWith(path, ProtectedPrefixes[0] + "/") by {
      assert path[1] == 'r';
      assert (ProtectedPrefixes[0] + "/")[1] == 'd';
    }
    assert path[..|ProtectedPrefixes[1] + "/"|] != ProtectedPrefixes[1] + "/" by {
      assert path[10] == 'X';
      assert (ProtectedPrefixes[1] + "/")[10] == '/';
    }
  }
}
