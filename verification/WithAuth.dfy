/** The client-side guard `withAuth` (src/components/withAuth.tsx): it looks
    for a `token=` entry in `document.cookie` after the first render, and
    until it finds one renders a placeholder instead of the wrapped page. */
module WithAuth {
  import opened Common
  import Text
  import Middleware

  const CookieSeparator: string := "; "
  const TokenPrefix: string := "token="

  /** `document.cookie.split("; ")` */
  function Segments(cookie: string): (rows: seq<string>)
    ensures |rows| >= 1
    ensures Text.Join(rows, CookieSeparator) == cookie
    ensures forall i :: 0 <= i < |rows| ==> Text.Free(rows[i], CookieSeparator)
  {
    Text.JoinSplit(cookie, CookieSeparator);
    Text.Split(cookie, CookieSeparator)
  }

  /** `rows.find(row => row.startsWith("token="))`: the first row with the
      prefix, if any. */
  function FindToken(rows: seq<string>): (r: Option<string>)
    ensures r.Some? <==> exists i :: 0 <= i < |rows| && Text.StartsWith(rows[i], TokenPrefix)
    ensures r.Some? ==> Text.StartsWith(r.value, TokenPrefix)
    ensures r.Some? ==>
      exists i :: 0 <= i < |rows| && rows[i] == r.value &&
        forall j :: 0 <= j < i ==> !Text.StartsWith(rows[j], TokenPrefix)
  {
    if |rows| == 0 then None
    else if Text.StartsWith(rows[0], TokenPrefix) then Some(rows[0])
    else
      var r := FindToken(rows[1..]);
      assert forall i :: 1 <= i < |rows| ==> rows[i] == rows[1..][i - 1];
      if r.Some? then
        ghost var k :| 0 <= k < |rows[1..]| && rows[1..][k] == r.value &&
          forall j :: 0 <= j < k ==> !Text.StartsWith(rows[1..][j], TokenPrefix);
        assert rows[k + 1] == r.value;
        assert forall j :: 0 <= j < k + 1 ==> !Text.StartsWith(rows[j], TokenPrefix) by {
          forall j | 0 <= j < k + 1 ensures !Text.StartsWith(rows[j], TokenPrefix) {
            if j > 0 {
              assert rows[j] == rows[1..][j - 1];
            }
          }
        }
        r
      else r
  }

  /** The `token=` segment of a cookie string, if there is one. */
  function TokenCookie(cookie: string): Option<string>
  {
    FindToken(Segments(cookie))
  }

  /** A found segment is never the empty string, so `!token` is false for
      it: even a bare `token=` with no value counts as signed in. */
  lemma FoundSegmentIsTruthy(cookie: string)
    requires TokenCookie(cookie).Some?
    ensures Truthy(TokenCookie(cookie))
    ensures |TokenCookie(cookie).value| >= |TokenPrefix|
  {
  }

  /** A string without the separator's first character is one segment. */
  lemma {:induction false} SplitWithoutSeparator(s: string, sep: string)
    requires sep != "" && sep[0] !in s
    ensures Text.Split(s, sep) == [s]
    decreases |s|
  {
    if |s| >= |sep| {
      assert s[..|sep|][0] == s[0] != sep[0];
      assert sep[0] !in s[1..] by {
        forall i | 0 <= i < |s[1..]| ensures s[1..][i] != sep[0] {
          assert s[1..][i] == s[i + 1];
        }
      }
      SplitWithoutSeparator(s[1..], sep);
      assert [s[0]] + s[1..] == s;
    }
  }

  /** The state of the guard: `isAuth`. */
  datatype Guard = Guard(isAuth: bool)

  /** The guard as first rendered. */
  const Mounted: Guard := Guard(false)

  /** The effect's outcome: the new guard state and the navigation it
      requested, if any. */
  datatype Checked = Checked(guard: Guard, redirect: Option<string>)

  /** The mount effect: no token sends the user to login and leaves the
      guard as it was; a token authenticates. */
  function CheckCookie(g: Guard, cookie: string): (r: Checked)
    ensures TokenCookie(cookie).None? <==> r.redirect == Some(LoginPath)
    ensures TokenCookie(cookie).None? ==> r.guard == g
    ensures TokenCookie(cookie).Some? ==> r.guard.isAuth && r.redirect.None?
  {
    if TokenCookie(cookie).None? then Checked(g, Some(LoginPath)) else Checked(Guard(true), None)
  }

  /** `ProtectedPage`: the placeholder until authenticated, then the wrapped
      component with exactly the props it was given. */
  function View<P>(g: Guard, props: P): (r: Render<P>)
    ensures r.Content? <==> g.isAuth
    ensures r.Content? ==> r.props == props
    ensures !g.isAuth ==> r == Placeholder
  {
    if g.isAuth then Content(props) else Placeholder
  }

  /** The guard's life: placeholder at mount; after the effect the wrapped
      page only if a token segment exists, otherwise still the placeholder
      and a redirect to login. */
  lemma GuardLifecycle<P>(cookie: string, props: P)
    ensures View(Mounted, props) == Placeholder
    ensures var after := CheckCookie(Mounted, cookie);
      (TokenCookie(cookie).Some? ==> View(after.guard, props) == Content(props) && after.redirect.None?)
      && (TokenCookie(cookie).None? ==> View(after.guard, props) == Placeholder && after.redirect == Some(LoginPath))
  {
  }

  /** The two gates disagree on an empty token: the cookie string `token=`
      satisfies this guard, while the middleware, given the empty value the
      same cookie carries, redirects to login. */
  lemma EmptyTokenDisagreement<P>(props: P)
    ensures TokenCookie("token=") == Some("token=")
    ensures View(CheckCookie(Mounted, "token=").guard, props) == Content(props)
    ensures Middleware.Decide("/dashboard", Some("")) == Middleware.Redirect(LoginPath)
  {
    SplitWithoutSeparator("token=", CookieSeparator);
    assert Text.StartsWith("token=", TokenPrefix);
    Middleware.PrefixExamples();
  }
}
