/**
 * The admin dashboard's navigation guard (admin/src/router/index.ts): the
 * route table's `requiresAuth` flags and the redirect decision taken before
 * every navigation.
 */
module AdminRouter {
  import opened Wrappers

  /** A route record: its path, its `meta.requiresAuth` (absent on the children) and its children. */
  datatype Route = Route(path: string, requiresAuth: Option<bool>, children: seq<Route>)

  /** What the guard passes to `next`. */
  datatype Next = Proceed | Redirect(target: string)

  /** The route table, in declaration order. */
  const Routes: seq<Route> := [
    Route("/login", Some(false), []),
    Route("/", Some(true), [
      Route("/posts", None, []),
      Route("/posts/create", None, []),
      Route("/posts/edit/:id", None, []),
      Route("/categories", None, []),
      Route("/tags", None, [])
    ])
  ]

  /** `record.meta.requiresAuth` read as a condition: an absent flag is falsy. */
  function Flag(r: Route): (b: bool)
    ensures b <==> r.requiresAuth == Some(true)
  {
    r.requiresAuth.GetOr(false)
  }

  /**
   * The flags of the records matched by the record whose path is `path`:
   * its ancestors first, then itself (vue-router's `to.matched`).
   */
  function Matched(rs: seq<Route>, path: string): (m: Option<seq<bool>>)
    ensures m.Some? ==> m.value != []
    decreases rs
  {
    if rs == [] then None
    else
      var r := rs[0];
      if r.path == path then Some([Flag(r)])
      else
        match Matched(r.children, path)
        case Some(below) => Some([Flag(r)] + below)
        case None => Matched(rs[1..], path)
  }

  /** `to.matched.some(record => record.meta.requiresAuth)`. */
  function RequiresAuth(matched: seq<bool>): (r: bool)
    ensures r <==> exists i :: 0 <= i < |matched| && matched[i]
  {
    if matched == [] then false
    else matched[0] || RequiresAuth(matched[1..])
  }

  /** The guard's decision once the user is known. */
  function Decide(userPresent: bool, matched: seq<bool>, path: string): (n: Next)
    ensures RequiresAuth(matched) && !userPresent ==> n == Redirect("/login")
    ensures !(RequiresAuth(matched) && !userPresent) && path == "/login" && userPresent ==> n == Redirect("/")
    ensures n == Proceed <==> !(RequiresAuth(matched) && !userPresent) && !(path == "/login" && userPresent)
  {
    if RequiresAuth(matched) && !userPresent then Redirect("/login")
    else if path == "/login" && userPresent then Redirect("/")
    else Proceed
  }

  /** What one run of the guard does: whether it initialises the auth store, and its decision. */
  datatype GuardRun = GuardRun(initializes: bool, next: Next)

  /**
   * `router.beforeEach`: the auth store is initialised when it has no user
   * and is not loading; `userAfterInit` is whether it has one afterwards,
   * which the backend decides.
   */
  function BeforeEach(userPresent: bool, loading: bool, userAfterInit: bool, matched: seq<bool>, path: string): (g: GuardRun)
    ensures g.initializes <==> !userPresent && !loading
    ensures g.initializes ==> g.next == Decide(userAfterInit, matched, path)
    ensures !g.initializes ==> g.next == Decide(userPresent, matched, path)
  {
    var init := !userPresent && !loading;
    var user := if init then userAfterInit else userPresent;
    GuardRun(init, Decide(user, matched, path))
  }

  // -----------------------------------------------------------------------
  // Properties of this route table

  /** Records before the `k`-th that neither are `path` nor contain it do not affect the match. */
  lemma {:induction false} MatchedSkip(rs: seq<Route>, path: string, k: nat)
    requires k <= |rs|
    requires forall j :: 0 <= j < k ==> rs[j].path != path && Matched(rs[j].children, path).None?
    ensures Matched(rs, path) == Matched(rs[k..], path)
  {
    if k > 0 {
      assert rs[1..][k - 1..] == rs[k..];
      MatchedSkip(rs[1..], path, k - 1);
    }
  }

  /** The login page is public and every page under "/" is protected. */
  lemma TableFlags()
    ensures Matched(Routes, "/login") == Some([false])
    ensures Matched(Routes, "/") == Some([true])
    ensures forall c :: c in Routes[1].children ==> Matched(Routes, c.path) == Some([true, false])
  {
    var kids := Routes[1].children;
    forall c | c in kids
      ensures Matched(Routes, c.path) == Some([true, false])
    {
      var k :| 0 <= k < |kids| && kids[k] == c;
      MatchedSkip(kids, c.path, k);
      assert Matched(kids, c.path) == Some([false]);
      var rest := Routes[1..];
      assert rest[0] == Routes[1] && rest[0].children == kids;
      assert rest[0].path != c.path && Flag(rest[0]);
      assert Matched(rest, c.path) == Some([true] + [false]);
      assert Routes[0].path != c.path && Matched(Routes[0].children, c.path).None?;
      MatchedSkip(Routes, c.path, 1);
      assert [true] + [false] == [true, false];
    }
  }

  /** Every path of the table needs a user except the login page. */
  lemma {:induction false} ProtectedPaths(path: string, m: seq<bool>)
    requires Matched(Routes, path) == Some(m)
    ensures RequiresAuth(m) <==> path != "/login"
  {
    TableFlags();
    assert path in {"/login", "/", "/posts", "/posts/create", "/posts/edit/:id", "/categories", "/tags"} by {
      if path !in {"/login", "/"} {
        assert Routes[1].path != path;
        assert Routes[0].path != path;
      }
    }
  }

  /**
   * A path no record declares matches nothing, so `to.matched` is empty and
   * the guard lets it through even without a user.
   */
  lemma {:induction false} UnmatchedPathPasses(path: string)
    requires path !in {"/login", "/", "/posts", "/posts/create", "/posts/edit/:id", "/categories", "/tags"}
    ensures Matched(Routes, path) == None
    ensures Decide(false, [], path) == Proceed
  {
    var kids := Routes[1].children;
    assert Routes[0].path != path && Routes[1].path != path;
    MatchedSkip(kids, path, |kids|);
    assert Matched(kids, path) == None;
    MatchedSkip(Routes, path, |Routes|);
  }

  /** A redirect's target is in the table and the same user passes it unredirected. */
  lemma {:induction false} NoRedirectLoop(userPresent: bool, path: string, m: seq<bool>)
    requires Matched(Routes, path) == Some(m)
    requires Decide(userPresent, m, path).Redirect?
    ensures var t := Decide(userPresent, m, path).target;
      Matched(Routes, t).Some? && Decide(userPresent, Matched(Routes, t).value, t) == Proceed
  {
    TableFlags();
    ProtectedPaths(path, m);
  }
}
