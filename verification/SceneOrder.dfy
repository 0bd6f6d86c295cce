/** The order in which the scene graph visits its nodes. */
module SceneOrder {
  import opened SceneWalk

  /** A route says, node by node, which child comes next. The path takes this route from
      its step `from`, which is at n, and ends with it. */
  ghost predicate Takes<N, D, M>(g: Scene<N, D, M>, p: seq<Step<N, D>>, from: nat, n: N, route: seq<nat>) {
    && |p| == from + 1 + |route| && p[from].node == n
    && forall i | 0 <= i < |route| :: Goes(g, p, from + i, route[i])
  }

  ghost predicate Goes<N, D, M>(g: Scene<N, D, M>, p: seq<Step<N, D>>, k: nat, child: nat)
    requires k + 1 < |p|
  {
    p[k].node in g.kids && child < |g.kids[p[k].node]| && p[k + 1].node == g.kids[p[k].node][child]
  }

  /** Route a comes first: b goes on where a ends, or they part and a takes the earlier
      child. */
  ghost predicate Earlier(a: seq<nat>, b: seq<nat>) {
    exists m :: 0 <= m <= |a| && m < |b| && a[..m] == b[..m] && (m == |a| || a[m] < b[m])
  }

  ghost predicate Increasing(routes: seq<seq<nat>>) {
    forall k, l | 0 <= k < l < |routes| :: Earlier(routes[k], routes[l])
  }

  ghost predicate AllTake<N, D, M>(
      g: Scene<N, D, M>, paths: seq<seq<Step<N, D>>>, from: nat, n: N, routes: seq<seq<nat>>) {
    |routes| == |paths| && forall k | 0 <= k < |paths| :: Takes(g, paths[k], from, n, routes[k])
  }

  lemma EarlierBelow(i: nat, a: seq<nat>, b: seq<nat>)
    requires Earlier(a, b)
    ensures Earlier([i] + a, [i] + b)
  {
    var m :| 0 <= m <= |a| && m < |b| && a[..m] == b[..m] && (m == |a| || a[m] < b[m]);
    assert ([i] + a)[..m + 1] == [i] + a[..m] && ([i] + b)[..m + 1] == [i] + b[..m];
  }

  function Below(i: nat, routes: seq<seq<nat>>): seq<seq<nat>> {
    seq(|routes|, k requires 0 <= k < |routes| => [i] + routes[k])
  }

  lemma KidsIncrease(i: nat, first: seq<seq<nat>>, rest: seq<seq<nat>>)
    requires Increasing(first) && Increasing(rest)
    requires forall k | 0 <= k < |rest| :: rest[k] != [] && rest[k][0] > i
    ensures Increasing(Below(i, first) + rest)
  {
    var all := Below(i, first) + rest;
    forall k, l | 0 <= k < l < |all| ensures Earlier(all[k], all[l]) {
      if l < |first| {
        EarlierBelow(i, first[k], first[l]);
      } else if k < |first| {
        assert all[k][..0] == all[l][..0] && all[k][0] < all[l][0];
      }
    }
  }

  lemma RootFirst(below: seq<seq<nat>>)
    requires Increasing(below) && forall k | 0 <= k < |below| :: below[k] != []
    ensures Increasing([[]] + below)
  {
    var all := [[]] + below;
    forall k, l | 0 <= k < l < |all| ensures Earlier(all[k], all[l]) {
      if k == 0 {
        assert all[0][..0] == all[l][..0];
      }
    }
  }

  lemma {:induction false} RoutesFrom<N, D, M>(
      g: Scene<N, D, M>, n: N, day: D, prefix: seq<Step<N, D>>, past: map<N, seq<D>>) returns (routes: seq<seq<nat>>)
    requires g.Valid() && n in g.kids && past.Keys == g.kids.Keys
    ensures AllTake(g, Paths(g, n, day, prefix, past).paths, |prefix|, n, routes) && Increasing(routes)
    decreases g.rank[n], |g.kids[n]| + 1
  {
    var here := prefix + [Step(n, past[n])];
    var below := RoutesBelow(g, n, 0, day, here, past[n := past[n] + [day]]);
    RootFirst(below);
    routes := [[]] + below;
  }

  /** One more node in front of a route. */
  lemma TakesBelow<N, D, M>(g: Scene<N, D, M>, p: seq<Step<N, D>>, prefix: seq<Step<N, D>>, n: N, i: nat, r: seq<nat>)
    requires prefix != [] && prefix[|prefix| - 1].node == n && n in g.kids && i < |g.kids[n]|
    requires Extends(p, prefix) && Takes(g, p, |prefix|, g.kids[n][i], r)
    ensures Takes(g, p, |prefix| - 1, n, [i] + r)
  {
    var from := |prefix| - 1;
    assert p[from] == prefix[from];
    forall j | 0 <= j < |[i] + r| ensures Goes(g, p, from + j, ([i] + r)[j]) {
      if j > 0 {
        assert Goes(g, p, |prefix| + (j - 1), r[j - 1]);
      }
    }
  }

  lemma {:induction false} RoutesBelow<N, D, M>(
      g: Scene<N, D, M>, n: N, i: nat, day: D, prefix: seq<Step<N, D>>, past: map<N, seq<D>>)
    returns (routes: seq<seq<nat>>)
    requires g.Valid() && n in g.kids && i <= |g.kids[n]| && past.Keys == g.kids.Keys
    requires prefix != [] && prefix[|prefix| - 1].node == n
    ensures AllTake(g, KidPaths(g, n, i, day, prefix, past).paths, |prefix| - 1, n, routes) && Increasing(routes)
    ensures forall k | 0 <= k < |routes| :: routes[k] != [] && routes[k][0] >= i
    decreases g.rank[n], |g.kids[n]| - i
  {
    routes := [];
    if i < |g.kids[n]| {
      var c := g.kids[n][i];
      var first := Paths(g, c, day, prefix, past);
      var r := RoutesFrom(g, c, day, prefix, past);
      KeepPrefix(g, n, i, day, prefix, past);
      var paths: seq<seq<Step<N, D>>> := KidPaths(g, n, i, day, prefix, past).paths;
      var rest := RoutesBelow(g, n, i + 1, day, prefix, first.past);
      KidsIncrease(i, r, rest);
      routes := Below(i, r) + rest;
      forall k | 0 <= k < |paths| ensures Takes(g, paths[k], |prefix| - 1, n, routes[k]) {
        if k < |r| {
          assert paths[k] == first.paths[k];
          TakesBelow(g, paths[k], prefix, n, i, r[k]);
        }
      }
    }
  }

  /** A frame visits the nodes in the order of their routes from the root: a parent before
      its children, and everything below an earlier child before a later child. */
  lemma VisitsInOrder<N, D, M>(g: Scene<N, D, M>, root: N, days: seq<D>, top: M, initial: map<N, M>)
    returns (routes: seq<seq<nat>>)
    requires g.Valid() && root in g.kids && initial.Keys == g.kids.Keys && days != []
    ensures var paths := Paths(g, root, days[|days| - 1], [], Past(g, root, days[..|days| - 1])).paths;
      && AreProducts(g, top, Frames(g, root, days, top, initial)[|days| - 1].uploads, paths, initial)
      && AllTake(g, paths, 0, root, routes) && Increasing(routes)
  {
    FramesUploadProducts(g, root, days, top, initial);
    routes := RoutesFrom(g, root, days[|days| - 1], [], Past(g, root, days[..|days| - 1]));
  }
}
