/** Which nodes the scene graph shows with two transforms in one frame. */
module SceneMoves {
  import opened SceneWalk

  // ----- How often a node is drawn -----

  /** The number of paths from n to m. */
  ghost function Ways<N, D, M>(g: Scene<N, D, M>, n: N, m: N): nat
    requires g.Valid() && n in g.kids
    decreases g.rank[n], |g.kids[n]| + 1
  {
    (if m == n then 1 else 0) + WaysBelow(g, n, 0, m)
  }

  ghost function WaysBelow<N, D, M>(g: Scene<N, D, M>, n: N, i: nat, m: N): nat
    requires g.Valid() && n in g.kids && i <= |g.kids[n]|
    decreases g.rank[n], |g.kids[n]| - i
  {
    if i == |g.kids[n]| then 0 else Ways(g, g.kids[n][i], m) + WaysBelow(g, n, i + 1, m)
  }

  function Times<D>(day: D, k: nat): seq<D> {
    seq(k, _ => day)
  }

  /** A frame draws every node once for every path to it. */
  lemma {:induction false} DrawnOnEveryWay<N, D, M>(
      g: Scene<N, D, M>, n: N, day: D, prefix: seq<Step<N, D>>, past: map<N, seq<D>>, m: N)
    requires g.Valid() && n in g.kids && past.Keys == g.kids.Keys && m in g.kids
    ensures Paths(g, n, day, prefix, past).past[m] == past[m] + Times(day, Ways(g, n, m))
    decreases g.rank[n], |g.kids[n]| + 1
  {
    var here, later := prefix + [Step(n, past[n])], past[n := past[n] + [day]];
    DrawnOnEveryWayBelow(g, n, 0, day, here, later, m);
    assert m == n ==> past[m] + [day] + Times(day, WaysBelow(g, n, 0, m)) == past[m] + Times(day, Ways(g, n, m));
  }

  lemma {:induction false} DrawnOnEveryWayBelow<N, D, M>(
      g: Scene<N, D, M>, n: N, i: nat, day: D, prefix: seq<Step<N, D>>, past: map<N, seq<D>>, m: N)
    requires g.Valid() && n in g.kids && i <= |g.kids[n]| && past.Keys == g.kids.Keys && m in g.kids
    ensures KidPaths(g, n, i, day, prefix, past).past[m] == past[m] + Times(day, WaysBelow(g, n, i, m))
    decreases g.rank[n], |g.kids[n]| - i
  {
    if i < |g.kids[n]| {
      var c := g.kids[n][i];
      var first := Paths(g, c, day, prefix, past);
      DrawnOnEveryWay(g, c, day, prefix, past, m);
      DrawnOnEveryWayBelow(g, n, i + 1, day, prefix, first.past, m);
      var a, b := Ways(g, c, m), WaysBelow(g, n, i + 1, m);
      assert past[m] + Times(day, a) + Times(day, b) == past[m] + Times(day, a + b);
    }
  }

  // ----- What is shown -----

  ghost predicate Shown<N, D>(paths: seq<seq<Step<N, D>>>, s: Step<N, D>) {
    exists k, i :: 0 <= k < |paths| && 0 <= i < |paths[k]| && paths[k][i] == s
  }

  lemma ShownAmongMore<N, D>(p: seq<seq<Step<N, D>>>, q: seq<seq<Step<N, D>>>, s: Step<N, D>)
    requires Shown(p, s) || Shown(q, s)
    ensures Shown(p + q, s)
  {
    if Shown(p, s) {
      var k, i :| 0 <= k < |p| && 0 <= i < |p[k]| && p[k][i] == s;
      assert (p + q)[k][i] == s;
    } else {
      var k, i :| 0 <= k < |q| && 0 <= i < |q[k]| && q[k][i] == s;
      assert (p + q)[|p| + k][i] == s;
    }
  }

  /** Every draw of a frame is shown, with the draws before it. */
  lemma {:induction false} EveryDrawIsShown<N, D, M>(
      g: Scene<N, D, M>, n: N, day: D, prefix: seq<Step<N, D>>, past: map<N, seq<D>>, m: N, j: nat)
    requires g.Valid() && n in g.kids && past.Keys == g.kids.Keys && m in g.kids && j < Ways(g, n, m)
    ensures Shown(Paths(g, n, day, prefix, past).paths, Step(m, past[m] + Times(day, j)))
    decreases g.rank[n], |g.kids[n]| + 1
  {
    var here, later := prefix + [Step(n, past[n])], past[n := past[n] + [day]];
    var step := Step(m, past[m] + Times(day, j));
    if m == n && j == 0 {
      assert past[m] + Times(day, j) == past[m];
      assert [here][0][|prefix|] == step;
    } else {
      var l := if m == n then j - 1 else j;
      EveryDrawBelowIsShown(g, n, 0, day, here, later, m, l);
      assert later[m] + Times(day, l) == past[m] + Times(day, j);
    }
    ShownAmongMore([here], KidPaths(g, n, 0, day, here, later).paths, step);
  }

  lemma {:induction false} EveryDrawBelowIsShown<N, D, M>(
      g: Scene<N, D, M>, n: N, i: nat, day: D, prefix: seq<Step<N, D>>, past: map<N, seq<D>>, m: N, j: nat)
    requires g.Valid() && n in g.kids && i <= |g.kids[n]| && past.Keys == g.kids.Keys && m in g.kids
    requires j < WaysBelow(g, n, i, m)
    ensures Shown(KidPaths(g, n, i, day, prefix, past).paths, Step(m, past[m] + Times(day, j)))
    decreases g.rank[n], |g.kids[n]| - i
  {
    var c := g.kids[n][i];
    var first := Paths(g, c, day, prefix, past);
    var a := Ways(g, c, m);
    if j < a {
      EveryDrawIsShown(g, c, day, prefix, past, m, j);
    } else {
      DrawnOnEveryWay(g, c, day, prefix, past, m);
      EveryDrawBelowIsShown(g, n, i + 1, day, prefix, first.past, m, j - a);
      assert past[m] + Times(day, a) + Times(day, j - a) == past[m] + Times(day, j);
    }
    ShownAmongMore(first.paths, KidPaths(g, n, i + 1, day, prefix, first.past).paths,
                   Step(m, past[m] + Times(day, j)));
  }

  /** The step shows a node after less than `ways` of its draws on this day. */
  ghost predicate DrawOf<N, D>(s: Step<N, D>, day: D, past: map<N, seq<D>>, ways: nat) {
    && s.node in past && |past[s.node]| <= |s.past| < |past[s.node]| + ways
    && s.past == past[s.node] + Times(day, |s.past| - |past[s.node]|)
  }

  lemma DrawOfLater<N, D>(s: Step<N, D>, day: D, past: map<N, seq<D>>, later: map<N, seq<D>>, a: nat, ways: nat)
    requires s.node in past && s.node in later && later[s.node] == past[s.node] + Times(day, a)
    requires DrawOf(s, day, later, ways)
    ensures DrawOf(s, day, past, a + ways)
  {
    var b := |s.past| - |later[s.node]|;
    assert past[s.node] + Times(day, a) + Times(day, b) == past[s.node] + Times(day, a + b);
  }

  /** And nothing else is shown. */
  lemma {:induction false} OnlyDrawsAreShown<N, D, M>(
      g: Scene<N, D, M>, n: N, day: D, prefix: seq<Step<N, D>>, past: map<N, seq<D>>, k: nat, i: nat)
    requires g.Valid() && n in g.kids && past.Keys == g.kids.Keys
    requires var p := Paths(g, n, day, prefix, past).paths; k < |p| && |prefix| <= i < |p[k]|
    ensures var s := Paths(g, n, day, prefix, past).paths[k][i]; DrawOf(s, day, past, Ways(g, n, s.node))
    decreases g.rank[n], |g.kids[n]| + 1
  {
    var here, later := prefix + [Step(n, past[n])], past[n := past[n] + [day]];
    var below := KidPaths(g, n, 0, day, here, later).paths;
    var s := Paths(g, n, day, prefix, past).paths[k][i];
    KeepPrefix(g, n, 0, day, here, later);
    if i == |prefix| {
      assert k > 0 ==> Extends(below[k - 1], here);
      assert s == here[i] && past[n] + Times(day, 0) == past[n];
    } else {
      OnlyDrawsBelowAreShown(g, n, 0, day, here, later, k - 1, i);
      var a := if s.node == n then 1 else 0;
      assert later[s.node] == past[s.node] + Times(day, a);
      DrawOfLater(s, day, past, later, a, WaysBelow(g, n, 0, s.node));
    }
  }

  lemma {:induction false} OnlyDrawsBelowAreShown<N, D, M>(
      g: Scene<N, D, M>, n: N, c: nat, day: D, prefix: seq<Step<N, D>>, past: map<N, seq<D>>, k: nat, i: nat)
    requires g.Valid() && n in g.kids && c <= |g.kids[n]| && past.Keys == g.kids.Keys
    requires var p := KidPaths(g, n, c, day, prefix, past).paths; k < |p| && |prefix| <= i < |p[k]|
    ensures var s := KidPaths(g, n, c, day, prefix, past).paths[k][i]; DrawOf(s, day, past, WaysBelow(g, n, c, s.node))
    decreases g.rank[n], |g.kids[n]| - c
  {
    var kid := g.kids[n][c];
    var first := Paths(g, kid, day, prefix, past);
    if k < |first.paths| {
      OnlyDrawsAreShown(g, kid, day, prefix, past, k, i);
    } else {
      OnlyDrawsBelowAreShown(g, n, c + 1, day, prefix, first.past, k - |first.paths|, i);
      var s := KidPaths(g, n, c, day, prefix, past).paths[k][i];
      DrawnOnEveryWay(g, kid, day, prefix, past, s.node);
      DrawOfLater(s, day, past, first.past, Ways(g, kid, s.node), WaysBelow(g, n, c + 1, s.node));
    }
  }

  // ----- Transforms -----

  /** The transform of the step's node when the step is shown. */
  ghost function Shows<N, D, M>(g: Scene<N, D, M>, s: Step<N, D>, initial: map<N, M>): M
    requires s.node in initial
  {
    Turned(g, s.node, initial[s.node], s.past)
  }

  /** Two visits of one node use different transforms of it. */
  ghost predicate Moves<N, D, M>(g: Scene<N, D, M>, paths: seq<seq<Step<N, D>>>, initial: map<N, M>) {
    exists k, i, l, j ::
      && 0 <= k < |paths| && 0 <= i < |paths[k]| && 0 <= l < |paths| && 0 <= j < |paths[l]|
      && paths[k][i].node == paths[l][j].node && paths[k][i].node in initial
      && Shows(g, paths[k][i], initial) != Shows(g, paths[l][j], initial)
  }

  lemma {:induction false} TurnedOn<N, D, M>(g: Scene<N, D, M>, n: N, x: M, past: seq<D>, day: D, k: nat)
    ensures k > 0 ==>
      Turned(g, n, x, past + Times(day, k)) == g.turn(n, day, Turned(g, n, x, past + Times(day, k - 1)))
    ensures past + Times(day, 0) == past
  {
    if k > 0 {
      var days := past + Times(day, k);
      assert days[..|days| - 1] == past + Times(day, k - 1);
    }
  }

  /** A transform that a draw does not change stays as it is. */
  lemma {:induction false} IdleStays<N, D, M>(g: Scene<N, D, M>, n: N, x: M, past: seq<D>, day: D, k: nat)
    requires g.turn(n, day, Turned(g, n, x, past)) == Turned(g, n, x, past)
    ensures Turned(g, n, x, past + Times(day, k)) == Turned(g, n, x, past)
  {
    TurnedOn(g, n, x, past, day, k);
    if k > 0 {
      IdleStays(g, n, x, past, day, k - 1);
    }
  }

  /** Node m is reached on two paths, and its draw changes the transform that it has
      when the frame begins. */
  ghost predicate MovesAt<N, D, M>(g: Scene<N, D, M>, root: N, day: D, begins: map<N, M>, m: N)
    requires g.Valid() && root in g.kids && begins.Keys == g.kids.Keys
  {
    m in g.kids && Ways(g, root, m) >= 2 && g.turn(m, day, begins[m]) != begins[m]
  }

  lemma SharedNodeMoves<N, D, M>(
      g: Scene<N, D, M>, root: N, day: D, past: map<N, seq<D>>, initial: map<N, M>, begins: map<N, M>, m: N)
    requires g.Valid() && root in g.kids && past.Keys == initial.Keys == begins.Keys == g.kids.Keys
    requires Remembers(g, initial, past, begins) && MovesAt(g, root, day, begins, m)
    ensures Moves(g, Paths(g, root, day, [], past).paths, initial)
  {
    EveryDrawIsShown(g, root, day, [], past, m, 0);
    EveryDrawIsShown(g, root, day, [], past, m, 1);
    TurnedOn(g, m, initial[m], past[m], day, 1);
    var s, t := Step(m, past[m] + Times(day, 0)), Step(m, past[m] + Times(day, 1));
    var paths: seq<seq<Step<N, D>>> := Paths(g, root, day, [], past).paths;
    var k, i :| 0 <= k < |paths| && 0 <= i < |paths[k]| && paths[k][i] == s;
    var l, j :| 0 <= l < |paths| && 0 <= j < |paths[l]| && paths[l][j] == t;
    assert Shows(g, paths[k][i], initial) != Shows(g, paths[l][j], initial);
  }

  /** Two visits in one frame that show a node differently. */
  lemma DifferentDraws<N, D, M>(g: Scene<N, D, M>, day: D, past: map<N, seq<D>>, initial: map<N, M>,
                                s: Step<N, D>, t: Step<N, D>, ways: nat)
    requires s.node == t.node && s.node in initial && DrawOf(s, day, past, ways) && DrawOf(t, day, past, ways)
    requires Shows(g, s, initial) != Shows(g, t, initial)
    ensures ways >= 2
    ensures var x := Turned(g, s.node, initial[s.node], past[s.node]); g.turn(s.node, day, x) != x
  {
    var m := s.node;
    var a, b := |s.past| - |past[m]|, |t.past| - |past[m]|;
    var x := Turned(g, m, initial[m], past[m]);
    if g.turn(m, day, x) == x {
      IdleStays(g, m, initial[m], past[m], day, a);
      IdleStays(g, m, initial[m], past[m], day, b);
    }
    assert a != b;
  }

  lemma OnlySharedNodesMove<N, D, M>(
      g: Scene<N, D, M>, root: N, day: D, past: map<N, seq<D>>, initial: map<N, M>, begins: map<N, M>)
    returns (m: N)
    requires g.Valid() && root in g.kids && past.Keys == initial.Keys == begins.Keys == g.kids.Keys
    requires Remembers(g, initial, past, begins) && Moves(g, Paths(g, root, day, [], past).paths, initial)
    ensures MovesAt(g, root, day, begins, m)
  {
    hide Paths, Ways, DrawOf, Turned;
    var paths: seq<seq<Step<N, D>>> := Paths(g, root, day, [], past).paths;
    var k, i, l, j :|
      && 0 <= k < |paths| && 0 <= i < |paths[k]| && 0 <= l < |paths| && 0 <= j < |paths[l]|
      && paths[k][i].node == paths[l][j].node && paths[k][i].node in initial
      && Shows(g, paths[k][i], initial) != Shows(g, paths[l][j], initial);
    m := paths[k][i].node;
    OnlyDrawsAreShown(g, root, day, [], past, k, i);
    OnlyDrawsAreShown(g, root, day, [], past, l, j);
    DifferentDraws(g, day, past, initial, paths[k][i], paths[l][j], Ways(g, root, m));
  }

  /** For every scene and every frame of every run: some node is shown with two
      transforms in this frame if and only if some node is reached on two paths and its
      draw changes the transform that it has when the frame begins. */
  lemma MovesExactly<N, D, M>(g: Scene<N, D, M>, root: N, days: seq<D>, top: M, initial: map<N, M>)
    requires g.Valid() && root in g.kids && initial.Keys == g.kids.Keys && days != []
    ensures var earlier, day := days[..|days| - 1], days[|days| - 1];
      Moves(g, Paths(g, root, day, [], Past(g, root, earlier)).paths, initial)
      <==> exists m :: MovesAt(g, root, day, After(g, root, earlier, top, initial), m)
  {
    hide Paths, Ways, Moves, MovesAt, Remembers, Frames, Visit;
    var earlier, day := days[..|days| - 1], days[|days| - 1];
    var past, begins := Past(g, root, earlier), After(g, root, earlier, top, initial);
    AfterRemembers(g, root, earlier, top, initial);
    if m :| MovesAt(g, root, day, begins, m) {
      SharedNodeMoves(g, root, day, past, initial, begins, m);
    }
    if Moves(g, Paths(g, root, day, [], past).paths, initial) {
      var m := OnlySharedNodesMove(g, root, day, past, initial, begins);
    }
  }

  lemma AfterRemembers<N, D, M>(g: Scene<N, D, M>, root: N, days: seq<D>, top: M, initial: map<N, M>)
    requires g.Valid() && root in g.kids && initial.Keys == g.kids.Keys
    ensures Remembers(g, initial, Past(g, root, days), After(g, root, days, top, initial))
  {
    if days != [] {
      FramesUploadProducts(g, root, days, top, initial);
    }
  }

  // ----- Trees -----

  /** A scene is a tree if and only if no node is reached on two paths. */
  lemma TreeExactly<N, D, M>(g: Scene<N, D, M>, root: N, day: D)
    requires g.Valid() && root in g.kids
    ensures Tree(g, root) <==> forall m | m in g.kids :: Ways(g, root, m) <= 1
  {
    hide Paths, Ways, Tree;
    var past: map<N, seq<D>> := map m | m in g.kids :: [];
    var paths: seq<seq<Step<N, D>>> := Paths(g, root, day, [], past).paths;
    if Tree(g, root) {
      TreeWalk(g, root, day, [], past);
      forall m | m in g.kids ensures Ways(g, root, m) <= 1 {
        DrawnOnEveryWay(g, root, day, [], past, m);
        assert |past[m] + Times(day, Ways(g, root, m))| <= 1;
      }
    } else {
      SharedIsApart(g, root, day, [], past);
      var k, i, l, j :|
        && 0 <= k < |paths| && 0 <= i < |paths[k]| && 0 <= l < |paths| && 0 <= j < |paths[l]|
        && paths[k][i].node == paths[l][j].node && |paths[k][i].past| != |paths[l][j].past|;
      OnlyDrawsAreShown(g, root, day, [], past, k, i);
      OnlyDrawsAreShown(g, root, day, [], past, l, j);
      assert Ways(g, root, paths[k][i].node) >= 2;
    }
  }

  /** In a tree no node moves within a frame, whatever draw does. */
  lemma TreesStay<N, D, M>(g: Scene<N, D, M>, root: N, days: seq<D>, top: M, initial: map<N, M>)
    requires g.Valid() && root in g.kids && initial.Keys == g.kids.Keys && days != [] && Tree(g, root)
    ensures !Moves(g, Paths(g, root, days[|days| - 1], [], Past(g, root, days[..|days| - 1])).paths, initial)
  {
    hide Paths, Ways, Moves, Tree;
    TreeExactly(g, root, days[|days| - 1]);
    MovesExactly(g, root, days, top, initial);
  }

  /** The smallest scene that is no tree: node 1 twice below node 0. */
  function Pair<D, M>(turn: (int, D, M) -> M, mul: (M, M) -> M): Scene<int, D, M> {
    Scene(map[0 := [1, 1], 1 := []], map[0 := 1, 1 := 0], turn, mul)
  }

  lemma PairValid<D, M>(g: Scene<int, D, M>)
    requires g == Pair(g.turn, g.mul)
    ensures g.Valid() && g.kids.Keys == {0, 1} && g.kids[0] == [1, 1] && g.kids[1] == []
  {
  }

  lemma PairWays<D, M>(g: Scene<int, D, M>, m: int)
    requires g == Pair(g.turn, g.mul)
    ensures g.Valid() && 0 in g.kids && Ways(g, 0, m) == if m == 0 then 1 else if m == 1 then 2 else 0
  {
    PairValid(g);
    assert WaysBelow(g, 1, 0, m) == 0;
    assert Ways(g, g.kids[0][0], m) == if m == 1 then 1 else 0;
    assert Ways(g, g.kids[0][1], m) == if m == 1 then 1 else 0;
    assert WaysBelow(g, 0, 2, m) == 0;
    assert WaysBelow(g, 0, 1, m) == Ways(g, g.kids[0][1], m);
    assert WaysBelow(g, 0, 0, m) == Ways(g, g.kids[0][0], m) + WaysBelow(g, 0, 1, m);
  }

  /** In every frame its node 1 is shown with two transforms if and only if its draw
      changes the transform that it has when the frame begins. */
  lemma SharedNodeMovesWithinAFrame<D, M>(
      turn: (int, D, M) -> M, mul: (M, M) -> M, days: seq<D>, top: M, initial: map<int, M>)
    requires initial.Keys == {0, 1} && days != []
    ensures var g, earlier, day := Pair(turn, mul), days[..|days| - 1], days[|days| - 1];
      && g.Valid()
      && (Moves(g, Paths(g, 0, day, [], Past(g, 0, earlier)).paths, initial)
          <==> var x := After(g, 0, earlier, top, initial)[1]; turn(1, day, x) != x)
  {
    var g := Pair(turn, mul);
    PairValid(g);
    PairWays(g, 0);
    PairWays(g, 1);
    hide Paths, Ways, Moves, After, Past;
    MovesExactly(g, 0, days, top, initial);
    var day, begins := days[|days| - 1], After(g, 0, days[..|days| - 1], top, initial);
    assert MovesAt(g, 0, day, begins, 1) <==> g.turn(1, day, begins[1]) != begins[1];
  }
}
