/** What a draw of the scene graph uploads, on values. SceneGraph.dfy proves the
    traversal with its matrix stack equal to Visit. */
module SceneWalk {

  /** A scene of nodes N with transforms M; D is the time passed to draw. `turn` is what
      a node's draw does to its own transform, `mul` is mat4.mul. The rank shows that
      no node is below itself; a node may be below several others. */
  datatype Scene<!N, !D, !M> = Scene(kids: map<N, seq<N>>, rank: map<N, nat>, turn: (N, D, M) -> M, mul: (M, M) -> M) {
    ghost predicate Valid() {
      && kids.Keys == rank.Keys
      && forall n, i {:trigger kids[n][i]} | n in kids && 0 <= i < |kids[n]| ::
           kids[n][i] in kids && rank[kids[n][i]] < rank[n]
    }
  }

  datatype Drawn<N, M> = Drawn(uploads: seq<M>, store: map<N, M>)

  /** drawTraversal: upload the product with the top of the stack, draw, and visit the
      children with the product as their top of the stack. */
  ghost function Visit<N, D, M>(g: Scene<N, D, M>, n: N, day: D, top: M, store: map<N, M>): (r: Drawn<N, M>)
    requires g.Valid() && n in g.kids && store.Keys == g.kids.Keys
    ensures r.store.Keys == g.kids.Keys
    decreases g.rank[n], |g.kids[n]| + 1
  {
    var here := g.mul(top, store[n]);
    var below := VisitKids(g, n, 0, day, here, store[n := g.turn(n, day, store[n])]);
    Drawn([here] + below.uploads, below.store)
  }

  ghost function VisitKids<N, D, M>(g: Scene<N, D, M>, n: N, i: nat, day: D, top: M, store: map<N, M>): (d: Drawn<N, M>)
    requires g.Valid() && n in g.kids && i <= |g.kids[n]| && store.Keys == g.kids.Keys
    ensures d.store.Keys == g.kids.Keys
    decreases g.rank[n], |g.kids[n]| - i
  {
    if i == |g.kids[n]| then Drawn([], store)
    else
      var first := Visit(g, g.kids[n][i], day, top, store);
      var rest := VisitKids(g, n, i + 1, day, top, first.store);
      Drawn(first.uploads + rest.uploads, rest.store)
  }

  /* The two functions, one step at a time. */

  lemma VisitStep<N, D, M>(g: Scene<N, D, M>, n: N, day: D, top: M, store: map<N, M>)
    requires g.Valid() && n in g.kids && store.Keys == g.kids.Keys
    ensures var here := g.mul(top, store[n]);
      var below := VisitKids(g, n, 0, day, here, store[n := g.turn(n, day, store[n])]);
      Visit(g, n, day, top, store) == Drawn([here] + below.uploads, below.store)
  {
  }

  lemma KidsStep<N, D, M>(g: Scene<N, D, M>, n: N, i: nat, day: D, top: M, store: map<N, M>)
    requires g.Valid() && n in g.kids && i < |g.kids[n]| && store.Keys == g.kids.Keys
    ensures var first := Visit(g, g.kids[n][i], day, top, store);
      var rest := VisitKids(g, n, i + 1, day, top, first.store);
      VisitKids(g, n, i, day, top, store) == Drawn(first.uploads + rest.uploads, rest.store)
  {
  }

  lemma KidsEnd<N, D, M>(g: Scene<N, D, M>, n: N, day: D, top: M, store: map<N, M>)
    requires g.Valid() && n in g.kids && store.Keys == g.kids.Keys
    ensures VisitKids(g, n, |g.kids[n]|, day, top, store) == Drawn([], store)
  {
  }

  // ----- The reference: products along paths -----

  /** A step of a path: a node, and the days of all its draws so far. */
  datatype Step<N, D> = Step(node: N, past: seq<D>)

  datatype Walked<N, D> = Walked(paths: seq<seq<Step<N, D>>>, past: map<N, seq<D>>)

  /** The paths to all visits below n, in visiting order, each behind `prefix`. */
  ghost function Paths<N, D, M>(
      g: Scene<N, D, M>, n: N, day: D, prefix: seq<Step<N, D>>, past: map<N, seq<D>>): (w: Walked<N, D>)
    requires g.Valid() && n in g.kids && past.Keys == g.kids.Keys
    ensures w.past.Keys == g.kids.Keys
    decreases g.rank[n], |g.kids[n]| + 1
  {
    var here := prefix + [Step(n, past[n])];
    var below := KidPaths(g, n, 0, day, here, past[n := past[n] + [day]]);
    Walked([here] + below.paths, below.past)
  }

  ghost function KidPaths<N, D, M>(
      g: Scene<N, D, M>, n: N, i: nat, day: D, prefix: seq<Step<N, D>>, past: map<N, seq<D>>): (w: Walked<N, D>)
    requires g.Valid() && n in g.kids && i <= |g.kids[n]| && past.Keys == g.kids.Keys
    ensures w.past.Keys == g.kids.Keys
    decreases g.rank[n], |g.kids[n]| - i
  {
    if i == |g.kids[n]| then Walked([], past)
    else
      var first := Paths(g, g.kids[n][i], day, prefix, past);
      var rest := KidPaths(g, n, i + 1, day, prefix, first.past);
      Walked(first.paths + rest.paths, rest.past)
  }

  /** A transform after its node was drawn on these days. */
  ghost function Turned<N, D, M>(g: Scene<N, D, M>, n: N, x: M, days: seq<D>): M {
    if days == [] then x else g.turn(n, days[|days| - 1], Turned(g, n, x, days[..|days| - 1]))
  }

  /** top * T(p[0]) * ... * T(p[last]), every T as its node's past draws left it. */
  ghost function Product<N, D, M>(g: Scene<N, D, M>, top: M, p: seq<Step<N, D>>, initial: map<N, M>): M
    requires forall i | 0 <= i < |p| :: p[i].node in initial
  {
    if p == [] then top
    else
      var last := p[|p| - 1];
      g.mul(Product(g, top, p[..|p| - 1], initial), Turned(g, last.node, initial[last.node], last.past))
  }

  ghost predicate InScene<N, D>(p: seq<Step<N, D>>, nodes: set<N>) {
    forall i | 0 <= i < |p| :: p[i].node in nodes
  }

  /** The transforms are the initial ones after the draws of the past. */
  ghost predicate Remembers<N, D, M>(g: Scene<N, D, M>, initial: map<N, M>, past: map<N, seq<D>>, store: map<N, M>)
    requires g.Valid() && initial.Keys == past.Keys == store.Keys == g.kids.Keys
  {
    forall n | n in g.kids :: store[n] == Turned(g, n, initial[n], past[n])
  }

  ghost predicate AreProducts<N, D, M>(
      g: Scene<N, D, M>, top: M, uploads: seq<M>, paths: seq<seq<Step<N, D>>>, initial: map<N, M>) {
    && |uploads| == |paths|
    && forall k | 0 <= k < |uploads| ::
      InScene(paths[k], initial.Keys) && uploads[k] == Product(g, top, paths[k], initial)
  }

  lemma ProductStep<N, D, M>(g: Scene<N, D, M>, top: M, prefix: seq<Step<N, D>>, s: Step<N, D>, initial: map<N, M>)
    requires InScene(prefix, initial.Keys) && s.node in initial
    ensures InScene(prefix + [s], initial.Keys)
    ensures Product(g, top, prefix + [s], initial) ==
      g.mul(Product(g, top, prefix, initial), Turned(g, s.node, initial[s.node], s.past))
  {
    var p := prefix + [s];
    assert p[..|p| - 1] == prefix;
  }

  lemma RemembersDraw<N, D, M>(
      g: Scene<N, D, M>, n: N, day: D, initial: map<N, M>, past: map<N, seq<D>>, store: map<N, M>)
    requires g.Valid() && n in g.kids && initial.Keys == past.Keys == store.Keys == g.kids.Keys
    requires Remembers(g, initial, past, store)
    ensures Remembers(g, initial, past[n := past[n] + [day]], store[n := g.turn(n, day, store[n])])
  {
    var grown := past[n] + [day];
    assert grown[..|grown| - 1] == past[n];
  }

  lemma OneMore<N, D, M>(
      g: Scene<N, D, M>, top: M, u: M, uploads: seq<M>, p: seq<Step<N, D>>, paths: seq<seq<Step<N, D>>>,
      initial: map<N, M>)
    requires AreProducts(g, top, uploads, paths, initial)
    requires InScene(p, initial.Keys) && u == Product(g, top, p, initial)
    ensures AreProducts(g, top, [u] + uploads, [p] + paths, initial)
  {
  }

  lemma Joined<N, D, M>(
      g: Scene<N, D, M>, top: M, u: seq<M>, v: seq<M>, p: seq<seq<Step<N, D>>>, q: seq<seq<Step<N, D>>>,
      initial: map<N, M>)
    requires AreProducts(g, top, u, p, initial) && AreProducts(g, top, v, q, initial)
    ensures AreProducts(g, top, u + v, p + q, initial)
  {
  }

  /** For every acyclic scene: each visit uploads the product along its path, taking
      every transform as it was before the node's own draw in that visit. */
  lemma {:induction false} VisitUploadsProducts<N, D, M>(
      g: Scene<N, D, M>, n: N, day: D, top: M, prefix: seq<Step<N, D>>, initial: map<N, M>, past: map<N, seq<D>>,
      store: map<N, M>)
    requires g.Valid() && n in g.kids && initial.Keys == past.Keys == store.Keys == g.kids.Keys
    requires Remembers(g, initial, past, store) && InScene(prefix, initial.Keys)
    ensures var v := Visit(g, n, day, Product(g, top, prefix, initial), store);
      var w := Paths(g, n, day, prefix, past);
      AreProducts(g, top, v.uploads, w.paths, initial) && Remembers(g, initial, w.past, v.store)
    decreases g.rank[n], |g.kids[n]| + 1
  {
    var step := Step(n, past[n]);
    var after, later := store[n := g.turn(n, day, store[n])], past[n := past[n] + [day]];
    ProductStep(g, top, prefix, step, initial);
    RemembersDraw(g, n, day, initial, past, store);
    KidsUploadProducts(g, n, 0, day, top, prefix + [step], initial, later, after);
    var here := Product(g, top, prefix + [step], initial);
    OneMore(g, top, here, VisitKids(g, n, 0, day, here, after).uploads, prefix + [step],
      KidPaths(g, n, 0, day, prefix + [step], later).paths, initial);
  }

  lemma {:induction false} KidsUploadProducts<N, D, M>(
      g: Scene<N, D, M>, n: N, i: nat, day: D, top: M, prefix: seq<Step<N, D>>, initial: map<N, M>,
      past: map<N, seq<D>>, store: map<N, M>)
    requires g.Valid() && n in g.kids && i <= |g.kids[n]| && initial.Keys == past.Keys == store.Keys == g.kids.Keys
    requires Remembers(g, initial, past, store) && InScene(prefix, initial.Keys)
    ensures var v := VisitKids(g, n, i, day, Product(g, top, prefix, initial), store);
      var w := KidPaths(g, n, i, day, prefix, past);
      AreProducts(g, top, v.uploads, w.paths, initial) && Remembers(g, initial, w.past, v.store)
    decreases g.rank[n], |g.kids[n]| - i
  {
    if i < |g.kids[n]| {
      var c, here := g.kids[n][i], Product(g, top, prefix, initial);
      VisitUploadsProducts(g, c, day, top, prefix, initial, past, store);
      var first := Visit(g, c, day, here, store);
      var walked := Paths(g, c, day, prefix, past);
      KidsUploadProducts(g, n, i + 1, day, top, prefix, initial, walked.past, first.store);
      var rest := VisitKids(g, n, i + 1, day, here, first.store);
      var walkedRest := KidPaths(g, n, i + 1, day, prefix, walked.past);
      Joined(g, top, first.uploads, rest.uploads, walked.paths, walkedRest.paths, initial);
    }
  }

  // ----- Scenes drawn frame by frame -----

  /** A run of draw(day) for one day after the other. */
  ghost function Frames<N, D, M>(
      g: Scene<N, D, M>, root: N, days: seq<D>, top: M, store: map<N, M>): (f: seq<Drawn<N, M>>)
    requires g.Valid() && root in g.kids && store.Keys == g.kids.Keys
    ensures |f| == |days|
    ensures forall k | 0 <= k < |f| :: f[k].store.Keys == g.kids.Keys
  {
    if days == [] then []
    else
      var before := Frames(g, root, days[..|days| - 1], top, store);
      var s := if before == [] then store else before[|before| - 1].store;
      before + [Visit(g, root, days[|days| - 1], top, s)]
  }

  ghost function Uploads<N, M>(f: seq<Drawn<N, M>>): seq<M> {
    if f == [] then [] else Uploads(f[..|f| - 1]) + f[|f| - 1].uploads
  }

  /** The transforms after a run. */
  ghost function After<N, D, M>(g: Scene<N, D, M>, root: N, days: seq<D>, top: M, store: map<N, M>): (s: map<N, M>)
    requires g.Valid() && root in g.kids && store.Keys == g.kids.Keys
    ensures s.Keys == g.kids.Keys
  {
    if days == [] then store else Frames(g, root, days, top, store)[|days| - 1].store
  }

  lemma FramesStart<N, D, M>(g: Scene<N, D, M>, root: N, top: M, store: map<N, M>)
    requires g.Valid() && root in g.kids && store.Keys == g.kids.Keys
    ensures Uploads(Frames(g, root, [], top, store)) == [] && After(g, root, [], top, store) == store
  {
  }

  lemma OneMoreFrame<N, D, M>(g: Scene<N, D, M>, root: N, days: seq<D>, i: nat, top: M, store: map<N, M>)
    requires g.Valid() && root in g.kids && store.Keys == g.kids.Keys && i < |days|
    ensures Frames(g, root, days[..i + 1], top, store)
      == Frames(g, root, days[..i], top, store)
         + [Visit(g, root, days[i], top, After(g, root, days[..i], top, store))]
  {
    hide Visit, VisitKids;
    assert days[..i + 1][..i] == days[..i];
  }

  lemma NextFrame<N, D, M>(g: Scene<N, D, M>, root: N, days: seq<D>, i: nat, top: M, store: map<N, M>)
    requires g.Valid() && root in g.kids && store.Keys == g.kids.Keys && i < |days|
    ensures var before := Frames(g, root, days[..i], top, store);
      var v := Visit(g, root, days[i], top, After(g, root, days[..i], top, store));
      && Frames(g, root, days[..i + 1], top, store) == before + [v]
      && Uploads(before + [v]) == Uploads(before) + v.uploads
      && After(g, root, days[..i + 1], top, store) == v.store
  {
    OneMoreFrame(g, root, days, i, top, store);
    hide Visit, VisitKids, Frames;
    var before := Frames(g, root, days[..i], top, store);
    var v := Visit(g, root, days[i], top, After(g, root, days[..i], top, store));
    assert (before + [v])[..|before|] == before;
  }

  /** The days of all draws of each node in a run. */
  ghost function Past<N, D, M>(g: Scene<N, D, M>, root: N, days: seq<D>): (p: map<N, seq<D>>)
    requires g.Valid() && root in g.kids
    ensures p.Keys == g.kids.Keys
  {
    if days == [] then map n | n in g.kids :: []
    else Paths(g, root, days[|days| - 1], [], Past(g, root, days[..|days| - 1])).past
  }

  /** The uploads of the last of any number of frames: products along the paths of the
      initial transforms, each turned once for every time its node was drawn before. */
  lemma {:induction false} FramesUploadProducts<N, D, M>(
      g: Scene<N, D, M>, root: N, days: seq<D>, top: M, initial: map<N, M>)
    requires g.Valid() && root in g.kids && initial.Keys == g.kids.Keys && days != []
    ensures var last := Frames(g, root, days, top, initial)[|days| - 1];
      var w := Paths(g, root, days[|days| - 1], [], Past(g, root, days[..|days| - 1]));
      AreProducts(g, top, last.uploads, w.paths, initial) && Remembers(g, initial, w.past, last.store)
  {
    var earlier := days[..|days| - 1];
    var before := Frames(g, root, earlier, top, initial);
    var s := if before == [] then initial else before[|before| - 1].store;
    if earlier != [] {
      FramesUploadProducts(g, root, earlier, top, initial);
    }
    VisitUploadsProducts(g, root, days[|days| - 1], top, [], initial, Past(g, root, earlier), s);
  }

  // ----- Trees -----

  ghost function Reach<N, D, M>(g: Scene<N, D, M>, n: N): set<N>
    requires g.Valid() && n in g.kids
    decreases g.rank[n], |g.kids[n]| + 1
  {
    {n} + ReachKids(g, n, 0)
  }

  ghost function ReachKids<N, D, M>(g: Scene<N, D, M>, n: N, i: nat): set<N>
    requires g.Valid() && n in g.kids && i <= |g.kids[n]|
    decreases g.rank[n], |g.kids[n]| - i
  {
    if i == |g.kids[n]| then {} else Reach(g, g.kids[n][i]) + ReachKids(g, n, i + 1)
  }

  /** No node is reached in two ways. */
  ghost predicate Tree<N, D, M>(g: Scene<N, D, M>, n: N)
    requires g.Valid() && n in g.kids
    decreases g.rank[n], |g.kids[n]| + 1
  {
    n !in ReachKids(g, n, 0) && TreeKids(g, n, 0)
  }

  ghost predicate TreeKids<N, D, M>(g: Scene<N, D, M>, n: N, i: nat)
    requires g.Valid() && n in g.kids && i <= |g.kids[n]|
    decreases g.rank[n], |g.kids[n]| - i
  {
    || i == |g.kids[n]|
    || (Tree(g, g.kids[n][i]) && Reach(g, g.kids[n][i]) !! ReachKids(g, n, i + 1) && TreeKids(g, n, i + 1))
  }

  /** The past of a node changes by one day exactly if it is in the set. */
  ghost predicate DrawnOnce<N, D>(past: map<N, seq<D>>, later: map<N, seq<D>>, day: D, drawn: set<N>) {
    && past.Keys == later.Keys
    && forall m | m in past :: later[m] == if m in drawn then past[m] + [day] else past[m]
  }

  /** Every step behind the prefix is in the set and has not been drawn in this frame. */
  ghost predicate Fresh<N, D>(paths: seq<seq<Step<N, D>>>, from: nat, past: map<N, seq<D>>, nodes: set<N>) {
    forall k, i | 0 <= k < |paths| && from <= i < |paths[k]| ::
      paths[k][i].node in nodes && paths[k][i].node in past && paths[k][i].past == past[paths[k][i].node]
  }

  lemma {:induction false} TreeWalk<N, D, M>(
      g: Scene<N, D, M>, n: N, day: D, prefix: seq<Step<N, D>>, past: map<N, seq<D>>)
    requires g.Valid() && n in g.kids && past.Keys == g.kids.Keys && Tree(g, n)
    ensures var w := Paths(g, n, day, prefix, past);
      DrawnOnce(past, w.past, day, Reach(g, n)) && Fresh(w.paths, |prefix|, past, Reach(g, n))
    decreases g.rank[n], |g.kids[n]| + 1
  {
    var here, later := prefix + [Step(n, past[n])], past[n := past[n] + [day]];
    TreeWalkKids(g, n, 0, day, here, later);
    KeepPrefix(g, n, 0, day, here, later);
    var below := KidPaths(g, n, 0, day, here, later);
    FreshStep(below.paths, n, prefix, past, later, ReachKids(g, n, 0));
  }

  lemma FreshStep<N, D>(below: seq<seq<Step<N, D>>>, n: N, prefix: seq<Step<N, D>>, past: map<N, seq<D>>,
      later: map<N, seq<D>>, nodes: set<N>)
    requires n in past && n !in nodes && past.Keys == later.Keys
    requires forall m | m in past && m != n :: later[m] == past[m]
    requires Fresh(below, |prefix| + 1, later, nodes)
    requires forall k | 0 <= k < |below| :: Extends(below[k], prefix + [Step(n, past[n])])
    ensures Fresh([prefix + [Step(n, past[n])]] + below, |prefix|, past, {n} + nodes)
  {
    var here := prefix + [Step(n, past[n])];
    forall k, i | 0 <= k < |below| && |prefix| <= i < |below[k]|
      ensures below[k][i].node in {n} + nodes && below[k][i].past == past[below[k][i].node]
    {
      assert Extends(below[k], here);
      if i == |prefix| {
        assert below[k][i] == here[i];
      }
    }
  }

  lemma {:induction false} TreeWalkKids<N, D, M>(
      g: Scene<N, D, M>, n: N, i: nat, day: D, prefix: seq<Step<N, D>>, past: map<N, seq<D>>)
    requires g.Valid() && n in g.kids && i <= |g.kids[n]| && past.Keys == g.kids.Keys && TreeKids(g, n, i)
    ensures var w := KidPaths(g, n, i, day, prefix, past);
      DrawnOnce(past, w.past, day, ReachKids(g, n, i)) && Fresh(w.paths, |prefix|, past, ReachKids(g, n, i))
    decreases g.rank[n], |g.kids[n]| - i
  {
    if i < |g.kids[n]| {
      TreeWalk(g, g.kids[n][i], day, prefix, past);
      var first := Paths(g, g.kids[n][i], day, prefix, past);
      TreeWalkKids(g, n, i + 1, day, prefix, first.past);
      var rest := KidPaths(g, n, i + 1, day, prefix, first.past);
      assert Fresh(rest.paths, |prefix|, past, ReachKids(g, n, i + 1));
    }
  }

  ghost predicate Extends<N, D>(p: seq<Step<N, D>>, prefix: seq<Step<N, D>>) {
    |prefix| <= |p| && forall i | 0 <= i < |prefix| :: p[i] == prefix[i]
  }

  /** Every path found below a prefix begins with it. */
  lemma {:induction false} KeepPrefix<N, D, M>(
      g: Scene<N, D, M>, n: N, i: nat, day: D, prefix: seq<Step<N, D>>, past: map<N, seq<D>>)
    requires g.Valid() && n in g.kids && i <= |g.kids[n]| && past.Keys == g.kids.Keys
    ensures forall k | 0 <= k < |KidPaths(g, n, i, day, prefix, past).paths| ::
      Extends(KidPaths(g, n, i, day, prefix, past).paths[k], prefix)
    decreases g.rank[n], |g.kids[n]| - i
  {
    if i < |g.kids[n]| {
      var c := g.kids[n][i];
      var here, later := prefix + [Step(c, past[c])], past[c := past[c] + [day]];
      KeepPrefix(g, c, 0, day, here, later);
      KeepPrefix(g, n, i + 1, day, prefix, Paths(g, c, day, prefix, past).past);
      var below := KidPaths(g, c, 0, day, here, later).paths;
      forall k | 0 <= k < |below| ensures Extends(below[k], prefix) {
        assert Extends(below[k], here);
        forall j | 0 <= j < |prefix| ensures below[k][j] == prefix[j] {
          assert here[j] == prefix[j];
        }
      }
      assert Extends(here, prefix);
    }
  }

  /** In a tree every node that is reached is drawn once a frame. */
  lemma {:induction false} TreePast<N, D, M>(g: Scene<N, D, M>, root: N, days: seq<D>)
    requires g.Valid() && root in g.kids && Tree(g, root)
    ensures forall m | m in Reach(g, root) :: m in g.kids && Past(g, root, days)[m] == days
  {
    if days == [] {
      TreeReach(g, root);
    } else {
      var earlier := days[..|days| - 1];
      TreePast(g, root, earlier);
      TreeWalk(g, root, days[|days| - 1], [], Past(g, root, earlier));
      assert days == earlier + [days[|days| - 1]];
    }
  }

  lemma {:induction false} TreeReach<N, D, M>(g: Scene<N, D, M>, n: N)
    requires g.Valid() && n in g.kids
    ensures Reach(g, n) <= g.kids.Keys
    decreases g.rank[n], |g.kids[n]| + 1
  {
    TreeReachKids(g, n, 0);
  }

  lemma {:induction false} TreeReachKids<N, D, M>(g: Scene<N, D, M>, n: N, i: nat)
    requires g.Valid() && n in g.kids && i <= |g.kids[n]|
    ensures ReachKids(g, n, i) <= g.kids.Keys
    decreases g.rank[n], |g.kids[n]| - i
  {
    if i < |g.kids[n]| {
      TreeReach(g, g.kids[n][i]);
      TreeReachKids(g, n, i + 1);
    }
  }

  // ----- Scenes that are not trees -----

  /** Some visit is to m, and m has been drawn at least lo and fewer than hi times. */
  ghost predicate Visited<N, D>(paths: seq<seq<Step<N, D>>>, m: N, lo: nat, hi: nat) {
    exists k, i :: 0 <= k < |paths| && 0 <= i < |paths[k]| && paths[k][i].node == m && lo <= |paths[k][i].past| < hi
  }

  /** Two steps show the same node after different numbers of draws. */
  ghost predicate Apart<N, D>(paths: seq<seq<Step<N, D>>>) {
    exists k, i, l, j ::
      && 0 <= k < |paths| && 0 <= i < |paths[k]| && 0 <= l < |paths| && 0 <= j < |paths[l]|
      && paths[k][i].node == paths[l][j].node && |paths[k][i].past| != |paths[l][j].past|
  }

  /** Draws are only added. */
  ghost predicate Later<N, D>(past: map<N, seq<D>>, later: map<N, seq<D>>) {
    past.Keys == later.Keys && forall m | m in past :: |past[m]| <= |later[m]|
  }

  lemma {:induction false} PastGrows<N, D, M>(
      g: Scene<N, D, M>, n: N, i: nat, day: D, prefix: seq<Step<N, D>>, past: map<N, seq<D>>)
    requires g.Valid() && n in g.kids && i <= |g.kids[n]| && past.Keys == g.kids.Keys
    ensures Later(past, KidPaths(g, n, i, day, prefix, past).past)
    decreases g.rank[n], |g.kids[n]| - i
  {
    if i < |g.kids[n]| {
      var c := g.kids[n][i];
      PastGrows(g, c, 0, day, prefix + [Step(c, past[c])], past[c := past[c] + [day]]);
      PastGrows(g, n, i + 1, day, prefix, Paths(g, c, day, prefix, past).past);
    }
  }

  lemma VisitedIn<N, D>(p: seq<seq<Step<N, D>>>, q: seq<seq<Step<N, D>>>, m: N, lo: nat, hi: nat, lo': nat, hi': nat)
    requires lo' <= lo && hi <= hi'
    ensures Visited(p, m, lo, hi) ==> Visited(p + q, m, lo', hi')
    ensures Visited(q, m, lo, hi) ==> Visited(p + q, m, lo', hi')
  {
    if Visited(p, m, lo, hi) {
      var k, i :| 0 <= k < |p| && 0 <= i < |p[k]| && p[k][i].node == m && lo <= |p[k][i].past| < hi;
      assert (p + q)[k] == p[k];
    }
    if Visited(q, m, lo, hi) {
      var k, i :| 0 <= k < |q| && 0 <= i < |q[k]| && q[k][i].node == m && lo <= |q[k][i].past| < hi;
      assert (p + q)[|p| + k] == q[k];
    }
  }

  /** Every node that is reached is visited, at a time between before and after. */
  lemma {:induction false} ReachedIsVisited<N, D, M>(
      g: Scene<N, D, M>, n: N, day: D, prefix: seq<Step<N, D>>, past: map<N, seq<D>>, m: N)
    requires g.Valid() && n in g.kids && past.Keys == g.kids.Keys && m in Reach(g, n)
    ensures var w := Paths(g, n, day, prefix, past); m in past && Visited(w.paths, m, |past[m]|, |w.past[m]|)
    decreases g.rank[n], |g.kids[n]| + 1
  {
    var here, later := prefix + [Step(n, past[n])], past[n := past[n] + [day]];
    var w, below := Paths(g, n, day, prefix, past), KidPaths(g, n, 0, day, here, later);
    PastGrows(g, n, 0, day, here, later);
    if m == n {
      assert w.paths[0][|prefix|] == Step(n, past[n]);
    } else {
      ReachedByKidIsVisited(g, n, 0, day, here, later, m);
      VisitedIn([here], below.paths, m, |later[m]|, |below.past[m]|, |past[m]|, |w.past[m]|);
    }
  }

  lemma {:induction false} ReachedByKidIsVisited<N, D, M>(
      g: Scene<N, D, M>, n: N, i: nat, day: D, prefix: seq<Step<N, D>>, past: map<N, seq<D>>, m: N)
    requires g.Valid() && n in g.kids && i <= |g.kids[n]| && past.Keys == g.kids.Keys && m in ReachKids(g, n, i)
    ensures var w := KidPaths(g, n, i, day, prefix, past); m in past && Visited(w.paths, m, |past[m]|, |w.past[m]|)
    decreases g.rank[n], |g.kids[n]| - i
  {
    var c := g.kids[n][i];
    var first := Paths(g, c, day, prefix, past);
    var rest := KidPaths(g, n, i + 1, day, prefix, first.past);
    PastGrows(g, c, 0, day, prefix + [Step(c, past[c])], past[c := past[c] + [day]]);
    PastGrows(g, n, i + 1, day, prefix, first.past);
    if m in Reach(g, c) {
      ReachedIsVisited(g, c, day, prefix, past, m);
      VisitedIn(first.paths, rest.paths, m, |past[m]|, |first.past[m]|, |past[m]|, |rest.past[m]|);
    } else {
      ReachedByKidIsVisited(g, n, i + 1, day, prefix, first.past, m);
      VisitedIn(first.paths, rest.paths, m, |first.past[m]|, |rest.past[m]|, |past[m]|, |rest.past[m]|);
    }
  }

  /** A visit before and a visit after the same moment are apart. */
  lemma VisitedTwice<N, D>(p: seq<seq<Step<N, D>>>, q: seq<seq<Step<N, D>>>, m: N, lo: nat, mid: nat, hi: nat)
    requires Visited(p, m, lo, mid) && Visited(q, m, mid, hi)
    ensures Apart(p + q)
  {
    var k, i :| 0 <= k < |p| && 0 <= i < |p[k]| && p[k][i].node == m && lo <= |p[k][i].past| < mid;
    var l, j :| 0 <= l < |q| && 0 <= j < |q[l]| && q[l][j].node == m && mid <= |q[l][j].past| < hi;
    assert (p + q)[k] == p[k] && (p + q)[|p| + l] == q[l];
  }

  /** Paths that are apart are so among more paths. */
  lemma ApartIn<N, D>(p: seq<seq<Step<N, D>>>, more: seq<seq<Step<N, D>>>, from: nat)
    requires Apart(p) && from + |p| <= |more| && more[from..from + |p|] == p
    ensures Apart(more)
  {
    var k, i, l, j :|
      && 0 <= k < |p| && 0 <= i < |p[k]| && 0 <= l < |p| && 0 <= j < |p[l]|
      && p[k][i].node == p[l][j].node && |p[k][i].past| != |p[l][j].past|;
    assert more[from + k] == p[k] && more[from + l] == p[l];
  }

  /** Nothing below n has the rank of n. */
  lemma {:induction false} BelowIsLower<N, D, M>(g: Scene<N, D, M>, n: N, i: nat, m: N)
    requires g.Valid() && n in g.kids && i <= |g.kids[n]| && m in ReachKids(g, n, i)
    ensures m in g.kids && g.rank[m] < g.rank[n]
    decreases g.rank[n], |g.kids[n]| - i
  {
    var c := g.kids[n][i];
    if m in ReachKids(g, n, i + 1) {
      BelowIsLower(g, n, i + 1, m);
    } else if m != c {
      BelowIsLower(g, c, 0, m);
    }
  }

  /** If some node is reached in two ways, then one frame shows it at two times. */
  lemma {:induction false} SharedIsApart<N, D, M>(
      g: Scene<N, D, M>, n: N, day: D, prefix: seq<Step<N, D>>, past: map<N, seq<D>>)
    requires g.Valid() && n in g.kids && past.Keys == g.kids.Keys && !Tree(g, n)
    ensures Apart(Paths(g, n, day, prefix, past).paths)
    decreases g.rank[n], |g.kids[n]| + 1
  {
    if n in ReachKids(g, n, 0) {
      BelowIsLower(g, n, 0, n);
    }
    var here, later := prefix + [Step(n, past[n])], past[n := past[n] + [day]];
    SharedBelowIsApart(g, n, 0, day, here, later);
    ApartIn(KidPaths(g, n, 0, day, here, later).paths, Paths(g, n, day, prefix, past).paths, 1);
  }

  lemma {:induction false} SharedBelowIsApart<N, D, M>(
      g: Scene<N, D, M>, n: N, i: nat, day: D, prefix: seq<Step<N, D>>, past: map<N, seq<D>>)
    requires g.Valid() && n in g.kids && i <= |g.kids[n]| && past.Keys == g.kids.Keys && !TreeKids(g, n, i)
    ensures Apart(KidPaths(g, n, i, day, prefix, past).paths)
    decreases g.rank[n], |g.kids[n]| - i
  {
    var c := g.kids[n][i];
    var first := Paths(g, c, day, prefix, past);
    var rest := KidPaths(g, n, i + 1, day, prefix, first.past);
    if !Tree(g, c) {
      SharedIsApart(g, c, day, prefix, past);
      ApartIn(first.paths, first.paths + rest.paths, 0);
    } else if !TreeKids(g, n, i + 1) {
      SharedBelowIsApart(g, n, i + 1, day, prefix, first.past);
      ApartIn(rest.paths, first.paths + rest.paths, |first.paths|);
    } else {
      var m :| m in Reach(g, c) && m in ReachKids(g, n, i + 1);
      ReachedIsVisited(g, c, day, prefix, past, m);
      ReachedByKidIsVisited(g, n, i + 1, day, prefix, first.past, m);
      VisitedTwice(first.paths, rest.paths, m, |past[m]|, |first.past[m]|, |rest.past[m]|);
    }
  }

  /** The transforms of a frame belong together, no node being shown after different
      numbers of draws, if and only if the scene is a tree; and then every node on every
      path has been drawn exactly once in each of the earlier frames, and not yet in this
      one. */
  lemma TreeFrames<N, D, M>(g: Scene<N, D, M>, root: N, days: seq<D>, top: M, initial: map<N, M>)
    requires g.Valid() && root in g.kids && initial.Keys == g.kids.Keys && days != []
    ensures var earlier := days[..|days| - 1];
      var uploads := Frames(g, root, days, top, initial)[|days| - 1].uploads;
      var paths: seq<seq<Step<N, D>>> := Paths(g, root, days[|days| - 1], [], Past(g, root, earlier)).paths;
      && AreProducts(g, top, uploads, paths, initial)
      && (Tree(g, root) <==> !Apart(paths))
      && (Tree(g, root) <==> forall k, i | 0 <= k < |paths| && 0 <= i < |paths[k]| :: paths[k][i].past == earlier)
  {
    hide Paths, KidPaths, Frames, Tree, Product, Turned;
    var earlier := days[..|days| - 1];
    var paths: seq<seq<Step<N, D>>> := Paths(g, root, days[|days| - 1], [], Past(g, root, earlier)).paths;
    FramesUploadProducts(g, root, days, top, initial);
    if Tree(g, root) {
      TreePast(g, root, earlier);
      TreeWalk(g, root, days[|days| - 1], [], Past(g, root, earlier));
      forall k, i | 0 <= k < |paths| && 0 <= i < |paths[k]| ensures paths[k][i].past == earlier {
      }
    } else {
      SharedIsApart(g, root, days[|days| - 1], [], Past(g, root, earlier));
    }
  }

  /** The root is drawn once in every frame. */
  lemma {:induction false} RootPast<N, D, M>(g: Scene<N, D, M>, root: N, days: seq<D>)
    requires g.Valid() && root in g.kids
    ensures Past(g, root, days)[root] == days
    decreases |days|
  {
    if days != [] {
      var earlier, day := days[..|days| - 1], days[|days| - 1];
      RootPast(g, root, earlier);
      var past := Past(g, root, earlier);
      HigherStay(g, root, 0, day, [Step(root, past[root])], past[root := past[root] + [day]], root);
      assert [] + [Step(root, past[root])] == [Step(root, past[root])] && days == earlier + [day];
    }
  }

  /** Visiting the children of n draws no node of the rank of n or above. */
  lemma {:induction false} HigherStay<N, D, M>(
      g: Scene<N, D, M>, n: N, i: nat, day: D, prefix: seq<Step<N, D>>, past: map<N, seq<D>>, m: N)
    requires g.Valid() && n in g.kids && i <= |g.kids[n]| && past.Keys == g.kids.Keys
    requires m in g.kids && g.rank[m] >= g.rank[n]
    ensures KidPaths(g, n, i, day, prefix, past).past[m] == past[m]
    decreases g.rank[n], |g.kids[n]| - i
  {
    if i < |g.kids[n]| {
      var c := g.kids[n][i];
      HigherStay(g, c, 0, day, prefix + [Step(c, past[c])], past[c := past[c] + [day]], m);
      HigherStay(g, n, i + 1, day, prefix, Paths(g, c, day, prefix, past).past, m);
    }
  }

  /** A scene graph whose stack starts with the root's transform, as the constructor
      leaves it, uploads that transform times itself first: in every frame the root is
      drawn with its initial transform in front of its present one. */
  lemma RootIsAppliedTwice<N, D, M>(g: Scene<N, D, M>, root: N, days: seq<D>, initial: map<N, M>)
    requires g.Valid() && root in g.kids && initial.Keys == g.kids.Keys && days != []
    ensures var uploads := Frames(g, root, days, initial[root], initial)[|days| - 1].uploads;
      && uploads != []
      && uploads[0] == g.mul(initial[root], Turned(g, root, initial[root], days[..|days| - 1]))
      && (|days| == 1 ==> uploads[0] == g.mul(initial[root], initial[root]))
  {
    var earlier, day := days[..|days| - 1], days[|days| - 1];
    FramesUploadProducts(g, root, days, initial[root], initial);
    RootPast(g, root, earlier);
    ProductStep(g, initial[root], [], Step(root, earlier), initial);
    assert Paths(g, root, day, [], Past(g, root, earlier)).paths[0] == [] + [Step(root, earlier)];
  }
}
