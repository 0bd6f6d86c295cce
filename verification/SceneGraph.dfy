/** The scene graph with its mutable matrices and its matrix stack. */
module SceneGraph {
  import opened SceneWalk

  /** A mat4: an object whose contents the library functions overwrite. */
  class Mat<!M(==)> {
    var value: M

    constructor (v: M)
      ensures value == v
    {
      value := v;
    }
  }

  /** The stack of matrices; `contents` are their values. */
  class MatrixStack<!M(==)> {
    var matrixStack: seq<Mat<M>>
    ghost var contents: seq<M>

    ghost predicate Valid()
      reads this, matrixStack
    {
      && |contents| == |matrixStack|
      && forall i {:trigger matrixStack[i]} | 0 <= i < |matrixStack| :: matrixStack[i].value == contents[i]
    }

    constructor ()
      ensures Valid() && contents == [] && matrixStack == []
    {
      matrixStack, contents := [], [];
    }

    /** push keeps a clone: the caller may go on changing its matrix. */
    method Push(mat: Mat<M>)
      requires Valid()
      modifies this
      ensures Valid() && contents == old(contents) + [mat.value]
      ensures forall m | m in matrixStack :: m in old(matrixStack) || fresh(m)
      ensures mat !in old(matrixStack) ==> mat !in matrixStack
    {
      var clone := new Mat(mat.value);
      matrixStack := matrixStack + [clone];
      contents := contents + [mat.value];
    }

    /** pop gives a clone. */
    method Pop() returns (mat: Mat<M>)
      requires Valid() && contents != []
      modifies this
      ensures Valid() && contents == old(contents)[..|old(contents)| - 1]
      ensures fresh(mat) && mat.value == old(contents)[|old(contents)| - 1] && mat !in matrixStack
      ensures forall m | m in matrixStack :: m in old(matrixStack)
    {
      var last := matrixStack[|matrixStack| - 1];
      matrixStack := matrixStack[..|matrixStack| - 1];
      contents := contents[..|contents| - 1];
      mat := new Mat(last.value);
    }
  }

  /** A node; `turn` is what its draw does to its transform. */
  class SGNode<!M(==)> {
    var children: seq<SGNode<M>>
    const trafo: Mat<M>

    constructor (unit: M)
      ensures children == [] && fresh(trafo) && trafo.value == unit
    {
      children := [];
      trafo := new Mat(unit);
    }

    method AddChild(node: SGNode<M>)
      modifies this
      ensures children == old(children) + [node]
    {
      children := children + [node];
    }
  }

  /** A graph of nodes is a scene: the children are those of the scene. */
  ghost predicate IsScene<D, M>(g: Scene<SGNode<M>, D, M>)
    reads g.kids.Keys
  {
    g.Valid() && forall n | n in g.kids :: n.children == g.kids[n]
  }

  /** No two nodes share a matrix, and these are all matrices of nodes. */
  ghost predicate Owns<D, M>(g: Scene<SGNode<M>, D, M>, mats: set<Mat<M>>) {
    && (forall n | n in g.kids :: n.trafo in mats)
    && (forall m, n {:trigger m.trafo, n.trafo} | m in g.kids && n in g.kids && m != n :: m.trafo != n.trafo)
  }

  ghost function Store<D, M>(g: Scene<SGNode<M>, D, M>, mats: set<Mat<M>>): (s: map<SGNode<M>, M>)
    requires Owns(g, mats)
    reads mats
    ensures s.Keys == g.kids.Keys
  {
    map n | n in g.kids :: n.trafo.value
  }

  lemma Unstack<T>(s: seq<T>, x: T)
    ensures (s + [x])[..|s + [x]| - 1] == s
  {
  }

  lemma Regroup<T>(a: seq<T>, b: seq<T>, c: seq<T>, d: seq<T>)
    ensures (a + b) + c == a + (b + c) && (b + c) + d == b + (c + d)
  {
  }

  class Scenegraph<!D, !M(==)> {
    const root: SGNode<M>
    const trafoStack: MatrixStack<M>
    const scene: Scene<SGNode<M>, D, M>
    /** The matrices of the nodes. */
    ghost const mats: set<Mat<M>>
    var days: D
    /** What was passed to uniformMatrix4fv. */
    var uploads: seq<M>

    /** The stack shares no matrix with the nodes. */
    ghost predicate Valid()
      reads this, trafoStack, trafoStack.matrixStack, scene.kids.Keys
    {
      && IsScene(scene) && Owns(scene, mats) && root in scene.kids
      && trafoStack.Valid() && trafoStack.contents != []
      && forall m | m in trafoStack.matrixStack :: m !in mats
    }

    ghost function Top(): M
      requires trafoStack.contents != []
      reads trafoStack
    {
      trafoStack.contents[|trafoStack.contents| - 1]
    }

    ghost function Transforms(): (s: map<SGNode<M>, M>)
      requires Owns(scene, mats)
      reads mats
      ensures s.Keys == scene.kids.Keys
    {
      Store(scene, mats)
    }

    /** The stack starts with a clone of the root's transform. */
    constructor (rootNode: SGNode<M>, g: Scene<SGNode<M>, D, M>, ghost owned: set<Mat<M>>, day: D)
      requires IsScene(g) && Owns(g, owned) && rootNode in g.kids
      ensures Valid() && root == rootNode && scene == g && mats == owned && uploads == []
      ensures trafoStack.contents == [rootNode.trafo.value]
      ensures fresh(trafoStack)
    {
      root := rootNode;
      scene := g;
      mats := owned;
      days := day;
      uploads := [];
      var stack := new MatrixStack<M>();
      stack.Push(rootNode.trafo);
      trafoStack := stack;
    }

    /** drawTraversal up to the upload: the product joins the stack, and what was on the
        stack keeps its value, because push and pop clone. */
    method Enter(node: SGNode<M>)
      requires Valid() && node in scene.kids
      modifies this`uploads, trafoStack
      ensures Valid() && trafoStack.contents == old(trafoStack.contents) + [Top()]
      ensures Top() == scene.mul(old(Top()), node.trafo.value) && uploads == old(uploads) + [Top()]
    {
      var trafo := trafoStack.Pop();
      trafoStack.Push(trafo);
      trafo.value := scene.mul(trafo.value, node.trafo.value);
      trafoStack.Push(trafo);
      uploads := uploads + [trafo.value];
    }

    /** node.draw. */
    method DrawNode(node: SGNode<M>)
      requires Valid() && node in scene.kids
      modifies mats
      ensures Valid() && trafoStack.contents == old(trafoStack.contents)
      ensures Transforms() == old(Transforms())[node := scene.turn(node, days, old(node.trafo.value))]
    {
      node.trafo.value := scene.turn(node, days, node.trafo.value);
    }

    /** Both. */
    method EnterAndDraw(node: SGNode<M>)
      requires Valid() && node in scene.kids
      modifies this`uploads, trafoStack, mats
      ensures Valid() && trafoStack.contents == old(trafoStack.contents) + [Top()]
      ensures Top() == scene.mul(old(Top()), old(Transforms())[node]) && uploads == old(uploads) + [Top()]
      ensures var before := old(Transforms()); Transforms() == before[node := scene.turn(node, days, before[node])]
    {
      Enter(node);
      DrawNode(node);
    }

    /** The last pop. */
    method Leave()
      requires Valid() && |trafoStack.contents| > 1
      modifies trafoStack
      ensures Valid() && trafoStack.contents == old(trafoStack.contents)[..|old(trafoStack.contents)| - 1]
    {
      var _ := trafoStack.Pop();
    }

    /** drawTraversal leaves the stack with the values it had, and uploads and changes
        what Visit says. */
    method DrawTraversal(node: SGNode<M>)
      requires Valid() && node in scene.kids
      modifies this`uploads, trafoStack, mats
      ensures Valid() && trafoStack.contents == old(trafoStack.contents)
      ensures var v := Visit(scene, node, days, old(Top()), old(Transforms()));
        uploads == old(uploads) + v.uploads && Transforms() == v.store
      decreases scene.rank[node], 1
    {
      hide Visit, VisitKids;
      VisitStep(scene, node, days, Top(), Transforms());
      ghost var before, below := uploads, trafoStack.contents;
      EnterAndDraw(node);
      ghost var here := Top();
      DrawChildren(node);
      Leave();
      Unstack(below, here);
      Regroup(before, [here], uploads[|before| + 1..], []);
    }

    /** The loop over the children. */
    method DrawChildren(node: SGNode<M>)
      requires Valid() && node in scene.kids
      modifies this`uploads, trafoStack, mats
      ensures Valid() && trafoStack.contents == old(trafoStack.contents)
      ensures var v := VisitKids(scene, node, 0, days, old(Top()), old(Transforms()));
        uploads == old(uploads) + v.uploads && Transforms() == v.store
      decreases scene.rank[node], 0
    {
      hide Visit, VisitKids;
      ghost var top, before := Top(), uploads;
      ghost var all := VisitKids(scene, node, 0, days, top, Transforms());
      ghost var rest, done := all, [];
      for i := 0 to |node.children|
        invariant Valid() && trafoStack.contents == old(trafoStack.contents)
        invariant rest == VisitKids(scene, node, i, days, top, Transforms()) && rest.store == all.store
        invariant uploads == before + done && all.uploads == done + rest.uploads
      {
        KidsStep(scene, node, i, days, top, Transforms());
        ghost var first := Visit(scene, node.children[i], days, top, Transforms());
        ghost var next := VisitKids(scene, node, i + 1, days, top, first.store);
        DrawTraversal(node.children[i]);
        Regroup(before, done, first.uploads, next.uploads);
        done, rest := done + first.uploads, next;
      }
      KidsEnd(scene, node, days, top, Transforms());
    }

    /** draw(days). */
    method Draw(day: D)
      requires Valid()
      modifies this`uploads, this`days, trafoStack, mats
      ensures Valid() && trafoStack.contents == old(trafoStack.contents)
      ensures var v := Visit(scene, root, day, old(Top()), old(Transforms()));
        uploads == old(uploads) + v.uploads && Transforms() == v.store
    {
      hide Visit, VisitKids;
      days := day;
      DrawTraversal(root);
    }

    /** drawScene, called once for every animation frame: the stack never drifts, so all
        frames start from the same top. */
    method DrawFrames(ds: seq<D>)
      requires Valid()
      modifies this`uploads, this`days, trafoStack, mats
      ensures Valid() && trafoStack.contents == old(trafoStack.contents)
      ensures uploads == old(uploads) + Uploads(Frames(scene, root, ds, old(Top()), old(Transforms())))
      ensures Transforms() == After(scene, root, ds, old(Top()), old(Transforms()))
    {
      hide Visit, VisitKids, Frames, Uploads, After;
      ghost var top, store, before := Top(), Transforms(), uploads;
      FramesStart(scene, root, top, store);
      assert ds[..0] == [];
      for i := 0 to |ds|
        invariant Valid() && trafoStack.contents == old(trafoStack.contents)
        invariant uploads == before + Uploads(Frames(scene, root, ds[..i], top, store))
        invariant Transforms() == After(scene, root, ds[..i], top, store)
      {
        NextFrame(scene, root, ds, i, top, store);
        Draw(ds[i]);
      }
      assert ds[..|ds|] == ds;
    }
  }
}
