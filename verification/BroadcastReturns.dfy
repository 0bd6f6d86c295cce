/** When all processes get out of their OSMP_Bcast calls again. */
module BroadcastReturns {
  import opened Folds
  import B = Barrier
  import opened Broadcast

  /** Nobody enters a barrier while a woken process has not yet left the one before. */
  ghost predicate Orderly(s: State, step: Step) {
    step.Sync? ==> B.Orderly(s.barrier, step.step)
  }

  ghost predicate AllReturned(plan: seq<Call>, s: State) {
    forall i | 0 <= i < |s.barrier.members| :: CallOf(s.barrier.members[i]) == |plan|
  }

  /** These steps, without a spurious wake-up, lead from s to a state in which every
      process has returned from all calls. */
  ghost predicate Finishes(plan: seq<Call>, s: State, steps: seq<Step>)
    decreases |steps|
  {
    if steps == [] then AllReturned(plan, s)
    else
      && Shape(s) && Enabled(plan, s, steps[0]) && (steps[0].Sync? ==> !steps[0].step.Spurious?)
      && Finishes(plan, Do(plan, s, steps[0]), steps[1..])
  }

  ghost predicate CanFinish(plan: seq<Call>, s: State) {
    exists steps :: Finishes(plan, s, steps)
  }

  ghost predicate Rooted(plan: seq<Call>, size: nat) {
    forall k | 0 <= k < |plan| :: plan[k].root < size
  }

  // ------------------------------------------------------ orderly runs stay live

  lemma LiveAfter(plan: seq<Call>, s: State, step: Step, g: nat)
    requires Inv(plan, s, g) && Enabled(plan, s, step) && (step.Sync? ==> !step.step.Spurious?)
    ensures B.Live(Do(plan, s, step).barrier) <==> B.Live(s.barrier) && Orderly(s, step)
  {
    if step.Sync? {
      if !B.Live(s.barrier) {
        B.DoomedStep(s.barrier, step.step, g);
      } else if B.Orderly(s.barrier, step.step) {
        B.LiveStep(s.barrier, step.step, g);
      } else {
        B.DisorderlyStep(s.barrier, step.step, g);
      }
    }
  }

  lemma {:induction false} LiveExactly(size: nat, plan: seq<Call>, trace: seq<State>, steps: seq<Step>, m: nat)
    requires Run(size, plan, trace, steps) && m < |trace| && Undisturbed(steps, m)
    ensures B.Live(trace[m].barrier) <==> forall k | 0 <= k < m :: Orderly(trace[k], steps[k])
  {
    if m == 0 {
      SumZero(B.IsWaiting, trace[0].barrier.members);
    } else {
      LiveExactly(size, plan, trace, steps, m - 1);
      var g := RunKeepsInv(size, plan, trace, steps, m - 1);
      assert Enabled(plan, trace[m - 1], steps[m - 1]);
      LiveAfter(plan, trace[m - 1], steps[m - 1], g);
    }
  }

  // --------------------------------------------------------------- getting done

  /** What is left to do for one process. */
  function Work(calls: nat, m: B.Member, ready: bool): nat {
    (if m.left < 2 * calls then 4 * (2 * calls - m.left) else 0) +
    match m.place
    case Woken => 0
    case Waiting => 1
    case Outside => if ready then 2 else 3
  }

  ghost function AllWork(calls: nat, s: State, n: nat): nat
    requires Shape(s) && n <= |s.ready|
  {
    if n == 0 then 0 else AllWork(calls, s, n - 1) + Work(calls, s.barrier.members[n - 1], s.ready[n - 1])
  }

  lemma {:induction false} LessWork(calls: nat, s: State, t: State, n: nat, i: nat)
    requires Shape(s) && Shape(t) && |s.ready| == |t.ready| && n <= |s.ready|
    requires forall j | 0 <= j < n ::
      Work(calls, t.barrier.members[j], t.ready[j]) <= Work(calls, s.barrier.members[j], s.ready[j])
    requires i < n ==> Work(calls, t.barrier.members[i], t.ready[i]) < Work(calls, s.barrier.members[i], s.ready[i])
    ensures AllWork(calls, t, n) <= AllWork(calls, s, n)
    ensures i < n ==> AllWork(calls, t, n) < AllWork(calls, s, n)
  {
    if n > 0 {
      LessWork(calls, s, t, n - 1, i);
    }
  }

  lemma WorkShrinks(plan: seq<Call>, s: State, step: Step, g: nat)
    requires Inv(plan, s, g) && Enabled(plan, s, step) && (step.Sync? ==> !step.step.Spurious?)
    ensures var t := Do(plan, s, step);
      Shape(t) && |t.ready| == |s.ready| && AllWork(|plan|, t, |s.ready|) < AllWork(|plan|, s, |s.ready|)
  {
    var t := Do(plan, s, step);
    var i := match step case Write(i) => i case Copy(i) => i case Sync(b) => b.rank;
    assert Progress(plan, s.barrier.members[i], i, s.ready[i], s.buffers[i]);
    if step.Sync? && step.step.Arrive? && s.barrier.cond == 1 {
      var h := B.SafeStep(s.barrier, step.step, g);
    }
    LessWork(|plan|, s, t, |s.ready|, i);
  }

  /** Woken, or outside with a call still to make or to complete. */
  predicate CanGoOn(calls: nat, m: B.Member) {
    m.place.Woken? || (m.place.Outside? && CallOf(m) < calls)
  }

  lemma SomebodyCanGoOn(plan: seq<Call>, s: State, g: nat) returns (i: nat)
    requires Inv(plan, s, g) && B.Live(s.barrier) && !AllReturned(plan, s)
    ensures i < |s.barrier.members| && CanGoOn(|plan|, s.barrier.members[i])
  {
    var members := s.barrier.members;
    i :| 0 <= i < |members| && CallOf(members[i]) != |plan|;
    assert Progress(plan, members[i], i, s.ready[i], s.buffers[i]) && B.InRound(members[i], g);
    if members[i].place.Waiting? {
      if forall k | 0 <= k < |members| :: members[k].place.Waiting? {
        B.AllWaiting(members);
      }
      i :| 0 <= i < |members| && !members[i].place.Waiting?;
      assert B.InRound(members[i], g);
    }
  }

  /** As long as the barrier is live and somebody has not returned, there is an
      orderly step. */
  lemma NextStep(plan: seq<Call>, s: State, g: nat) returns (step: Step)
    requires Inv(plan, s, g) && B.Live(s.barrier) && !AllReturned(plan, s)
    ensures Enabled(plan, s, step) && Orderly(s, step) && (step.Sync? ==> !step.step.Spurious?)
  {
    var members := s.barrier.members;
    var i := SomebodyCanGoOn(plan, s, g);
    if j :| 0 <= j < |members| && members[j].place.Woken? {
      step := Sync(B.Resume(j));
    } else {
      step := if !s.ready[i] && MustWrite(plan, members[i], i) then Write(i)
              else if !s.ready[i] && MustCopy(plan, members[i], i) then Copy(i)
              else Sync(B.Arrive(i));
    }
  }

  lemma {:induction false} LiveFinishes(plan: seq<Call>, s: State, g: nat) returns (steps: seq<Step>)
    requires Inv(plan, s, g) && B.Live(s.barrier) && Rooted(plan, |s.ready|)
    ensures Finishes(plan, s, steps)
    decreases AllWork(|plan|, s, |s.ready|)
  {
    if AllReturned(plan, s) {
      steps := [];
    } else {
      var step := NextStep(plan, s, g);
      WorkShrinks(plan, s, step, g);
      LiveAfter(plan, s, step, g);
      var h := KeepStep(plan, s, step, g);
      steps := LiveFinishes(plan, Do(plan, s, step), h);
      steps := [step] + steps;
      assert Finishes(plan, Do(plan, s, step), steps[1..]);
    }
  }

  /** Somebody waits for good. */
  lemma DoomedWaiter(plan: seq<Call>, s: State, g: nat)
    requires Inv(plan, s, g) && !B.Live(s.barrier)
    ensures !AllReturned(plan, s)
  {
    var j := SumWitness(B.IsWaiting, s.barrier.members);
    assert Progress(plan, s.barrier.members[j], j, s.ready[j], s.buffers[j]);
  }

  lemma {:induction false} DoomedNeverFinishes(plan: seq<Call>, s: State, steps: seq<Step>, g: nat)
    requires Inv(plan, s, g) && !B.Live(s.barrier) && Rooted(plan, |s.ready|)
    ensures !Finishes(plan, s, steps)
    decreases |steps|
  {
    if steps == [] {
      DoomedWaiter(plan, s, g);
    } else if Enabled(plan, s, steps[0]) && (steps[0].Sync? ==> !steps[0].step.Spurious?) {
      LiveAfter(plan, s, steps[0], g);
      var h := KeepStep(plan, s, steps[0], g);
      DoomedNeverFinishes(plan, Do(plan, s, steps[0]), steps[1..], h);
    }
  }

  /** All processes can still return from all their broadcasts if and only if, so far,
      nobody has entered a barrier while a woken process had not yet left. */
  lemma ReturnsExactly(size: nat, plan: seq<Call>, trace: seq<State>, steps: seq<Step>, m: nat)
    requires Run(size, plan, trace, steps) && m < |trace| && Undisturbed(steps, m)
    ensures CanFinish(plan, trace[m]) <==> forall k | 0 <= k < m :: Orderly(trace[k], steps[k])
  {
    LiveExactly(size, plan, trace, steps, m);
    var g := RunKeepsInv(size, plan, trace, steps, m);
    if B.Live(trace[m].barrier) {
      var more := LiveFinishes(plan, trace[m], g);
    } else if CanFinish(plan, trace[m]) {
      var more :| Finishes(plan, trace[m], more);
      DoomedNeverFinishes(plan, trace[m], more, g);
    }
  }

  // -------------------------------------------------------- which programs can hang

  /** After some run without spurious wake-ups some process can never return. */
  ghost predicate CanHang(size: nat, plan: seq<Call>) {
    exists trace: seq<State>, steps: seq<Step> ::
      Run(size, plan, trace, steps) && Undisturbed(steps, |steps|) && !CanFinish(plan, trace[|steps|])
  }

  /** The root of the first call has written; of the others those below k wait. */
  ghost predicate Gathering(s: State, size: nat, root: nat, k: nat) {
    && |s.ready| == |s.buffers| == |s.barrier.members| == size && root < size && k <= size
    && s.ready == seq(size, _ => false)[root := true]
    && s.barrier.cond == size - k + (if root < k then 1 else 0)
    && forall x | 0 <= x < size ::
         s.barrier.members[x] == if x < k && x != root then B.Member(B.Waiting, 1, 0) else B.Member(B.Outside, 0, 0)
  }

  lemma {:induction false} Gather(size: nat, plan: seq<Call>, k: nat) returns (trace: seq<State>, steps: seq<Step>)
    requires size >= 2 && plan != [] && Rooted(plan, size) && k <= size
    ensures Run(size, plan, trace, steps) && Undisturbed(steps, |steps|)
    ensures Gathering(trace[|steps|], size, plan[0].root, k)
  {
    var root := plan[0].root;
    if k == 0 {
      trace, steps := [Init(size), Do(plan, Init(size), Write(root))], [Write(root)];
    } else {
      trace, steps := Gather(size, plan, k - 1);
      if k - 1 != root {
        var step := Sync(B.Arrive(k - 1));
        RunGoesOn(size, plan, trace, steps, step);
        trace, steps := trace + [Do(plan, trace[|steps|], step)], steps + [step];
      }
    }
  }

  /** A program of broadcasts can hang if and only if it has a broadcast and at least
      two processes: the first root releases the others and enters the second barrier
      before one of them has left the first. */
  lemma HangsExactly(size: nat, plan: seq<Call>)
    requires size > 0 && Rooted(plan, size)
    ensures CanHang(size, plan) <==> size >= 2 && plan != []
  {
    if CanHang(size, plan) {
      var trace: seq<State>, steps: seq<Step> :|
        Run(size, plan, trace, steps) && Undisturbed(steps, |steps|) && !CanFinish(plan, trace[|steps|]);
      ReturnsExactly(size, plan, trace, steps, |steps|);
      var k :| 0 <= k < |steps| && !Orderly(trace[k], steps[k]);
      var g := RunKeepsInv(size, plan, trace, steps, k);
      assert Enabled(plan, trace[k], steps[k]);
      var j :| 0 <= j < |trace[k].barrier.members| && trace[k].barrier.members[j].place.Woken?;
      assert j != steps[k].step.rank;
    }
    if size >= 2 && plan != [] {
      var trace, steps := HangingRun(size, plan);
    }
  }

  lemma HangingRun(size: nat, plan: seq<Call>) returns (trace: seq<State>, steps: seq<Step>)
    requires size >= 2 && plan != [] && Rooted(plan, size)
    ensures Run(size, plan, trace, steps) && Undisturbed(steps, |steps|) && !CanFinish(plan, trace[|steps|])
  {
    var root := plan[0].root;
    var enter := Sync(B.Arrive(root));
    trace, steps := Gather(size, plan, size);
    RunGoesOn(size, plan, trace, steps, enter);
    trace, steps := trace + [Do(plan, trace[|steps|], enter)], steps + [enter];
    var s := trace[|steps|];
    var x := if root == 0 then 1 else 0;
    assert s.barrier.members[x].place.Woken? && s.barrier.members[root] == B.Member(B.Outside, 1, 1);
    RunGoesOn(size, plan, trace, steps, enter);
    assert !Orderly(s, enter);
    trace, steps := trace + [Do(plan, s, enter)], steps + [enter];
    assert !Orderly(trace[|steps| - 1], steps[|steps| - 1]);
    ReturnsExactly(size, plan, trace, steps, |steps|);
  }

  /** Two processes and one broadcast of rank 1, step by step. */
  function Stage(data: Payload, k: nat): State {
    var out, in1, in2 := B.Member(B.Outside, 0, 0), B.Member(B.Waiting, 1, 0), B.Member(B.Waiting, 2, 1);
    var woken, back := B.Member(B.Woken, 1, 0), B.Member(B.Outside, 1, 1);
    if k == 0 then State(B.State(2, [out, out]), [], [false, false], [[], []])
    else if k == 1 then State(B.State(2, [out, out]), data, [false, true], [[], [data]])
    else if k == 2 then State(B.State(1, [in1, out]), data, [false, true], [[], [data]])
    else if k == 3 then State(B.State(2, [woken, back]), data, [false, false], [[], [data]])
    else if k == 4 then State(B.State(1, [woken, in2]), data, [false, false], [[], [data]])
    else if k == 5 then State(B.State(2, [back, in2]), data, [false, false], [[], [data]])
    else if k == 6 then State(B.State(2, [back, in2]), data, [true, false], [[data], [data]])
    else State(B.State(1, [in2, in2]), data, [true, false], [[data], [data]])
  }

  function StageStep(k: nat): Step {
    if k == 0 then Write(1)
    else if k == 1 then Sync(B.Arrive(0))
    else if k == 2 || k == 3 then Sync(B.Arrive(1))
    else if k == 4 then Sync(B.Resume(0))
    else if k == 5 then Copy(0)
    else Sync(B.Arrive(0))
  }

  lemma StageGoesOn(data: Payload, k: nat)
    requires k < 7
    ensures var plan := [Call(1, data)];
      && Shape(Stage(data, k)) && Enabled(plan, Stage(data, k), StageStep(k))
      && Do(plan, Stage(data, k), StageStep(k)) == Stage(data, k + 1)
  {
    var plan, s, t := [Call(1, data)], Stage(data, k), Stage(data, k + 1);
    var none: seq<Payload> := [];
    assert none + [data] == [data];
    assert Enabled(plan, s, StageStep(k));
    var u := Do(plan, s, StageStep(k));
    assert u.barrier.members == t.barrier.members;
    assert u.ready == t.ready;
    assert u.buffers == t.buffers;
  }

  /** That run ends with both processes waiting in the second barrier; but for spurious
      wake-ups, nothing can happen any more. */
  lemma BroadcastCanDeadlock(data: Payload) returns (trace: seq<State>, steps: seq<Step>)
    ensures Run(2, [Call(1, data)], trace, steps) && Undisturbed(steps, |steps|) && Shape(trace[|steps|])
    ensures trace[|steps|].barrier.members == [B.Member(B.Waiting, 2, 1), B.Member(B.Waiting, 2, 1)]
    ensures forall step | Enabled([Call(1, data)], trace[|steps|], step) :: step.Sync? && step.step.Spurious?
  {
    trace, steps := seq(8, (k: nat) => Stage(data, k)), seq(7, (k: nat) => StageStep(k));
    var first := Init(2);
    assert first.ready == [false, false] && first.buffers == [[], []];
    assert first.barrier.members == [B.Member(B.Outside, 0, 0), B.Member(B.Outside, 0, 0)];
    forall k | 0 <= k < 7
      ensures Shape(trace[k]) && Enabled([Call(1, data)], trace[k], steps[k])
      ensures trace[k + 1] == Do([Call(1, data)], trace[k], steps[k])
    {
      StageGoesOn(data, k);
    }
  }
}
