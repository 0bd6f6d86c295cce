/** OSMP_Bcast, called any number of times in a row by all processes: the root of
    each call writes the broadcast slot and passes two barriers; the others pass
    the first, copy the slot and pass the second. */
module Broadcast {
  import B = Barrier

  type Payload = seq<bv8>

  /** The k-th call of every process has root plan[k].root, whose buffer is
      plan[k].data. */
  datatype Call = Call(root: nat, data: Payload)

  /** `buffers[i]` lists the contents of process i's buffer after each call of its
      that has written or copied; `ready[i]` says that process i has done its part
      since it last left a barrier. */
  datatype State = State(barrier: B.State, slot: Payload, ready: seq<bool>, buffers: seq<seq<Payload>>)

  datatype Step = Write(rank: nat) | Copy(rank: nat) | Sync(step: B.Step)

  ghost predicate Shape(s: State) {
    |s.ready| == |s.buffers| == |s.barrier.members|
  }

  ghost function Init(size: nat): State {
    State(B.Init(size), [], seq(size, _ => false), seq(size, _ => []))
  }

  function CallOf(m: B.Member): nat {
    m.left / 2
  }

  /** Process i has something to do before its next barrier: lines 212-221 for the
      root, lines 234-236 for the others. */
  predicate MustWrite(plan: seq<Call>, m: B.Member, i: nat) {
    m.left % 2 == 0 && CallOf(m) < |plan| && plan[CallOf(m)].root == i
  }

  predicate MustCopy(plan: seq<Call>, m: B.Member, i: nat) {
    m.left % 2 == 1 && CallOf(m) < |plan| && plan[CallOf(m)].root != i
  }

  ghost predicate Enabled(plan: seq<Call>, s: State, step: Step)
    requires Shape(s)
  {
    match step
    case Write(i) =>
      && i < |s.ready| && s.barrier.members[i].place.Outside? && !s.ready[i] && MustWrite(plan, s.barrier.members[i], i)
    case Copy(i) =>
      && i < |s.ready| && s.barrier.members[i].place.Outside? && !s.ready[i] && MustCopy(plan, s.barrier.members[i], i)
    case Sync(b) =>
      && B.Enabled(s.barrier, b)
      && (b.Arrive? ==>
            var m := s.barrier.members[b.rank];
            && CallOf(m) < |plan|
            && (MustWrite(plan, m, b.rank) || MustCopy(plan, m, b.rank) ==> s.ready[b.rank]))
  }

  ghost function Do(plan: seq<Call>, s: State, step: Step): State
    requires Shape(s) && Enabled(plan, s, step)
  {
    match step
    case Write(i) =>
      var data := plan[CallOf(s.barrier.members[i])].data;
      s.(slot := data, ready := s.ready[i := true], buffers := s.buffers[i := s.buffers[i] + [data]])
    case Copy(i) =>
      s.(ready := s.ready[i := true], buffers := s.buffers[i := s.buffers[i] + [s.slot]])
    case Sync(b) =>
      var t := B.Do(s.barrier, b);
      s.(barrier := t,
         ready := if t.members[b.rank].left > s.barrier.members[b.rank].left then s.ready[b.rank := false] else s.ready)
  }

  /** How many calls have filled the buffer of process i. */
  ghost predicate Progress(plan: seq<Call>, m: B.Member, i: nat, ready: bool, buffer: seq<Payload>) {
    && CallOf(m) <= |plan|
    && |buffer| == CallOf(m) + (if MustWrite(plan, m, i) || MustCopy(plan, m, i) then (if ready then 1 else 0)
                                else if m.left % 2 == 1 then 1 else 0)
    && (!m.place.Outside? ==> CallOf(m) < |plan| && (MustWrite(plan, m, i) || MustCopy(plan, m, i) ==> ready))
    && (forall k | 0 <= k < |buffer| :: k < |plan| && buffer[k] == plan[k].data)
  }

  /** Between the two barriers of a call the slot holds that call's data; before
      the first one it does as soon as the root has written. */
  ghost predicate SlotInv(plan: seq<Call>, s: State, g: nat)
    requires Shape(s)
  {
    if g % 2 == 1 then
      g / 2 < |plan| && s.slot == plan[g / 2].data
    else
      forall i | 0 <= i < |s.ready| && s.barrier.members[i].left == g && MustWrite(plan, s.barrier.members[i], i)
               && s.ready[i] ::
        s.slot == plan[g / 2].data
  }

  ghost predicate Inv(plan: seq<Call>, s: State, g: nat) {
    && Shape(s)
    && B.Safe(s.barrier, g)
    && (forall i | 0 <= i < |s.ready| :: Progress(plan, s.barrier.members[i], i, s.ready[i], s.buffers[i]))
    && SlotInv(plan, s, g)
  }

  lemma KeepWrite(plan: seq<Call>, s: State, i: nat, g: nat)
    requires Inv(plan, s, g) && Enabled(plan, s, Write(i))
    ensures Inv(plan, Do(plan, s, Write(i)), g)
  {
    assert B.InRound(s.barrier.members[i], g);
    assert Progress(plan, s.barrier.members[i], i, s.ready[i], s.buffers[i]);
  }

  lemma KeepCopy(plan: seq<Call>, s: State, i: nat, g: nat)
    requires Inv(plan, s, g) && Enabled(plan, s, Copy(i))
    ensures Inv(plan, Do(plan, s, Copy(i)), g)
  {
    assert B.InRound(s.barrier.members[i], g);
    assert Progress(plan, s.barrier.members[i], i, s.ready[i], s.buffers[i]);
  }

  lemma KeepWait(plan: seq<Call>, s: State, i: nat, g: nat)
    requires Inv(plan, s, g) && Enabled(plan, s, Sync(B.Arrive(i))) && s.barrier.cond != 1
    ensures Inv(plan, Do(plan, s, Sync(B.Arrive(i))), g)
  {
    var t := Do(plan, s, Sync(B.Arrive(i)));
    var h := B.SafeStep(s.barrier, B.Arrive(i), g);
    forall j | 0 <= j < |t.ready| ensures Progress(plan, t.barrier.members[j], j, t.ready[j], t.buffers[j]) {
      assert Progress(plan, s.barrier.members[j], j, s.ready[j], s.buffers[j]);
    }
  }

  lemma KeepResume(plan: seq<Call>, s: State, i: nat, g: nat)
    requires Inv(plan, s, g) && Enabled(plan, s, Sync(B.Resume(i)))
    ensures Inv(plan, Do(plan, s, Sync(B.Resume(i))), g)
  {
    var t := Do(plan, s, Sync(B.Resume(i)));
    var h := B.SafeStep(s.barrier, B.Resume(i), g);
    forall j | 0 <= j < |t.ready| ensures Progress(plan, t.barrier.members[j], j, t.ready[j], t.buffers[j]) {
      assert Progress(plan, s.barrier.members[j], j, s.ready[j], s.buffers[j]);
    }
  }

  /** The last arrival: everybody has done its part of the call, so the root has
      written before the first barrier and all have copied before the second. */
  lemma KeepRelease(plan: seq<Call>, s: State, i: nat, g: nat)
    requires Inv(plan, s, g) && Enabled(plan, s, Sync(B.Arrive(i))) && s.barrier.cond == 1
    requires forall k | 0 <= k < |plan| :: plan[k].root < |s.ready|
    ensures Inv(plan, Do(plan, s, Sync(B.Arrive(i))), g + 1)
  {
    var t := Do(plan, s, Sync(B.Arrive(i)));
    var h := B.SafeStep(s.barrier, B.Arrive(i), g);
    forall j | 0 <= j < |s.ready| ensures B.InRound(s.barrier.members[j], g) && s.barrier.members[j].left == g {
      assert j == i || s.barrier.members[j].place.Waiting?;
    }
    assert Progress(plan, s.barrier.members[i], i, s.ready[i], s.buffers[i]);
    if g % 2 == 0 {
      var root := plan[g / 2].root;
      assert Progress(plan, s.barrier.members[root], root, s.ready[root], s.buffers[root]);
      assert MustWrite(plan, s.barrier.members[root], root);
    }
    forall j | 0 <= j < |t.ready| ensures Progress(plan, t.barrier.members[j], j, t.ready[j], t.buffers[j]) {
      assert Progress(plan, s.barrier.members[j], j, s.ready[j], s.buffers[j]);
    }
  }

  ghost predicate Run(size: nat, plan: seq<Call>, trace: seq<State>, steps: seq<Step>) {
    && size > 0
    && (forall k | 0 <= k < |plan| :: plan[k].root < size)
    && |trace| == |steps| + 1
    && trace[0] == Init(size)
    && forall k | 0 <= k < |steps| ::
         Shape(trace[k]) && Enabled(plan, trace[k], steps[k]) && trace[k + 1] == Do(plan, trace[k], steps[k])
  }

  /** The first m steps contain no spurious wake-up. */
  ghost predicate Undisturbed(steps: seq<Step>, m: nat) {
    forall k | 0 <= k < m && k < |steps| :: steps[k].Sync? ==> !steps[k].step.Spurious?
  }

  lemma KeepStep(plan: seq<Call>, s: State, step: Step, g: nat) returns (h: nat)
    requires Inv(plan, s, g) && Enabled(plan, s, step) && (step.Sync? ==> !step.step.Spurious?)
    requires forall k | 0 <= k < |plan| :: plan[k].root < |s.ready|
    ensures Inv(plan, Do(plan, s, step), h) && |Do(plan, s, step).ready| == |s.ready|
  {
    h := g;
    match step
    case Write(i) => KeepWrite(plan, s, i, g);
    case Copy(i) => KeepCopy(plan, s, i, g);
    case Sync(b) =>
      if b.Arrive? && s.barrier.cond == 1 {
        KeepRelease(plan, s, b.rank, g);
        h := g + 1;
      } else if b.Arrive? {
        KeepWait(plan, s, b.rank, g);
      } else {
        KeepResume(plan, s, b.rank, g);
      }
  }

  lemma {:induction false} RunKeepsInv(size: nat, plan: seq<Call>, trace: seq<State>, steps: seq<Step>, m: nat)
    returns (g: nat)
    requires Run(size, plan, trace, steps) && m < |trace| && Undisturbed(steps, m)
    ensures |trace[m].ready| == size && Inv(plan, trace[m], g)
  {
    if m == 0 {
      g := 0;
    } else {
      g := RunKeepsInv(size, plan, trace, steps, m - 1);
      assert Enabled(plan, trace[m - 1], steps[m - 1]) && trace[m] == Do(plan, trace[m - 1], steps[m - 1]);
      g := KeepStep(plan, trace[m - 1], steps[m - 1], g);
    }
  }

  /** Whatever the interleaving and however many broadcasts follow each other, as long
      as there are no spurious wake-ups: every buffer that a process has got from its
      calls is that call's root's payload, and a process that has returned from a call
      has got it. */
  lemma EveryBufferIsTheRoots(size: nat, plan: seq<Call>, trace: seq<State>, steps: seq<Step>, m: nat, i: nat)
    requires Run(size, plan, trace, steps) && m < |trace| && Undisturbed(steps, m) && i < size
    ensures Shape(trace[m]) && |trace[m].ready| == size
    ensures var s := trace[m];
      && CallOf(s.barrier.members[i]) <= |s.buffers[i]| <= |plan|
      && forall k | 0 <= k < |s.buffers[i]| :: s.buffers[i][k] == plan[k].data
  {
    var g := RunKeepsInv(size, plan, trace, steps, m);
    var s := trace[m];
    assert Progress(plan, s.barrier.members[i], i, s.ready[i], s.buffers[i]);
    var b := s.buffers[i];
    assert |b| > 0 ==> b[|b| - 1] == plan[|b| - 1].data;
  }

  /** A run that goes on by one step. */
  lemma RunGoesOn(size: nat, plan: seq<Call>, trace: seq<State>, steps: seq<Step>, step: Step)
    requires Run(size, plan, trace, steps) && Shape(trace[|steps|]) && Enabled(plan, trace[|steps|], step)
    ensures Run(size, plan, trace + [Do(plan, trace[|steps|], step)], steps + [step])
  {
  }
}
