/** OSMP_Bcast when pthread_cond_wait may return without a broadcast. */
module BroadcastSpurious {
  import B = Barrier
  import opened Broadcast

  /** The buffer of some process holds something else than its call's root has sent. */
  ghost predicate WrongBuffer(plan: seq<Call>, s: State) {
    exists i, k :: 0 <= i < |s.buffers| && 0 <= k < |s.buffers[i]| && k < |plan| && s.buffers[i][k] != plan[k].data
  }

  ghost predicate CanGoWrong(size: nat, plan: seq<Call>) {
    exists trace: seq<State>, steps: seq<Step>, m ::
      Run(size, plan, trace, steps) && 0 <= m < |trace| && WrongBuffer(plan, trace[m])
  }

  /** A single process never waits, so nothing can wake it. */
  lemma {:induction false} AloneIsUndisturbed(plan: seq<Call>, trace: seq<State>, steps: seq<Step>, m: nat)
    requires Run(1, plan, trace, steps) && m < |trace|
    ensures |trace[m].barrier.members| == 1 == trace[m].barrier.cond && trace[m].barrier.members[0].place.Outside?
    ensures Undisturbed(steps, m)
    decreases m
  {
    if m > 0 {
      AloneIsUndisturbed(plan, trace, steps, m - 1);
      assert Enabled(plan, trace[m - 1], steps[m - 1]);
    }
  }

  /** If nothing but empty payloads is sent, nothing else is ever received. */
  lemma {:induction false} EmptyStaysEmpty(size: nat, plan: seq<Call>, trace: seq<State>, steps: seq<Step>, m: nat)
    requires Run(size, plan, trace, steps) && m < |trace|
    requires forall k | 0 <= k < |plan| :: plan[k].data == []
    ensures trace[m].slot == [] && Shape(trace[m])
    ensures forall i, k | 0 <= i < |trace[m].buffers| && 0 <= k < |trace[m].buffers[i]| :: trace[m].buffers[i][k] == []
    decreases m
  {
    if m > 0 {
      EmptyStaysEmpty(size, plan, trace, steps, m - 1);
      assert Shape(trace[m - 1]) && Enabled(plan, trace[m - 1], steps[m - 1]);
    }
  }

  // ------------------------------------------------------------ a process alone

  /** Process r has come through c calls all by itself; nobody else has done anything. */
  ghost predicate Ahead(s: State, size: nat, r: nat, left: nat, filled: nat) {
    && Shape(s) && |s.ready| == size && r < size
    && s.barrier.cond == size && !s.ready[r] && s.slot == []
    && s.barrier.members[r] == B.Member(B.Outside, left, left) && |s.buffers[r]| == filled
  }

  /** In through the front of a barrier and out by a spurious wake-up. */
  lemma SlipThrough(size: nat, plan: seq<Call>, trace: seq<State>, steps: seq<Step>, r: nat)
    returns (trace': seq<State>, steps': seq<Step>)
    requires size >= 2 && Run(size, plan, trace, steps)
    requires var s := trace[|steps|];
      && Shape(s) && |s.ready| == size && r < size && s.barrier.cond == size
      && s.barrier.members[r].place.Outside? && CallOf(s.barrier.members[r]) < |plan|
      && (MustWrite(plan, s.barrier.members[r], r) || MustCopy(plan, s.barrier.members[r], r) ==> s.ready[r])
    ensures Run(size, plan, trace', steps')
    ensures var s, t, m := trace[|steps|], trace'[|steps'|], trace[|steps|].barrier.members[r];
      && Shape(t) && |t.ready| == size && t.barrier.cond == size && !t.ready[r]
      && t.slot == s.slot && t.buffers == s.buffers
      && t.barrier.members[r] == B.Member(B.Outside, m.arrived + 1, m.left + 1)
  {
    var s := trace[|steps|];
    var enter, slip := Sync(B.Arrive(r)), Sync(B.Spurious(r));
    RunGoesOn(size, plan, trace, steps, enter);
    trace', steps' := trace + [Do(plan, s, enter)], steps + [enter];
    var u := trace'[|steps'|];
    RunGoesOn(size, plan, trace', steps', slip);
    trace', steps' := trace' + [Do(plan, u, slip)], steps' + [slip];
  }

  lemma Work(size: nat, plan: seq<Call>, trace: seq<State>, steps: seq<Step>, step: Step)
    returns (trace': seq<State>, steps': seq<Step>)
    requires Run(size, plan, trace, steps) && Shape(trace[|steps|]) && Enabled(plan, trace[|steps|], step)
    ensures Run(size, plan, trace', steps') && trace'[|steps'|] == Do(plan, trace[|steps|], step)
  {
    RunGoesOn(size, plan, trace, steps, step);
    trace', steps' := trace + [Do(plan, trace[|steps|], step)], steps + [step];
  }

  lemma OneCallAhead(size: nat, plan: seq<Call>, trace: seq<State>, steps: seq<Step>, r: nat, c: nat)
    returns (trace': seq<State>, steps': seq<Step>)
    requires size >= 2 && Run(size, plan, trace, steps) && c < |plan| && plan[c].data == []
    requires Ahead(trace[|steps|], size, r, 2 * c, c)
    ensures Run(size, plan, trace', steps') && Ahead(trace'[|steps'|], size, r, 2 * (c + 1), c + 1)
  {
    trace', steps' := trace, steps;
    if plan[c].root == r {
      trace', steps' := Work(size, plan, trace', steps', Write(r));
    }
    trace', steps' := SlipThrough(size, plan, trace', steps', r);
    if plan[c].root != r {
      trace', steps' := Work(size, plan, trace', steps', Copy(r));
    }
    trace', steps' := SlipThrough(size, plan, trace', steps', r);
  }

  lemma {:induction false} GoAhead(size: nat, plan: seq<Call>, r: nat, c: nat)
    returns (trace: seq<State>, steps: seq<Step>)
    requires size >= 2 && r < size && c <= |plan| && (forall k | 0 <= k < |plan| :: plan[k].root < size)
    requires forall k | 0 <= k < c :: plan[k].data == []
    ensures Run(size, plan, trace, steps) && Ahead(trace[|steps|], size, r, 2 * c, c)
    decreases c
  {
    if c == 0 {
      trace, steps := [Init(size)], [];
    } else {
      trace, steps := GoAhead(size, plan, r, c - 1);
      trace, steps := OneCallAhead(size, plan, trace, steps, r, c - 1);
    }
  }

  /** A process that is not the root of call c slips through its first barrier and
      copies the slot before the root has written. */
  lemma CopyTooEarly(size: nat, plan: seq<Call>, c: nat) returns (trace: seq<State>, steps: seq<Step>)
    requires size >= 2 && c < |plan| && (forall k | 0 <= k < |plan| :: plan[k].root < size)
    requires plan[c].data != [] && forall k | 0 <= k < c :: plan[k].data == []
    ensures Run(size, plan, trace, steps) && WrongBuffer(plan, trace[|steps|])
  {
    var r := if plan[c].root == 0 then 1 else 0;
    trace, steps := GoAhead(size, plan, r, c);
    trace, steps := SlipThrough(size, plan, trace, steps, r);
    trace, steps := Work(size, plan, trace, steps, Copy(r));
    assert trace[|steps|].buffers[r][c] == [];
  }

  lemma {:induction false} FirstNonEmpty(plan: seq<Call>, k: nat) returns (c: nat)
    requires k < |plan| && plan[k].data != []
    ensures c <= k && plan[c].data != [] && forall j | 0 <= j < c :: plan[j].data == []
  {
    c := k;
    if j :| 0 <= j < k && plan[j].data != [] {
      c := FirstNonEmpty(plan, j);
    }
  }

  /** With spurious wake-ups a process can get a buffer that is not its root's if and
      only if there are at least two processes and anything is sent at all. */
  lemma GoesWrongExactly(size: nat, plan: seq<Call>)
    requires size > 0 && (forall k | 0 <= k < |plan| :: plan[k].root < size)
    ensures CanGoWrong(size, plan) <==> size >= 2 && exists k :: 0 <= k < |plan| && plan[k].data != []
  {
    if CanGoWrong(size, plan) {
      var trace: seq<State>, steps: seq<Step>, m :|
        Run(size, plan, trace, steps) && 0 <= m < |trace| && WrongBuffer(plan, trace[m]);
      if size == 1 {
        AloneIsUndisturbed(plan, trace, steps, m);
        EveryBufferIsTheRoots(size, plan, trace, steps, m, 0);
      }
      if forall k | 0 <= k < |plan| :: plan[k].data == [] {
        EmptyStaysEmpty(size, plan, trace, steps, m);
      }
    }
    if size >= 2 && exists k :: 0 <= k < |plan| && plan[k].data != [] {
      var k :| 0 <= k < |plan| && plan[k].data != [];
      var c := FirstNonEmpty(plan, k);
      var trace, steps := CopyTooEarly(size, plan, c);
      assert WrongBuffer(plan, trace[|steps|]);
    }
  }
}
