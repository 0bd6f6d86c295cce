/** OSMP_Barrier: a counter under a mutex and a condition variable. Each stretch of
    code that runs with the mutex held is one step. */
module Barrier {
  import opened Folds

  /** Outside the barrier; inside pthread_cond_wait; or woken by the broadcast and
      about to take the mutex again (line 205). */
  datatype Place = Outside | Waiting | Woken

  /** `arrived` and `left` count, for one process, how many barriers it has entered
      and how many it has returned from. */
  datatype Member = Member(place: Place, arrived: nat, left: nat)

  datatype State = State(cond: int, members: seq<Member>)

  /** A spurious wake-up returns from pthread_cond_wait without a broadcast. */
  datatype Step = Arrive(rank: nat) | Resume(rank: nat) | Spurious(rank: nat)

  ghost function Init(size: nat): State {
    State(size, seq(size, _ => Member(Outside, 0, 0)))
  }

  predicate Enabled(s: State, step: Step) {
    match step
    case Arrive(i) => i < |s.members| && s.members[i].place.Outside?
    case Resume(i) => i < |s.members| && s.members[i].place.Woken?
    case Spurious(i) => i < |s.members| && s.members[i].place.Waiting?
  }

  /** pthread_cond_broadcast. */
  function Woke(m: Member): Member {
    if m.place.Waiting? then m.(place := Woken) else m
  }

  function WakeAll(members: seq<Member>): seq<Member> {
    seq(|members|, i requires 0 <= i < |members| => Woke(members[i]))
  }

  /** Line 205 after the wait. */
  function Left(s: State, i: nat): State
    requires i < |s.members|
  {
    var me := s.members[i];
    State(|s.members|, s.members[i := Member(Outside, me.arrived, me.left + 1)])
  }

  /** Lines 197-206. The last process to arrive wakes the others and goes on to
      line 205 without giving up the mutex; any other one waits, and when it has
      been woken it goes on to line 205 too. The wait is not in a loop, so this is
      the same however it was woken. */
  function Do(s: State, step: Step): State
    requires Enabled(s, step)
  {
    match step
    case Arrive(i) =>
      var me := s.members[i];
      if s.cond - 1 == 0 then
        State(|s.members|, WakeAll(s.members[i := Member(Outside, me.arrived + 1, me.left + 1)]))
      else
        State(s.cond - 1, s.members[i := Member(Waiting, me.arrived + 1, me.left)])
    case Resume(i) =>
      Left(s, i)
    case Spurious(i) =>
      Left(s, i)
  }

  function IsWaiting(m: Member): nat {
    if m.place.Waiting? then 1 else 0
  }

  ghost function Waiters(s: State): nat {
    Sum(IsWaiting, s.members)
  }

  // ------------------------------------------------------------------- safety

  /** In round g everyone is outside, has left g barriers and entered g; or waits
      in the next one; or has been woken and not yet left the g-th. */
  ghost predicate InRound(m: Member, g: nat) {
    match m.place
    case Outside => m.arrived == g && m.left == g
    case Waiting => m.arrived == g + 1 && m.left == g
    case Woken => m.arrived == g && m.left + 1 == g
  }

  /** The counter never falls below what the waiting processes account for. */
  ghost predicate Safe(s: State, g: nat) {
    && (forall i | 0 <= i < |s.members| :: InRound(s.members[i], g))
    && 1 <= s.cond <= |s.members|
    && s.cond + Waiters(s) >= |s.members|
  }

  lemma {:induction false} WaitersBound(members: seq<Member>, i: nat)
    requires i < |members| && !members[i].place.Waiting?
    ensures Sum(IsWaiting, members) <= |members| - 1
    ensures Sum(IsWaiting, members) == |members| - 1 ==>
      forall j | 0 <= j < |members| && j != i :: members[j].place.Waiting?
  {
    if i == 0 {
      AllWaitersBound(members[1..]);
    } else {
      WaitersBound(members[1..], i - 1);
      forall j | 0 <= j < |members| && j != i && Sum(IsWaiting, members) == |members| - 1
        ensures members[j].place.Waiting?
      {
        if j > 0 {
          assert members[1..][j - 1] == members[j];
        }
      }
    }
  }

  lemma {:induction false} AllWaitersBound(members: seq<Member>)
    ensures Sum(IsWaiting, members) <= |members|
    ensures Sum(IsWaiting, members) == |members| ==> forall j | 0 <= j < |members| :: members[j].place.Waiting?
  {
    if members != [] {
      AllWaitersBound(members[1..]);
      forall j | 0 <= j < |members| && Sum(IsWaiting, members) == |members| ensures members[j].place.Waiting? {
        if j > 0 {
          assert members[1..][j - 1] == members[j];
        }
      }
    }
  }

  lemma WokenAreNotWaiting(members: seq<Member>)
    ensures Sum(IsWaiting, WakeAll(members)) == 0
  {
    SumZero(IsWaiting, WakeAll(members));
  }

  /** The broadcast happens only when all the others wait; so it starts the next
      round for everybody, whether or not somebody re-entered early. */
  lemma SafeStep(s: State, step: Step, g: nat) returns (h: nat)
    requires Safe(s, g) && Enabled(s, step) && !step.Spurious?
    ensures Safe(Do(s, step), h)
    ensures h == if step.Arrive? && s.cond == 1 then g + 1 else g
    ensures step.Arrive? && s.cond == 1 ==> forall j | 0 <= j < |s.members| && j != step.rank ::
      s.members[j].place.Waiting?
  {
    var i := step.rank;
    var t := Do(s, step);
    h := g;
    if step.Arrive? && s.cond == 1 {
      h := g + 1;
      WaitersBound(s.members, i);
      WokenAreNotWaiting(s.members[i := Member(Outside, s.members[i].arrived + 1, s.members[i].left + 1)]);
    } else {
      SumUpdate(IsWaiting, s.members, i, t.members[i]);
    }
  }

  ghost predicate Run(size: nat, trace: seq<State>, steps: seq<Step>) {
    && |trace| == |steps| + 1
    && trace[0] == Init(size)
    && forall k | 0 <= k < |steps| :: Enabled(trace[k], steps[k]) && trace[k + 1] == Do(trace[k], steps[k])
  }

  /** None of the first m steps is a spurious wake-up. */
  ghost predicate Undisturbed(steps: seq<Step>, m: nat) {
    forall k | 0 <= k < m && k < |steps| :: !steps[k].Spurious?
  }

  lemma {:induction false} RunIsSafe(size: nat, trace: seq<State>, steps: seq<Step>, m: nat) returns (g: nat)
    requires size > 0 && Run(size, trace, steps) && m < |trace| && Undisturbed(steps, m)
    ensures |trace[m].members| == size && Safe(trace[m], g)
  {
    if m == 0 {
      g := 0;
    } else {
      g := RunIsSafe(size, trace, steps, m - 1);
      assert Enabled(trace[m - 1], steps[m - 1]);
      g := SafeStep(trace[m - 1], steps[m - 1], g);
    }
  }

  /** Without spurious wake-ups no process has returned from its k-th barrier before
      every process has entered its k-th one. No premise about re-entry is needed. */
  lemma NobodyLeavesEarly(size: nat, trace: seq<State>, steps: seq<Step>, m: nat, i: nat, j: nat)
    requires size > 0 && Run(size, trace, steps) && m < |trace| && Undisturbed(steps, m) && i < size && j < size
    ensures |trace[m].members| == size && trace[m].members[i].left <= trace[m].members[j].arrived
  {
    var g := RunIsSafe(size, trace, steps, m);
    assert InRound(trace[m].members[i], g) && InRound(trace[m].members[j], g);
  }

  // -------------------------------------------------------- spurious wake-ups

  /** Somebody has returned from a barrier that somebody else has not entered. */
  ghost predicate LeftEarly(s: State) {
    exists i, j :: 0 <= i < |s.members| && 0 <= j < |s.members| && s.members[j].arrived < s.members[i].left
  }

  /** What a spurious wake-up of i does to a state of an undisturbed run. */
  lemma SpuriousStep(s: State, i: nat, g: nat)
    requires Safe(s, g) && Enabled(s, Spurious(i))
    ensures LeftEarly(Do(s, Spurious(i))) <==> exists j :: 0 <= j < |s.members| && !s.members[j].place.Waiting?
  {
    var t := Do(s, Spurious(i));
    assert InRound(s.members[i], g);
    forall j | 0 <= j < |s.members| ensures t.members[j].arrived == s.members[j].arrived {
    }
    if j :| 0 <= j < |s.members| && !s.members[j].place.Waiting? {
      assert InRound(s.members[j], g);
      assert t.members[j].arrived < t.members[i].left;
    }
    if LeftEarly(t) {
      var k, j :| 0 <= k < |t.members| && 0 <= j < |t.members| && t.members[j].arrived < t.members[k].left;
      assert InRound(s.members[j], g) && InRound(s.members[k], g);
    }
  }

  /** The first spurious wake-up of a run lets a process leave early if and only if
      not everybody is waiting at that moment. */
  lemma SpuriousWakeUpExactly(size: nat, trace: seq<State>, steps: seq<Step>, k: nat)
    requires size > 0 && Run(size, trace, steps) && k < |steps| && Undisturbed(steps, k) && steps[k].Spurious?
    ensures |trace[k].members| == size
    ensures LeftEarly(trace[k + 1]) <==> exists j :: 0 <= j < size && !trace[k].members[j].place.Waiting?
  {
    var g := RunIsSafe(size, trace, steps, k);
    assert Enabled(trace[k], steps[k]);
    SpuriousStep(trace[k], steps[k].rank, g);
  }

  ghost predicate CanLeaveEarly(size: nat) {
    exists trace, steps, m :: 0 <= m < |trace| && Run(size, trace, steps) && LeftEarly(trace[m])
  }

  /** With spurious wake-ups the guarantee breaks on some run if and only if there are
      at least two processes. */
  lemma SpuriousBreaksExactly(size: nat)
    requires size > 0
    ensures CanLeaveEarly(size) <==> size >= 2
  {
    if size >= 2 {
      SpuriousWakeUpBreaksTheBarrier(size);
      var s0 := Init(size);
      var s1 := Do(s0, Arrive(0));
      var s2 := Do(s1, Spurious(0));
      var trace, steps := [s0, s1, s2], [Arrive(0), Spurious(0)];
      assert s2.members[1].arrived < s2.members[0].left;
      assert Run(size, trace, steps) && LeftEarly(trace[2]);
    } else if CanLeaveEarly(size) {
      var trace, steps, m :| 0 <= m < |trace| && Run(size, trace, steps) && LeftEarly(trace[m]);
      AloneNeverWaits(trace, steps, m);
    }
  }

  lemma {:induction false} AloneNeverWaits(trace: seq<State>, steps: seq<Step>, m: nat)
    requires Run(1, trace, steps) && m < |trace|
    ensures |trace[m].members| == 1 == trace[m].cond
    ensures trace[m].members[0].place.Outside? && trace[m].members[0].arrived == trace[m].members[0].left
  {
    if m > 0 {
      AloneNeverWaits(trace, steps, m - 1);
      assert Enabled(trace[m - 1], steps[m - 1]);
    }
  }

  /** The shortest such run: 0 arrives, is woken and leaves, while 1 is still outside. */
  lemma SpuriousWakeUpBreaksTheBarrier(size: nat)
    requires size >= 2
    ensures Enabled(Init(size), Arrive(0)) && Enabled(Do(Init(size), Arrive(0)), Spurious(0))
    ensures var s := Do(Do(Init(size), Arrive(0)), Spurious(0));
      |s.members| == size && s.members[0].left == 1 && s.members[1].arrived == 0
  {
  }

  // ------------------------------------------------------------------ liveness

  /** An arrival has been forgotten: someone woken late has reset the counter. */
  ghost predicate Lost(s: State) {
    s.cond + Waiters(s) > |s.members|
  }

  /** Nobody enters while a woken process has not yet left. */
  ghost predicate Orderly(s: State, step: Step) {
    step.Arrive? ==> forall j | 0 <= j < |s.members| :: !s.members[j].place.Woken?
  }

  ghost predicate AnyWoken(s: State) {
    exists j :: 0 <= j < |s.members| && s.members[j].place.Woken?
  }

  /** Once an arrival is lost no process is ever released again. */
  lemma LostForever(s: State, step: Step, g: nat)
    requires Safe(s, g) && Lost(s) && Enabled(s, step) && !step.Spurious?
    ensures Lost(Do(s, step))
    ensures step.Arrive? ==> Do(s, step).members[step.rank].place.Waiting?
    ensures forall j | 0 <= j < |s.members| && s.members[j].place.Waiting? :: Do(s, step).members[j].place.Waiting?
  {
    var i := step.rank;
    WaitersBound(s.members, i);
    SumUpdate(IsWaiting, s.members, i, Do(s, step).members[i]);
  }

  /** An arrival gets lost exactly when a woken process resets the counter while
      another one already waits for the next round. */
  lemma LostExactly(s: State, step: Step, g: nat)
    requires Safe(s, g) && !Lost(s) && Enabled(s, step) && !step.Spurious?
    ensures Lost(Do(s, step)) <==> step.Resume? && Waiters(s) > 0
  {
    var i := step.rank;
    var t := Do(s, step);
    if step.Arrive? && s.cond == 1 {
      WokenAreNotWaiting(s.members[i := Member(Outside, s.members[i].arrived + 1, s.members[i].left + 1)]);
    } else {
      SumUpdate(IsWaiting, s.members, i, t.members[i]);
    }
  }

  /** What an orderly run keeps: nothing lost, and nobody waits while someone is
      still on the way out. */
  ghost predicate Live(s: State) {
    && s.cond + Waiters(s) == |s.members|
    && (AnyWoken(s) ==> Waiters(s) == 0)
  }

  lemma LiveStep(s: State, step: Step, g: nat)
    requires Safe(s, g) && Live(s) && Enabled(s, step) && Orderly(s, step) && !step.Spurious?
    ensures Live(Do(s, step))
  {
    var i := step.rank;
    var t := Do(s, step);
    LostExactly(s, step, g);
    var h := SafeStep(s, step, g);
    if step.Arrive? && s.cond == 1 {
      WokenAreNotWaiting(s.members[i := Member(Outside, s.members[i].arrived + 1, s.members[i].left + 1)]);
    } else {
      SumUpdate(IsWaiting, s.members, i, t.members[i]);
      if step.Resume? {
        assert s.members[i].place.Woken?;
        assert AnyWoken(s);
      }
    }
  }

  lemma DoomedStep(s: State, step: Step, g: nat)
    requires Safe(s, g) && !Live(s) && Enabled(s, step) && !step.Spurious?
    ensures !Live(Do(s, step))
    ensures step.Arrive? ==> Do(s, step).members[step.rank].place.Waiting?
  {
    if Lost(s) {
      LostForever(s, step, g);
    } else {
      var j :| 0 <= j < |s.members| && s.members[j].place.Woken?;
      WaitersBound(s.members, j);
      SumUpdate(IsWaiting, s.members, step.rank, Do(s, step).members[step.rank]);
      assert step.Arrive? ==> Do(s, step).members[j].place.Woken?;
    }
  }

  /** Entering while someone is on the way out is what spoils the barrier. */
  lemma DisorderlyStep(s: State, step: Step, g: nat)
    requires Safe(s, g) && Live(s) && Enabled(s, step) && !Orderly(s, step) && !step.Spurious?
    ensures !Live(Do(s, step))
  {
    var j :| 0 <= j < |s.members| && s.members[j].place.Woken?;
    WaitersBound(s.members, j);
    var t := Do(s, step);
    SumUpdate(IsWaiting, s.members, step.rank, t.members[step.rank]);
    assert t.members[j].place.Woken? && AnyWoken(t);
    SumMember(IsWaiting, t.members, step.rank);
  }

  /** The bookkeeping is intact exactly as long as nobody has entered the barrier
      while a woken process had not yet left. */
  lemma {:induction false} LiveExactly(size: nat, trace: seq<State>, steps: seq<Step>, m: nat)
    requires size > 0 && Run(size, trace, steps) && m < |trace| && Undisturbed(steps, m)
    ensures |trace[m].members| == size
    ensures Live(trace[m]) <==> forall k | 0 <= k < m :: Orderly(trace[k], steps[k])
  {
    var g := RunIsSafe(size, trace, steps, m);
    if m == 0 {
      SumZero(IsWaiting, trace[0].members);
    } else {
      LiveExactly(size, trace, steps, m - 1);
      g := RunIsSafe(size, trace, steps, m - 1);
      var s, step := trace[m - 1], steps[m - 1];
      assert Enabled(s, step) && trace[m] == Do(s, step);
      if !Live(s) {
        DoomedStep(s, step, g);
      } else if Orderly(s, step) {
        LiveStep(s, step, g);
      } else {
        DisorderlyStep(s, step, g);
      }
    }
  }

  /** In an orderly run the counter is `size` again whenever nobody is inside, and
      the processes inside can never all be stuck: if everybody is inside then
      somebody has been woken and can go on. */
  lemma OrderlyBarrier(size: nat, trace: seq<State>, steps: seq<Step>, m: nat)
    requires size > 0 && Run(size, trace, steps) && m < |trace| && Undisturbed(steps, m)
    requires forall k | 0 <= k < m :: Orderly(trace[k], steps[k])
    ensures var s := trace[m];
      && |s.members| == size
      && ((forall j | 0 <= j < size :: s.members[j].place.Outside?) ==> s.cond == size)
      && ((forall j | 0 <= j < size :: !s.members[j].place.Outside?) ==> AnyWoken(s))
  {
    LiveExactly(size, trace, steps, m);
    var s := trace[m];
    var g := RunIsSafe(size, trace, steps, m);
    if forall j | 0 <= j < size :: s.members[j].place.Outside? {
      SumZero(IsWaiting, s.members);
    }
    if forall j | 0 <= j < size :: !s.members[j].place.Outside? {
      if !AnyWoken(s) {
        AllWaiting(s.members);
      }
    }
  }

  lemma {:induction false} AllWaiting(members: seq<Member>)
    requires forall j | 0 <= j < |members| :: members[j].place.Waiting?
    ensures Sum(IsWaiting, members) == |members|
  {
    if members != [] {
      AllWaiting(members[1..]);
    }
  }

  /** After an entry while a woken process had not yet left, everybody who enters
      the barrier waits in it. */
  lemma NobodyIsReleasedAgain(size: nat, trace: seq<State>, steps: seq<Step>, k: nat, m: nat)
    requires size > 0 && Run(size, trace, steps) && k <= m < |steps| && Undisturbed(steps, m + 1)
    requires !Orderly(trace[k], steps[k]) && steps[m].Arrive?
    ensures |trace[m + 1].members| == size && steps[m].rank < size
    ensures trace[m + 1].members[steps[m].rank].place.Waiting?
  {
    var g := RunIsSafe(size, trace, steps, m);
    assert Enabled(trace[m], steps[m]) && trace[m + 1] == Do(trace[m], steps[m]);
    if m > k {
      LiveExactly(size, trace, steps, m);
      DoomedStep(trace[m], steps[m], g);
    } else {
      var j :| 0 <= j < size && trace[m].members[j].place.Woken?;
      WaitersBound(trace[m].members, j);
      AllInside(trace[m], steps[m].rank, j);
    }
  }

  /** With a woken process around, an arrival is not the last one. */
  lemma AllInside(s: State, i: nat, j: nat)
    requires s.cond + Waiters(s) >= |s.members|
    requires i < |s.members| && s.members[i].place.Outside? && j < |s.members| && s.members[j].place.Woken?
    ensures s.cond > 1
  {
    WaitersBound(s.members, i);
  }

  /** These steps, none of them a spurious wake-up, lead from s to an arrival that
      releases everybody who waits. */
  ghost predicate Releases(s: State, steps: seq<Step>)
    decreases |steps|
  {
    && steps != [] && Enabled(s, steps[0]) && !steps[0].Spurious?
    && if |steps| == 1 then steps[0].Arrive? && Do(s, steps[0]).members[steps[0].rank].place.Outside?
       else Releases(Do(s, steps[0]), steps[1..])
  }

  ghost predicate CanRelease(s: State) {
    exists steps :: Releases(s, steps)
  }

  /** How far the processes are from all waiting. */
  function ToGo(m: Member): nat {
    match m.place
    case Woken => 2
    case Outside => 1
    case Waiting => 0
  }

  /** Let the woken ones leave and then all others enter: the last one releases. */
  lemma {:induction false} LiveReleases(s: State, g: nat) returns (steps: seq<Step>)
    requires Safe(s, g) && Live(s)
    ensures Releases(s, steps)
    decreases Sum(ToGo, s.members)
  {
    var step;
    if j :| 0 <= j < |s.members| && s.members[j].place.Woken? {
      step := Resume(j);
    } else {
      if forall j | 0 <= j < |s.members| :: s.members[j].place.Waiting? {
        AllWaiting(s.members);
      }
      var j :| 0 <= j < |s.members| && s.members[j].place.Outside?;
      step := Arrive(j);
    }
    var t := Do(s, step);
    if step.Arrive? && s.cond == 1 {
      steps := [step];
    } else {
      SumUpdate(ToGo, s.members, step.rank, t.members[step.rank]);
      var h := SafeStep(s, step, g);
      LiveStep(s, step, g);
      steps := LiveReleases(t, h);
      steps := [step] + steps;
      assert Releases(t, steps[1..]);
    }
  }

  lemma {:induction false} DoomedNeverReleases(s: State, steps: seq<Step>, g: nat)
    requires Safe(s, g) && !Live(s)
    ensures !Releases(s, steps)
    decreases |steps|
  {
    if steps != [] && Enabled(s, steps[0]) && !steps[0].Spurious? {
      DoomedStep(s, steps[0], g);
      var h := SafeStep(s, steps[0], g);
      DoomedNeverReleases(Do(s, steps[0]), steps[1..], h);
    }
  }

  /** The barrier can still release the processes that wait in it if and only if, so
      far, nobody has entered it while a woken process had not yet left. */
  lemma WorksExactly(size: nat, trace: seq<State>, steps: seq<Step>, m: nat)
    requires size > 0 && Run(size, trace, steps) && m < |trace| && Undisturbed(steps, m)
    ensures CanRelease(trace[m]) <==> forall k | 0 <= k < m :: Orderly(trace[k], steps[k])
  {
    LiveExactly(size, trace, steps, m);
    var g := RunIsSafe(size, trace, steps, m);
    if Live(trace[m]) {
      var more := LiveReleases(trace[m], g);
    } else if CanRelease(trace[m]) {
      var more :| Releases(trace[m], more);
      DoomedNeverReleases(trace[m], more, g);
    }
  }

  /** Two processes that pass two barriers in a row, as every broadcast does, can
      both end up waiting for good: rank 1 releases rank 0, enters the second
      barrier before rank 0 has left the first, and rank 0 then resets the counter. */
  lemma BackToBackCanDeadlock() returns (trace: seq<State>, steps: seq<Step>)
    ensures Run(2, trace, steps) && Lost(trace[|steps|])
    ensures var s := trace[|steps|]; |s.members| == 2 && forall j | 0 <= j < 2 :: s.members[j] == Member(Waiting, 2, 1)
    ensures forall step :: Enabled(trace[|steps|], step) ==> step.Spurious?
  {
    steps := [Arrive(0), Arrive(1), Arrive(1), Resume(0), Arrive(0)];
    var s0 := Init(2);
    var s1 := State(1, [Member(Waiting, 1, 0), Member(Outside, 0, 0)]);
    var s2 := State(2, [Member(Woken, 1, 0), Member(Outside, 1, 1)]);
    var s3 := State(1, [Member(Woken, 1, 0), Member(Waiting, 2, 1)]);
    var s4 := State(2, [Member(Outside, 1, 1), Member(Waiting, 2, 1)]);
    var s5 := State(1, [Member(Waiting, 2, 1), Member(Waiting, 2, 1)]);
    assert s0.members == [Member(Outside, 0, 0), Member(Outside, 0, 0)];
    assert Do(s0, steps[0]) == s1;
    assert Do(s1, steps[1]) == s2;
    assert Do(s2, steps[2]) == s3;
    assert Do(s3, steps[3]) == s4;
    assert Do(s4, steps[4]) == s5;
    trace := [s0, s1, s2, s3, s4, s5];
    AllWaiting(s5.members);
  }

  /** barrier_t, whose counter the processes share; `state` is history. */
  class CondBarrier {
    const size: nat
    var cond: int
    ghost var state: State

    ghost predicate Valid()
      reads this
    {
      cond == state.cond && size == |state.members|
    }

    /** initMemory, line 150. */
    constructor (size: nat)
      ensures Valid() && this.size == size && state == Init(size)
    {
      this.size := size;
      cond := size;
      state := Init(size);
    }

    /** Lines 198-205 up to the wait, or to the end if this is the last arrival. */
    method Enter(i: nat) returns (broadcast: bool)
      requires Valid() && Enabled(state, Arrive(i))
      modifies this
      ensures Valid() && state == Do(old(state), Arrive(i))
      ensures broadcast <==> state.members[i].place.Outside?
    {
      cond := cond - 1;
      broadcast := cond == 0;
      if broadcast {
        cond := size;
      }
      state := Do(state, Arrive(i));
    }

    /** Line 205 after the wait has returned, for whatever reason. */
    method Leave(ghost step: Step)
      requires Valid() && Enabled(state, step) && !step.Arrive?
      modifies this
      ensures Valid() && state == Do(old(state), step)
    {
      cond := size;
      state := Do(state, step);
    }

    /** Any schedule of the processes: the shared counter goes through the run that
        this schedule makes of the step system. */
    method Schedule(steps: seq<Step>, ghost trace: seq<State>)
      requires Valid() && state == Init(size) && Run(size, trace, steps)
      modifies this
      ensures Valid() && state == trace[|steps|] && cond == trace[|steps|].cond
    {
      for k := 0 to |steps|
        invariant Valid() && state == trace[k]
      {
        assert Enabled(trace[k], steps[k]);
        if steps[k].Arrive? {
          var _ := Enter(steps[k].rank);
        } else {
          Leave(steps[k]);
        }
      }
    }
  }
}
