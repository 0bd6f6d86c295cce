/** handle_event and handle_events on the real timer list. */
module EventLoop {
  import opened Basics
  import opened Timers
  import opened Agenda
  import F = FdTable

  /** The agenda that a list of timers stands for. */
  ghost function View(s: seq<Timer>): (v: seq<Entry<Timer>>)
    reads s
    ensures |v| == |s|
    ensures forall i | 0 <= i < |s| :: v[i] == Entry(s[i], s[i].stopTime)
  {
    seq(|s|, i requires 0 <= i < |s| reads s => Entry(s[i], s[i].stopTime))
  }

  /** A valid list stands for a sane agenda. */
  lemma SaneView(s: seq<Timer>)
    requires Distinct(s) && Sorted(s) && AllArmed(s)
    ensures Sane(View(s))
  {
    forall i | 0 <= i < |s| ensures View(s)[i].deadline.Normal() {
      assert Armed(s, i);
    }
    forall i, j | 0 <= i < j < |s| ensures Ordered(View(s), i, j) {
      assert Differ(s, i, j) && InOrder(s, i, j);
    }
  }

  lemma ListedView(s: seq<Timer>, t: Timer)
    ensures Listed(View(s), t) <==> t in s
  {
    if t in s {
      var i :| 0 <= i < |s| && s[i] == t;
      assert View(s)[i].timer == t;
    }
  }

  ghost predicate Punctual(log: seq<Firing<Timer>>) {
    && (forall k | 0 <= k < |log| :: NotAfter(log[k].deadline, log[k].at))
    && (forall j, k | 0 <= j < k < |log| :: NotAfter(log[j].deadline, log[k].deadline))
  }

  lemma PunctualRun(events: seq<Event<Timer>>, t: Timeval)
    requires Runs([], events) && Clocked([], events, t) && t.Normal()
    ensures Punctual(Log([], events))
  {
    FiredInOrder([], events, t, t);
  }

  lemma InsertedMembers(s: seq<Timer>, k: nat, t: Timer)
    requires k <= |s|
    ensures forall u :: u in Inserted(s, k, t) <==> u == t || u in s
  {
    assert s == s[..k] + s[k..];
  }

  lemma RemovedMembers(s: seq<Timer>, k: nat)
    requires k < |s| && Distinct(s)
    ensures forall u :: u in Removed(s, k) <==> u != s[k] && u in s
  {
    RemovedDistinct(s, k);
    assert s == s[..k] + [s[k]] + s[k + 1..];
  }

  lemma InsertedView(s: seq<Timer>, k: nat, t: Timer)
    requires k <= |s| && Slot(s, t.stopTime, k)
    ensures View(Inserted(s, k, t)) == Insert(View(s), Entry(t, t.stopTime))
  {
    InsertAt(View(s), Entry(t, t.stopTime), k);
  }

  lemma RemovedView(s: seq<Timer>, v: seq<Entry<Timer>>, k: nat)
    requires k < |s| && forall i | 0 <= i < |s| && i != k :: i < |v| && v[i] == Entry(s[i], s[i].stopTime)
    requires |v| == |s|
    ensures View(Removed(s, k)) == v[..k] + v[k + 1..]
  {
  }

  class Loop<C> {
    const list: TimerList
    const table: F.Table<C>
    /** Every timer of the program. */
    ghost const pool: set<Timer>

    /** A timer that is not in the list looks as create_timer left it. */
    ghost predicate TimersValid()
      reads this, list, list.timers, pool
    {
      && list.Valid()
      && (forall t | t in list.timers :: t in pool)
      && Quiet(list.timers)
    }

    /** Every armed timer is recognised as started. */
    ghost predicate AllKnown()
      reads this, list, list.timers
    {
      forall t | t in list.timers :: t.Known()
    }

    ghost predicate Quiet(s: seq<Timer>)
      reads pool
    {
      forall t | t in pool && t !in s :: !t.Started()
    }

    ghost predicate Valid()
      reads this, list, list.timers, pool, table, table.cb
    {
      TimersValid() && AllKnown() && table.Valid()
    }

    /** What the environment may ask for: timers of the program, and a clock that does
        not stand at 0:0. */
    ghost predicate Legal(op: Op<Timer>) {
      && op.timer in pool
      && (op.Start? ==> op.now.Normal() && (!op.now.Zero() || op.timeout > 0))
    }

    /** init_cblib, for a program with these timers. */
    constructor (ghost timers: set<Timer>)
      requires forall t | t in timers :: !t.Started()
      ensures Valid() && pool == timers && list.timers == [] && table.Registered() == map[]
      ensures fresh(list) && fresh(table) && fresh(table.cb)
    {
      list := new TimerList();
      table := new F.Table<C>();
      pool := timers;
    }

    /** start_timer is Insert, or nothing for a timer that is listed. It goes wrong exactly
        if the timer is listed and not recognised as started: the list becomes a ring. */
    method Start(t: Timer, now: Timeval, timeout: nat)
      requires TimersValid() && t in pool && now.Normal()
      modifies list, pool
      ensures old(t in list.timers && !t.Started()) ==> list.timers == [t] && list.Ring(t) && !list.Valid()
      ensures !old(t in list.timers && !t.Started()) ==>
        TimersValid() && View(list.timers) == Apply(old(View(list.timers)), Op.Start(t, now, timeout))
      ensures !old(t in list.timers && !t.Started()) && old(AllKnown()) && (!now.Zero() || timeout > 0) ==> AllKnown()
    {
      ghost var s := list.timers;
      ListedView(s, t);
      ghost var started, lost := t.Started(), t in s && !t.Started();
      assert forall u | u in pool && u !in s :: !u.Started();
      hide Quiet, Insert, Slot, Inserted, Deadline;
      var k := list.StartTimer(t, now, timeout);
      if started {
        QuietAgain(s);
      } else if !lost {
        assert old(AllKnown()) ==> forall u | u in s :: u.Known();
        assert View(s) == old(View(s));
        InsertedView(s, k, t);
        QuietWith(s, k, t);
        InsertedMembers(s, k, t);
        assert View(list.timers) == Insert(old(View(list.timers)), Entry(t, Deadline(now, timeout)));
        assert View(list.timers) == Apply(old(View(list.timers)), Op.Start(t, now, timeout));
      }
    }

    lemma QuietAgain(s: seq<Timer>)
      requires forall u | u in pool && u !in s :: !u.Started()
      ensures Quiet(s)
    {
    }

    lemma QuietWith(s: seq<Timer>, k: nat, t: Timer)
      requires k <= |s| && t in pool && forall u | u in s :: u in pool
      requires forall u | u in pool && u !in s && u != t :: !u.Started()
      ensures Quiet(Inserted(s, k, t)) && forall u | u in Inserted(s, k, t) :: u in pool
    {
      InsertedMembers(s, k, t);
    }

    /** stop_timer is Delete. */
    method Stop(t: Timer)
      requires TimersValid() && t in pool
      modifies list, pool
      ensures TimersValid() && View(list.timers) == Delete(old(View(list.timers)), t)
      ensures old(AllKnown()) ==> AllKnown()
    {
      hide Delete;
      ghost var s, v := list.timers, View(list.timers);
      ListedView(s, t);
      var k := list.StopTimer(t);
      if t in s {
        Apart(s, k);
        RemovedMembers(s, k);
        DeleteAt(v, t, k);
        RemovedView(s, v, k);
      } else {
        DeleteNothing(v, t);
      }
    }

    /** The timer calls of a callback. */
    method Call(ops: seq<Op<Timer>>)
      requires TimersValid() && AllKnown() && forall i | 0 <= i < |ops| :: Legal(ops[i])
      modifies list, pool
      ensures TimersValid() && AllKnown() && NormalOps(ops)
      ensures View(list.timers) == ApplyAll(old(View(list.timers)), ops)
    {
      ghost var v := View(list.timers);
      for i := 0 to |ops|
        invariant TimersValid() && AllKnown() && NormalOps(ops)
        invariant ApplyAll(v, ops) == ApplyAll(View(list.timers), ops[i..])
      {
        match ops[i] {
          case Start(t, now, timeout) => Start(t, now, timeout);
          case Stop(t) => Stop(t);
        }
        assert ops[i..][0] == ops[i] && ops[i..][1..] == ops[i + 1..];
      }
    }

    /** handle_event. `ready` is what select leaves in rset; when it fails, that is all
        of read_fds. `rounds` says what the callbacks that are called do to the table:
        the callback of a timer is the only one of its round. The head of the list fires,
        and no descriptor callback is called, if the head's deadline is over or select
        reports that its time is; otherwise no timer fires. */
    method HandleEvent(e: Event<Timer>, rounds: seq<seq<F.Act<C>>>)
      returns (fired: seq<Firing<Timer>>, timeout: Option<Timeval>, called: seq<int>, callbacks: seq<C>)
      requires Valid() && forall i | 0 <= i < |e.calls| :: Legal(e.calls[i])
      requires e.now.Normal() && Possible(View(list.timers), e) && F.AllFitting(rounds)
      modifies list, pool, table, table.cb
      ensures Valid() && View(list.timers) == Handle(old(View(list.timers)), e)
      ensures fired == Fired(old(View(list.timers)), e)
      ensures old(list.timers != [] && list.timers[0].stopTime.Before(e.now)) ==>
        fired == [Firing(old(list.timers[0]), old(list.timers[0].stopTime), e.now)] && called == []
      ensures !old(list.timers != [] && list.timers[0].stopTime.Before(e.now)) && e.wake.Elapsed? ==>
        && old(list.timers) != [] && called == []
        && fired == [Firing(old(list.timers[0]), old(list.timers[0].stopTime), e.back)]
      ensures !old(list.timers != [] && list.timers[0].stopTime.Before(e.now)) && !e.wake.Elapsed? ==> fired == []
      ensures timeout.Some? ==> timeout.value.Normal() && timeout.value.sec >= 0
      ensures timeout.Some? ==> old(list.timers) != [] && timeout.value == Timeout(old(list.timers[0].stopTime), e.now)
      ensures timeout.None? <==> old(list.timers == [] || list.timers[0].stopTime.Before(e.now))
      ensures table.Registered() == F.After(old(table.Registered()), rounds, |fired| + |called|)
      ensures fired == [] ==> F.RoundIs(called, Reported(e, old(table.Registered())), old(table.Registered()), rounds)
      ensures F.CallbacksOf(callbacks, called, old(table.Registered()), rounds)
      ensures fired == [] && (forall k | 0 <= k < |rounds| :: rounds[k] == []) ==>
        forall fd :: fd in called <==> fd in old(table.Registered()) && (e.wake.Ready? ==> fd in e.wake.fds)
    {
      hide Handle, Fired, ApplyAll, F.RoundIs, F.Bindings, F.WellFormed, F.IsMaximum, F.After, F.CallbacksOf;
      FiresExactly(View(list.timers), e);
      F.CallbacksStart(table.Registered(), rounds);
      fired, timeout, called, callbacks := [], None, [], [];
      var timer := list.head;
      if timer != null && timer.stopTime.Before(e.now) {
        fired := FireHead(e, timer, e.now, rounds);
        return;
      }
      if timer != null {
        timeout := Some(Timeout(timer.stopTime, e.now));
        assert Armed(list.timers, 0);
        TimeoutIsProper(timer.stopTime, e.now);
      }
      if e.wake.Elapsed? {
        fired := FireHead(e, timer, e.back, rounds);
      } else {
        called, callbacks := CallReported(e, rounds);
      }
    }

    /** The branch for descriptors, with the timer calls of the callbacks. */
    method CallReported(e: Event<Timer>, rounds: seq<seq<F.Act<C>>>) returns (called: seq<int>, callbacks: seq<C>)
      requires Valid() && (forall i | 0 <= i < |e.calls| :: Legal(e.calls[i])) && F.AllFitting(rounds)
      modifies list, pool, table, table.cb
      ensures Valid() && NormalOps(e.calls)
      ensures View(list.timers) == ApplyAll(old(View(list.timers)), e.calls)
      ensures table.Registered() == F.After(old(table.Registered()), rounds, |called|)
      ensures F.RoundIs(called, Reported(e, old(table.Registered())), old(table.Registered()), rounds)
      ensures F.CallbacksOf(callbacks, called, old(table.Registered()), rounds)
      ensures (forall k | 0 <= k < |rounds| :: rounds[k] == []) ==>
        forall fd :: fd in called <==> fd in old(table.Registered()) && (e.wake.Ready? ==> fd in e.wake.fds)
    {
      hide F.RoundIs, F.Bindings, F.WellFormed, F.IsMaximum, F.After, F.CallbacksOf, ApplyAll;
      var ready := if e.wake.Ready? then e.wake.fds else table.readFds;
      ghost var m := table.Registered();
      called, callbacks := table.Dispatch(ready, rounds);
      if forall k | 0 <= k < |rounds| :: rounds[k] == [] {
        F.QuietRound(called, ready, m, rounds);
      }
      Call(e.calls);
    }

    /** stop_timer on the head and its callback. */
    method FireHead(e: Event<Timer>, timer: Timer, at: Timeval, rounds: seq<seq<F.Act<C>>>)
      returns (fired: seq<Firing<Timer>>)
      requires Valid() && (forall i | 0 <= i < |e.calls| :: Legal(e.calls[i])) && F.AllFitting(rounds)
      requires list.timers != [] && timer == list.timers[0]
      modifies list, pool, table, table.cb
      ensures Valid() && NormalOps(e.calls)
      ensures View(list.timers) == ApplyAll(old(View(list.timers))[1..], e.calls)
      ensures fired == [Firing(timer, old(timer.stopTime), at)]
      ensures table.Registered() == F.After(old(table.Registered()), rounds, 1)
    {
      fired := [Firing(timer, timer.stopTime, at)];
      Stop(timer);
      Call(e.calls);
      F.AfterOne(table.Registered(), rounds, 0);
      table.Perform(F.ActsOf(rounds, 0));
    }

    /** handle_events, as far as it gets: the log of the run, and with a clock and a
        select that keep their contracts, timers fire in deadline order and not early.
        `rounds[i]` is what the callbacks of the i-th event do to the table, and
        `calls[i]` how many of them there are. */
    method HandleEvents(events: seq<Event<Timer>>, rounds: seq<seq<seq<F.Act<C>>>>, ghost t: Timeval)
      returns (log: seq<Firing<Timer>>, ghost calls: seq<nat>)
      requires Valid() && Runs(View(list.timers), events) && |rounds| == |events|
      requires forall i | 0 <= i < |events| :: CanHandle(events[i], rounds[i])
      modifies list, pool, table, table.cb
      ensures Valid() && View(list.timers) == Final(old(View(list.timers)), events)
      ensures log == Log(old(View(list.timers)), events)
      ensures old(list.timers) == [] && t.Normal() && Clocked(old(View(list.timers)), events, t) ==> Punctual(log)
      ensures |calls| == |rounds| && table.Registered() == AfterRounds(old(table.Registered()), rounds, calls, |rounds|)
    {
      hide Runs, Final, Log, Handle, Fired, Possible, Clocked, Punctual, F.Bindings, F.WellFormed, F.IsMaximum, F.After;
      ghost var v, m := View(list.timers), table.Registered();
      log, calls := [], [];
      assert events[0..] == events;
      for i := 0 to |events|
        invariant Valid() && Runs(View(list.timers), events[i..])
        invariant Final(v, events) == Final(View(list.timers), events[i..])
        invariant Log(v, events) == log + Log(View(list.timers), events[i..])
        invariant |calls| == i && table.Registered() == AfterRounds(m, rounds, calls, i)
      {
        RunStep(View(list.timers), events, i, log);
        assert CanHandle(events[i], rounds[i]);
        ghost var before := calls;
        var fired, _, called, _ := HandleEvent(events[i], rounds[i]);
        log, calls := log + fired, calls + [|fired| + |called|];
        SameCalls(m, rounds, before, calls, i);
      }
      assert events[|events|..] == [] && log + [] == log;
      RunEnd(View(list.timers));
      if old(list.timers) == [] && t.Normal() && Clocked(v, events, t) {
        PunctualRun(events, t);
      }
    }

    ghost predicate CanHandle(e: Event<Timer>, rounds: seq<seq<F.Act<C>>>) {
      e.now.Normal() && F.AllFitting(rounds) && forall i | 0 <= i < |e.calls| :: Legal(e.calls[i])
    }
  }

  /** The descriptors that handle_event finds in rset: after an error of select these are
      all registered ones. */
  ghost function Reported<C>(e: Event<Timer>, m: map<int, C>): set<int> {
    if e.wake.Ready? then e.wake.fds else m.Keys
  }

  /** The bindings after n events of which the i-th made calls[i] callbacks. */
  ghost function AfterRounds<C>(m: map<int, C>, rounds: seq<seq<seq<F.Act<C>>>>, calls: seq<nat>, n: nat): map<int, C>
    requires n <= |rounds| && n <= |calls|
  {
    if n == 0 then m else F.After(AfterRounds(m, rounds, calls, n - 1), rounds[n - 1], calls[n - 1])
  }

  lemma {:induction false} SameCalls<C>(m: map<int, C>, rounds: seq<seq<seq<F.Act<C>>>>, c: seq<nat>,
                                         d: seq<nat>, n: nat)
    requires n <= |rounds| && n <= |c| && n <= |d| && forall i | 0 <= i < n :: c[i] == d[i]
    ensures AfterRounds(m, rounds, c, n) == AfterRounds(m, rounds, d, n)
  {
    if n > 0 {
      SameCalls(m, rounds, c, d, n - 1);
    }
  }
}
