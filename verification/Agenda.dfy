/** What cblib's event loop does, on values: the agenda of armed timers, and the runs
    of handle_event on it. EventLoop.dfy proves the pointer version equal to this. */
module Agenda {
  import opened Timers

  datatype Entry<T> = Entry(timer: T, deadline: Timeval)

  /** A call of start_timer or stop_timer; `now` is what gettimeofday returns in it. */
  datatype Op<T> = Start(timer: T, now: Timeval, timeout: nat) | Stop(timer: T)

  /** The result of select(): no descriptor and the time is over, some descriptors, or
      an error. */
  datatype Wake = Elapsed | Ready(fds: set<int>) | Failed

  /** What happens around one call of handle_event: the time at its start, how and when
      select returns, and the timer calls of the callbacks. */
  datatype Event<T> = Event(now: Timeval, wake: Wake, back: Timeval, calls: seq<Op<T>>)

  datatype Firing<T> = Firing(timer: T, deadline: Timeval, at: Timeval)

  ghost predicate Listed<T>(v: seq<Entry<T>>, t: T) {
    exists i | 0 <= i < |v| :: v[i].timer == t
  }

  /** Behind every entry whose deadline is not later. */
  ghost function Insert<T>(v: seq<Entry<T>>, e: Entry<T>): seq<Entry<T>> {
    if v == [] || e.deadline.Before(v[0].deadline) then [e] + v else [v[0]] + Insert(v[1..], e)
  }

  ghost function Delete<T>(v: seq<Entry<T>>, t: T): seq<Entry<T>> {
    if v == [] then [] else if v[0].timer == t then v[1..] else [v[0]] + Delete(v[1..], t)
  }

  ghost function Apply<T>(v: seq<Entry<T>>, op: Op<T>): seq<Entry<T>>
    requires op.Start? ==> op.now.Normal()
  {
    match op
    case Start(t, now, timeout) => if Listed(v, t) then v else Insert(v, Entry(t, Deadline(now, timeout)))
    case Stop(t) => Delete(v, t)
  }

  ghost predicate NormalOps<T>(ops: seq<Op<T>>) {
    forall i | 0 <= i < |ops| && ops[i].Start? :: ops[i].now.Normal()
  }

  ghost function ApplyAll<T>(v: seq<Entry<T>>, ops: seq<Op<T>>): seq<Entry<T>>
    requires NormalOps(ops)
    decreases |ops|
  {
    if ops == [] then v else ApplyAll(Apply(v, ops[0]), ops[1..])
  }

  /** The first test of handle_event. */
  ghost predicate Overdue<T>(v: seq<Entry<T>>, e: Event<T>) {
    v != [] && v[0].deadline.Before(e.now)
  }

  ghost predicate Fires<T>(v: seq<Entry<T>>, e: Event<T>) {
    Overdue(v, e) || e.wake.Elapsed?
  }

  /** When handle_event calls the callback. */
  ghost function At<T>(v: seq<Entry<T>>, e: Event<T>): Timeval {
    if Overdue(v, e) then e.now else e.back
  }

  ghost predicate Possible<T>(v: seq<Entry<T>>, e: Event<T>) {
    NormalOps(e.calls) && (e.wake.Elapsed? && !Overdue(v, e) ==> v != [])
  }

  /** handle_event: the fired timer has left the agenda before its callback runs. */
  ghost function Handle<T>(v: seq<Entry<T>>, e: Event<T>): seq<Entry<T>>
    requires Possible(v, e)
  {
    ApplyAll(if Fires(v, e) then v[1..] else v, e.calls)
  }

  ghost function Fired<T>(v: seq<Entry<T>>, e: Event<T>): seq<Firing<T>>
    requires Possible(v, e)
  {
    if Fires(v, e) then [Firing(v[0].timer, v[0].deadline, At(v, e))] else []
  }

  /** When a timer fires: exactly if the head is overdue or select reports that the time
      is over. It is the head, exactly one, and it leaves the agenda. */
  lemma FiresExactly<T>(v: seq<Entry<T>>, e: Event<T>)
    requires Possible(v, e)
    ensures v != [] && v[0].deadline.Before(e.now) ==>
      && Fired(v, e) == [Firing(v[0].timer, v[0].deadline, e.now)]
      && Handle(v, e) == ApplyAll(v[1..], e.calls)
    ensures (v != [] ==> !v[0].deadline.Before(e.now)) && e.wake.Elapsed? ==>
      && v != [] && Fired(v, e) == [Firing(v[0].timer, v[0].deadline, e.back)]
      && Handle(v, e) == ApplyAll(v[1..], e.calls)
    ensures (v != [] ==> !v[0].deadline.Before(e.now)) && !e.wake.Elapsed? ==>
      Fired(v, e) == [] && Handle(v, e) == ApplyAll(v, e.calls)
  {
  }

  /** The argument of select, lines 457-463. */
  function Timeout(deadline: Timeval, now: Timeval): Timeval {
    var sec, usec := deadline.sec - now.sec, deadline.usec - now.usec;
    if usec < 0 then Timeval(sec - 1, usec + 1000000) else Timeval(sec, usec)
  }

  /** When handle_event gets as far as select, the timeout is a proper time: not
      negative, normalised, and exactly what is left until the deadline. */
  lemma TimeoutIsProper(deadline: Timeval, now: Timeval)
    requires deadline.Normal() && now.Normal()
    ensures Timeout(deadline, now).Normal()
    ensures Timeout(deadline, now).Micros() == deadline.Micros() - now.Micros()
    ensures Timeout(deadline, now).sec >= 0 <==> !deadline.Before(now)
  {
  }

  ghost predicate Runs<T>(v: seq<Entry<T>>, events: seq<Event<T>>)
    decreases |events|
  {
    events == [] || (Possible(v, events[0]) && Runs(Handle(v, events[0]), events[1..]))
  }

  ghost function Final<T>(v: seq<Entry<T>>, events: seq<Event<T>>): seq<Entry<T>>
    requires Runs(v, events)
    decreases |events|
  {
    if events == [] then v else Final(Handle(v, events[0]), events[1..])
  }

  /** The log of a run: which timers fired, in order. */
  ghost function Log<T>(v: seq<Entry<T>>, events: seq<Event<T>>): seq<Firing<T>>
    requires Runs(v, events)
    decreases |events|
  {
    if events == [] then [] else Fired(v, events[0]) + Log(Handle(v, events[0]), events[1..])
  }

  lemma RunStep<T>(v: seq<Entry<T>>, events: seq<Event<T>>, i: nat, log: seq<Firing<T>>)
    requires i < |events| && Runs(v, events[i..])
    ensures Possible(v, events[i])
    ensures var next := Handle(v, events[i]);
      && Runs(next, events[i + 1..])
      && Final(v, events[i..]) == Final(next, events[i + 1..])
      && log + Log(v, events[i..]) == (log + Fired(v, events[i])) + Log(next, events[i + 1..])
  {
    assert events[i..][0] == events[i] && events[i..][1..] == events[i + 1..];
  }

  lemma RunEnd<T>(v: seq<Entry<T>>)
    ensures Runs(v, []) && Final(v, []) == v && Log(v, []) == []
  {
  }

  // ----- The agenda stays sorted and free of duplicates -----

  predicate NotAfter(a: Timeval, b: Timeval) {
    !b.Before(a)
  }

  ghost predicate Ordered<T>(v: seq<Entry<T>>, i: nat, j: nat)
    requires i < j < |v|
  {
    NotAfter(v[i].deadline, v[j].deadline) && v[i].timer != v[j].timer
  }

  ghost predicate Sane<T>(v: seq<Entry<T>>) {
    && (forall i | 0 <= i < |v| :: v[i].deadline.Normal())
    && (forall i, j {:trigger Ordered(v, i, j)} | 0 <= i < j < |v| :: Ordered(v, i, j))
  }

  ghost predicate NoneBefore<T>(v: seq<Entry<T>>, low: Timeval) {
    forall i | 0 <= i < |v| :: NotAfter(low, v[i].deadline)
  }

  lemma Head<T>(v: seq<Entry<T>>)
    requires Sane(v) && v != []
    ensures Sane(v[1..]) && NoneBefore(v, v[0].deadline) && NoneBefore(v[1..], v[0].deadline)
    ensures !Listed(v[1..], v[0].timer)
  {
    var rest := v[1..];
    forall i, j | 0 <= i < j < |rest| ensures Ordered(rest, i, j) {
      assert Ordered(v, i + 1, j + 1);
    }
    forall i | 0 < i < |v| ensures NotAfter(v[0].deadline, v[i].deadline) && v[i].timer != v[0].timer {
      assert Ordered(v, 0, i);
    }
  }

  /** Insert is the insertion at the position that start_timer finds. */
  lemma {:induction false} InsertAt<T>(v: seq<Entry<T>>, e: Entry<T>, k: nat)
    requires k <= |v|
    requires forall i | 0 <= i < k :: !e.deadline.Before(v[i].deadline)
    requires k < |v| ==> e.deadline.Before(v[k].deadline)
    ensures Insert(v, e) == v[..k] + [e] + v[k..]
  {
    if k > 0 {
      InsertAt(v[1..], e, k - 1);
      assert v[..k] == [v[0]] + v[1..][..k - 1];
      assert v[k..] == v[1..][k - 1..];
    }
  }

  lemma {:induction false} DeleteAt<T>(v: seq<Entry<T>>, t: T, k: nat)
    requires k < |v| && v[k].timer == t && forall i | 0 <= i < k :: v[i].timer != t
    ensures Delete(v, t) == v[..k] + v[k + 1..]
  {
    if k > 0 {
      DeleteAt(v[1..], t, k - 1);
      assert v[..k] == [v[0]] + v[1..][..k - 1];
      assert v[k + 1..] == v[1..][k..];
    }
  }

  lemma {:induction false} DeleteNothing<T>(v: seq<Entry<T>>, t: T)
    requires !Listed(v, t)
    ensures Delete(v, t) == v
  {
    if v != [] {
      assert v[0].timer != t;
      forall i | 0 <= i < |v[1..]| ensures v[1..][i].timer != t {
        assert v[i + 1].timer != t;
      }
      DeleteNothing(v[1..], t);
    }
  }

  /** The position of a new entry. */
  lemma {:induction false} Position<T>(v: seq<Entry<T>>, d: Timeval) returns (k: nat)
    ensures k <= |v| && (k < |v| ==> d.Before(v[k].deadline))
    ensures forall i | 0 <= i < k :: !d.Before(v[i].deadline)
  {
    k := 0;
    while k < |v| && !d.Before(v[k].deadline)
      invariant k <= |v| && forall i | 0 <= i < k :: !d.Before(v[i].deadline)
    {
      k := k + 1;
    }
  }

  /** A new entry comes behind every entry with the same or an earlier deadline and before
      all the others, which stay in their order. */
  lemma InsertedBehindEquals<T>(v: seq<Entry<T>>, e: Entry<T>) returns (k: nat)
    requires Sane(v)
    ensures k <= |v| && Insert(v, e) == v[..k] + [e] + v[k..]
    ensures forall i | 0 <= i < |v| :: i < k <==> !e.deadline.Before(v[i].deadline)
  {
    k := Position(v, e.deadline);
    InsertAt(v, e, k);
    forall i | k < i < |v| ensures e.deadline.Before(v[i].deadline) {
      assert Ordered(v, k, i);
    }
  }

  lemma KeepInsert<T>(v: seq<Entry<T>>, e: Entry<T>, low: Timeval)
    requires Sane(v) && NoneBefore(v, low) && !Listed(v, e.timer) && e.deadline.Normal() && NotAfter(low, e.deadline)
    ensures Sane(Insert(v, e)) && NoneBefore(Insert(v, e), low)
    ensures forall t :: Listed(Insert(v, e), t) <==> t == e.timer || Listed(v, t)
  {
    hide Insert;
    var k := Position(v, e.deadline);
    InsertAt(v, e, k);
    var r := Insert(v, e);
    forall i, j | 0 <= i < j < |r| ensures Ordered(r, i, j) {
      if i != k && j != k {
        assert Ordered(v, if i < k then i else i - 1, if j < k then j else j - 1);
      } else if i == k && k < j - 1 {
        assert Ordered(v, k, j - 1);
      }
    }
    InsertLists(v, e, k);
  }

  lemma InsertLists<T>(v: seq<Entry<T>>, e: Entry<T>, k: nat)
    requires k <= |v|
    ensures forall t :: Listed(v[..k] + [e] + v[k..], t) <==> t == e.timer || Listed(v, t)
  {
    var r := v[..k] + [e] + v[k..];
    forall t ensures Listed(r, t) <==> t == e.timer || Listed(v, t) {
      assert r[k].timer == e.timer;
      if i :| 0 <= i < |v| && v[i].timer == t {
        assert r[if i < k then i else i + 1].timer == t;
      }
    }
  }

  lemma KeepDelete<T>(v: seq<Entry<T>>, t: T, low: Timeval)
    requires Sane(v) && NoneBefore(v, low)
    ensures Sane(Delete(v, t)) && NoneBefore(Delete(v, t), low)
    ensures forall u :: Listed(Delete(v, t), u) <==> u != t && Listed(v, u)
  {
    hide Delete;
    if Listed(v, t) {
      var k :| 0 <= k < |v| && v[k].timer == t;
      forall i | 0 <= i < |v| && i != k ensures v[i].timer != t {
        assert if i < k then Ordered(v, i, k) else Ordered(v, k, i);
      }
      DeleteAt(v, t, k);
      var r := Delete(v, t);
      forall i, j | 0 <= i < j < |r| ensures Ordered(r, i, j) {
        assert Ordered(v, if i < k then i else i + 1, if j < k then j else j + 1);
      }
      DeleteLists(v, t, k);
    } else {
      DeleteNothing(v, t);
    }
  }

  lemma DeleteLists<T>(v: seq<Entry<T>>, t: T, k: nat)
    requires k < |v| && v[k].timer == t && forall i | 0 <= i < |v| && i != k :: v[i].timer != t
    ensures forall u :: Listed(v[..k] + v[k + 1..], u) <==> u != t && Listed(v, u)
  {
    var r := v[..k] + v[k + 1..];
    forall u ensures Listed(r, u) <==> u != t && Listed(v, u) {
      if i :| 0 <= i < |v| && v[i].timer == u && u != t {
        assert r[if i < k then i else i - 1].timer == u;
      }
    }
  }

  /** The clock in a callback is not behind the moment t. */
  ghost predicate OpsFrom<T>(ops: seq<Op<T>>, t: Timeval) {
    forall i | 0 <= i < |ops| && ops[i].Start? :: NotAfter(t, ops[i].now)
  }

  lemma DeadlineNotBefore(now: Timeval, timeout: nat, low: Timeval)
    requires now.Normal() && low.Normal() && NotAfter(low, now)
    ensures Deadline(now, timeout).Normal() && NotAfter(low, Deadline(now, timeout))
  {
    DeadlineIsExact(now, timeout);
  }

  lemma {:induction false} KeepOps<T>(v: seq<Entry<T>>, ops: seq<Op<T>>, low: Timeval)
    requires Sane(v) && NoneBefore(v, low) && NormalOps(ops) && OpsFrom(ops, low) && low.Normal()
    ensures Sane(ApplyAll(v, ops)) && NoneBefore(ApplyAll(v, ops), low)
    decreases |ops|
  {
    if ops != [] {
      match ops[0] {
        case Start(t, now, timeout) =>
          if !Listed(v, t) {
            DeadlineNotBefore(now, timeout, low);
            KeepInsert(v, Entry(t, Deadline(now, timeout)), low);
          }
        case Stop(t) =>
          KeepDelete(v, t, low);
      }
      KeepOps(Apply(v, ops[0]), ops[1..], low);
    }
  }

  // ----- Runs -----

  /** What the run may rely on. gettimeofday gives normalised times that never go back
      behind the moment of an earlier callback, and select reports an elapsed time only
      when the time it was given is over. */
  ghost predicate Contract<T>(v: seq<Entry<T>>, e: Event<T>, t: Timeval) {
    && Possible(v, e) && e.now.Normal() && e.back.Normal()
    && NotAfter(t, e.now) && NotAfter(e.now, e.back)
    && (e.wake.Elapsed? && !Overdue(v, e) ==>
          e.back.Micros() >= e.now.Micros() + Timeout(v[0].deadline, e.now).Micros())
    && OpsFrom(e.calls, At(v, e))
  }

  ghost predicate Clocked<T>(v: seq<Entry<T>>, events: seq<Event<T>>, t: Timeval)
    requires Runs(v, events)
    decreases |events|
  {
    events == [] ||
    (Contract(v, events[0], t) && Clocked(Handle(v, events[0]), events[1..], At(v, events[0])))
  }

  /** One call of handle_event: the timer it fires has the earliest deadline of all
      armed timers, which is over, and is not armed while its callback runs. */
  lemma OneEvent<T>(v: seq<Entry<T>>, e: Event<T>, t: Timeval)
    requires Sane(v) && Contract(v, e, t)
    ensures Fires(v, e) ==>
      && v != [] && NotAfter(v[0].deadline, At(v, e)) && !Listed(v[1..], v[0].timer)
      && NoneBefore(v, v[0].deadline)
    ensures Sane(Handle(v, e))
  {
    if v != [] {
      Head(v);
    }
    if !Overdue(v, e) && e.wake.Elapsed? {
      TimeoutIsProper(v[0].deadline, e.now);
    }
    var rest := if Fires(v, e) then v[1..] else v;
    SaneOps(rest, e.calls);
  }

  lemma {:induction false} SaneOps<T>(v: seq<Entry<T>>, ops: seq<Op<T>>)
    requires Sane(v) && NormalOps(ops)
    ensures Sane(ApplyAll(v, ops))
  {
    var low := Lowest(v, ops);
    KeepOps(v, ops, low);
  }

  /** A time before everything that is mentioned. */
  lemma {:induction false} Lowest<T>(v: seq<Entry<T>>, ops: seq<Op<T>>) returns (low: Timeval)
    requires Sane(v)
    ensures low.Normal() && NoneBefore(v, low) && OpsFrom(ops, low)
  {
    if v != [] {
      Head(v);
    }
    low := if v == [] then Timeval(0, 0) else Timeval(v[0].deadline.sec - 1, 0);
    var i := 0;
    while i < |ops|
      invariant i <= |ops| && low.Normal() && NoneBefore(v, low) && OpsFrom(ops[..i], low)
    {
      if ops[i].Start? && ops[i].now.sec <= low.sec {
        low := Timeval(ops[i].now.sec - 1, 0);
      }
      i := i + 1;
    }
    assert ops[..i] == ops;
  }

  /** Over a whole run timers fire in the order of their deadlines, none of them early,
      although callbacks start and stop timers between the firings. */
  lemma {:induction false} FiredInOrder<T>(v: seq<Entry<T>>, events: seq<Event<T>>, low: Timeval, t: Timeval)
    requires Runs(v, events) && Clocked(v, events, t) && Sane(v) && NoneBefore(v, low)
    requires low.Normal() && NotAfter(low, t)
    ensures forall k | 0 <= k < |Log(v, events)| :: NotAfter(Log(v, events)[k].deadline, Log(v, events)[k].at)
    ensures forall k | 0 <= k < |Log(v, events)| :: NotAfter(low, Log(v, events)[k].deadline)
    ensures forall j, k | 0 <= j < k < |Log(v, events)| ::
      NotAfter(Log(v, events)[j].deadline, Log(v, events)[k].deadline)
    decreases |events|
  {
    if events != [] {
      var e := events[0];
      OneEvent(v, e, t);
      var rest := if Fires(v, e) then v[1..] else v;
      if v != [] {
        Head(v);
      }
      var next := if Fires(v, e) then v[0].deadline else low;
      KeepOps(rest, e.calls, next);
      FiredInOrder(Handle(v, e), events[1..], next, At(v, e));
    }
  }

  // ----- Every timer fires in time -----

  /** The calls leave t alone and start other timers only behind the time d. */
  ghost predicate Behind<T>(ops: seq<Op<T>>, t: T, d: Timeval) {
    forall i | 0 <= i < |ops| :: if ops[i].Start? then d.Before(ops[i].now) else ops[i].timer != t
  }

  /** Such calls put nothing in front of t. */
  lemma {:induction false} NothingGetsAhead<T>(v: seq<Entry<T>>, ops: seq<Op<T>>, t: T, d: Timeval, p: nat)
    returns (q: nat)
    requires Sane(v) && NormalOps(ops) && Behind(ops, t, d) && p < |v| && v[p] == Entry(t, d)
    ensures q <= p && q < |ApplyAll(v, ops)| && ApplyAll(v, ops)[q] == Entry(t, d) && Sane(ApplyAll(v, ops))
    decreases |ops|
  {
    q := p;
    if ops != [] {
      SaneOps(v, ops[..1]);
      assert ApplyAll(v, ops[..1]) == ApplyAll(Apply(v, ops[0]), []);
      q := StaysAhead(v, ops[0], t, d, p);
      q := NothingGetsAhead(Apply(v, ops[0]), ops[1..], t, d, q);
    }
  }

  lemma StaysAhead<T>(v: seq<Entry<T>>, op: Op<T>, t: T, d: Timeval, p: nat) returns (q: nat)
    requires Sane(v) && p < |v| && v[p] == Entry(t, d)
    requires if op.Start? then op.now.Normal() && d.Before(op.now) else op.timer != t
    ensures q <= p && q < |Apply(v, op)| && Apply(v, op)[q] == Entry(t, d)
  {
    hide Insert, Delete, Deadline;
    q := p;
    match op
    case Start(u, now, timeout) =>
      if !Listed(v, u) {
        DeadlineNotBefore(now, timeout, now);
        var e := Entry(u, Deadline(now, timeout));
        var k := Position(v, e.deadline);
        InsertAt(v, e, k);
        assert k < p ==> Ordered(v, k, p);
      }
    case Stop(u) =>
      if Listed(v, u) {
        var k :| 0 <= k < |v| && v[k].timer == u;
        forall i | 0 <= i < k ensures v[i].timer != u {
          assert Ordered(v, i, k);
        }
        DeleteAt(v, u, k);
        q := if k < p then p - 1 else p;
      } else {
        DeleteNothing(v, u);
      }
  }

  /** A timer that is in place p of the agenda and that nobody stops has fired when
      handle_event has come p + 1 times with the timer's deadline over or with select
      out of time, if in the meantime timers are started only after the deadline. */
  lemma {:induction false} FiresInTime<T>(v: seq<Entry<T>>, events: seq<Event<T>>, t: T, d: Timeval, p: nat)
    requires Runs(v, events) && Sane(v) && p < |v| && v[p] == Entry(t, d) && |events| > p
    requires forall k | 0 <= k < |events| ::
      (d.Before(events[k].now) || events[k].wake.Elapsed?) && Behind(events[k].calls, t, d)
    ensures exists k :: 0 <= k < |Log(v, events)| && Log(v, events)[k].timer == t && Log(v, events)[k].deadline == d
    decreases p
  {
    var e := events[0];
    assert p > 0 ==> Ordered(v, 0, p);
    FiresExactly(v, e);
    if p == 0 {
      assert Log(v, events)[0].timer == t;
    } else {
      Head(v);
      var q := NothingGetsAhead(v[1..], e.calls, t, d, p - 1);
      var rest := Log(Handle(v, e), events[1..]);
      FiresInTime(Handle(v, e), events[1..], t, d, q);
      var k :| 0 <= k < |rest| && rest[k].timer == t && rest[k].deadline == d;
      assert Log(v, events)[k + 1] == rest[k];
    }
  }

  ghost predicate Spared<T>(events: seq<Event<T>>, t: T) {
    forall k, i | 0 <= k < |events| && 0 <= i < |events[k].calls| :: events[k].calls[i] != Stop(t)
  }

  /** With a clock that keeps its contract: once a timer's deadline is over, and unless it
      is stopped, it fires within as many calls of handle_event as there are timers up to
      it in the list, whatever the callbacks start. */
  lemma FiresOnceOverdue<T>(v: seq<Entry<T>>, events: seq<Event<T>>, t: T, d: Timeval, p: nat, from: Timeval)
    requires Runs(v, events) && Clocked(v, events, from) && Sane(v) && p < |v| && v[p] == Entry(t, d) && |events| > p
    requires d.Before(from) && Spared(events, t)
    ensures exists k :: 0 <= k < |Log(v, events)| && Log(v, events)[k].timer == t && Log(v, events)[k].deadline == d
  {
    ClockGoesOn(v, events, t, d, from);
    FiresInTime(v, events, t, d, p);
  }

  lemma {:induction false} ClockGoesOn<T>(v: seq<Entry<T>>, events: seq<Event<T>>, t: T, d: Timeval, from: Timeval)
    requires Runs(v, events) && Clocked(v, events, from) && d.Before(from) && Spared(events, t)
    ensures forall k | 0 <= k < |events| :: d.Before(events[k].now) && Behind(events[k].calls, t, d)
    decreases |events|
  {
    if events != [] {
      var e := events[0];
      assert Contract(v, e, from) && d.Before(At(v, e));
      forall i | 0 <= i < |e.calls| && e.calls[i].Stop? ensures e.calls[i].timer != t {
        assert events[0].calls[i] != Stop(t);
      }
      ClockGoesOn(Handle(v, e), events[1..], t, d, At(v, e));
      forall k | 0 < k < |events| ensures d.Before(events[k].now) && Behind(events[k].calls, t, d) {
        assert events[k] == events[1..][k - 1];
      }
    }
  }

  // ----- Every start is accounted for -----

  function One(b: bool): nat {
    if b then 1 else 0
  }

  /** Calls of start_timer that really arm t. */
  ghost function Starts<T>(v: seq<Entry<T>>, ops: seq<Op<T>>, t: T): nat
    requires NormalOps(ops)
    decreases |ops|
  {
    if ops == [] then 0
    else One(ops[0].Start? && ops[0].timer == t && !Listed(v, t)) + Starts(Apply(v, ops[0]), ops[1..], t)
  }

  /** Calls of stop_timer that really disarm t. */
  ghost function Stops<T>(v: seq<Entry<T>>, ops: seq<Op<T>>, t: T): nat
    requires NormalOps(ops)
    decreases |ops|
  {
    if ops == [] then 0
    else One(ops[0].Stop? && ops[0].timer == t && Listed(v, t)) + Stops(Apply(v, ops[0]), ops[1..], t)
  }

  ghost function RunStarts<T>(v: seq<Entry<T>>, events: seq<Event<T>>, t: T): nat
    requires Runs(v, events)
    decreases |events|
  {
    if events == [] then 0
    else
      Starts(if Fires(v, events[0]) then v[1..] else v, events[0].calls, t)
      + RunStarts(Handle(v, events[0]), events[1..], t)
  }

  ghost function RunStops<T>(v: seq<Entry<T>>, events: seq<Event<T>>, t: T): nat
    requires Runs(v, events)
    decreases |events|
  {
    if events == [] then 0
    else
      Stops(if Fires(v, events[0]) then v[1..] else v, events[0].calls, t)
      + RunStops(Handle(v, events[0]), events[1..], t)
  }

  ghost function Count<T>(log: seq<Firing<T>>, t: T): nat {
    if log == [] then 0 else One(log[0].timer == t) + Count(log[1..], t)
  }

  lemma {:induction false} OpsBalance<T>(v: seq<Entry<T>>, ops: seq<Op<T>>, t: T)
    requires Sane(v) && NormalOps(ops)
    ensures One(Listed(v, t)) + Starts(v, ops, t) == Stops(v, ops, t) + One(Listed(ApplyAll(v, ops), t))
    decreases |ops|
  {
    if ops != [] {
      var low := Lowest(v, ops);
      match ops[0] {
        case Start(u, now, timeout) =>
          if !Listed(v, u) {
            DeadlineNotBefore(now, timeout, low);
            KeepInsert(v, Entry(u, Deadline(now, timeout)), low);
          }
        case Stop(u) =>
          KeepDelete(v, u, low);
      }
      OpsBalance(Apply(v, ops[0]), ops[1..], t);
    }
  }

  /** Every time a timer is armed it either fires once, or is stopped, or is still
      armed at the end. */
  lemma {:induction false} EveryStartEndsOnce<T>(v: seq<Entry<T>>, events: seq<Event<T>>, t: T)
    requires Runs(v, events) && Sane(v)
    ensures One(Listed(v, t)) + RunStarts(v, events, t)
         == Count(Log(v, events), t) + RunStops(v, events, t) + One(Listed(Final(v, events), t))
    decreases |events|
  {
    if events != [] {
      var e := events[0];
      var rest := if Fires(v, e) then v[1..] else v;
      if Fires(v, e) {
        Head(v);
        KeepDelete(v, v[0].timer, v[0].deadline);
        assert Delete(v, v[0].timer) == rest;
      }
      OpsBalance(rest, e.calls, t);
      SaneOps(rest, e.calls);
      EveryStartEndsOnce(Handle(v, e), events[1..], t);
      assert Log(v, events) == Fired(v, e) + Log(Handle(v, e), events[1..]);
      if Fires(v, e) {
        assert Log(v, events)[1..] == Log(Handle(v, e), events[1..]);
        assert Count(Log(v, events), t) == One(v[0].timer == t) + Count(Log(v, events)[1..], t);
        assert One(Listed(v, t)) == One(v[0].timer == t) + One(Listed(rest, t));
      } else {
        assert Log(v, events) == Log(Handle(v, e), events[1..]);
      }
    }
  }
}
