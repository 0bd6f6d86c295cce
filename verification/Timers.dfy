/** The timers of cblib: an intrusive, doubly linked list sorted by deadline. */
module Timers {

  /** struct timeval. A normalised one has 0 <= usec < 1000000. */
  datatype Timeval = Timeval(sec: int, usec: int) {
    predicate Normal() {
      0 <= usec < 1000000
    }

    predicate Zero() {
      sec == 0 && usec == 0
    }

    /** timeval_before. */
    predicate Before(other: Timeval) {
      sec < other.sec || (sec == other.sec && usec < other.usec)
    }

    function Micros(): int {
      1000000 * sec + usec
    }
  }

  /** Comparing normalised times is comparing microseconds. */
  lemma BeforeIsLess(a: Timeval, b: Timeval)
    requires a.Normal() && b.Normal()
    ensures a.Before(b) <==> a.Micros() < b.Micros()
    ensures a.Micros() == b.Micros() ==> a == b
  {
  }

  /** start_timer, lines 336-341: `timeout` milliseconds after `now`. */
  function Deadline(now: Timeval, timeout: nat): Timeval {
    var sec, usec := now.sec + timeout / 1000, now.usec + 1000 * (timeout % 1000);
    if usec >= 1000000 then Timeval(sec + 1, usec - 1000000) else Timeval(sec, usec)
  }

  /** One carry is enough: the deadline is normalised, and exact. */
  lemma DeadlineIsExact(now: Timeval, timeout: nat)
    requires now.Normal()
    ensures Deadline(now, timeout).Normal()
    ensures Deadline(now, timeout).Micros() == now.Micros() + 1000 * timeout
  {
  }

  lemma DeadlineAtZero(now: Timeval, timeout: nat)
    requires now.Zero()
    ensures Deadline(now, timeout).Zero() <==> timeout == 0
  {
    hide Deadline, Timeval.Micros;
    DeadlineIsExact(now, timeout);
    BeforeIsLess(Deadline(now, timeout), now);
  }

  class Timer {
    var prev: Timer?
    var next: Timer?
    var startTime: Timeval
    var stopTime: Timeval

    constructor ()
      ensures prev == null && next == null && startTime.Zero() && stopTime.Zero()
    {
      prev, next, startTime, stopTime := null, null, Timeval(0, 0), Timeval(0, 0);
    }

    /** The test at the top of start_timer for a timer that is already started. */
    predicate Started()
      reads this
    {
      next != null || prev != null || !startTime.Zero() || !stopTime.Zero()
    }

    /** What start_timer leaves in a timer. */
    predicate Armed()
      reads this`stopTime
    {
      stopTime.Normal()
    }

    /** Times by which start_timer recognises a timer even when it is alone in the list. */
    predicate Known()
      reads this`startTime, this`stopTime
    {
      !startTime.Zero() || !stopTime.Zero()
    }
  }

  /** What is left and right of the gap before position k. */
  function Left(s: seq<Timer>, k: nat): Timer?
    requires k <= |s|
  {
    if k == 0 then null else s[k - 1]
  }

  function Right(s: seq<Timer>, k: nat): Timer?
    requires k <= |s|
  {
    if k == |s| then null else s[k]
  }

  /** The pointers of s[k] lead to its neighbours; prev and next are inverse. */
  ghost predicate Linked(s: seq<Timer>)
    reads s`prev, s`next
  {
    && (forall i {:trigger s[i].prev} | 0 <= i < |s| :: s[i].prev == Left(s, i))
    && (forall i {:trigger s[i].next} | 0 <= i < |s| :: s[i].next == Right(s, i + 1))
  }

  /* The other parts of the invariant name a position or a pair of positions, so that a
     proof says which of them it uses. */

  predicate Differ(s: seq<Timer>, i: nat, j: nat)
    requires i < j < |s|
  {
    s[i] != s[j]
  }

  predicate InOrder(s: seq<Timer>, i: nat, j: nat)
    requires i < j < |s|
    reads s`stopTime
  {
    !s[j].stopTime.Before(s[i].stopTime)
  }

  predicate Armed(s: seq<Timer>, i: nat)
    requires i < |s|
    reads s`stopTime
  {
    s[i].Armed()
  }

  ghost predicate Distinct(s: seq<Timer>) {
    forall i, j {:trigger Differ(s, i, j)} | 0 <= i < j < |s| :: Differ(s, i, j)
  }

  ghost predicate Sorted(s: seq<Timer>)
    reads s`stopTime
  {
    forall i, j {:trigger InOrder(s, i, j)} | 0 <= i < j < |s| :: InOrder(s, i, j)
  }

  ghost predicate AllArmed(s: seq<Timer>)
    reads s`stopTime
  {
    forall i {:trigger Armed(s, i)} | 0 <= i < |s| :: Armed(s, i)
  }

  function Inserted(s: seq<Timer>, k: nat, t: Timer): (r: seq<Timer>)
    requires k <= |s|
    ensures |r| == |s| + 1 && r[k] == t
    ensures forall i {:trigger r[i]} | 0 <= i < k :: r[i] == s[i]
    ensures forall i {:trigger r[i]} | k < i <= |s| :: r[i] == s[i - 1]
  {
    s[..k] + [t] + s[k..]
  }

  function Removed(s: seq<Timer>, k: nat): (r: seq<Timer>)
    requires k < |s|
    ensures |r| == |s| - 1
    ensures forall i {:trigger r[i]} | 0 <= i < k :: r[i] == s[i]
    ensures forall i {:trigger r[i]} | k <= i < |r| :: r[i] == s[i + 1]
  {
    s[..k] + s[k + 1..]
  }

  /** Position k is behind every timer of s whose deadline is not after d, and before
      all the others. */
  ghost predicate Slot(s: seq<Timer>, d: Timeval, k: nat)
    reads s`stopTime
  {
    && k <= |s|
    && (forall i | 0 <= i < k :: !d.Before(s[i].stopTime))
    && (forall i | k <= i < |s| :: d.Before(s[i].stopTime))
  }

  lemma Apart(s: seq<Timer>, k: nat)
    requires Distinct(s) && k < |s|
    ensures forall i | 0 <= i < |s| && i != k :: s[i] != s[k]
  {
    forall i | 0 <= i < |s| && i != k ensures s[i] != s[k] {
      assert if i < k then Differ(s, i, k) else Differ(s, k, i);
    }
  }

  lemma InsertedDistinct(s: seq<Timer>, k: nat, t: Timer)
    requires Distinct(s) && k <= |s| && t !in s
    ensures Distinct(Inserted(s, k, t))
  {
    var r := Inserted(s, k, t);
    forall i, j | 0 <= i < j < |r| ensures Differ(r, i, j) {
      if i != k && j != k {
        assert Differ(s, if i < k then i else i - 1, if j < k then j else j - 1);
      }
    }
  }

  lemma RemovedDistinct(s: seq<Timer>, k: nat)
    requires Distinct(s) && k < |s|
    ensures Distinct(Removed(s, k)) && s[k] !in Removed(s, k)
  {
    var r := Removed(s, k);
    forall i, j | 0 <= i < j < |r| ensures Differ(r, i, j) {
      assert Differ(s, if i < k then i else i + 1, if j < k then j else j + 1);
    }
    forall i | 0 <= i < |r| ensures r[i] != s[k] {
      assert if i < k then Differ(s, i, k) else Differ(s, k, i + 1);
    }
  }

  lemma InsertedOrder(s: seq<Timer>, k: nat, t: Timer)
    requires Sorted(s) && Slot(s, t.stopTime, k)
    ensures Sorted(Inserted(s, k, t))
  {
    var r := Inserted(s, k, t);
    forall i, j | 0 <= i < j < |r| ensures InOrder(r, i, j) {
      if i != k && j != k {
        assert InOrder(s, if i < k then i else i - 1, if j < k then j else j - 1);
      }
    }
  }

  lemma RemovedOrder(s: seq<Timer>, k: nat)
    requires Sorted(s) && k < |s|
    ensures Sorted(Removed(s, k))
  {
    var r := Removed(s, k);
    forall i, j | 0 <= i < j < |r| ensures InOrder(r, i, j) {
      assert InOrder(s, if i < k then i else i + 1, if j < k then j else j + 1);
    }
  }

  lemma InsertedArmed(s: seq<Timer>, k: nat, t: Timer)
    requires AllArmed(s) && k <= |s| && t.Armed()
    ensures AllArmed(Inserted(s, k, t))
  {
    var r := Inserted(s, k, t);
    forall i | 0 <= i < |r| ensures Armed(r, i) {
      if i != k {
        assert Armed(s, if i < k then i else i - 1);
      }
    }
  }

  lemma RemovedArmed(s: seq<Timer>, k: nat)
    requires AllArmed(s) && k < |s|
    ensures AllArmed(Removed(s, k))
  {
    var r := Removed(s, k);
    forall i | 0 <= i < |r| ensures Armed(r, i) {
      assert Armed(s, if i < k then i else i + 1);
    }
  }

  /** The pointers that an insertion before position k leaves behind are the links of
      the longer list. */
  lemma InsertedLinks(s: seq<Timer>, k: nat, t: Timer)
    requires k <= |s| && t.prev == Left(s, k) && t.next == Right(s, k)
    requires forall i {:trigger s[i].prev} | 0 <= i < |s| :: s[i].prev == if i == k then t else Left(s, i)
    requires forall i {:trigger s[i].next} | 0 <= i < |s| :: s[i].next == if i == k - 1 then t else Right(s, i + 1)
    ensures Linked(Inserted(s, k, t))
  {
    var r := Inserted(s, k, t);
    forall i | 0 <= i < |r| ensures r[i].prev == Left(r, i) && r[i].next == Right(r, i + 1) {
      if i != k {
        var o := if i < k then i else i - 1;
        assert r[i] == s[o] && s[o].prev == if o == k then t else Left(s, o);
      }
    }
  }

  /** The pointers that taking out position k leaves behind are the links of the
      shorter list. */
  lemma RemovedLinks(s: seq<Timer>, k: nat)
    requires k < |s|
    requires forall i {:trigger s[i].prev} | 0 <= i < |s| && i != k :: s[i].prev == Left(s, if i == k + 1 then k else i)
    requires forall i {:trigger s[i].next} | 0 <= i < |s| && i != k ::
      s[i].next == Right(s, if i == k - 1 then k + 1 else i + 1)
    ensures Linked(Removed(s, k))
  {
    var r := Removed(s, k);
    forall i | 0 <= i < |r| ensures r[i].prev == Left(r, i) && r[i].next == Right(r, i + 1) {
      var o := if i < k then i else i + 1;
      assert r[i] == s[o] && s[o].prev == Left(s, if o == k + 1 then k else o);
    }
  }

  /** The global timer_list; `timers` is the list as a sequence. */
  class TimerList {
    var head: Timer?
    ghost var timers: seq<Timer>

    ghost predicate Valid()
      reads this, timers
    {
      && head == Right(timers, 0)
      && Distinct(timers) && Linked(timers) && Sorted(timers) && AllArmed(timers)
    }

    constructor ()
      ensures Valid() && timers == []
    {
      head, timers := null, [];
    }

    /** The search of start_timer: the last timer whose deadline is not after d. */
    method FindPredecessor(d: Timeval) returns (timer: Timer, ghost k: nat)
      requires Valid() && timers != [] && !d.Before(timers[0].stopTime)
      ensures 0 < k <= |timers| && timer == timers[k - 1] && Slot(timers, d, k)
    {
      timer := head;
      k := 1;
      while timer.next != null && !d.Before(timer.next.stopTime)
        invariant 1 <= k <= |timers| && timer == timers[k - 1]
        invariant forall i | 0 <= i < k :: !d.Before(timers[i].stopTime)
        decreases |timers| - k
      {
        timer := timer.next;
        k := k + 1;
      }
      forall i | k <= i < |timers| ensures d.Before(timers[i].stopTime) {
        assert k < i ==> InOrder(timers, k, i);
      }
    }

    /** The ending of start_timer that puts t in front, lines 343-355. */
    method LinkFirst(t: Timer)
      requires Valid() && t !in timers && t.Armed() && t.prev == null && t.next == null
      requires Slot(timers, t.stopTime, 0)
      modifies this, timers`prev, t`next
      ensures Valid() && timers == Inserted(old(timers), 0, t)
    {
      ghost var s := timers;
      if head != null {
        Apart(s, 0);
        t.next := head;
        head.prev := t;
      }
      head := t;
      InsertedLinks(s, 0, t);
      InsertedDistinct(s, 0, t);
      InsertedOrder(s, 0, t);
      InsertedArmed(s, 0, t);
      timers := Inserted(s, 0, t);
    }

    /** The ending of start_timer that puts t behind `timer`, lines 362-368; behind itself
        if it is the only timer of the list. */
    method LinkBehind(t: Timer, timer: Timer, ghost k: nat)
      requires Valid() && (t !in timers || timers == [t]) && t.Armed()
      requires 0 < k <= |timers| && timer == timers[k - 1] && Slot(timers, t.stopTime, k)
      modifies this`timers, timers`prev, timers`next, t`prev, t`next
      ensures t !in old(timers) ==> Valid() && timers == Inserted(old(timers), k, t)
      ensures t in old(timers) ==> timers == old(timers) && Ring(t)
    {
      ghost var s := timers;
      Apart(s, k - 1);
      if timer.next != null {
        Apart(s, k);
        timer.next.prev := t;
      }
      t.next := timer.next;
      timer.next := t;
      t.prev := timer;
      if t !in s {
        InsertedLinks(s, k, t);
        InsertedDistinct(s, k, t);
        InsertedOrder(s, k, t);
        InsertedArmed(s, k, t);
        timers := Inserted(s, k, t);
      }
    }

    /** The list is t and t again, without end. */
    predicate Ring(t: Timer)
      reads this, t
    {
      head == t && t.next == t && t.prev == t
    }

    /** A timer in the list is not recognised as started exactly if it is alone there and
        was started at 0:0 with a timeout of zero. */
    lemma UnknownExactly(t: Timer)
      requires Valid()
      ensures t in timers && !t.Started() <==> timers == [t] && !t.Known()
    {
      if i :| 0 <= i < |timers| && timers[i] == t && !t.Started() {
        assert timers[i].prev == Left(timers, i) && timers[i].next == Right(timers, i + 1);
        assert i == 0 && |timers| == 1;
      }
    }

    /** The times that start_timer sets, lines 334-341. */
    method SetTimes(t: Timer, now: Timeval, timeout: nat)
      requires Valid() && (t !in timers || timers == [t]) && now.Normal()
      modifies t`startTime, t`stopTime
      ensures Valid() && t.Armed() && t.startTime == now && t.stopTime == Deadline(now, timeout)
      ensures t.Known() <==> !now.Zero() || timeout > 0
    {
      hide Deadline, Timeval.Micros;
      DeadlineIsExact(now, timeout);
      if now.Zero() {
        DeadlineAtZero(now, timeout);
      }
      t.startTime := now;
      t.stopTime := Deadline(now, timeout);
      assert Linked(timers);
      assert Sorted(timers);
      assert AllArmed(timers);
    }

    /** The second half of start_timer, lines 343-368. */
    method Place(t: Timer) returns (ghost k: nat)
      requires Valid() && (t !in timers || timers == [t]) && t.Armed() && t.prev == null && t.next == null
      modifies this, timers`prev, timers`next, t`prev, t`next
      ensures k <= |old(timers)| && Slot(old(timers), t.stopTime, k)
      ensures t !in old(timers) ==> Valid() && timers == Inserted(old(timers), k, t)
      ensures t in old(timers) ==> timers == old(timers) && Ring(t)
    {
      k := 0;
      if head == null || t.stopTime.Before(head.stopTime) {
        forall i | 0 <= i < |timers| ensures t.stopTime.Before(timers[i].stopTime) {
          assert 0 < i ==> InOrder(timers, 0, i);
        }
        LinkFirst(t);
      } else {
        var timer, p := FindPredecessor(t.stopTime);
        k := p;
        LinkBehind(t, timer, k);
      }
    }

    /** start_timer. `now` is what gettimeofday returns. A timer that is recognised as
        started changes nothing. One that is not is put behind all timers with the same
        or an earlier deadline, unless it is in the list all the same: then the list
        becomes a ring. UnknownExactly says when that is. */
    method StartTimer(t: Timer, now: Timeval, timeout: nat) returns (ghost k: nat)
      requires Valid() && now.Normal()
      modifies this, timers`prev, timers`next, t
      ensures old(t.Started()) ==> unchanged(this) && unchanged(t) && unchanged(old(timers))
      ensures !old(t.Started()) ==> t.startTime == now && t.stopTime == Deadline(now, timeout)
      ensures !old(t.Started()) ==> (t.Known() <==> !now.Zero() || timeout > 0)
      ensures !old(t.Started()) && t !in old(timers) ==>
        && Valid() && k <= |old(timers)| && timers == Inserted(old(timers), k, t)
        && Slot(old(timers), t.stopTime, k)
      ensures !old(t.Started()) && t in old(timers) ==> timers == old(timers) == [t] && Ring(t) && !Valid()
    {
      k := 0;
      if !t.Started() {
        UnknownExactly(t);
        SetTimes(t, now, timeout);
        k := Place(t);
      }
    }

    /** The search of stop_timer. */
    method Find(t: Timer) returns (timer: Timer?, ghost k: nat)
      requires Valid()
      ensures t in timers ==> timer == t && k < |timers| && timers[k] == t
      ensures t !in timers ==> timer == null
    {
      timer := head;
      k := 0;
      while timer != null && timer != t
        invariant 0 <= k <= |timers|
        invariant timer == Right(timers, k)
        invariant t !in timers[..k]
        decreases |timers| - k
      {
        timer := timer.next;
        k := k + 1;
      }
    }

    /** The pointer writes of stop_timer, lines 388-396. */
    method Unlink(timer: Timer, ghost k: nat)
      requires Valid() && k < |timers| && timer == timers[k]
      modifies this, timers`prev, timers`next
      ensures Valid() && timers == Removed(old(timers), k) && timer !in timers
    {
      ghost var s := timers;
      Apart(s, k);
      if timer.prev != null {
        Apart(s, k - 1);
        timer.prev.next := timer.next;
      }
      if timer.next != null {
        Apart(s, k + 1);
        timer.next.prev := timer.prev;
      }
      if head == timer {
        head := timer.next;
      }
      RemovedLinks(s, k);
      RemovedDistinct(s, k);
      RemovedOrder(s, k);
      RemovedArmed(s, k);
      timers := Removed(s, k);
    }

    /** stop_timer. The list loses t if it holds it; t itself is reset in any case. */
    method StopTimer(t: Timer) returns (ghost k: nat)
      requires Valid()
      modifies this, timers`prev, timers`next, t
      ensures Valid() && t !in timers && !t.Started()
      ensures t in old(timers) ==> k < |old(timers)| && old(timers)[k] == t && timers == Removed(old(timers), k)
      ensures t !in old(timers) ==> unchanged(this) && unchanged(old(timers))
    {
      var timer, p := Find(t);
      k := p;
      if timer != null {
        Unlink(timer, k);
      }
      t.prev, t.next := null, null;
      t.startTime, t.stopTime := Timeval(0, 0), Timeval(0, 0);
    }
  }
}
