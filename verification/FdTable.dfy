/** The table of file descriptor callbacks of cblib, with the set and the maximum that
    select() needs. */
module FdTable {

  const FD_SETSIZE: nat := 1024

  import opened Basics

  /** One cbarg. An unused slot has fd -1 and the dummy callback, here None. */
  datatype Slot<C> = Slot(fd: int, callback: Option<C>)

  /** Where the search loops stop: the first slot with this fd, or the table's size. */
  function IndexOf<C>(s: seq<Slot<C>>, fd: int): (i: nat)
    ensures i <= |s|
    ensures i < |s| ==> s[i].fd == fd
    ensures forall k | 0 <= k < i :: s[k].fd != fd
  {
    if s == [] || s[0].fd == fd then 0 else 1 + IndexOf(s[1..], fd)
  }

  predicate Has<C>(s: seq<Slot<C>>, fd: int) {
    IndexOf(s, fd) < |s|
  }

  /** Slot i is unused, with no callback, or the only slot of an fd that fits into an
      fd_set. */
  ghost predicate Sound<C>(s: seq<Slot<C>>, i: nat)
    requires i < |s|
  {
    if s[i].fd == -1 then s[i].callback.None?
    else 0 <= s[i].fd < FD_SETSIZE && s[i].callback.Some? && forall j | 0 <= j < |s| && j != i :: s[j].fd != s[i].fd
  }

  ghost predicate WellFormed<C>(s: seq<Slot<C>>) {
    forall i {:trigger Sound(s, i)} | 0 <= i < |s| :: Sound(s, i)
  }

  /** The callback of a registered fd. */
  ghost function Callback<C>(s: seq<Slot<C>>, fd: nat): C
    requires WellFormed(s) && Has(s, fd)
  {
    assert Sound(s, IndexOf(s, fd));
    s[IndexOf(s, fd)].callback.value
  }

  /** What the table means: which callback is registered for which fd. */
  ghost function Bindings<C>(s: seq<Slot<C>>): map<int, C>
    requires WellFormed(s)
  {
    map fd | 0 <= fd < FD_SETSIZE && Has(s, fd) :: Callback(s, fd)
  }

  ghost predicate IsMaximum(m: int, fds: set<int>) {
    -1 <= m && (m == -1 || m in fds) && forall fd | fd in fds :: 0 <= fd <= m
  }

  /** Overwriting slot i is invisible to every other fd. */
  lemma OtherFds<C>(s: seq<Slot<C>>, i: nat, x: Slot<C>, f: nat)
    requires WellFormed(s) && i < |s| && f != x.fd && f != s[i].fd
    ensures IndexOf(s[i := x], f) == IndexOf(s, f)
  {
    var r := s[i := x];
    var k, m := IndexOf(s, f), IndexOf(r, f);
    assert m == |s| || m == i || r[m] == s[m];
    assert k == |s| || k == i || r[k] == s[k];
  }

  lemma OnlySlot<C>(s: seq<Slot<C>>, i: nat)
    requires i < |s| && s[i].fd >= 0 && Sound(s, i)
    ensures IndexOf(s, s[i].fd) == i
  {
  }

  lemma BindSound<C>(s: seq<Slot<C>>, i: nat, fd: nat, c: C)
    requires WellFormed(s) && i < |s| && fd < FD_SETSIZE
    requires s[i].fd == fd || (s[i].fd == -1 && !Has(s, fd))
    ensures WellFormed(s[i := Slot(fd, Some(c))])
  {
    var r := s[i := Slot(fd, Some(c))];
    assert Sound(s, i);
    forall k | 0 <= k < |r| ensures Sound(r, k) {
      assert Sound(s, k);
    }
  }

  lemma OtherBindings<C>(s: seq<Slot<C>>, i: nat, x: Slot<C>, f: nat)
    requires WellFormed(s) && i < |s| && WellFormed(s[i := x]) && f != x.fd && f != s[i].fd
    ensures Has(s[i := x], f) <==> Has(s, f)
    ensures Has(s, f) ==> Callback(s[i := x], f) == Callback(s, f)
  {
    OtherFds(s, i, x, f);
  }

  lemma BoundHere<C>(s: seq<Slot<C>>, i: nat)
    requires WellFormed(s) && i < |s| && s[i].fd >= 0
    ensures s[i].fd < FD_SETSIZE && Has(s, s[i].fd) && s[i].callback == Some(Callback(s, s[i].fd))
  {
    assert Sound(s, i);
    OnlySlot(s, i);
  }

  /** Writing a callback into an unused slot, or over the same fd, adds one binding. */
  lemma BindSlot<C>(s: seq<Slot<C>>, i: nat, fd: nat, c: C)
    requires WellFormed(s) && i < |s| && fd < FD_SETSIZE
    requires s[i].fd == fd || (s[i].fd == -1 && !Has(s, fd))
    ensures WellFormed(s[i := Slot(fd, Some(c))])
    ensures Bindings(s[i := Slot(fd, Some(c))]) == Bindings(s)[fd := c]
  {
    hide WellFormed, Sound, IndexOf, Has, Callback;
    var x := Slot(fd, Some(c));
    BindSound(s, i, fd, c);
    BoundHere(s[i := x], i);
    forall f: nat | f != fd
      ensures Has(s[i := x], f) <==> Has(s, f)
      ensures Has(s, f) ==> Callback(s[i := x], f) == Callback(s, f)
    {
      OtherBindings(s, i, x, f);
    }
  }

  lemma ClearSound<C>(s: seq<Slot<C>>, i: nat)
    requires WellFormed(s) && i < |s| && s[i].fd >= 0
    ensures WellFormed(s[i := Slot(-1, None)]) && !Has(s[i := Slot(-1, None)], s[i].fd)
  {
    var r := s[i := Slot(-1, None)];
    assert Sound(s, i);
    forall k | 0 <= k < |r| ensures Sound(r, k) {
      assert Sound(s, k);
    }
  }

  /** Clearing a slot removes one binding. */
  lemma ClearSlot<C>(s: seq<Slot<C>>, i: nat)
    requires WellFormed(s) && i < |s| && s[i].fd >= 0
    ensures WellFormed(s[i := Slot(-1, None)])
    ensures Bindings(s[i := Slot(-1, None)]) == Bindings(s) - {s[i].fd}
  {
    hide WellFormed, Sound, IndexOf, Has, Callback;
    var x: Slot<C> := Slot(-1, None);
    ClearSound(s, i);
    forall f: nat | f != s[i].fd
      ensures Has(s[i := x], f) <==> Has(s, f)
      ensures Has(s, f) ==> Callback(s[i := x], f) == Callback(s, f)
    {
      OtherBindings(s, i, x, f);
    }
  }

  /** A call that a callback makes: register_fd_callback or register_stdin_callback,
      deregister_fd_callback or deregister_stdin_callback. */
  datatype Act<C> = Register(fd: int, callback: Option<C>) | RegisterStdin(callback: Option<C>)
                  | Deregister(fd: int) | DeregisterStdin

  /** FD_SET is undefined for larger descriptors. */
  predicate Fitting<C>(act: Act<C>) {
    act.Register? || act.Deregister? ==> act.fd < FD_SETSIZE
  }

  /** What a call does to the bindings. */
  function Effect<C>(m: map<int, C>, act: Act<C>): map<int, C> {
    match act
    case Register(fd, c) => if fd <= 0 || c.None? then m else m[fd := c.value]
    case RegisterStdin(c) => if c.None? then m else m[0 := c.value]
    case Deregister(fd) => if fd <= 0 then m else m - {fd}
    case DeregisterStdin => m - {0}
  }

  function Effects<C>(m: map<int, C>, acts: seq<Act<C>>): map<int, C> {
    if acts == [] then m else Effect(Effects(m, acts[..|acts| - 1]), acts[|acts| - 1])
  }

  /** The call is about fd and not ignored. */
  predicate Names<C>(act: Act<C>, fd: int) {
    match act
    case Register(f, c) => f == fd && fd > 0 && c.Some?
    case RegisterStdin(c) => fd == 0 && c.Some?
    case Deregister(f) => f == fd && fd > 0
    case DeregisterStdin => fd == 0
  }

  predicate Binds<C>(act: Act<C>) {
    (act.Register? || act.RegisterStdin?) && act.callback.Some?
  }

  ghost predicate SameAt<C>(m: map<int, C>, n: map<int, C>, fd: int) {
    (fd in m <==> fd in n) && (fd in m ==> m[fd] == n[fd])
  }

  ghost predicate NoneNames<C>(acts: seq<Act<C>>, from: nat, fd: int) {
    forall k | from <= k < |acts| :: !Names(acts[k], fd)
  }

  /** The last call of the sequence that is about fd and not ignored. */
  ghost predicate LastNaming<C>(acts: seq<Act<C>>, k: nat, fd: int) {
    k < |acts| && Names(acts[k], fd) && NoneNames(acts, k + 1, fd)
  }

  /** The last call about a descriptor decides: it is bound if and only if that call
      registers it, and then to that call's callback. Without such a call it stays as it
      was. */
  lemma {:induction false} EffectsExactly<C>(m: map<int, C>, acts: seq<Act<C>>, fd: int)
    ensures NoneNames(acts, 0, fd) ==> SameAt(m, Effects(m, acts), fd)
    ensures forall k: nat | LastNaming(acts, k, fd) ::
      && (fd in Effects(m, acts) <==> Binds(acts[k]))
      && (Binds(acts[k]) ==> Effects(m, acts)[fd] == acts[k].callback.value)
  {
    if acts != [] {
      var n := |acts| - 1;
      var before := acts[..n];
      EffectsExactly(m, before, fd);
      forall k: nat | LastNaming(acts, k, fd) && k < n ensures LastNaming(before, k, fd) {
        forall l | k + 1 <= l < |before| ensures !Names(before[l], fd) {
          assert acts[l] == before[l];
        }
      }
      if NoneNames(acts, 0, fd) {
        forall l | 0 <= l < |before| ensures !Names(before[l], fd) {
          assert acts[l] == before[l];
        }
      }
    }
  }

  /** None of these calls forgets fd. */
  ghost predicate Spares<C>(acts: seq<Act<C>>, fd: int) {
    forall k | 0 <= k < |acts| :: SparesOne(acts[k], fd)
  }

  predicate SparesOne<C>(act: Act<C>, fd: int) {
    (act.Deregister? ==> act.fd != fd) && (act.DeregisterStdin? ==> fd != 0)
  }

  predicate AllFitting<C>(rounds: seq<seq<Act<C>>>) {
    forall k, j | 0 <= k < |rounds| && 0 <= j < |rounds[k]| :: Fitting(rounds[k][j])
  }

  /** What the callback in the k-th place of a round does, if there is one. */
  function ActsOf<C>(rounds: seq<seq<Act<C>>>, k: nat): seq<Act<C>> {
    if k < |rounds| then rounds[k] else []
  }

  /** The bindings after the first k callbacks of a round. */
  function After<C>(m: map<int, C>, rounds: seq<seq<Act<C>>>, k: nat): map<int, C> {
    if k == 0 then m else Effects(After(m, rounds, k - 1), ActsOf(rounds, k - 1))
  }

  /** The j-th callback of a round ends with fd not registered, and none of those from
      there up to the k-th registers it. */
  ghost predicate Forgotten<C>(rounds: seq<seq<Act<C>>>, j: nat, k: nat, fd: int) {
    && j < k
    && (exists i: nat :: LastNaming(ActsOf(rounds, j), i, fd) && !Binds(ActsOf(rounds, j)[i]))
    && forall l: nat | j < l < k :: NoneNames(ActsOf(rounds, l), 0, fd)
  }

  lemma {:induction false} ForgottenIsUnbound<C>(m: map<int, C>, rounds: seq<seq<Act<C>>>, j: nat, k: nat, fd: int)
    requires Forgotten(rounds, j, k, fd)
    ensures fd !in After(m, rounds, k)
    decreases k
  {
    EffectsExactly(After(m, rounds, k - 1), ActsOf(rounds, k - 1), fd);
    if j < k - 1 {
      ForgottenIsUnbound(m, rounds, j, k - 1, fd);
    }
  }

  /** None of the first k callbacks of a round forgets fd. */
  ghost predicate Kept<C>(rounds: seq<seq<Act<C>>>, k: nat, fd: int) {
    forall j: nat | j < k :: Spares(ActsOf(rounds, j), fd)
  }

  /** Every registered fd for which `spared` holds has kept its slot. */
  ghost predicate SameSlots<C>(before: seq<Slot<C>>, after: seq<Slot<C>>, spared: int -> bool) {
    && |after| == |before|
    && forall f: nat | Has(before, f) && spared(f) :: IndexOf(after, f) == IndexOf(before, f)
  }

  lemma BindKeepsSlots<C>(s: seq<Slot<C>>, i: nat, fd: nat, c: C)
    requires WellFormed(s) && i < |s|
    requires s[i].fd == fd || (s[i].fd == -1 && !Has(s, fd))
    ensures SameSlots(s, s[i := Slot(fd, Some(c))], _ => true)
  {
    var x := Slot(fd, Some(c));
    forall f: nat | Has(s, f) ensures IndexOf(s[i := x], f) == IndexOf(s, f) {
      if f == fd {
        assert Sound(s, i);
        OnlySlot(s, i);
        assert s[i := x][i].fd == f;
      } else {
        OtherFds(s, i, x, f);
      }
    }
  }

  lemma SameSlotsAtAll<C>(s: seq<Slot<C>>, spared: int -> bool)
    ensures SameSlots(s, s, spared)
  {
  }

  lemma ClearKeepsSlots<C>(s: seq<Slot<C>>, i: nat)
    requires WellFormed(s) && i < |s| && s[i].fd >= 0
    ensures SameSlots(s, s[i := Slot(-1, None)], f => f != s[i].fd)
  {
    forall f: nat | f != s[i].fd ensures IndexOf(s[i := Slot(-1, None)], f) == IndexOf(s, f) {
      OtherFds(s, i, Slot(-1, None), f);
    }
  }

  ghost predicate Distinct(q: seq<int>) {
    forall i, j | 0 <= i < j < |q| :: q[i] != q[j]
  }

  lemma {:induction false} Pigeonhole(q: seq<int>, n: nat)
    requires Distinct(q) && forall i | 0 <= i < |q| :: 0 <= q[i] < n
    ensures |q| <= n
  {
    if q != [] {
      assert 0 <= q[0] < n;
      if k :| 0 <= k < |q| && q[k] == n - 1 {
        Pigeonhole(q[..k] + q[k + 1..], n - 1);
      } else {
        Pigeonhole(q, n - 1);
      }
    }
  }

  /** The branch "file descriptor table full" cannot be taken: a full table holds every
      fd below FD_SETSIZE. */
  lemma NeverFull<C>(s: seq<Slot<C>>, fd: nat)
    requires WellFormed(s) && |s| == FD_SETSIZE && fd < FD_SETSIZE && !Has(s, fd)
    ensures Has(s, -1)
  {
    if !Has(s, -1) {
      var q := seq(|s|, i requires 0 <= i < |s| => s[i].fd) + [fd];
      forall i | 0 <= i < |q| ensures 0 <= q[i] < FD_SETSIZE {
        assert i < |s| ==> Sound(s, i);
      }
      forall i, j | 0 <= i < j < |q| ensures q[i] != q[j] {
        assert Sound(s, i);
      }
      Pigeonhole(q, FD_SETSIZE);
      assert false;
    }
  }

  class Table<C> {
    const cb: array<Slot<C>>
    var readFds: set<int>
    var maxfd: int

    ghost predicate Valid()
      reads this, cb
    {
      cb.Length == FD_SETSIZE && WellFormed(cb[..]) && readFds == Bindings(cb[..]).Keys && IsMaximum(maxfd, readFds)
    }

    ghost function Registered(): map<int, C>
      requires Valid()
      reads this, cb
    {
      Bindings(cb[..])
    }

    /** init_cblib. */
    constructor ()
      ensures Valid() && Registered() == map[] && fresh(cb)
    {
      cb := new Slot<C>[FD_SETSIZE](_ => Slot(0, None));
      readFds, maxfd := {}, -1;
      new;
      for i := 0 to FD_SETSIZE
        invariant readFds == {} && maxfd == -1
        invariant forall k | 0 <= k < i :: cb[k] == Slot(-1, None)
      {
        cb[i] := Slot(-1, None);
      }
    }

    /** The search loops. */
    method Search(fd: int) returns (i: nat)
      requires Valid()
      ensures i == IndexOf(cb[..], fd)
    {
      i := 0;
      while i < cb.Length
        invariant i <= cb.Length
        invariant IndexOf(cb[..], fd) == i + IndexOf(cb[i..], fd)
      {
        if cb[i].fd == fd {
          break;
        }
        assert cb[i..][1..] == cb[i + 1..];
        i := i + 1;
      }
    }

    /** register_fd_callback: an fd that is not positive or a missing callback changes
        nothing; every other call binds fd, whether it was registered or not. */
    method RegisterFd(fd: int, callback: Option<C>)
      requires Valid() && fd < FD_SETSIZE
      modifies this, cb
      ensures Valid()
      ensures fd > 0 && callback.Some? ==> Registered() == old(Registered())[fd := callback.value]
      ensures fd <= 0 || callback.None? ==> Registered() == old(Registered())
      ensures Registered() == Effect(old(Registered()), Act.Register(fd, callback))
      ensures SameSlots(old(cb[..]), cb[..], _ => true)
    {
      if fd <= 0 || callback.None? {
        return;
      }
      Register(fd, callback.value);
    }

    /** register_stdin_callback. */
    method RegisterStdin(callback: Option<C>)
      requires Valid()
      modifies this, cb
      ensures Valid()
      ensures callback.Some? ==> Registered() == old(Registered())[0 := callback.value]
      ensures callback.None? ==> Registered() == old(Registered())
      ensures Registered() == Effect(old(Registered()), Act.RegisterStdin(callback))
      ensures SameSlots(old(cb[..]), cb[..], _ => true)
    {
      if callback.None? {
        return;
      }
      Register(0, callback.value);
    }

    /** The two register functions from their first loop on; stdin is fd 0. */
    method Register(fd: int, callback: C)
      requires Valid() && 0 <= fd < FD_SETSIZE
      modifies this, cb
      ensures Valid() && Registered() == old(Registered())[fd := callback]
      ensures SameSlots(old(cb[..]), cb[..], _ => true)
    {
      ghost var s := cb[..];
      var i := Search(fd);
      if i < FD_SETSIZE {
        BindSlot(s, i, fd, callback);
        BindKeepsSlots(s, i, fd, callback);
        cb[i] := Slot(fd, Some(callback));
        assert cb[..] == s[i := Slot(fd, Some(callback))];
        return;
      }
      assert !Has(s, fd);
      NeverFull(s, fd);
      i := Search(-1);
      if i < FD_SETSIZE {
        BindSlot(s, i, fd, callback);
        BindKeepsSlots(s, i, fd, callback);
        cb[i] := Slot(fd, Some(callback));
        assert cb[..] == s[i := Slot(fd, Some(callback))];
        readFds := readFds + {fd};
        if fd > maxfd {
          maxfd := fd;
        }
      }
    }

    /** deregister_fd_callback: forgets a positive fd. */
    method DeregisterFd(fd: int)
      requires Valid() && fd < FD_SETSIZE
      modifies this, cb
      ensures Valid()
      ensures Registered() == if fd > 0 then old(Registered()) - {fd} else old(Registered())
      ensures Registered() == Effect(old(Registered()), Act.Deregister(fd))
      ensures SameSlots(old(cb[..]), cb[..], f => f != fd)
    {
      hide SameSlots, Sound;
      ghost var s := cb[..];
      SameSlotsAtAll(s, f => f != fd);
      if fd <= 0 {
        return;
      }
      var i := Search(fd);
      if i < FD_SETSIZE {
        ClearSlot(s, i);
        ClearKeepsSlots(s, i);
        cb[i] := Slot(-1, None);
        assert cb[..] == s[i := Slot(-1, None)];
        if maxfd == fd {
          maxfd := Maximum();
        }
      }
      readFds := readFds - {fd};
    }

    /** The loop of deregister_fd_callback that looks for the new maximum. */
    method Maximum() returns (m: int)
      requires cb.Length == FD_SETSIZE && WellFormed(cb[..])
      ensures IsMaximum(m, Bindings(cb[..]).Keys)
    {
      m := -1;
      for i := 0 to FD_SETSIZE
        invariant m >= 0 ==> exists k | 0 <= k < i :: cb[k].fd == m
        invariant -1 <= m && forall k | 0 <= k < i :: cb[k].fd <= m
      {
        if cb[i].fd > m {
          m := cb[i].fd;
        }
      }
      if m >= 0 {
        ghost var k :| 0 <= k < FD_SETSIZE && cb[k].fd == m;
        assert Sound(cb[..], k);
        OnlySlot(cb[..], k);
      }
    }

    /** deregister_stdin_callback: the new maximum needs no loop. */
    method DeregisterStdin()
      requires Valid()
      modifies this, cb
      ensures Valid() && Registered() == old(Registered()) - {0}
      ensures Registered() == Effect(old(Registered()), Act<C>.DeregisterStdin)
      ensures SameSlots(old(cb[..]), cb[..], f => f != 0)
    {
      ghost var s := cb[..];
      var i := Search(0);
      if i < FD_SETSIZE {
        ClearSlot(s, i);
        ClearKeepsSlots(s, i);
        cb[i] := Slot(-1, None);
        assert cb[..] == s[i := Slot(-1, None)];
        if maxfd == 0 {
          maxfd := -1;
        }
      }
      readFds := readFds - {0};
    }

    method PerformOne(act: Act<C>)
      requires Valid() && Fitting(act)
      modifies this, cb
      ensures Valid() && Registered() == Effect(old(Registered()), act)
      ensures SameSlots(old(cb[..]), cb[..], f => SparesOne(act, f))
    {
      hide Effect;
      match act {
        case Register(fd, callback) => RegisterFd(fd, callback);
        case RegisterStdin(callback) => RegisterStdin(callback);
        case Deregister(fd) => DeregisterFd(fd);
        case DeregisterStdin => DeregisterStdin();
      }
    }

    /** The calls that a callback makes. */
    method Perform(acts: seq<Act<C>>)
      requires Valid() && forall k | 0 <= k < |acts| :: Fitting(acts[k])
      modifies this, cb
      ensures Valid() && Registered() == Effects(old(Registered()), acts)
      ensures SameSlots(old(cb[..]), cb[..], f => Spares(acts, f))
    {
      hide Effect, SameSlots, Bindings, WellFormed, IsMaximum, Spares, SparesOne;
      ghost var s, m := cb[..], Registered();
      assert acts[..0] == [];
      SameSlotsAtAll(s, f => Spares(acts[..0], f));
      for k := 0 to |acts|
        invariant Valid() && Registered() == Effects(m, acts[..k])
        invariant SameSlots(s, cb[..], f => Spares(acts[..k], f))
      {
        ghost var before := cb[..];
        PerformOne(acts[k]);
        assert acts[..k + 1][..k] == acts[..k];
        SlotsOverActs(s, before, cb[..], acts, k);
      }
      assert acts[..|acts|] == acts;
    }

    /** The loop of handle_event over the descriptors that select reported. Each
        callback may register and deregister descriptors, its own included; `rounds[k]`
        are the calls of the k-th callback. */
    method Dispatch(ready: set<int>, rounds: seq<seq<Act<C>>>) returns (called: seq<int>, callbacks: seq<C>)
      requires Valid() && AllFitting(rounds)
      modifies this, cb
      ensures Valid() && Registered() == After(old(Registered()), rounds, |called|)
      ensures RoundIs(called, ready, old(Registered()), rounds)
      ensures CallbacksOf(callbacks, called, old(Registered()), rounds)
      ensures forall j, k | 0 <= j < k < |called| :: !Forgotten(rounds, j, k, called[k])
    {
      hide Calls, SameSlots, After, Kept, Effects, SparedSince, Behind, Forgotten, CallbacksOf, Bindings, IndexOf;
      ghost var s, m := cb[..], Registered();
      called, callbacks := [], [];
      CallsStart(ready, s, m, rounds);
      CallbacksStart(m, rounds);
      BehindStart(s, rounds);
      for i := 0 to FD_SETSIZE
        invariant Valid() && |called| <= i && Registered() == After(m, rounds, |called|)
        invariant SameSlots(s, cb[..], f => Kept(rounds, |called|, f))
        invariant Calls(called, ready, s, m, rounds, i) && Behind(called, cb[..], rounds, i)
        invariant CallbacksOf(callbacks, called, m, rounds)
        invariant forall j, k | 0 <= j < k < |called| && called[j] == called[k] :: !SparedSince(rounds, j, k, called[k])
      {
        var k := |called|;
        ghost var now := cb[..];
        assert Sound(now, i);
        if cb[i].fd >= 0 && cb[i].fd in ready {
          CallsOn(called, ready, s, now, m, rounds, i);
          NotYet(called, now, rounds, i);
          CallbacksOn(callbacks, called, now, m, rounds, i);
          called, callbacks := called + [cb[i].fd], callbacks + [cb[i].callback.value];
          Perform(ActsOf(rounds, k));
          SlotsOverRounds(s, now, cb[..], rounds, k);
          AfterOne(m, rounds, k);
          BehindOn(called, now, cb[..], rounds, i);
        } else {
          BehindPast(called, now, rounds, i);
          CallsPast(called, ready, s, now, m, rounds, i);
        }
      }
      CallsEnd(called, ready, s, m, rounds);
      NoneForgotten(called, m, rounds);
    }
  }

  /** The callbacks called are those bound at that moment. */
  ghost predicate CallbacksOf<C>(callbacks: seq<C>, called: seq<int>, m: map<int, C>, rounds: seq<seq<Act<C>>>) {
    && |callbacks| == |called|
    && forall k | 0 <= k < |called| ::
         called[k] in After(m, rounds, k) && callbacks[k] == After(m, rounds, k)[called[k]]
  }

  lemma CallbacksStart<C>(m: map<int, C>, rounds: seq<seq<Act<C>>>)
    ensures CallbacksOf([], [], m, rounds)
  {
  }

  lemma CallbacksOn<C>(callbacks: seq<C>, called: seq<int>, now: seq<Slot<C>>, m: map<int, C>,
                       rounds: seq<seq<Act<C>>>, i: nat)
    requires CallbacksOf(callbacks, called, m, rounds) && WellFormed(now) && i < |now|
    requires Bindings(now) == After(m, rounds, |called|) && 0 <= now[i].fd < FD_SETSIZE
    ensures now[i].callback.Some?
    ensures CallbacksOf(callbacks + [now[i].callback.value], called + [now[i].fd], m, rounds)
  {
    IsBound(now, i);
  }

  lemma NoneForgotten<C>(called: seq<int>, m: map<int, C>, rounds: seq<seq<Act<C>>>)
    requires forall k | 0 <= k < |called| :: called[k] in After(m, rounds, k)
    ensures forall j, k | 0 <= j < k < |called| :: !Forgotten(rounds, j, k, called[k])
  {
    forall j, k | 0 <= j < k < |called| ensures !Forgotten(rounds, j, k, called[k]) {
      if Forgotten(rounds, j, k, called[k]) {
        ForgottenIsUnbound(m, rounds, j, k, called[k]);
      }
    }
  }

  /** The callbacks of a round are called for the right descriptors. Whoever is called has
      been reported and is registered at that moment; a reported fd that is registered at
      the start and that no callback deregisters is called exactly once; and no fd is
      called a second time unless it has been deregistered since. */
  ghost predicate RoundIs<C>(called: seq<int>, ready: set<int>, m: map<int, C>, rounds: seq<seq<Act<C>>>) {
    && (forall k | 0 <= k < |called| :: called[k] in ready && called[k] in After(m, rounds, k))
    && (forall fd | fd in ready && fd in m && Kept(rounds, |called|, fd) :: multiset(called)[fd] == 1)
    && (forall j, k | 0 <= j < k < |called| && called[j] == called[k] :: !SparedSince(rounds, j, k, called[k]))
  }

  /** What holds of the callbacks called for the first i slots of a table that was s
      when the loop began. */
  ghost predicate Calls<C>(called: seq<int>, ready: set<int>, s: seq<Slot<C>>, m: map<int, C>,
                           rounds: seq<seq<Act<C>>>, i: nat) {
    && (forall k | 0 <= k < |called| :: called[k] in ready && called[k] in After(m, rounds, k))
    && (forall fd: nat | fd in ready && Has(s, fd) && Kept(rounds, |called|, fd) ::
          multiset(called)[fd] == if IndexOf(s, fd) < i then 1 else 0)
  }

  lemma CallsStart<C>(ready: set<int>, s: seq<Slot<C>>, m: map<int, C>, rounds: seq<seq<Act<C>>>)
    ensures Calls([], ready, s, m, rounds, 0) && After(m, rounds, 0) == m && SameSlots(s, s, f => Kept(rounds, 0, f))
  {
  }

  lemma AfterOne<C>(m: map<int, C>, rounds: seq<seq<Act<C>>>, k: nat)
    ensures After(m, rounds, k + 1) == Effects(After(m, rounds, k), ActsOf(rounds, k))
    ensures k < |rounds| ==> After(m, rounds, k + 1) == Effects(After(m, rounds, k), rounds[k])
  {
  }

  lemma IsBound<C>(s: seq<Slot<C>>, i: nat)
    requires WellFormed(s) && i < |s| && 0 <= s[i].fd < FD_SETSIZE
    ensures s[i].fd in Bindings(s) && IndexOf(s, s[i].fd) == i
    ensures s[i].callback == Some(Bindings(s)[s[i].fd])
    ensures forall f | IndexOf(s, f) == i :: f == s[i].fd
  {
    assert Sound(s, i);
    OnlySlot(s, i);
  }

  lemma CallsOn<C>(called: seq<int>, ready: set<int>, s: seq<Slot<C>>, now: seq<Slot<C>>, m: map<int, C>,
                   rounds: seq<seq<Act<C>>>, i: nat)
    requires Calls(called, ready, s, m, rounds, i) && SameSlots(s, now, f => Kept(rounds, |called|, f))
    requires WellFormed(now) && i < |now| && Bindings(now) == After(m, rounds, |called|)
    requires 0 <= now[i].fd < FD_SETSIZE && now[i].fd in ready
    ensures Calls(called + [now[i].fd], ready, s, m, rounds, i + 1)
  {
    hide After, Bindings, IndexOf, Kept;
    var x, longer := now[i].fd, called + [now[i].fd];
    IsBound(now, i);
    forall fd: nat | fd in ready && Has(s, fd) && Kept(rounds, |longer|, fd)
      ensures multiset(longer)[fd] == if IndexOf(s, fd) < i + 1 then 1 else 0
    {
      KeptLonger(rounds, |called|, fd);
      assert IndexOf(now, fd) == IndexOf(s, fd);
      assert multiset(longer)[fd] == multiset(called)[fd] + if x == fd then 1 else 0;
    }
  }

  lemma CallsPast<C>(called: seq<int>, ready: set<int>, s: seq<Slot<C>>, now: seq<Slot<C>>, m: map<int, C>,
                     rounds: seq<seq<Act<C>>>, i: nat)
    requires Calls(called, ready, s, m, rounds, i) && SameSlots(s, now, f => Kept(rounds, |called|, f))
    requires i < |now| && !(now[i].fd >= 0 && now[i].fd in ready)
    ensures Calls(called, ready, s, m, rounds, i + 1)
  {
    forall fd: nat | fd in ready && Has(s, fd) && Kept(rounds, |called|, fd) ensures IndexOf(s, fd) != i {
      assert IndexOf(now, fd) == IndexOf(s, fd);
    }
  }

  lemma CallsEnd<C>(called: seq<int>, ready: set<int>, s: seq<Slot<C>>, m: map<int, C>, rounds: seq<seq<Act<C>>>)
    requires Calls(called, ready, s, m, rounds, |s|) && WellFormed(s) && m == Bindings(s)
    ensures forall k | 0 <= k < |called| :: called[k] in ready && called[k] in After(m, rounds, k)
    ensures forall fd | fd in ready && fd in m && Kept(rounds, |called|, fd) :: multiset(called)[fd] == 1
  {
    forall fd | fd in ready && fd in m && Kept(rounds, |called|, fd) ensures multiset(called)[fd] == 1 {
      assert 0 <= fd && Has(s, fd);
    }
  }

  /** No callback from the j-th up to the k-th, which is left out, forgets fd. */
  ghost predicate SparedSince<C>(rounds: seq<seq<Act<C>>>, j: nat, k: nat, fd: int) {
    forall l: nat | j <= l < k :: Spares(ActsOf(rounds, l), fd)
  }

  /** Whoever has been called and not been forgotten is in one of the first i slots. */
  ghost predicate Behind<C>(called: seq<int>, now: seq<Slot<C>>, rounds: seq<seq<Act<C>>>, i: nat) {
    forall j | 0 <= j < |called| && SparedSince(rounds, j, |called|, called[j]) ::
      called[j] >= 0 && IndexOf(now, called[j]) < i <= |now|
  }

  lemma BehindStart<C>(s: seq<Slot<C>>, rounds: seq<seq<Act<C>>>)
    ensures Behind([], s, rounds, 0)
  {
  }

  lemma BehindPast<C>(called: seq<int>, now: seq<Slot<C>>, rounds: seq<seq<Act<C>>>, i: nat)
    requires Behind(called, now, rounds, i) && i < |now|
    ensures Behind(called, now, rounds, i + 1)
  {
  }

  lemma NotYet<C>(called: seq<int>, now: seq<Slot<C>>, rounds: seq<seq<Act<C>>>, i: nat)
    requires Behind(called, now, rounds, i) && WellFormed(now) && i < |now| && 0 <= now[i].fd < FD_SETSIZE
    ensures forall j | 0 <= j < |called| && called[j] == now[i].fd :: !SparedSince(rounds, j, |called|, called[j])
  {
    IsBound(now, i);
  }

  lemma BehindOn<C>(called: seq<int>, now: seq<Slot<C>>, after: seq<Slot<C>>, rounds: seq<seq<Act<C>>>, i: nat)
    requires called != [] && WellFormed(now) && i < |now| && 0 <= now[i].fd < FD_SETSIZE
    requires called[|called| - 1] == now[i].fd
    requires Behind(called[..|called| - 1], now, rounds, i)
    requires SameSlots(now, after, f => Spares(ActsOf(rounds, |called| - 1), f))
    ensures Behind(called, after, rounds, i + 1)
  {
    IsBound(now, i);
    var k := |called| - 1;
    forall j | 0 <= j < |called| && SparedSince(rounds, j, |called|, called[j])
      ensures called[j] >= 0 && IndexOf(after, called[j]) < i + 1 <= |after|
    {
      assert Spares(ActsOf(rounds, k), called[j]);
      if j < k {
        assert SparedSince(rounds, j, k, called[..k][j]);
      }
    }
  }

  /** If the callbacks leave the table alone, exactly the callbacks of the reported
      registered fds are called, each once. */
  lemma QuietRound<C>(called: seq<int>, ready: set<int>, m: map<int, C>, rounds: seq<seq<Act<C>>>)
    requires forall k | 0 <= k < |rounds| :: rounds[k] == []
    requires RoundIs(called, ready, m, rounds)
    ensures forall fd :: fd in called <==> fd in ready && fd in m
    ensures forall i, j | 0 <= i < j < |called| :: called[i] != called[j]
  {
    forall k: nat ensures After(m, rounds, k) == m {
      QuietAfter(m, rounds, k);
    }
    assert forall k: nat :: ActsOf(rounds, k) == [];
    assert forall fd :: Kept(rounds, |called|, fd);
    hide After, Kept, ActsOf, SparedSince;
    forall i, j | 0 <= i < j < |called| ensures called[i] != called[j] {
      assert called[j] in ready && called[j] in After(m, rounds, j);
      assert Kept(rounds, |called|, called[j]);
      CountedOnce(called, i, j);
    }
    forall fd | fd in ready && fd in m ensures fd in called {
      assert Kept(rounds, |called|, fd);
      assert multiset(called)[fd] == 1;
    }
  }

  lemma CountedOnce(q: seq<int>, i: nat, j: nat)
    requires i < j < |q| && multiset(q)[q[j]] == 1
    ensures q[i] != q[j]
  {
    assert q == q[..j] + [q[j]] + q[j + 1..];
    assert q[i] in q[..j];
  }

  lemma {:induction false} QuietAfter<C>(m: map<int, C>, rounds: seq<seq<Act<C>>>, k: nat)
    requires forall j | 0 <= j < |rounds| :: rounds[j] == []
    ensures After(m, rounds, k) == m
  {
    if k > 0 {
      QuietAfter(m, rounds, k - 1);
    }
  }

  lemma SlotsOverActs<C>(s: seq<Slot<C>>, before: seq<Slot<C>>, after: seq<Slot<C>>, acts: seq<Act<C>>, k: nat)
    requires k < |acts| && SameSlots(s, before, f => Spares(acts[..k], f))
    requires SameSlots(before, after, f => SparesOne(acts[k], f))
    ensures SameSlots(s, after, f => Spares(acts[..k + 1], f))
  {
    forall f: nat | Has(s, f) && Spares(acts[..k + 1], f) ensures IndexOf(after, f) == IndexOf(s, f) {
      assert acts[..k + 1][k] == acts[k];
      forall j | 0 <= j < k ensures SparesOne(acts[..k][j], f) {
        assert acts[..k + 1][j] == acts[..k][j];
      }
    }
  }

  lemma KeptLonger<C>(rounds: seq<seq<Act<C>>>, k: nat, fd: int)
    requires Kept(rounds, k + 1, fd)
    ensures Kept(rounds, k, fd) && Spares(ActsOf(rounds, k), fd)
  {
  }

  lemma SlotsOverRounds<C>(s: seq<Slot<C>>, before: seq<Slot<C>>, after: seq<Slot<C>>, rounds: seq<seq<Act<C>>>, k: nat)
    requires SameSlots(s, before, f => Kept(rounds, k, f))
    requires SameSlots(before, after, f => Spares(ActsOf(rounds, k), f))
    ensures SameSlots(s, after, f => Kept(rounds, k + 1, f))
  {
    forall f: nat | Has(s, f) && Kept(rounds, k + 1, f) ensures IndexOf(after, f) == IndexOf(s, f) {
      KeptLonger(rounds, k, f);
    }
  }
}
