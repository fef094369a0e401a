/** The reader/writer lock of thr_rwlock.h over the Windows SRWLOCK: one unlock function
    picks the native release from a plain flag. Any number of threads, every interleaving
    of the native calls and of the single reads and writes of the flag. */
module RwLock {
  import opened Counting

  /** A native slim lock: held exclusively, or shared by some number of holders. */
  datatype Native = Native(exclusive: bool, shared: nat)

  datatype Hold = Shared | Exclusive

  function AcquireShared(n: Native): Native {
    n.(shared := n.shared + 1)
  }

  function AcquireExclusive(n: Native): Native {
    n.(exclusive := true)
  }

  function Release(n: Native, h: Hold): Native {
    match h
    case Shared => n.(shared := if n.shared > 0 then n.shared - 1 else 0)
    case Exclusive => n.(exclusive := false)
  }

  predicate CanShare(n: Native) {
    !n.exclusive
  }

  predicate CanExclude(n: Native) {
    !n.exclusive && n.shared == 0
  }

  /** Where a thread stands. A thread that holds the lock may call unlock next, so it is
      about to read the flag. `held` remembers how the lock was acquired. */
  datatype Thread =
    | Idle
    | MustSetFlag                             // wrlock: exclusive acquired, flag not yet set
    | Holding(held: Hold)
    | Deciding(held: Hold, flag: bool)        // unlock: the flag has been read
    | MustRelease(held: Hold)                 // unlock: the flag has been cleared

  /** `misused` records a native release of the wrong kind. */
  datatype State = State(native: Native, flag: bool, threads: seq<Thread>, misused: bool)

  datatype Event =
    | RdLock(t: nat)                  // native_rw_rdlock or a successful native_rw_tryrdlock
    | WrLock(t: nat)                  // the native acquire of wrlock or trywrlock
    | TryRdFails(t: nat)              // native_rw_tryrdlock returns EBUSY
    | TryWrFails(t: nat)              // native_rw_trywrlock returns EBUSY
    | Next(t: nat)                    // the next step of wrlock or unlock

  /** native_rw_init. */
  function Init(n: nat): State {
    State(Native(false, 0), false, seq(n, _ => Idle), false)
  }

  predicate Enabled(s: State, e: Event) {
    && e.t < |s.threads|
    && match e
       case RdLock(t) => s.threads[t].Idle? && CanShare(s.native)
       case WrLock(t) => s.threads[t].Idle? && CanExclude(s.native)
       case TryRdFails(t) => s.threads[t].Idle? && !CanShare(s.native)
       case TryWrFails(t) => s.threads[t].Idle? && !CanExclude(s.native)
       case Next(t) => !s.threads[t].Idle?
  }

  function Become(s: State, t: nat, th: Thread): State
    requires t < |s.threads|
  {
    s.(threads := s.threads[t := th])
  }

  /** The native release, of kind `called`, by a thread that acquired with `held`. */
  function CallRelease(s: State, t: nat, held: Hold, called: Hold): State
    requires t < |s.threads|
  {
    Become(s, t, Idle).(native := Release(s.native, called), misused := s.misused || called != held)
  }

  function Step(s: State, e: Event): State
    requires Enabled(s, e)
  {
    var t := e.t;
    match e
    case RdLock(_) => Become(s, t, Holding(Shared)).(native := AcquireShared(s.native))
    case WrLock(_) => Become(s, t, MustSetFlag).(native := AcquireExclusive(s.native))
    case TryRdFails(_) => s
    case TryWrFails(_) => s
    case Next(_) =>
      match s.threads[t]
      case MustSetFlag => Become(s, t, Holding(Exclusive)).(flag := true)
      case Holding(h) => Become(s, t, Deciding(h, s.flag))
      case Deciding(h, true) => Become(s, t, MustRelease(h)).(flag := false)
      case Deciding(h, false) => CallRelease(s, t, h, Shared)
      case MustRelease(h) => CallRelease(s, t, h, Exclusive)
  }

  predicate Legal(s: State, es: seq<Event>)
    decreases es
  {
    es != [] ==> Enabled(s, es[0]) && Legal(Step(s, es[0]), es[1..])
  }

  function Exec(s: State, es: seq<Event>): State
    requires Legal(s, es)
    decreases es
  {
    if es == [] then s else Exec(Step(s, es[0]), es[1..])
  }

  predicate HoldsShared(th: Thread) {
    !th.Idle? && !th.MustSetFlag? && th.held == Shared
  }

  predicate HoldsExclusive(th: Thread) {
    th.MustSetFlag? || (!th.Idle? && th.held == Exclusive)
  }

  /** The exclusive holders that have set the flag and not yet cleared it. */
  predicate OwnsFlag(th: Thread) {
    HoldsExclusive(th) && !th.MustSetFlag? && !th.MustRelease?
  }

  ghost predicate Inv(s: State) {
    && !s.misused
    && s.native.shared == Count(s.threads, HoldsShared)
    && (if s.native.exclusive then 1 else 0) == Count(s.threads, HoldsExclusive)
    && (s.native.exclusive ==> s.native.shared == 0)
    && (if s.flag then 1 else 0) == Count(s.threads, OwnsFlag)
    && (forall t :: 0 <= t < |s.threads| ==> Consistent(s, s.threads[t]))
  }

  /** What a thread has read of the flag is what its kind of hold requires. */
  ghost predicate Consistent(s: State, th: Thread) {
    match th
    case Deciding(h, f) => f == h.Exclusive?
    case MustRelease(h) => h.Exclusive?
    case _ => true
  }

  /** One thread's view of the counters. */
  lemma Witness(s: State, t: nat)
    requires Inv(s) && t < |s.threads|
    ensures HoldsShared(s.threads[t]) ==> s.native.shared > 0 && !s.native.exclusive && !s.flag
    ensures HoldsExclusive(s.threads[t]) ==> s.native.exclusive && s.native.shared == 0
    ensures OwnsFlag(s.threads[t]) ==> s.flag
    ensures s.threads[t] in {MustSetFlag, MustRelease(Exclusive)} ==> !s.flag
  {
    if HoldsShared(s.threads[t]) {
      CountOne(s.threads, t, HoldsShared);
    }
    if HoldsExclusive(s.threads[t]) {
      CountOne(s.threads, t, HoldsExclusive);
    }
    if OwnsFlag(s.threads[t]) {
      CountOne(s.threads, t, OwnsFlag);
    }
    FlagNeedsOwner(s.threads, t);
  }

  /** With at most one exclusive holder, the flag has an owner only if that holder owns it. */
  lemma {:induction false} FlagNeedsOwner(ths: seq<Thread>, t: nat)
    requires t < |ths|
    ensures Count(ths, OwnsFlag) <= Count(ths, HoldsExclusive)
    ensures HoldsExclusive(ths[t]) && !OwnsFlag(ths[t]) ==> Count(ths, OwnsFlag) < Count(ths, HoldsExclusive)
  {
    if |ths| > 1 {
      FlagNeedsOwner(ths[1..], if t > 0 then t - 1 else 0);
    }
  }

  /** Replacing thread t moves the three counters by what t was and what it becomes. */
  lemma BecomeCounts(s: State, t: nat, th: Thread)
    requires t < |s.threads|
    ensures var ths := s.threads[t := th];
            && Count(ths, HoldsShared) == Count(s.threads, HoldsShared)
                 - (if HoldsShared(s.threads[t]) then 1 else 0) + (if HoldsShared(th) then 1 else 0)
            && Count(ths, HoldsExclusive) == Count(s.threads, HoldsExclusive)
                 - (if HoldsExclusive(s.threads[t]) then 1 else 0) + (if HoldsExclusive(th) then 1 else 0)
            && Count(ths, OwnsFlag) == Count(s.threads, OwnsFlag)
                 - (if OwnsFlag(s.threads[t]) then 1 else 0) + (if OwnsFlag(th) then 1 else 0)
  {
    CountUpdate(s.threads, t, th, HoldsShared);
    CountUpdate(s.threads, t, th, HoldsExclusive);
    CountUpdate(s.threads, t, th, OwnsFlag);
  }

  lemma StepKeepsInv(s: State, e: Event)
    requires Inv(s) && Enabled(s, e)
    ensures Inv(Step(s, e))
  {
    Witness(s, e.t);
    BecomeCounts(s, e.t, Step(s, e).threads[e.t]);
  }

  lemma {:induction false} RunKeepsInv(s: State, es: seq<Event>)
    requires Inv(s) && Legal(s, es)
    ensures Inv(Exec(s, es))
    decreases es
  {
    if es != [] {
      StepKeepsInv(s, es[0]);
      RunKeepsInv(Step(s, es[0]), es[1..]);
    }
  }

  lemma Reachable(n: nat, es: seq<Event>)
    requires Legal(Init(n), es)
    ensures Inv(Exec(Init(n), es))
  {
    CountReplicate(n, Idle, HoldsShared);
    CountReplicate(n, Idle, HoldsExclusive);
    CountReplicate(n, Idle, OwnsFlag);
    RunKeepsInv(Init(n), es);
  }

  /** In every interleaving of any number of threads: every native release is of the kind
      the thread acquired, no thread that holds the lock shared ever sees the flag true, an
      exclusive holder excludes every other holder, and the native state counts them. */
  lemma UnlockMatchesLock(n: nat, es: seq<Event>)
    requires Legal(Init(n), es)
    ensures var s := Exec(Init(n), es);
            && !s.misused
            && (forall t :: 0 <= t < |s.threads| && HoldsShared(s.threads[t]) ==> !s.flag)
            && (forall t, u | 0 <= t < |s.threads| && 0 <= u < |s.threads| && t != u ::
                  HoldsExclusive(s.threads[t]) ==> s.threads[u].Idle?)
            && s.native.shared == Count(s.threads, HoldsShared)
            && (s.native.exclusive <==> Count(s.threads, HoldsExclusive) == 1)
  {
    Reachable(n, es);
    var s := Exec(Init(n), es);
    forall t | 0 <= t < |s.threads|
      ensures HoldsShared(s.threads[t]) ==> !s.flag
    {
      Witness(s, t);
    }
    forall t, u | 0 <= t < |s.threads| && 0 <= u < |s.threads| && t != u && HoldsExclusive(s.threads[t])
      ensures s.threads[u].Idle?
    {
      Witness(s, t);
      Witness(s, u);
      TwoCount(s.threads, t, u, HoldsExclusive);
    }
  }

  /** When every thread has unlocked what it locked, the native lock is free and the flag clear. */
  lemma LockIsFreeAtRest(n: nat, es: seq<Event>)
    requires Legal(Init(n), es)
    requires forall t :: 0 <= t < |Exec(Init(n), es).threads| ==> Exec(Init(n), es).threads[t].Idle?
    ensures Exec(Init(n), es).native == Native(false, 0) && !Exec(Init(n), es).flag
  {
    Reachable(n, es);
    var s := Exec(Init(n), es);
    CountZero(s.threads, HoldsShared);
    CountZero(s.threads, HoldsExclusive);
    CountZero(s.threads, OwnsFlag);
  }

  lemma TwoCount(ths: seq<Thread>, t: nat, u: nat, p: Thread -> bool)
    requires t < |ths| && u < |ths| && t != u
    ensures p(ths[t]) && p(ths[u]) && !p(Idle) ==> Count(ths, p) >= 2
  {
    if p(ths[t]) && p(ths[u]) && !p(Idle) {
      CountUpdate(ths, t, Idle, p);
      CountOne(ths[t := Idle], u, p);
    }
  }

  // ---------- the plain flag is free of data races ----------

  /** The thread's next step writes the flag. */
  predicate WillWriteFlag(th: Thread) {
    th.MustSetFlag? || (th.Deciding? && th.flag)
  }

  /** The thread's next step may read the flag. */
  predicate MayReadFlag(th: Thread) {
    th.Holding?
  }

  /** No two threads are ever about to access the flag when one of them is to write it, so
      that treating its reads and writes as single steps loses nothing. */
  lemma FlagIsRaceFree(n: nat, es: seq<Event>, t: nat, u: nat)
    requires Legal(Init(n), es)
    requires var s := Exec(Init(n), es); t < |s.threads| && u < |s.threads| && t != u
    ensures var s := Exec(Init(n), es);
            !(WillWriteFlag(s.threads[t]) && (WillWriteFlag(s.threads[u]) || MayReadFlag(s.threads[u])))
  {
    Reachable(n, es);
    UnlockMatchesLock(n, es);
    Witness(Exec(Init(n), es), t);
  }

  // ---------- who gets in ----------

  /** In every reachable state an idle thread can acquire the lock shared exactly when nobody
      holds it exclusively, however many share it, and exclusively exactly when nobody holds
      it; an attempt fails exactly when it cannot be acquired that way. */
  lemma AcquireIff(n: nat, es: seq<Event>, t: nat)
    requires Legal(Init(n), es)
    requires var s := Exec(Init(n), es); t < |s.threads| && s.threads[t].Idle?
    ensures var s := Exec(Init(n), es);
            && (Enabled(s, RdLock(t)) <==>
                  forall u :: 0 <= u < |s.threads| ==> !HoldsExclusive(s.threads[u]))
            && (Enabled(s, WrLock(t)) <==> forall u :: 0 <= u < |s.threads| ==> s.threads[u].Idle?)
            && (Enabled(s, TryRdFails(t)) <==> !Enabled(s, RdLock(t)))
            && (Enabled(s, TryWrFails(t)) <==> !Enabled(s, WrLock(t)))
  {
    Reachable(n, es);
    var s := Exec(Init(n), es);
    CountZero(s.threads, HoldsShared);
    CountZero(s.threads, HoldsExclusive);
    if s.native == Native(false, 0) {
      forall u | 0 <= u < |s.threads|
        ensures s.threads[u].Idle?
      {
        assert !HoldsShared(s.threads[u]) && !HoldsExclusive(s.threads[u]);
      }
    }
  }

  lemma {:induction false} RunAppend(s: State, es: seq<Event>, fs: seq<Event>)
    requires Legal(s, es) && Legal(Exec(s, es), fs)
    ensures Legal(s, es + fs) && Exec(s, es + fs) == Exec(Exec(s, es), fs)
    decreases es
  {
    if es == [] {
      assert es + fs == fs;
    } else {
      assert (es + fs)[1..] == es[1..] + fs;
      RunAppend(Step(s, es[0]), es[1..], fs);
    }
  }

  lemma OneEvent(s: State, e: Event)
    requires Enabled(s, e)
    ensures Legal(s, [e]) && Exec(s, [e]) == Step(s, e)
  {
    assert Legal(Step(s, e), [e][1..]);
  }

  /** k of n threads sharing the lock. */
  function Sharing(n: nat, k: nat): State {
    State(Native(false, k), false, seq(n, i => if i < k then Holding(Shared) else Idle), false)
  }

  /** Any number of the threads can share the lock at the same time. */
  lemma {:induction false} ReadersShare(n: nat, k: nat) returns (es: seq<Event>)
    requires k <= n
    ensures Legal(Init(n), es)
    ensures var s := Exec(Init(n), es);
            && s.native == Native(false, k) && !s.flag
            && |s.threads| == n
            && (forall t :: 0 <= t < n ==> s.threads[t] == if t < k then Holding(Shared) else Idle)
  {
    es := ReadersShareFrom(n, k);
  }

  lemma {:induction false} ReadersShareFrom(n: nat, k: nat) returns (es: seq<Event>)
    requires k <= n
    ensures Legal(Init(n), es) && Exec(Init(n), es) == Sharing(n, k)
  {
    if k == 0 {
      es := [];
      assert Init(n).threads == Sharing(n, 0).threads;
    } else {
      var fs := ReadersShareFrom(n, k - 1);
      OneEvent(Sharing(n, k - 1), RdLock(k - 1));
      RunAppend(Init(n), fs, [RdLock(k - 1)]);
      es := fs + [RdLock(k - 1)];
      assert Exec(Init(n), es).threads == Sharing(n, k).threads;
    }
  }

  /** The steps of its own a thread needs to give the lock back. */
  function StepsToIdle(th: Thread): nat {
    match th
    case Idle => 0
    case MustSetFlag => 4
    case Holding(_) => 3
    case Deciding(_, flag) => if flag then 2 else 1
    case MustRelease(_) => 1
  }

  predicate OnlyUnlocks(es: seq<Event>) {
    forall i :: 0 <= i < |es| ==> es[i].Next?
  }

  /** A thread can always go on to give the lock back, whatever the others do or do not do. */
  lemma {:induction false} ThreadFinishes(s: State, t: nat) returns (es: seq<Event>)
    requires t < |s.threads|
    ensures Legal(s, es) && OnlyUnlocks(es)
    ensures Exec(s, es).threads == s.threads[t := Idle]
    decreases StepsToIdle(s.threads[t])
  {
    if s.threads[t].Idle? {
      es := [];
    } else {
      var rest := ThreadFinishes(Step(s, Next(t)), t);
      es := [Next(t)] + rest;
      assert es[1..] == rest;
    }
  }

  lemma {:induction false} ThreadsFinish(s: State, k: nat) returns (es: seq<Event>)
    requires k <= |s.threads|
    ensures Legal(s, es) && OnlyUnlocks(es)
    ensures |Exec(s, es).threads| == |s.threads|
    ensures forall t :: 0 <= t < k ==> Exec(s, es).threads[t].Idle?
    ensures forall t :: k <= t < |s.threads| ==> Exec(s, es).threads[t] == s.threads[t]
  {
    es := [];
    if k > 0 {
      var fs := ThreadsFinish(s, k - 1);
      var gs := ThreadFinishes(Exec(s, fs), k - 1);
      RunAppend(s, fs, gs);
      es := fs + gs;
    }
  }

  /** Nobody is locked out for good: from every reachable state the holders can release the
      lock, after which every thread can acquire it, either way. */
  lemma LockComesFree(n: nat, es: seq<Event>) returns (fs: seq<Event>)
    requires Legal(Init(n), es)
    ensures Legal(Exec(Init(n), es), fs) && OnlyUnlocks(fs)
    ensures var s := Exec(Exec(Init(n), es), fs);
            && s.native == Native(false, 0) && !s.flag && |s.threads| == |Exec(Init(n), es).threads|
            && (forall t: nat :: t < |s.threads| ==> Enabled(s, RdLock(t)) && Enabled(s, WrLock(t)))
  {
    var s := Exec(Init(n), es);
    fs := ThreadsFinish(s, |s.threads|);
    RunAppend(Init(n), es, fs);
    LockIsFreeAtRest(n, es + fs);
  }

  /** A call that may block: it still waits, or it has returned a code. */
  datatype Blocking = Waits | Returns(code: int)

  /** The lock object used by one thread at a time between other threads' steps. */
  class NativeRwLock {
    var srwlock: Native
    var haveExclusive: bool

    const EBUSY := 16

    constructor ()
      ensures srwlock == Native(false, 0) && !haveExclusive
    {
      srwlock, haveExclusive := Native(false, 0), false;
    }

    /** Between calls the flag says whether the lock is held exclusively. */
    ghost predicate Valid()
      reads this
    {
      haveExclusive == srwlock.exclusive && (srwlock.exclusive ==> srwlock.shared == 0)
    }

    /** Waits, changing nothing, exactly while the lock is held exclusively. */
    method RdLock() returns (r: Blocking)
      requires Valid()
      modifies this
      ensures Valid() && r == if old(srwlock).exclusive then Waits else Returns(0)
      ensures srwlock.exclusive == old(srwlock).exclusive
      ensures srwlock.shared == old(srwlock).shared + if old(srwlock).exclusive then 0 else 1
    {
      if !CanShare(srwlock) {
        return Waits;
      }
      srwlock := AcquireShared(srwlock);
      return Returns(0);
    }

    method TryRdLock() returns (code: int)
      requires Valid()
      modifies this
      ensures Valid() && code == if old(srwlock).exclusive then EBUSY else 0
      ensures srwlock.exclusive == old(srwlock).exclusive
      ensures srwlock.shared == old(srwlock).shared + if old(srwlock).exclusive then 0 else 1
    {
      if !CanShare(srwlock) {
        return EBUSY;
      }
      srwlock := AcquireShared(srwlock);
      return 0;
    }

    /** Waits, changing nothing, exactly while the lock is held at all. */
    method WrLock() returns (r: Blocking)
      requires Valid()
      modifies this
      ensures Valid()
      ensures r == if old(srwlock).exclusive || old(srwlock).shared > 0 then Waits else Returns(0)
      ensures srwlock == if r.Waits? then old(srwlock) else Native(true, 0)
    {
      if !CanExclude(srwlock) {
        return Waits;
      }
      srwlock := AcquireExclusive(srwlock);
      haveExclusive := true;
      return Returns(0);
    }

    method TryWrLock() returns (code: int)
      requires Valid()
      modifies this
      ensures Valid()
      ensures code == if old(srwlock).exclusive || old(srwlock).shared > 0 then EBUSY else 0
      ensures srwlock == if code == EBUSY then old(srwlock) else Native(true, 0)
    {
      if !CanExclude(srwlock) {
        return EBUSY;
      }
      srwlock := AcquireExclusive(srwlock);
      haveExclusive := true;
      return 0;
    }

    /** Releases the hold the caller has: a shared one leaves the other sharers, an
        exclusive one leaves the lock free. */
    method Unlock(ghost held: Hold) returns (code: int)
      requires Valid()
      requires if held.Exclusive? then srwlock.exclusive else srwlock.shared > 0
      modifies this
      ensures Valid() && code == 0
      ensures srwlock == Native(false, if held.Exclusive? then 0 else old(srwlock).shared - 1)
    {
      if haveExclusive {
        haveExclusive := false;
        srwlock := Release(srwlock, Exclusive);
      } else {
        srwlock := Release(srwlock, Shared);
      }
      code := 0;
    }
  }
}
