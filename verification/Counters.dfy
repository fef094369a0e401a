/** The two counters of the script engine: `count2`, updated under the lock, and `count`,
    updated outside it. */
module Counters {
  import opened Counting
  import opened ScriptStack
  import opened WorkQueue

  lemma {:induction false} ProducersFixed(s: State, es: seq<Event>)
    requires Legal(s, es)
    ensures |Exec(s, es).producers| == |s.producers|
    decreases es
  {
    if es != [] {
      ProducersFixed(Step(s, es[0]), es[1..]);
    }
  }

  // ---------- overlapping updates of count ----------

  predicate InUpdate(s: State, q: int) {
    0 <= q < |s.producers| && s.producers[q].ReadCount?
  }

  /** Some producer writes count while another one has read it and not yet written it. */
  ghost predicate OverlapNow(s: State, e: Event) {
    && e.Produce?
    && InUpdate(s, e.p)
    && exists q :: q != e.p && InUpdate(s, q)
  }

  /** Somewhere in the run two updates of count overlap. This is a property of the schedule
      alone: which producers stand between their read and their write. */
  ghost predicate Overlapped(s: State, es: seq<Event>)
    requires Legal(s, es)
    decreases es
  {
    es != [] && (OverlapNow(s, es[0]) || Overlapped(Step(s, es[0]), es[1..]))
  }

  /** An update has been lost, or is bound to be: a producer will write a value that no
      longer counts every finished call. */
  ghost predicate Behind(s: State) {
    s.stale || exists q :: InUpdate(s, q) && s.producers[q].v < s.finished
  }

  lemma WriteBehind(s: State, p: nat)
    requires ReadsInv(s) && InUpdate(s, p)
    ensures Behind(Step(s, Produce(p))) <==> Behind(s) || OverlapNow(s, Produce(p))
  {
    var t := Step(s, Produce(p));
    assert CountsFit(s, s.producers[p]);
    if Behind(s) && !t.stale {
      var q :| InUpdate(s, q) && s.producers[q].v < s.finished;
      assert q != p && InUpdate(t, q);
    }
    if OverlapNow(s, Produce(p)) {
      var q :| q != p && InUpdate(s, q);
      assert CountsFit(s, s.producers[q]);
      assert InUpdate(t, q) && t.producers[q].v < t.finished;
    }
    if Behind(t) && !t.stale {
      var q :| InUpdate(t, q) && t.producers[q].v < t.finished;
      assert q != p && InUpdate(s, q);
    }
  }

  /** The counters and reads that no step but a read or write of count touches. */
  lemma OtherStepsLeaveCount(s: State, e: Event, q: int)
    requires Enabled(s, e) && !(e.Produce? && InUpdate(s, e.p))
    ensures var t := Step(s, e);
            && t.stale == s.stale && t.finished == s.finished
            && (InUpdate(s, q) ==> InUpdate(t, q) && t.producers[q] == s.producers[q])
            && (InUpdate(t, q) ==> t.producers[q] == ReadCount(s.count) || t.producers[q] == s.producers[q])
  {
  }

  lemma StepBehind(s: State, e: Event)
    requires ReadsInv(s) && Enabled(s, e)
    ensures Behind(Step(s, e)) <==> Behind(s) || OverlapNow(s, e)
  {
    if e.Produce? && InUpdate(s, e.p) {
      WriteBehind(s, e.p);
    } else {
      forall q: int
        ensures InUpdate(s, q) && s.producers[q].v < s.finished ==> Behind(Step(s, e))
        ensures InUpdate(Step(s, e), q) && Step(s, e).producers[q].v < s.finished ==> Behind(s)
        ensures Step(s, e).stale == s.stale && Step(s, e).finished == s.finished
      {
        OtherStepsLeaveCount(s, e, q);
      }
    }
  }

  lemma {:induction false} RunBehind(s: State, es: seq<Event>, stack: Stack)
    requires Inv(s, stack) && Legal(s, es)
    ensures Behind(Exec(s, es)) <==> Behind(s) || Overlapped(s, es)
    decreases es
  {
    if es != [] {
      StepKeepsInv(s, es[0], stack);
      StepBehind(s, es[0]);
      RunBehind(Step(s, es[0]), es[1..], stack);
    }
  }

  /** The counters in every interleaving: count never exceeds count2; count2 is the number
      of items pushed whenever the lock is free; and once every call has returned the two
      agree exactly when no two updates of count overlapped. */
  lemma CountersAgree(n: nat, stack: Stack, es: seq<Event>)
    requires Legal(Init(n, stack), es)
    ensures var s := Exec(Init(n, stack), es);
            && |s.producers| == n
            && 0 <= s.count <= s.count2 <= |s.pushed|
            && (s.lock.Free? ==> s.count2 == |s.pushed|)
            && (AllReturned(s) ==> (s.count == s.count2 <==> !Overlapped(Init(n, stack), es)))
            && (n == 1 ==> s.count2 - 1 <= s.count && (s.producers[0].Idle? ==> s.count == s.count2))
  {
    var s0, s := Init(n, stack), Exec(Init(n, stack), es);
    Reachable(n, stack, es);
    Reachable(n, stack, []);
    ProducersFixed(s0, es);
    RunBehind(s0, es, stack);
    CountZero(s.producers, Uncounted);
    CountZero(s.producers, Unfinished);
    if n == 1 {
      assert Count(s.producers[1..], Unfinished) == 0;
    }
  }

  /** At most one producer has left the lock and not yet returned. */
  predicate OneAfterUnlock(s: State) {
    forall p, q | 0 <= p < |s.producers| && 0 <= q < |s.producers| && p != q ::
      !(AfterUnlock(s.producers[p]) && AfterUnlock(s.producers[q]))
  }

  predicate AfterUnlock(pc: Producer) {
    pc.Unlocked? || pc.ReadCount?
  }

  ghost predicate AlwaysOneAfterUnlock(s: State, es: seq<Event>)
    requires Legal(s, es)
    decreases es
  {
    OneAfterUnlock(s) && (es != [] ==> AlwaysOneAfterUnlock(Step(s, es[0]), es[1..]))
  }

  lemma OneAfterUnlockNoOverlap(s: State, e: Event)
    requires OneAfterUnlock(s)
    ensures !OverlapNow(s, e)
  {
  }

  lemma {:induction false} OneAfterUnlockNeverOverlaps(s: State, es: seq<Event>)
    requires Legal(s, es) && AlwaysOneAfterUnlock(s, es)
    ensures !Overlapped(s, es)
    decreases es
  {
    if es != [] {
      OneAfterUnlockNoOverlap(s, es[0]);
      OneAfterUnlockNeverOverlaps(Step(s, es[0]), es[1..]);
    }
  }

  /** For callers that leave `ExecGafq` one at a time the unlocked counter is exact. */
  lemma SerialCallersCountExactly(n: nat, stack: Stack, es: seq<Event>)
    requires Legal(Init(n, stack), es) && AlwaysOneAfterUnlock(Init(n, stack), es)
    requires AllReturned(Exec(Init(n, stack), es))
    ensures Exec(Init(n, stack), es).count == Exec(Init(n, stack), es).count2
  {
    OneAfterUnlockNeverOverlaps(Init(n, stack), es);
    CountersAgree(n, stack, es);
  }

  // ---------- what a write of count stores ----------

  lemma {:induction false} ReadIsKept(s: State, es: seq<Event>, p: nat)
    requires Legal(s, es) && Produce(p) !in es
    requires p < |s.producers| && s.producers[p].ReadCount?
    ensures p < |Exec(s, es).producers| && Exec(s, es).producers[p] == s.producers[p]
    decreases es
  {
    if es != [] {
      assert es[0] != Produce(p);
      ReadIsKept(Step(s, es[0]), es[1..], p);
    }
  }

  /** The write of count stores the value it read plus one, whatever the other threads did
      in between: every update that finished meanwhile is overwritten. */
  lemma WriteStoresReadPlusOne(s: State, p: nat, es: seq<Event>)
    requires p < |s.producers| && s.producers[p].Unlocked?
    requires Legal(Step(s, Produce(p)), es) && Produce(p) !in es
    ensures var t := Exec(Step(s, Produce(p)), es);
            Enabled(t, Produce(p)) && Step(t, Produce(p)).count == s.count + 1
  {
    ReadIsKept(Step(s, Produce(p)), es, p);
  }

  // ---------- a lost update ----------

  /** A call without interference up to its read of count. */
  lemma CallUpToReadCount(s0: State, es: seq<Event>, s: State, p: nat) returns (fs: seq<Event>, t: State)
    requires Legal(s0, es) && Exec(s0, es) == s
    requires p < |s.producers| && s.producers[p].Idle? && s.lock.Free?
    ensures Legal(s0, fs) && Exec(s0, fs) == t
    ensures t.producers == s.producers[p := ReadCount(s.count)] && t.lock.Free?
    ensures t.count == s.count && t.count2 == s.count2 + 1
  {
    var u1, u2, u3;
    fs, u1 := EnterCall(s0, es, s, p, "", 7, Some(ScriptMsg("start_action", "hello")), "");
    fs, u2 := PushAndRead(s0, fs, u1, p);
    fs, u3 := WriteAndUnlock(s0, fs, u2, p);
    fs, t := Extend(s0, fs, u3, Produce(p));
  }

  /** The unlocked counter really can fall behind: two producers, each queueing a message,
      whose updates of count overlap leave count at 1 and count2 at 2 when both have returned. */
  lemma LostUpdate() returns (es: seq<Event>)
    ensures Legal(Init(2, []), es)
    ensures var s := Exec(Init(2, []), es);
            s.producers == [Idle, Idle] && s.count == 1 && s.count2 == 2
  {
    var s0 := Init(2, []);
    var s1, s2, s3, s4;
    es, s1 := CallUpToReadCount(s0, [], s0, 0);
    es, s2 := CallUpToReadCount(s0, es, s1, 1);
    es, s3 := Extend(s0, es, s2, Produce(1));
    es, s4 := Extend(s0, es, s3, Produce(0));
  }
}
