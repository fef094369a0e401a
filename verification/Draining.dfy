/** The script engine never wedges: every call can return and every item can be run. */
module Draining {
  import opened Counting
  import opened ScriptStack
  import opened WorkQueue
  import opened Rounds

  predicate NoCall(es: seq<Event>) {
    forall i :: 0 <= i < |es| ==> !es[i].Call?
  }

  lemma {:induction false} RunAppend(s: State, es: seq<Event>, fs: seq<Event>)
    requires Legal(s, es) && Legal(Exec(s, es), fs)
    ensures Legal(s, es + fs) && Exec(s, es + fs) == Exec(Exec(s, es), fs)
    decreases es
  {
    if es == [] {
      assert es + fs == fs;
    } else {
      assert (es + fs)[1..] == es[1..] + fs;
      RunAppend(Step(s, es[0]), es[1..], fs);
    }
  }

  lemma RunCons(s: State, e: Event, es: seq<Event>)
    requires Enabled(s, e) && Legal(Step(s, e), es)
    ensures Legal(s, [e] + es) && Exec(s, [e] + es) == Exec(Step(s, e), es)
  {
    assert ([e] + es)[1..] == es;
  }

  /** All that a continuation needs: the invariants, and a message in every item. */
  ghost predicate Sound(s: State, stack: Stack) {
    Inv(s, stack) && ItemsHaveMessages(s.producers, s.pushed)
  }

  lemma StepKeepsSound(s: State, e: Event, stack: Stack)
    requires Sound(s, stack) && Enabled(s, e) && !e.Call?
    ensures Sound(Step(s, e), stack)
  {
    StepKeepsInv(s, e, stack);
    GoodStepKeepsMessages(s, e);
  }

  // ---------- the consumer ----------

  /** Inside a round the consumer has a next step, and it leaves the producers alone. */
  lemma ConsumerCanStep(s: State, o: Outcome, stack: Stack) returns (e: Event)
    requires Sound(s, stack) && !s.consumer.Resting?
    ensures Enabled(s, e) && ByTheConsumer(e)
    ensures Sound(Step(s, e), stack) && StepsLeft(Step(s, e)) == StepsLeft(s) - 1 >= 0
    ensures Step(s, e).producers == s.producers && Step(s, e).pushed == s.pushed && Step(s, e).cut == s.cut
  {
    e := if Enabled(s, Consume) then Consume else RunItem(o);
    StepKeepsSound(s, e, stack);
    RoundProgress(s, e);
    ConsumerLeavesPushes(s, e);
  }

  lemma {:induction false} ConsumerFinishes(s: State, o: Outcome, stack: Stack) returns (es: seq<Event>)
    requires Sound(s, stack)
    ensures Legal(s, es) && NoCall(es)
    ensures var t := Exec(s, es);
            Sound(t, stack) && t.consumer.Resting? && t.producers == s.producers && t.pushed == s.pushed && t.cut == s.cut
    decreases !s.consumer.Resting?, StepsLeft(s)
  {
    es := [];
    if !s.consumer.Resting? {
      var e := ConsumerCanStep(s, o, stack);
      var rest := ConsumerFinishes(Step(s, e), o, stack);
      RunCons(s, e, rest);
      es := [e] + rest;
    }
  }

  // ---------- the producers ----------

  /** The steps a producer needs to return. */
  function StepsToReturn(pc: Producer): nat {
    match pc
    case Idle => 0
    case WantsLock(_) => 7
    case Locked(_) => 6
    case Pushed => 5
    case ReadCount2(_) => 4
    case WroteCount2 => 3
    case Unlocked => 2
    case ReadCount(_) => 1
  }

  /** Nobody else holds the lock. */
  predicate LockFor(s: State, p: nat) {
    s.lock.Free? || s.lock == ByProducer(p)
  }

  lemma ProducerCanStep(s: State, p: nat)
    requires LockInv(s) && p < |s.producers| && !s.producers[p].Idle? && LockFor(s, p)
    ensures Enabled(s, Produce(p))
    ensures var t := Step(s, Produce(p));
            && LockFor(t, p) && (t.producers[p].Idle? ==> t.lock.Free?) && t.consumer == s.consumer && |t.producers| == |s.producers|
            && t.producers == s.producers[p := t.producers[p]]
            && StepsToReturn(t.producers[p]) == StepsToReturn(s.producers[p]) - 1
  {
    assert InCritical(s.producers[p]) <==> s.lock == ByProducer(p);
  }

  lemma {:induction false} ProducerFinishes(s: State, p: nat, stack: Stack) returns (es: seq<Event>)
    requires Sound(s, stack) && p < |s.producers| && LockFor(s, p)
    requires s.producers[p].Idle? ==> s.lock.Free?
    ensures Legal(s, es) && NoCall(es)
    ensures var t := Exec(s, es);
            Sound(t, stack) && t.lock.Free? && t.producers == s.producers[p := Idle] && t.consumer == s.consumer
    decreases StepsToReturn(s.producers[p])
  {
    es := [];
    if !s.producers[p].Idle? {
      ProducerCanStep(s, p);
      StepKeepsSound(s, Produce(p), stack);
      var rest := ProducerFinishes(Step(s, Produce(p)), p, stack);
      RunCons(s, Produce(p), rest);
      es := [Produce(p)] + rest;
    }
  }

  lemma {:induction false} ProducersFinish(s: State, k: nat, stack: Stack) returns (es: seq<Event>)
    requires Sound(s, stack) && k <= |s.producers| && s.lock.Free?
    ensures Legal(s, es) && NoCall(es)
    ensures var t := Exec(s, es);
            && Sound(t, stack) && t.lock.Free? && t.consumer == s.consumer && |t.producers| == |s.producers|
            && forall p :: 0 <= p < k ==> t.producers[p].Idle?
  {
    es := [];
    if k > 0 {
      var fs := ProducersFinish(s, k - 1, stack);
      var gs := ProducerFinishes(Exec(s, fs), k - 1, stack);
      RunAppend(s, fs, gs);
      es := fs + gs;
    }
  }

  // ---------- everybody ----------

  /** With the consumer at rest, every call can return. */
  lemma CallsReturn(s: State, stack: Stack) returns (es: seq<Event>)
    requires Sound(s, stack) && s.consumer.Resting?
    ensures Legal(s, es) && NoCall(es)
    ensures var t := Exec(s, es);
            Sound(t, stack) && t.lock.Free? && t.consumer.Resting? && AllReturned(t)
  {
    var fs := [];
    if s.lock.ByProducer? {
      fs := ProducerFinishes(s, s.lock.p, stack);
    }
    var t := Exec(s, fs);
    var gs := ProducersFinish(t, |t.producers|, stack);
    RunAppend(s, fs, gs);
    es := fs + gs;
  }

  /** With the lock free, one more round runs everything that waits. */
  lemma LastRound(s: State, o: Outcome, stack: Stack) returns (es: seq<Event>)
    requires Sound(s, stack) && s.lock.Free? && s.consumer.Resting? && AllReturned(s)
    ensures Legal(s, es) && NoCall(es)
    ensures var t := Exec(s, es);
            Sound(t, stack) && t.consumer.Resting? && AllReturned(t) && t.dispatched == t.pushed && t.waiting == []
  {
    StepKeepsSound(s, Consume, stack);
    var rest := ConsumerFinishes(Step(s, Consume), o, stack);
    RunCons(s, Consume, rest);
    es := [Consume] + rest;
  }

  lemma Drain(s: State, o: Outcome, stack: Stack) returns (es: seq<Event>)
    requires Sound(s, stack)
    ensures Legal(s, es) && NoCall(es)
    ensures var t := Exec(s, es);
            Sound(t, stack) && t.consumer.Resting? && AllReturned(t) && t.dispatched == t.pushed && t.waiting == []
  {
    var fs := ConsumerFinishes(s, o, stack);
    var gs := CallsReturn(Exec(s, fs), stack);
    var hs := LastRound(Exec(Exec(s, fs), gs), o, stack);
    RunAppend(s, fs, gs);
    RunAppend(s, fs + gs, hs);
    es := fs + gs + hs;
  }

  /** The engine never wedges. After any run of good calls there is a continuation without a
      further call in which every call returns and every item ever queued is run, for any
      answer `o` of the scripts; the counter under the lock then counts them all. */
  lemma EverythingGetsDone(n: nat, stack: Stack, es: seq<Event>, o: Outcome) returns (fs: seq<Event>)
    requires Legal(Init(n, stack), es) && forall i :: 0 <= i < |es| ==> GoodCall(es[i])
    ensures var s := Exec(Init(n, stack), es);
            && Legal(s, fs) && NoCall(fs)
            && var t := Exec(s, fs);
               && t.consumer.Resting? && AllReturned(t)
               && t.waiting == [] && t.dispatched == t.pushed && t.count2 == |t.pushed|
  {
    Reachable(n, stack, es);
    GoodCallsMakeGoodItems(Init(n, stack), es);
    var s := Exec(Init(n, stack), es);
    fs := Drain(s, o, stack);
    CountZero(Exec(s, fs).producers, Uncounted);
  }
}
