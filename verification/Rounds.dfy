/** The rounds of the consumer: what a round dispatches, how long it takes, and how an item
    without a message stops it. */
module Rounds {
  import opened ScriptStack
  import opened WorkQueue

  /** The steps of its own the consumer needs to end the round. */
  function StepsLeft(s: State): int {
    match s.consumer
    case Resting => 0
    case HasLock => 2 * |s.waiting| + 4
    case Copying(n, temp) => 2 * n - |temp| + 3
    case Cleared(temp) => |temp| + 2
    case Dispatching(temp, i) => |temp| - i + 1
    case Crashed => 0
  }

  predicate ByTheConsumer(e: Event) {
    e.Consume? || e.RunItem?
  }

  function ConsumerSteps(es: seq<Event>): nat {
    if es == [] then 0 else (if ByTheConsumer(es[0]) then 1 else 0) + ConsumerSteps(es[1..])
  }

  /** The items of the round are fixed when it takes the lock. */
  ghost predicate SameRound(s: State, t: State) {
    t.cut == s.cut && t.base == s.base && s.pushed <= t.pushed
  }

  lemma ProducersCannotDelay(s: State, p: nat)
    requires LockInv(s) && Enabled(s, Produce(p))
    ensures var t := Step(s, Produce(p));
            StepsLeft(t) == StepsLeft(s) && SameRound(s, t) && t.consumer == s.consumer
  {
  }

  lemma ConsumerAdvances(s: State)
    requires QueueInv(s) && Enabled(s, Consume) && !s.consumer.Resting?
    ensures var t := Step(s, Consume);
            StepsLeft(t) == StepsLeft(s) - 1 && SameRound(s, t) && !t.consumer.Crashed?
  {
  }

  /** Inside a round each consumer step brings the end one step nearer or stops at a null
      message before the end; no producer can put it off. */
  lemma RoundProgress(s: State, e: Event)
    requires LockInv(s) && QueueInv(s) && Enabled(s, e)
    requires ByTheConsumer(e) ==> !s.consumer.Resting?
    ensures var t := Step(s, e);
            && SameRound(s, t)
            && (if t.consumer.Crashed? && !s.consumer.Crashed? then e.RunItem? && StepsLeft(s) > 1
                else StepsLeft(t) == StepsLeft(s) - (if ByTheConsumer(e) then 1 else 0))
  {
    if e.Produce? {
      ProducersCannotDelay(s, e.p);
    } else if e.Consume? {
      ConsumerAdvances(s);
    }
  }

  /** A consumer that dereferenced a null message takes no further step. */
  lemma {:induction false} CrashedForever(s: State, es: seq<Event>, stack: Stack)
    requires Inv(s, stack) && Legal(s, es) && s.consumer.Crashed?
    ensures Exec(s, es).consumer.Crashed? && ConsumerSteps(es) == 0 && SameRound(s, Exec(s, es))
    decreases es
  {
    if es != [] {
      StepKeepsInv(s, es[0], stack);
      CrashedStays(s, es[0]);
      CrashedForever(Step(s, es[0]), es[1..], stack);
    }
  }

  lemma CrashedStays(s: State, e: Event)
    requires LockInv(s) && QueueInv(s) && Enabled(s, e) && s.consumer.Crashed?
    ensures Step(s, e).consumer.Crashed? && !ByTheConsumer(e) && SameRound(s, Step(s, e))
  {
    RoundProgress(s, e);
  }

  lemma {:induction false} RoundCountdown(s: State, es: seq<Event>, stack: Stack)
    requires Inv(s, stack) && Legal(s, es)
    requires ConsumerSteps(es) <= StepsLeft(s) && !s.consumer.Crashed?
    ensures var t := Exec(s, es);
            && SameRound(s, t)
            && (if t.consumer.Crashed? then ConsumerSteps(es) < StepsLeft(s)
                else StepsLeft(t) == StepsLeft(s) - ConsumerSteps(es))
    decreases es
  {
    if es != [] {
      var t := Step(s, es[0]);
      StepKeepsInv(s, es[0], stack);
      RoundProgress(s, es[0]);
      if t.consumer.Crashed? {
        CrashedForever(t, es[1..], stack);
      } else {
        RoundCountdown(t, es[1..], stack);
      }
    }
  }

  /** Bounded waiting. Let a round take the lock with n items waiting, after any run `es`.
      Whatever the producers do meanwhile, the round is over after exactly 2n + 4 consumer
      steps; it has then dispatched exactly the items pushed before it took the lock, in
      order, and everything pushed later is still waiting. */
  lemma RoundDispatchesItsItems(n: nat, stack: Stack, es: seq<Event>, fs: seq<Event>)
    requires Legal(Init(n, stack), es) && Legal(Exec(Init(n, stack), es), fs)
    requires var s := Exec(Init(n, stack), es);
             s.consumer.HasLock? && ConsumerSteps(fs) == 2 * |s.waiting| + 4
    ensures var s := Exec(Init(n, stack), es);
            var t := Exec(s, fs);
            && t.consumer.Resting?
            && t.dispatched == s.dispatched + s.waiting == s.pushed
            && t.pushed == s.pushed + t.waiting
  {
    var s := Exec(Init(n, stack), es);
    Reachable(n, stack, es);
    RunKeepsInv(s, fs, stack);
    RoundCountdown(s, fs, stack);
    EndOfRound(s, Exec(s, fs));
  }

  lemma EndOfRound(s: State, t: State)
    requires QueueInv(s) && s.consumer.HasLock? && SameRound(s, t)
    requires QueueInv(t) && !t.consumer.Crashed? && StepsLeft(t) == 0
    ensures t.consumer.Resting?
    ensures t.dispatched == s.dispatched + s.waiting == s.pushed
    ensures t.pushed == s.pushed + t.waiting
  {
    assert t.pushed[..s.cut] == s.pushed;
    assert t.pushed == t.pushed[..s.cut] + t.pushed[s.cut..];
  }

  /** Nothing blocks for good: in every reachable state a consumer inside a round can take
      its next step (so the copy loop never reads past the list), and whoever holds the
      lock can take the next one. */
  lemma NobodyIsStuck(n: nat, stack: Stack, es: seq<Event>, o: Outcome)
    requires Legal(Init(n, stack), es)
    ensures var s := Exec(Init(n, stack), es);
            && (s.consumer.Resting? || s.consumer.Crashed? || Enabled(s, Consume) || Enabled(s, RunItem(o)))
            && (s.lock.ByProducer? ==> Enabled(s, Produce(s.lock.p)))
            && (s.lock.ByConsumer? ==> Enabled(s, Consume))
  {
    Reachable(n, stack, es);
  }

  // ---------- items without a message ----------

  /** Called without content and with a message, as the only caller does. */
  predicate GoodCall(e: Event) {
    e.Call? ==> e.content == "" && e.msg.Some?
  }

  /** A call queues an item that cannot be dispatched exactly when it is not a good one. */
  lemma MessageMissingIff(content: string, fd: int, msg: Option<ScriptMsg>, errinfo: string)
    ensures MakeItem(content, fd, msg, errinfo).msg.None? <==> content != "" || msg.None?
  {
  }

  predicate PendingHasMessage(pc: Producer) {
    pc.WantsLock? || pc.Locked? ==> pc.item.msg.Some?
  }

  ghost predicate ItemsHaveMessages(producers: seq<Producer>, pushed: seq<Item>) {
    && (forall p :: 0 <= p < |producers| ==> PendingHasMessage(producers[p]))
    && (forall i :: 0 <= i < |pushed| ==> pushed[i].msg.Some?)
  }

  lemma ProducerKeepsMessages(s: State, p: nat)
    requires ItemsHaveMessages(s.producers, s.pushed) && Enabled(s, Produce(p))
    ensures var t := Step(s, Produce(p)); ItemsHaveMessages(t.producers, t.pushed)
  {
    assert PendingHasMessage(s.producers[p]);
    assert PendingHasMessage(Step(s, Produce(p)).producers[p]);
  }

  lemma ConsumerLeavesPushes(s: State, e: Event)
    requires Enabled(s, e) && ByTheConsumer(e)
    ensures Step(s, e).producers == s.producers && Step(s, e).pushed == s.pushed
  {
  }

  lemma GoodStepKeepsMessages(s: State, e: Event)
    requires ItemsHaveMessages(s.producers, s.pushed) && Enabled(s, e) && GoodCall(e)
    ensures ItemsHaveMessages(Step(s, e).producers, Step(s, e).pushed)
  {
    if e.Produce? {
      ProducerKeepsMessages(s, e.p);
    } else if ByTheConsumer(e) {
      ConsumerLeavesPushes(s, e);
    }
  }

  lemma {:induction false} GoodCallsMakeGoodItems(s: State, es: seq<Event>)
    requires ItemsHaveMessages(s.producers, s.pushed) && Legal(s, es)
    requires forall i :: 0 <= i < |es| ==> GoodCall(es[i])
    ensures ItemsHaveMessages(Exec(s, es).producers, Exec(s, es).pushed)
    decreases es
  {
    if es != [] {
      assert GoodCall(es[0]);
      GoodStepKeepsMessages(s, es[0]);
      GoodCallsMakeGoodItems(Step(s, es[0]), es[1..]);
    }
  }

  /** If every call is good the consumer never dereferences a null message; whatever was
      dispatched had a message, and dispatching stops the consumer exactly at an item that
      has none. */
  lemma CrashIffMessageMissing(n: nat, stack: Stack, es: seq<Event>, o: Outcome)
    requires Legal(Init(n, stack), es)
    ensures var s := Exec(Init(n, stack), es);
            && ((forall i :: 0 <= i < |es| ==> GoodCall(es[i])) ==> !s.consumer.Crashed?)
            && (forall i :: 0 <= i < |s.dispatched| ==> s.dispatched[i].msg.Some?)
            && (Enabled(s, RunItem(o)) ==>
                  && |s.dispatched| < |s.pushed|
                  && (Step(s, RunItem(o)).consumer.Crashed? <==> s.pushed[|s.dispatched|].msg.None?))
  {
    Reachable(n, stack, es);
    var s := Exec(Init(n, stack), es);
    if forall i :: 0 <= i < |es| ==> GoodCall(es[i]) {
      GoodCallsMakeGoodItems(Init(n, stack), es);
    }
    if Enabled(s, RunItem(o)) {
      NextItemIsNextPushed(s);
    }
  }

  /** The round has an item k without a message, not yet reached. */
  ghost predicate StopsAt(s: State, k: nat) {
    && !s.consumer.Resting?
    && |s.dispatched| <= k < s.cut <= |s.pushed|
    && s.pushed[k].msg.None?
  }

  lemma StepStopsAt(s: State, e: Event, k: nat)
    requires LockInv(s) && QueueInv(s) && StopsAt(s, k) && Enabled(s, e)
    ensures StopsAt(Step(s, e), k)
  {
    RoundProgress(s, e);
    if e.RunItem? {
      NextItemIsNextPushed(s);
    } else if e.Produce? {
      ProducersCannotDelay(s, e.p);
      OnlyDispatchRunsScripts(s, e);
    }
  }

  lemma {:induction false} RunStopsAt(s: State, es: seq<Event>, k: nat, stack: Stack)
    requires Inv(s, stack) && StopsAt(s, k) && Legal(s, es)
    ensures StopsAt(Exec(s, es), k)
    decreases es
  {
    if es != [] {
      StepKeepsInv(s, es[0], stack);
      StepStopsAt(s, es[0], k);
      RunStopsAt(Step(s, es[0]), es[1..], k, stack);
    }
  }

  lemma RoundWithMessages(s: State, fs: seq<Event>, stack: Stack)
    requires Inv(s, stack) && s.consumer.HasLock? && Legal(s, fs)
    requires AllHaveMessages(s.waiting) && ConsumerSteps(fs) <= StepsLeft(s)
    ensures !Exec(s, fs).consumer.Crashed?
    ensures StepsLeft(Exec(s, fs)) == StepsLeft(s) - ConsumerSteps(fs)
  {
    RunKeepsInv(s, fs, stack);
    RoundCountdown(s, fs, stack);
    CrashedAtAWaitingItem(s, Exec(s, fs));
  }

  lemma RoundWithoutMessage(s: State, fs: seq<Event>, k: nat, stack: Stack)
    requires Inv(s, stack) && s.consumer.HasLock? && Legal(s, fs)
    requires k < |s.waiting| && s.waiting[k].msg.None?
    ensures !Exec(s, fs).consumer.Resting? && |Exec(s, fs).dispatched| <= |s.dispatched| + k
  {
    assert s.pushed[|s.dispatched| + k] == s.waiting[k];
    RunStopsAt(s, fs, |s.dispatched| + k, stack);
  }

  /** Exactly which rounds come to an end. If every item waiting when the round takes the
      lock has a message, then no continuation of up to 2n + 4 consumer steps crashes and the
      steps still needed count down. If item k has none, then no continuation whatever ends
      the round, and neither item k nor any item after it is ever dispatched. */
  lemma RoundEndsIffMessages(n: nat, stack: Stack, es: seq<Event>, fs: seq<Event>)
    requires Legal(Init(n, stack), es) && Legal(Exec(Init(n, stack), es), fs)
    requires Exec(Init(n, stack), es).consumer.HasLock?
    ensures var s := Exec(Init(n, stack), es);
            var t := Exec(s, fs);
            && (AllHaveMessages(s.waiting) && ConsumerSteps(fs) <= 2 * |s.waiting| + 4 ==>
                  !t.consumer.Crashed? && StepsLeft(t) == 2 * |s.waiting| + 4 - ConsumerSteps(fs))
            && (forall k :: 0 <= k < |s.waiting| && s.waiting[k].msg.None? ==>
                  !t.consumer.Resting? && |t.dispatched| <= |s.dispatched| + k)
  {
    var s := Exec(Init(n, stack), es);
    Reachable(n, stack, es);
    if AllHaveMessages(s.waiting) && ConsumerSteps(fs) <= 2 * |s.waiting| + 4 {
      RoundWithMessages(s, fs, stack);
    }
    forall k | 0 <= k < |s.waiting| && s.waiting[k].msg.None?
      ensures !Exec(s, fs).consumer.Resting? && |Exec(s, fs).dispatched| <= |s.dispatched| + k
    {
      RoundWithoutMessage(s, fs, k, stack);
    }
  }

  lemma CrashedAtAWaitingItem(s: State, t: State)
    requires QueueInv(s) && s.consumer.HasLock? && QueueInv(t) && SameRound(s, t)
    ensures t.consumer.Crashed? ==> !AllHaveMessages(s.waiting)
  {
    if t.consumer.Crashed? {
      var k := |t.dispatched|;
      assert s.pushed[k] == t.pushed[k];
      assert s.pushed[k] == s.waiting[k - |s.dispatched|];
    }
  }

  // ---------- a run that crashes ----------

  lemma LockAndSize(s0: State, es: seq<Event>, s: State) returns (fs: seq<Event>, t: State)
    requires Legal(s0, es) && Exec(s0, es) == s
    requires s.consumer.Resting? && s.lock.Free?
    ensures Legal(s0, fs) && Exec(s0, fs) == t
    ensures t.consumer == Copying(|s.waiting|, []) && t.waiting == s.waiting
  {
    fs, t := Extend(s0, es, s, Consume);
    fs, t := Extend(s0, fs, t, Consume);
  }

  lemma CopyOneAndClear(s0: State, es: seq<Event>, s: State) returns (fs: seq<Event>, t: State)
    requires Legal(s0, es) && Exec(s0, es) == s
    requires s.consumer == Copying(1, []) && |s.waiting| == 1
    ensures Legal(s0, fs) && Exec(s0, fs) == t
    ensures t.consumer == Cleared(s.waiting)
  {
    fs, t := Extend(s0, es, s, Consume);
    fs, t := Extend(s0, fs, t, Consume);
  }

  lemma UnlockAndRun(s0: State, es: seq<Event>, s: State, o: Outcome) returns (fs: seq<Event>, t: State)
    requires Legal(s0, es) && Exec(s0, es) == s
    requires s.consumer.Cleared? && |s.consumer.temp| == 1 && s.consumer.temp[0].msg.None?
    ensures Legal(s0, fs) && Exec(s0, fs) == t
    ensures t.consumer.Crashed?
  {
    fs, t := Extend(s0, es, s, Consume);
    fs, t := Extend(s0, fs, t, RunItem(o));
  }

  /** One call with script content, or with no message, and one round: the consumer
      dereferences a null message. */
  lemma CrashingRun(content: string, fd: int, msg: Option<ScriptMsg>, errinfo: string, o: Outcome) returns (es: seq<Event>)
    requires content != "" || msg.None?
    ensures Legal(Init(1, []), es)
    ensures Exec(Init(1, []), es).consumer.Crashed?
  {
    var s0 := Init(1, []);
    var s1, s2, s3, s4, s5, s6;
    es, s1 := EnterCall(s0, [], s0, 0, content, fd, msg, errinfo);
    es, s2 := PushAndRead(s0, es, s1, 0);
    es, s3 := WriteAndUnlock(s0, es, s2, 0);
    es, s4 := LockAndSize(s0, es, s3);
    es, s5 := CopyOneAndClear(s0, es, s4);
    es, s6 := UnlockAndRun(s0, es, s5, o);
  }
}
