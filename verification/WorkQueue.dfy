/** The script engine's work queue: any number of producers in `ExecGafq` and one consumer
    in `LoopExecute`, interleaved at every lock operation, list operation, loop pass and
    single read or write of a counter. */
module WorkQueue {
  import opened Counting
  import opened ScriptStack

  /** The item `ExecGafq` builds: with content the message is dropped. */
  function MakeItem(content: string, fd: int, msg: Option<ScriptMsg>, errinfo: string): Item {
    if content != "" then Item(content, fd, None, "") else Item("", fd, msg, errinfo)
  }

  datatype Lock = Free | ByProducer(p: nat) | ByConsumer

  /** A producer's position in `ExecGafq`. */
  datatype Producer =
    | Idle
    | WantsLock(item: Item)
    | Locked(item: Item)
    | Pushed                       // the item is in the list
    | ReadCount2(v: int)           // count2 has been read
    | WroteCount2                  // count2 has been written, lock still held
    | Unlocked
    | ReadCount(v: int)            // count has been read, outside the lock

  /** The consumer's position in `LoopExecute`. */
  datatype Consumer =
    | Resting
    | HasLock
    | Copying(n: nat, temp: seq<Item>)
    | Cleared(temp: seq<Item>)
    | Dispatching(temp: seq<Item>, i: nat)
    | Crashed                      // dereferenced a null message

  /** The engine, then the history of the run: the items pushed and dispatched, the script
      outcomes, the number of finished `ExecGafq` calls, whether some write of `count` was
      based on a value that had changed meanwhile, and how many items had been pushed and
      dispatched when the current or last round took the lock. */
  datatype State = State(
    lock: Lock, waiting: seq<Item>, count: int, count2: int, script: Script,
    producers: seq<Producer>, consumer: Consumer,
    pushed: seq<Item>, dispatched: seq<Item>, outcomes: seq<Outcome>,
    finished: nat, stale: bool, cut: nat, base: nat)

  datatype Event =
    | Call(p: nat, content: string, fd: int, msg: Option<ScriptMsg>, errinfo: string)
    | Produce(p: nat)              // the producer's next step
    | Consume                      // the consumer's next step other than a dispatch
    | RunItem(o: Outcome)          // the consumer dispatches its next item

  function Init(n: nat, stack: Stack): State {
    State(Free, [], 0, 0, Script(stack, []), seq(n, _ => Idle), Resting, [], [], [], 0, false, 0, 0)
  }

  predicate Enabled(s: State, e: Event) {
    match e
    case Call(p, _, _, _, _) => p < |s.producers| && s.producers[p].Idle?
    case Produce(p) =>
      && p < |s.producers|
      && !s.producers[p].Idle?
      && (s.producers[p].WantsLock? ==> s.lock.Free?)
    case Consume =>
      && !s.consumer.Crashed?
      && (s.consumer.Resting? ==> s.lock.Free?)
      && (s.consumer.Copying? && |s.consumer.temp| < s.consumer.n ==> |s.consumer.temp| < |s.waiting|)
      && (s.consumer.Dispatching? ==> s.consumer.i >= |s.consumer.temp|)
    case RunItem(_) => s.consumer.Dispatching? && s.consumer.i < |s.consumer.temp|
  }

  function Move(s: State, p: nat, pc: Producer): State
    requires p < |s.producers|
  {
    s.(producers := s.producers[p := pc])
  }

  function ProducerStep(s: State, p: nat): State
    requires Enabled(s, Produce(p))
  {
    match s.producers[p]
    case WantsLock(item) => Move(s, p, Locked(item)).(lock := ByProducer(p))
    case Locked(item) => Move(s, p, Pushed).(waiting := s.waiting + [item], pushed := s.pushed + [item])
    case Pushed => Move(s, p, ReadCount2(s.count2))
    case ReadCount2(v) => Move(s, p, WroteCount2).(count2 := v + 1)
    case WroteCount2 => Move(s, p, Unlocked).(lock := Free)
    case Unlocked => Move(s, p, ReadCount(s.count))
    case ReadCount(v) =>
      Move(s, p, Idle).(count := v + 1, finished := s.finished + 1, stale := s.stale || v != s.count)
  }

  function ConsumerStep(s: State): State
    requires Enabled(s, Consume)
  {
    match s.consumer
    case Resting => s.(lock := ByConsumer, consumer := HasLock, cut := |s.pushed|, base := |s.dispatched|)
    case HasLock => s.(consumer := Copying(|s.waiting|, []))
    case Copying(n, temp) =>
      if |temp| < n then s.(consumer := Copying(n, temp + [s.waiting[|temp|]]))
      else s.(waiting := [], consumer := Cleared(temp))
    case Cleared(temp) => s.(lock := Free, consumer := Dispatching(temp, 0))
    case Dispatching(_, _) => s.(consumer := Resting)
  }

  function DispatchStep(s: State, o: Outcome): State
    requires Enabled(s, RunItem(o))
  {
    var Dispatching(temp, i) := s.consumer;
    if temp[i].msg.None? then s.(consumer := Crashed)
    else s.(consumer := Dispatching(temp, i + 1), dispatched := s.dispatched + [temp[i]],
            script := Dispatch(s.script, temp[i], o), outcomes := s.outcomes + [o])
  }

  function Step(s: State, e: Event): State
    requires Enabled(s, e)
  {
    match e
    case Call(p, content, fd, msg, errinfo) =>
      s.(producers := s.producers[p := WantsLock(MakeItem(content, fd, msg, errinfo))])
    case Produce(p) => ProducerStep(s, p)
    case Consume => ConsumerStep(s)
    case RunItem(o) => DispatchStep(s, o)
  }

  predicate Legal(s: State, es: seq<Event>)
    decreases es
  {
    es != [] ==> Enabled(s, es[0]) && Legal(Step(s, es[0]), es[1..])
  }

  function Exec(s: State, es: seq<Event>): State
    requires Legal(s, es)
    decreases es
  {
    if es == [] then s else Exec(Step(s, es[0]), es[1..])
  }

  // ---------- mutual exclusion ----------

  predicate InCritical(pc: Producer) {
    pc.Locked? || pc.Pushed? || pc.ReadCount2? || pc.WroteCount2?
  }

  predicate ConsumerInCritical(c: Consumer) {
    c.HasLock? || c.Copying? || c.Cleared?
  }

  ghost predicate LockInv(s: State) {
    && (forall p :: 0 <= p < |s.producers| ==> (InCritical(s.producers[p]) <==> s.lock == ByProducer(p)))
    && (ConsumerInCritical(s.consumer) <==> s.lock == ByConsumer)
    && (s.lock.ByProducer? ==> s.lock.p < |s.producers|)
  }

  lemma ProducerKeepsLockInv(s: State, p: nat)
    requires LockInv(s) && Enabled(s, Produce(p))
    ensures LockInv(Step(s, Produce(p)))
  {
  }

  lemma StepKeepsLockInv(s: State, e: Event)
    requires LockInv(s) && Enabled(s, e)
    ensures LockInv(Step(s, e))
  {
    if e.Produce? {
      ProducerKeepsLockInv(s, e.p);
    }
  }

  // ---------- nothing lost, duplicated or reordered ----------

  /** At every point of a round: the items dispatched, then those taken, then those waiting
      are the push history, cut where the round took the lock. During the copy loop the
      copies are still in the list, too. */
  ghost predicate QueueShape(c: Consumer, waiting: seq<Item>, pushed: seq<Item>, dispatched: seq<Item>, cut: nat, base: nat) {
    && base <= cut <= |pushed|
    && (forall i :: 0 <= i < |dispatched| ==> dispatched[i].msg.Some?)
    && match c
       case Resting =>
         && dispatched == pushed[..cut]
         && waiting == pushed[cut..]
       case HasLock =>
         && cut == |pushed| && base == |dispatched|
         && dispatched + waiting == pushed
       case Copying(n, temp) =>
         && cut == |pushed| && base == |dispatched|
         && dispatched + waiting == pushed
         && n == |waiting|
         && temp <= waiting
       case Cleared(temp) =>
         && cut == |pushed| && base == |dispatched|
         && dispatched + temp == pushed
         && waiting == []
       case Dispatching(temp, i) =>
         && i <= |temp|
         && base + i == |dispatched|
         && dispatched + temp[i..] == pushed[..cut]
         && waiting == pushed[cut..]
       case Crashed =>
         && base <= |dispatched| < cut
         && dispatched == pushed[..|dispatched|]
         && pushed[|dispatched|].msg.None?
  }

  ghost predicate QueueInv(s: State) {
    QueueShape(s.consumer, s.waiting, s.pushed, s.dispatched, s.cut, s.base)
  }

  lemma ProducerKeepsQueueInv(s: State, p: nat)
    requires LockInv(s) && QueueInv(s) && Enabled(s, Produce(p))
    ensures QueueInv(Step(s, Produce(p)))
  {
  }

  lemma ConsumerKeepsQueueInv(s: State)
    requires LockInv(s) && QueueInv(s) && Enabled(s, Consume)
    ensures QueueInv(Step(s, Consume))
  {
  }

  /** The item about to be dispatched is the first pushed item not yet dispatched. */
  lemma NextItemIsNextPushed(s: State)
    requires QueueInv(s) && s.consumer.Dispatching? && s.consumer.i < |s.consumer.temp|
    ensures |s.dispatched| < |s.pushed| && s.pushed[|s.dispatched|] == s.consumer.temp[s.consumer.i]
    ensures s.dispatched == s.pushed[..|s.dispatched|]
  {
  }

  lemma DispatchKeepsQueueInv(s: State, o: Outcome)
    requires QueueInv(s) && Enabled(s, RunItem(o))
    ensures QueueInv(Step(s, RunItem(o)))
  {
    NextItemIsNextPushed(s);
    var Dispatching(temp, i) := s.consumer;
    if temp[i].msg.Some? {
      assert s.dispatched + temp[i..] == (s.dispatched + [temp[i]]) + temp[i + 1..];
    }
  }

  lemma StepKeepsQueueInv(s: State, e: Event)
    requires LockInv(s) && QueueInv(s) && Enabled(s, e)
    ensures QueueInv(Step(s, e))
  {
    match e
    case Call(_, _, _, _, _) =>
    case Produce(p) => ProducerKeepsQueueInv(s, p);
    case Consume => ConsumerKeepsQueueInv(s);
    case RunItem(o) => DispatchKeepsQueueInv(s, o);
  }

  // ---------- the two counters ----------

  /** In the list but not yet in count2. */
  predicate Uncounted(pc: Producer) {
    pc.Pushed? || pc.ReadCount2?
  }

  /** In count2 but the call has not finished. */
  predicate Unfinished(pc: Producer) {
    pc.WroteCount2? || pc.Unlocked? || pc.ReadCount?
  }

  ghost predicate CountInv(s: State) {
    TotalsInv(s) && ReadsInv(s)
  }

  /** Every item pushed is in count2 or on its way there; every call in count2 is finished
      or on its way there. */
  ghost predicate Totals(pushed: nat, count2: int, finished: nat, ps: seq<Producer>) {
    && pushed == count2 + Count(ps, Uncounted)
    && count2 == finished + Count(ps, Unfinished)
  }

  ghost predicate TotalsInv(s: State) {
    Totals(|s.pushed|, s.count2, s.finished, s.producers)
  }

  /** count equals the finished calls until a stale write, and is behind for ever after. */
  ghost predicate ReadsInv(s: State) {
    && (if s.stale then 0 <= s.count < s.finished else s.count == s.finished)
    && (forall p :: 0 <= p < |s.producers| ==> CountsFit(s, s.producers[p]))
    && (|s.producers| == 1 ==> !s.stale && (s.producers[0].ReadCount? ==> s.producers[0].v == s.count))
  }

  /** What a producer has read. */
  ghost predicate CountsFit(s: State, pc: Producer) {
    && (pc.ReadCount2? ==> pc.v == s.count2)
    && (pc.ReadCount? ==> 0 <= pc.v <= s.finished)
    && (pc.ReadCount? && s.stale ==> pc.v < s.finished)
  }

  /** What a producer adds to the two totals. */
  function Weight(pc: Producer, p: Producer -> bool): nat {
    if p(pc) then 1 else 0
  }

  /** A producer's move balances when what it adds to the totals is what it leaves. */
  lemma MoveBalances(pushed: nat, count2: int, finished: nat, ps: seq<Producer>, p: nat, pc: Producer,
                     pushed': nat, count2': int, finished': nat)
    requires Totals(pushed, count2, finished, ps) && p < |ps|
    requires pushed' - count2' - Weight(pc, Uncounted) == pushed - count2 - Weight(ps[p], Uncounted)
    requires count2' - finished' - Weight(pc, Unfinished) == count2 - finished - Weight(ps[p], Unfinished)
    ensures Totals(pushed', count2', finished', ps[p := pc])
  {
    CountUpdate(ps, p, pc, Uncounted);
    CountUpdate(ps, p, pc, Unfinished);
  }

  lemma ProducerKeepsTotals(s: State, p: nat)
    requires CountInv(s) && Enabled(s, Produce(p))
    ensures TotalsInv(Step(s, Produce(p)))
  {
    var k, ps := |s.pushed|, s.producers;
    assert CountsFit(s, ps[p]);
    match ps[p]
    case WantsLock(item) => MoveBalances(k, s.count2, s.finished, ps, p, Locked(item), k, s.count2, s.finished);
    case Locked(_) => MoveBalances(k, s.count2, s.finished, ps, p, Pushed, k + 1, s.count2, s.finished);
    case Pushed => MoveBalances(k, s.count2, s.finished, ps, p, ReadCount2(s.count2), k, s.count2, s.finished);
    case ReadCount2(v) => MoveBalances(k, s.count2, s.finished, ps, p, WroteCount2, k, v + 1, s.finished);
    case WroteCount2 => MoveBalances(k, s.count2, s.finished, ps, p, Unlocked, k, s.count2, s.finished);
    case Unlocked => MoveBalances(k, s.count2, s.finished, ps, p, ReadCount(s.count), k, s.count2, s.finished);
    case ReadCount(_) => MoveBalances(k, s.count2, s.finished, ps, p, Idle, k, s.count2, s.finished + 1);
  }

  /** What the other producers have read stays good: count2 changes only under the lock,
      and a finished call only raises the bound on the reads of count. */
  lemma OthersStillFit(s: State, p: nat, q: nat)
    requires LockInv(s) && ReadsInv(s) && Enabled(s, Produce(p))
    requires q < |s.producers| && q != p
    ensures CountsFit(Step(s, Produce(p)), s.producers[q])
  {
    assert CountsFit(s, s.producers[q]) && CountsFit(s, s.producers[p]);
    assert InCritical(s.producers[q]) ==> !InCritical(s.producers[p]);
  }

  lemma ProducerKeepsReads(s: State, p: nat)
    requires LockInv(s) && ReadsInv(s) && Enabled(s, Produce(p))
    ensures ReadsInv(Step(s, Produce(p)))
  {
    var t := Step(s, Produce(p));
    assert CountsFit(s, s.producers[p]);
    forall q | 0 <= q < |t.producers|
      ensures CountsFit(t, t.producers[q])
    {
      if q != p {
        OthersStillFit(s, p, q);
      }
    }
  }

  lemma StepKeepsCountInv(s: State, e: Event)
    requires LockInv(s) && CountInv(s) && Enabled(s, e)
    ensures CountInv(Step(s, e))
  {
    match e
    case Call(p, _, _, _, _) =>
      MoveBalances(|s.pushed|, s.count2, s.finished, s.producers, p, Step(s, e).producers[p],
                   |s.pushed|, s.count2, s.finished);
    case Produce(p) =>
      ProducerKeepsTotals(s, p);
      ProducerKeepsReads(s, p);
    case Consume =>
    case RunItem(o) =>
  }

  // ---------- every run ----------

  predicate AllReturned(s: State) {
    forall p :: 0 <= p < |s.producers| ==> s.producers[p].Idle?
  }

  ghost predicate Inv(s: State, stack: Stack) {
    && LockInv(s)
    && QueueInv(s)
    && CountInv(s)
    && StackInv(s, stack)
  }

  ghost predicate StackInv(s: State, stack: Stack) {
    Served(Script(stack, []), s.script, s.dispatched, s.outcomes)
  }

  lemma OnlyDispatchRunsScripts(s: State, e: Event)
    requires Enabled(s, e) && !e.RunItem?
    ensures var t := Step(s, e);
            t.script == s.script && t.outcomes == s.outcomes && t.dispatched == s.dispatched
  {
  }

  lemma StepKeepsStackInv(s: State, e: Event, stack: Stack)
    requires StackInv(s, stack) && Enabled(s, e)
    ensures StackInv(Step(s, e), stack)
  {
    if e.RunItem? {
      var item := s.consumer.temp[s.consumer.i];
      if item.msg.Some? {
        DispatchOneMore(Script(stack, []), s.script, s.dispatched, item, s.outcomes, e.o);
      }
    } else {
      OnlyDispatchRunsScripts(s, e);
    }
  }

  lemma StepKeepsInv(s: State, e: Event, stack: Stack)
    requires Inv(s, stack) && Enabled(s, e)
    ensures Inv(Step(s, e), stack)
  {
    StepKeepsLockInv(s, e);
    StepKeepsQueueInv(s, e);
    StepKeepsCountInv(s, e);
    StepKeepsStackInv(s, e, stack);
  }

  lemma {:induction false} RunKeepsInv(s: State, es: seq<Event>, stack: Stack)
    requires Inv(s, stack) && Legal(s, es)
    ensures Inv(Exec(s, es), stack)
    decreases es
  {
    if es != [] {
      StepKeepsInv(s, es[0], stack);
      RunKeepsInv(Step(s, es[0]), es[1..], stack);
    }
  }

  lemma Reachable(n: nat, stack: Stack, es: seq<Event>)
    requires Legal(Init(n, stack), es)
    ensures Inv(Exec(Init(n, stack), es), stack)
  {
    CountReplicate(n, Idle, Uncounted);
    CountReplicate(n, Idle, Unfinished);
    RunKeepsInv(Init(n, stack), es, stack);
  }

  /** The items the consumer has taken out of the list and not yet dispatched. */
  function Taken(c: Consumer): seq<Item> {
    match c
    case Cleared(temp) => temp
    case Dispatching(temp, i) => if i <= |temp| then temp[i..] else []
    case _ => []
  }

  /** In every interleaving, until a null message stops the consumer: dispatched, then
      taken, then waiting items are exactly the push history; while copying, the copies are
      the front of the list. A consumer that stopped did so at an item without a message,
      after dispatching exactly the items before it. */
  lemma NothingLostOrReordered(n: nat, stack: Stack, es: seq<Event>)
    requires Legal(Init(n, stack), es)
    ensures var s := Exec(Init(n, stack), es);
            && (!s.consumer.Crashed? ==> s.dispatched + Taken(s.consumer) + s.waiting == s.pushed)
            && (s.consumer.Copying? ==> s.consumer.temp <= s.waiting)
            && (s.consumer.Crashed? ==>
                  && |s.dispatched| < |s.pushed|
                  && s.dispatched == s.pushed[..|s.dispatched|]
                  && s.pushed[|s.dispatched|].msg.None?)
  {
    Reachable(n, stack, es);
    QueueIsHistory(Exec(Init(n, stack), es));
  }

  lemma QueueIsHistory(s: State)
    requires QueueInv(s)
    ensures !s.consumer.Crashed? ==> s.dispatched + Taken(s.consumer) + s.waiting == s.pushed
  {
  }

  /** The stack in every interleaving and after any number of rounds, and what the scripts
      were called with: one visit for each item dispatched, in order. */
  lemma StackInEveryRun(n: nat, stack: Stack, es: seq<Event>)
    requires Legal(Init(n, stack), es)
    ensures var s := Exec(Init(n, stack), es);
            && |s.outcomes| == |s.dispatched|
            && s.script.stack == stack + Residues(s.outcomes)
            && |s.script.stack| == |stack| + Count(s.outcomes, NotAFunction) + Count(s.outcomes, NilFailure)
            && |s.script.visits| == |s.dispatched|
            && (forall k :: 0 <= k < |s.dispatched| ==> s.dispatched[k].msg.Some?)
            && (forall k :: 0 <= k < |s.dispatched| ==>
                  Serves(s.script.visits[k], s.dispatched[k].fd, s.dispatched[k].msg.value, s.outcomes[k]))
  {
    Reachable(n, stack, es);
    var s := Exec(Init(n, stack), es);
    ServedFromStart(stack, s.script, s.dispatched, s.outcomes);
  }

  // ---------- building runs ----------

  /** A run with one more event. */
  lemma {:induction false} Extend(s0: State, es: seq<Event>, s: State, e: Event) returns (fs: seq<Event>, t: State)
    requires Legal(s0, es) && Exec(s0, es) == s && Enabled(s, e)
    ensures fs == es + [e] && t == Step(s, e)
    ensures Legal(s0, fs) && Exec(s0, fs) == t
    decreases es
  {
    fs, t := es + [e], Step(s, e);
    if es == [] {
      assert Legal(t, fs[1..]);
    } else {
      var gs, u := Extend(Step(s0, es[0]), es[1..], s, e);
      assert fs[1..] == gs;
    }
  }

  /** A call up to the lock. */
  lemma EnterCall(s0: State, es: seq<Event>, s: State, p: nat,
                  content: string, fd: int, msg: Option<ScriptMsg>, errinfo: string)
    returns (fs: seq<Event>, t: State)
    requires Legal(s0, es) && Exec(s0, es) == s
    requires p < |s.producers| && s.producers[p].Idle? && s.lock.Free?
    ensures Legal(s0, fs) && Exec(s0, fs) == t
    ensures t == Move(s, p, Locked(MakeItem(content, fd, msg, errinfo))).(lock := ByProducer(p))
  {
    fs, t := Extend(s0, es, s, Call(p, content, fd, msg, errinfo));
    fs, t := Extend(s0, fs, t, Produce(p));
  }

  lemma PushAndRead(s0: State, es: seq<Event>, s: State, p: nat) returns (fs: seq<Event>, t: State)
    requires Legal(s0, es) && Exec(s0, es) == s
    requires p < |s.producers| && s.producers[p].Locked?
    ensures Legal(s0, fs) && Exec(s0, fs) == t
    ensures var item := s.producers[p].item;
            t == Move(s, p, ReadCount2(s.count2)).(waiting := s.waiting + [item], pushed := s.pushed + [item])
  {
    fs, t := Extend(s0, es, s, Produce(p));
    fs, t := Extend(s0, fs, t, Produce(p));
  }

  lemma WriteAndUnlock(s0: State, es: seq<Event>, s: State, p: nat) returns (fs: seq<Event>, t: State)
    requires Legal(s0, es) && Exec(s0, es) == s
    requires p < |s.producers| && s.producers[p].ReadCount2?
    ensures Legal(s0, fs) && Exec(s0, fs) == t
    ensures t == Move(s, p, Unlocked).(count2 := s.producers[p].v + 1, lock := Free)
  {
    fs, t := Extend(s0, es, s, Produce(p));
    fs, t := Extend(s0, fs, t, Produce(p));
  }
}
