/** From the arguments of an `ExecGafq` call to the script that runs for it. */
module Calls {
  import opened ScriptStack
  import opened WorkQueue

  /** The arguments of a call. */
  datatype Request = Request(content: string, fd: int, msg: Option<ScriptMsg>, errinfo: string)

  /** What the queued item must hold of a call: without content the message and the error
      text as given; with content only that. The connection always. */
  ghost predicate Carries(item: Item, r: Request) {
    && item.fd == r.fd
    && item.content == r.content
    && item.msg == (if r.content == "" then r.msg else None)
    && item.errinfo == (if r.content == "" then r.errinfo else "")
  }

  ghost predicate CarriesAll(items: seq<Item>, rs: seq<Request>) {
    |items| == |rs| && forall k :: 0 <= k < |items| ==> Carries(items[k], rs[k])
  }

  /** The producer takes the lock. */
  predicate TakesLock(s: State, e: Event) {
    e.Produce? && e.p < |s.producers| && s.producers[e.p].WantsLock?
  }

  /** The last call of each producer. */
  function Ask(asked: seq<Option<Request>>, e: Event): (r: seq<Option<Request>>)
    ensures |r| == |asked|
  {
    if e.Call? && e.p < |asked| then asked[e.p := Some(Request(e.content, e.fd, e.msg, e.errinfo))] else asked
  }

  /** The calls of a run in the order in which they took the lock, with their arguments. */
  function LockOrder(s: State, es: seq<Event>, asked: seq<Option<Request>>): seq<Request>
    requires Legal(s, es)
    decreases es
  {
    if es == [] then []
    else
      var rest := LockOrder(Step(s, es[0]), es[1..], Ask(asked, es[0]));
      if TakesLock(s, es[0]) && es[0].p < |asked| && asked[es[0].p].Some? then [asked[es[0].p].value] + rest
      else rest
  }

  function CallsInLockOrder(n: nat, stack: Stack, es: seq<Event>): seq<Request>
    requires Legal(Init(n, stack), es)
  {
    LockOrder(Init(n, stack), es, seq(n, _ => None))
  }

  /** The item of the producer that holds the lock and has not pushed it yet. */
  function Pending(s: State): seq<Item> {
    if s.lock.ByProducer? && s.lock.p < |s.producers| && s.producers[s.lock.p].Locked? then [s.producers[s.lock.p].item]
    else []
  }

  /** The items in the order of the lock: those pushed, and the one about to be. */
  function Claimed(s: State): seq<Item> {
    s.pushed + Pending(s)
  }

  /** What a producer is about to push carries its last call. */
  ghost predicate HoldsRequest(pc: Producer, asked: Option<Request>) {
    pc.WantsLock? || pc.Locked? ==> asked.Some? && Carries(pc.item, asked.value)
  }

  ghost predicate AskedInv(s: State, asked: seq<Option<Request>>) {
    && |asked| == |s.producers|
    && forall p :: 0 <= p < |asked| ==> HoldsRequest(s.producers[p], asked[p])
  }

  lemma StepKeepsAsked(s: State, e: Event, asked: seq<Option<Request>>)
    requires AskedInv(s, asked) && Enabled(s, e)
    ensures AskedInv(Step(s, e), Ask(asked, e))
  {
    if e.Call? {
      assert HoldsRequest(Step(s, e).producers[e.p], Ask(asked, e)[e.p]);
    } else if e.Produce? {
      ProducerKeepsAsked(s, e.p, asked);
    }
  }

  lemma ProducerKeepsAsked(s: State, p: nat, asked: seq<Option<Request>>)
    requires AskedInv(s, asked) && Enabled(s, Produce(p))
    ensures AskedInv(Step(s, Produce(p)), asked)
  {
    assert HoldsRequest(s.producers[p], asked[p]);
    assert HoldsRequest(Step(s, Produce(p)).producers[p], asked[p]);
  }

  lemma ProducerClaims(s: State, p: nat)
    requires LockInv(s) && Enabled(s, Produce(p))
    ensures Claimed(Step(s, Produce(p)))
            == Claimed(s) + if s.producers[p].WantsLock? then [s.producers[p].item] else []
  {
    assert InCritical(s.producers[p]) <==> s.lock == ByProducer(p);
  }

  /** Only taking the lock claims a place in the push history. */
  lemma StepClaims(s: State, e: Event)
    requires LockInv(s) && Enabled(s, e)
    ensures Claimed(Step(s, e)) == Claimed(s) + if TakesLock(s, e) then [s.producers[e.p].item] else []
  {
    if e.Produce? {
      ProducerClaims(s, e.p);
    }
  }

  lemma {:induction false} RunClaims(s: State, es: seq<Event>, asked: seq<Option<Request>>)
    requires LockInv(s) && AskedInv(s, asked) && Legal(s, es)
    ensures LockInv(Exec(s, es))
    ensures Claimed(s) <= Claimed(Exec(s, es))
    ensures CarriesAll(Claimed(Exec(s, es))[|Claimed(s)|..], LockOrder(s, es, asked))
    decreases es
  {
    if es != [] {
      var e, t := es[0], Step(s, es[0]);
      StepKeepsLockInv(s, e);
      StepKeepsAsked(s, e, asked);
      StepClaims(s, e);
      RunClaims(t, es[1..], Ask(asked, e));
      if TakesLock(s, e) {
        assert HoldsRequest(s.producers[e.p], asked[e.p]);
        var rest := LockOrder(t, es[1..], Ask(asked, e));
        ClaimsOneMore(Claimed(s), s.producers[e.p].item, Claimed(Exec(t, es[1..])), asked[e.p].value, rest);
        assert LockOrder(s, es, asked) == [asked[e.p].value] + rest;
      }
    }
  }

  lemma ClaimsOneMore(before: seq<Item>, item: Item, after: seq<Item>, r: Request, rs: seq<Request>)
    requires before + [item] <= after && Carries(item, r) && CarriesAll(after[|before| + 1..], rs)
    ensures CarriesAll(after[|before|..], [r] + rs)
  {
    assert after[|before|..] == [item] + after[|before| + 1..];
  }

  /** In every interleaving the items pushed are exactly the arguments of the calls, field by
      field, in the order in which the calls took the lock; the last of these calls may still
      be about to push. */
  lemma PushedAreCalls(n: nat, stack: Stack, es: seq<Event>)
    requires Legal(Init(n, stack), es)
    ensures var s, calls := Exec(Init(n, stack), es), CallsInLockOrder(n, stack, es);
            && |s.pushed| <= |calls| <= |s.pushed| + 1
            && (s.lock.Free? ==> |calls| == |s.pushed|)
            && forall k :: 0 <= k < |s.pushed| ==> Carries(s.pushed[k], calls[k])
  {
    RunClaims(Init(n, stack), es, seq(n, _ => None));
    var s := Exec(Init(n, stack), es);
    assert Claimed(s)[0..] == Claimed(s);
    forall k | 0 <= k < |s.pushed|
      ensures s.pushed[k] == Claimed(s)[k]
    {
    }
  }

  /** End to end, in every interleaving: the k-th script visit is for the k-th call that took
      the lock. It looks up that call's action and, if this is a function, calls it once with
      that call's connection and data. */
  lemma ScriptsRunForCalls(n: nat, stack: Stack, es: seq<Event>)
    requires Legal(Init(n, stack), es)
    ensures var s, calls := Exec(Init(n, stack), es), CallsInLockOrder(n, stack, es);
            && |s.script.visits| == |s.dispatched| == |s.outcomes| <= |calls|
            && forall k :: 0 <= k < |s.dispatched| ==>
                 && calls[k].content == "" && calls[k].msg.Some?
                 && Serves(s.script.visits[k], calls[k].fd, calls[k].msg.value, s.outcomes[k])
  {
    PushedAreCalls(n, stack, es);
    StackInEveryRun(n, stack, es);
    NothingLostOrReordered(n, stack, es);
    var s, calls := Exec(Init(n, stack), es), CallsInLockOrder(n, stack, es);
    assert s.dispatched <= s.pushed;
    forall k | 0 <= k < |s.dispatched|
      ensures s.dispatched[k].msg.Some? && Carries(s.dispatched[k], calls[k])
    {
      assert s.dispatched[k] == s.pushed[k];
    }
  }
}
