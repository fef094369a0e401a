/** Sender, byte channel and reader together: the connection is a FIFO of message bodies. */
module Protocol {
  import opened Bytes
  import opened Decimal
  import opened SocketMessage
  import S = Sending
  import R = Reading

  /** The bytes `tx.wire[taken..]` are in the channel. `cut` records that the reader was
      aborted or closed from its own side. */
  datatype State = State(tx: S.State, rx: R.Reader, taken: nat, cut: bool)

  datatype Event =
    | Tx(e: S.Event)      // anything the sending side does
    | Receive(n: nat)     // n bytes leave the channel for the outstanding read
    | ReadDone            // a complete read calls its handler
    | ReadAbort           // the outstanding read calls its handler with an error
    | ReaderClose         // a client reader closes its socket for another reason

  function Init(txRole: S.Role, rxRole: S.Role, buffer: Msg): State {
    State(S.Init(txRole), R.Start(rxRole, buffer), 0, false)
  }

  predicate InChannel(s: State, n: nat) {
    s.taken + n <= |s.tx.wire|
  }

  function Chunk(s: State, n: nat): seq<Byte>
    requires InChannel(s, n)
  {
    s.tx.wire[s.taken..s.taken + n]
  }

  /** Only encoded messages are queued: both callers encode what they build. */
  predicate Enabled(s: State, e: Event) {
    match e
    case Tx(e) => S.Enabled(s.tx, e) && (e.Queue? ==> Encoded(e.msg))
    case Receive(n) => InChannel(s, n) && R.Enabled(s.rx, R.Arrive(Chunk(s, n)))
    case ReadDone => R.Enabled(s.rx, R.Done)
    case ReadAbort => R.Enabled(s.rx, R.Abort)
    case ReaderClose => s.rx.role.Client?
  }

  function Step(s: State, e: Event): State
    requires Enabled(s, e)
  {
    match e
    case Tx(e) => s.(tx := S.Step(s.tx, e))
    case Receive(n) => s.(rx := R.Step(s.rx, R.Arrive(Chunk(s, n))), taken := s.taken + n)
    case ReadDone => s.(rx := R.Step(s.rx, R.Done))
    case ReadAbort => s.(rx := R.Step(s.rx, R.Abort), cut := true)
    case ReaderClose => s.(rx := s.rx.(open := false), cut := true)
  }

  predicate Legal(s: State, es: seq<Event>)
    decreases es
  {
    es != [] ==> Enabled(s, es[0]) && Legal(Step(s, es[0]), es[1..])
  }

  function Exec(s: State, es: seq<Event>): State
    requires Legal(s, es)
    decreases es
  {
    if es == [] then s else Exec(Step(s, es[0]), es[1..])
  }

  function Bodies(ms: seq<Msg>): (r: seq<seq<Byte>>)
    ensures |r| == |ms|
  {
    if ms == [] then [] else [Body(ms[0])] + Bodies(ms[1..])
  }

  lemma {:induction false} BodiesAppend(a: seq<Msg>, b: seq<Msg>)
    ensures Bodies(a + b) == Bodies(a) + Bodies(b)
  {
    if a == [] {
      assert a + b == b;
    } else {
      assert (a + b)[1..] == a[1..] + b;
      BodiesAppend(a[1..], b);
    }
  }

  predicate AllEncoded(ms: seq<Msg>) {
    forall i :: 0 <= i < |ms| ==> Encoded(ms[i])
  }

  /** An encoded frame parses to its body. */
  lemma ParseEncodedFrame(m: Msg, u: seq<Byte>)
    requires Encoded(m)
    ensures R.Parse(Frame(m) + u) == R.Parse(u).(bodies := [Body(m)] + R.Parse(u).bodies)
  {
    HeaderRoundTrip(m.bodyLength);
    var x, n := Frame(m) + u, m.bodyLength;
    assert x[..HEADER_LENGTH] == Format4d(n);
    assert x[HEADER_LENGTH..HEADER_LENGTH + n] == Body(m);
    assert x[HEADER_LENGTH + n..] == u;
  }

  /** Part of an encoded frame parses to nothing yet. */
  lemma ParsePartOfFrame(m: Msg, x: seq<Byte>)
    requires Encoded(m) && x < Frame(m)
    ensures R.Parse(x) == R.Parsed([], false, x)
  {
    HeaderRoundTrip(m.bodyLength);
    if |x| >= HEADER_LENGTH {
      assert x[..HEADER_LENGTH] == Frame(m)[..HEADER_LENGTH] == Format4d(m.bodyLength);
    }
  }

  /** Any prefix of encoded frames parses, without refusal, to a prefix of their bodies,
      and the whole of them to all bodies with nothing left over. */
  lemma {:induction false} PrefixOfFramesParses(ms: seq<Msg>, x: seq<Byte>)
    requires AllEncoded(ms) && x <= S.Frames(ms)
    ensures !R.Parse(x).refused && R.Parse(x).bodies <= Bodies(ms)
    ensures x == S.Frames(ms) ==> R.Parse(x) == R.Parsed(Bodies(ms), false, [])
    decreases ms
  {
    if ms != [] {
      var f := Frame(ms[0]);
      if |x| >= |f| {
        var u := x[|f|..];
        assert x == f + u && u <= S.Frames(ms[1..]);
        PrefixOfFramesParses(ms[1..], u);
        ParseEncodedFrame(ms[0], u);
      } else {
        assert x == f[..|x|];
        ParsePartOfFrame(ms[0], x);
      }
    }
  }

  /** What every reachable state satisfies: the sender keeps its protocol, and the reader
      stands where the byte-at-a-time reader stands on the bytes taken. */
  ghost predicate Inv(s: State, buffer: Msg) {
    && S.SingleWriter(s.tx)
    && AllEncoded(s.tx.delivered)
    && s.taken <= |s.tx.wire|
    && ReaderInv(s.rx, s.cut, s.tx.wire[..s.taken], buffer)
  }

  ghost predicate ReaderInv(rx: R.Reader, cut: bool, x: seq<Byte>, buffer: Msg) {
    if cut then
      && (rx.op.NoRead? || !rx.open)
      && R.Settle(rx).handed <= R.Parse(x).bodies
    else
      && R.WellFormed(rx)
      && R.Settle(rx) == R.Feed(R.Start(rx.role, buffer), x)
  }

  lemma {:induction false} WireGrows(s: S.State, e: S.Event)
    requires S.Enabled(s, e)
    ensures s.wire <= S.Step(s, e).wire
  {
  }

  lemma ReceiveKeepsInv(s: State, n: nat, buffer: Msg)
    requires Inv(s, buffer) && Enabled(s, Receive(n))
    ensures Inv(Step(s, Receive(n)), buffer)
  {
    var x, chunk := s.tx.wire[..s.taken], Chunk(s, n);
    assert s.tx.wire[..s.taken + n] == x + chunk;
    R.ReceiveMore(R.Start(s.rx.role, buffer), x, s.rx, chunk);
  }

  lemma TxKeepsInv(s: State, e: S.Event, buffer: Msg)
    requires Inv(s, buffer) && Enabled(s, Tx(e))
    ensures Inv(Step(s, Tx(e)), buffer)
  {
    S.StepKeepsSingleWriter(s.tx, e);
    WireGrows(s.tx, e);
    assert S.Step(s.tx, e).wire[..s.taken] == s.tx.wire[..s.taken];
  }

  lemma ReadDoneKeepsInv(s: State, buffer: Msg)
    requires Inv(s, buffer) && Enabled(s, ReadDone)
    ensures Inv(Step(s, ReadDone), buffer)
  {
  }

  /** Before the reader is cut off its bodies are those of the stream. */
  lemma SettledBodies(s: State, buffer: Msg)
    requires Inv(s, buffer)
    ensures s.rx.handed <= R.Settle(s.rx).handed <= R.Parse(s.tx.wire[..s.taken]).bodies
  {
    R.SettleOnlyAdds(s.rx);
    if !s.cut {
      UncutReader(s, buffer);
    }
  }

  lemma CutKeepsInv(s: State, e: Event, buffer: Msg)
    requires Inv(s, buffer) && Enabled(s, e)
    requires e.ReadAbort? || e.ReaderClose?
    ensures Inv(Step(s, e), buffer)
  {
    SettledBodies(s, buffer);
    R.CutAddsNothing(s.rx);
  }

  lemma StepKeepsInv(s: State, e: Event, buffer: Msg)
    requires Inv(s, buffer) && Enabled(s, e)
    ensures Inv(Step(s, e), buffer)
  {
    match e
    case Tx(e) => TxKeepsInv(s, e, buffer);
    case Receive(n) => ReceiveKeepsInv(s, n, buffer);
    case ReadDone => ReadDoneKeepsInv(s, buffer);
    case ReadAbort => CutKeepsInv(s, e, buffer);
    case ReaderClose => CutKeepsInv(s, e, buffer);
  }

  lemma {:induction false} RunKeepsInv(s: State, es: seq<Event>, buffer: Msg)
    requires Inv(s, buffer) && Legal(s, es)
    ensures Inv(Exec(s, es), buffer)
    decreases es
  {
    if es != [] {
      StepKeepsInv(s, es[0], buffer);
      RunKeepsInv(Step(s, es[0]), es[1..], buffer);
    }
  }

  /** Nothing is queued, in the channel or waiting for a handler, and the reader was left alone. */
  predicate Quiescent(s: State) {
    && s.tx.sender.queue == []
    && s.taken == |s.tx.wire|
    && !s.cut
    && !R.Enabled(s.rx, R.Done)
  }

  /** The bytes taken parse to a prefix of what was queued. */
  lemma TakenParses(tx: S.State, taken: nat)
    requires S.SingleWriter(tx) && AllEncoded(tx.delivered) && taken <= |tx.wire|
    ensures var p := R.Parse(tx.wire[..taken]);
            && !p.refused && p.bodies <= Bodies(tx.delivered)
            && (tx.sender.queue == [] && taken == |tx.wire| ==> p.bodies == Bodies(tx.delivered))
  {
    S.WireOfSingleWriter(tx);
    PrefixOfFramesParses(tx.delivered, tx.wire[..taken]);
    assert taken == |tx.wire| ==> tx.wire[..taken] == tx.wire;
  }

  /** A reader that was not cut off has handed up, or has due, exactly the parsed bodies,
      and it is still reading. */
  lemma UncutReader(s: State, buffer: Msg)
    requires Inv(s, buffer) && !s.cut
    ensures R.Settle(s.rx).handed == R.Parse(s.tx.wire[..s.taken]).bodies
    ensures !R.Parse(s.tx.wire[..s.taken]).refused ==> !R.Settle(s.rx).op.NoRead?
  {
    R.FeedIsParse(R.Start(s.rx.role, buffer), s.tx.wire[..s.taken]);
  }

  lemma HandedIsPrefix(s: State, buffer: Msg)
    requires Inv(s, buffer)
    ensures s.rx.handed <= R.Settle(s.rx).handed <= Bodies(s.tx.delivered)
    ensures !s.cut ==> !R.Settle(s.rx).op.NoRead?
    ensures Quiescent(s) ==> s.rx.handed == Bodies(s.tx.delivered)
  {
    TakenParses(s.tx, s.taken);
    SettledBodies(s, buffer);
    if !s.cut {
      UncutReader(s, buffer);
    }
  }

  /** End to end, for either kind of endpoint on either side, any initial buffer, any
      chunking and any failures: the bodies handed up are a prefix, in order and byte for
      byte, of the bodies queued, and all of them once the connection is quiescent. */
  lemma EndToEnd(txRole: S.Role, rxRole: S.Role, buffer: Msg, es: seq<Event>)
    requires Legal(Init(txRole, rxRole, buffer), es)
    ensures var s := Exec(Init(txRole, rxRole, buffer), es);
            && s.rx.handed <= Bodies(s.tx.delivered)
            && (Quiescent(s) ==> s.rx.handed == Bodies(s.tx.delivered))
            && (!s.cut ==> !s.rx.op.NoRead?)
  {
    var s0 := Init(txRole, rxRole, buffer);
    RunKeepsInv(s0, es, buffer);
    HandedIsPrefix(Exec(s0, es), buffer);
  }

  // ---------- refinement of a FIFO ----------

  /** The specification: a queue of bodies and what was taken out of it. */
  datatype Fifo = Fifo(queued: seq<seq<Byte>>, out: seq<seq<Byte>>)

  datatype FifoOp = Enqueue(body: seq<Byte>) | Dequeue | Stutter

  ghost predicate FifoStep(a: Fifo, op: FifoOp, b: Fifo) {
    match op
    case Enqueue(body) => b == a.(queued := a.queued + [body])
    case Dequeue => a.queued != [] && b == Fifo(a.queued[1..], a.out + [a.queued[0]])
    case Stutter => b == a
  }

  /** Which FIFO operation an event is: queueing a message enqueues its body, the handler of
      a complete body read dequeues, and nothing else does anything. */
  function OpOf(s: State, e: Event): FifoOp {
    match e
    case Tx(Queue(m)) => Enqueue(Body(m))
    case ReadDone => if s.rx.op.BodyRead? then Dequeue else Stutter
    case _ => Stutter
  }

  ghost function Abstract(s: State): Fifo
    requires s.rx.handed <= Bodies(s.tx.delivered)
  {
    Fifo(Bodies(s.tx.delivered)[|s.rx.handed|..], s.rx.handed)
  }

  lemma QueueIsEnqueue(all: seq<Msg>, m: Msg, handed: seq<seq<Byte>>)
    requires handed <= Bodies(all)
    ensures Bodies(all + [m])[|handed|..] == Bodies(all)[|handed|..] + [Body(m)]
  {
    BodiesAppend(all, [m]);
    assert Bodies([m]) == [Body(m)];
  }

  /** Only the body handler hands up a body, and exactly one; only queueing adds to the
      messages delivered. */
  lemma HandedUpBy(s: State, e: Event)
    requires Enabled(s, e)
    ensures var t := Step(s, e);
            && (OpOf(s, e).Enqueue? ==> t.rx.handed == s.rx.handed)
            && (!OpOf(s, e).Enqueue? ==> t.tx.delivered == s.tx.delivered)
            && (OpOf(s, e).Dequeue? ==> s.rx.handed < t.rx.handed && |t.rx.handed| == |s.rx.handed| + 1)
            && (OpOf(s, e).Stutter? ==> t.rx.handed == s.rx.handed)
  {
  }

  lemma NextPrefixIsDequeue(all: seq<seq<Byte>>, before: seq<seq<Byte>>, after: seq<seq<Byte>>)
    requires before <= after <= all && |after| == |before| + 1
    ensures FifoStep(Fifo(all[|before|..], before), Dequeue, Fifo(all[|after|..], after))
  {
  }

  /** Every step of the connection is the FIFO operation that `OpOf` names. */
  lemma StepRefinesFifo(s: State, e: Event, buffer: Msg)
    requires Inv(s, buffer) && Enabled(s, e)
    ensures s.rx.handed <= Bodies(s.tx.delivered)
    ensures Step(s, e).rx.handed <= Bodies(Step(s, e).tx.delivered)
    ensures FifoStep(Abstract(s), OpOf(s, e), Abstract(Step(s, e)))
  {
    StepKeepsInv(s, e, buffer);
    HandedIsPrefix(s, buffer);
    HandedIsPrefix(Step(s, e), buffer);
    HandedUpBy(s, e);
    match OpOf(s, e)
    case Enqueue(_) => QueueIsEnqueue(s.tx.delivered, e.e.msg, s.rx.handed);
    case Dequeue => NextPrefixIsDequeue(Bodies(s.tx.delivered), s.rx.handed, Step(s, e).rx.handed);
    case Stutter =>
  }

  /** Every run refines the FIFO: at each reachable state the abstraction is defined, and
      the next event, whichever it is, is the FIFO operation that `OpOf` names. */
  lemma RunsRefineFifo(txRole: S.Role, rxRole: S.Role, buffer: Msg, es: seq<Event>, e: Event)
    requires Legal(Init(txRole, rxRole, buffer), es)
    requires Enabled(Exec(Init(txRole, rxRole, buffer), es), e)
    ensures var s := Exec(Init(txRole, rxRole, buffer), es);
            && s.rx.handed <= Bodies(s.tx.delivered)
            && Step(s, e).rx.handed <= Bodies(Step(s, e).tx.delivered)
            && FifoStep(Abstract(s), OpOf(s, e), Abstract(Step(s, e)))
  {
    RunKeepsInv(Init(txRole, rxRole, buffer), es, buffer);
    StepRefinesFifo(Exec(Init(txRole, rxRole, buffer), es), e, buffer);
  }

  // ---------- the connection never wedges ----------

  /** No write failed, no side closed or aborted. */
  predicate Healthy(s: State) {
    !s.tx.failed && s.tx.sender.open && !s.cut
  }

  function HandlersDue(r: R.Reader): nat {
    if R.Wants(r) != 0 || r.op.NoRead? then 0 else if r.op.HeaderRead? then 2 else 1
  }

  /** The next internal event of a connection that still has work. */
  ghost function NextEvent(s: State, buffer: Msg): (e: Event)
    requires Inv(s, buffer) && Healthy(s) && !Quiescent(s)
    ensures Enabled(s, e) && !(e.Tx? && e.e.Queue?)
    ensures Healthy(Step(s, e))
  {
    HandedIsPrefix(s, buffer);
    if s.tx.sender.queue != [] then
      var op := s.tx.sender.writes[0];
      if op.sent < |Frame(op.msg)| then Tx(S.Transfer(0, |Frame(op.msg)| - op.sent))
      else Tx(S.Complete(0))
    else if R.Enabled(s.rx, R.Done) then ReadDone
    else Receive(1)
  }

  /** What is left to do: bytes to send, messages to complete, bytes to receive, handlers. */
  ghost predicate LessWork(t: State, s: State) {
    || |t.tx.wire| > |s.tx.wire|
    || (|t.tx.wire| == |s.tx.wire|
        && (|| |t.tx.sender.queue| < |s.tx.sender.queue|
            || (|t.tx.sender.queue| == |s.tx.sender.queue|
                && (|| t.taken > s.taken
                    || (t.taken == s.taken && HandlersDue(t.rx) < HandlersDue(s.rx))))))
  }

  lemma NextEventWorks(s: State, buffer: Msg)
    requires Inv(s, buffer) && Healthy(s) && !Quiescent(s)
    ensures var t := Step(s, NextEvent(s, buffer));
            LessWork(t, s) && t.tx.delivered == s.tx.delivered
  {
  }

  lemma {:induction false} Drain(s: State, buffer: Msg) returns (es: seq<Event>)
    requires Inv(s, buffer) && Healthy(s)
    ensures Legal(s, es)
    ensures forall i :: 0 <= i < |es| ==> !(es[i].Tx? && es[i].e.Queue?)
    ensures Exec(s, es).rx.handed == Bodies(s.tx.delivered)
    decreases |S.Frames(s.tx.delivered)| - |s.tx.wire|, |s.tx.sender.queue|,
              |s.tx.wire| - s.taken, HandlersDue(s.rx)
  {
    if Quiescent(s) {
      HandedIsPrefix(s, buffer);
      es := [];
    } else {
      var e := NextEvent(s, buffer);
      var t := Step(s, e);
      StepKeepsInv(s, e, buffer);
      NextEventWorks(s, buffer);
      S.WireOfSingleWriter(t.tx);
      var rest := Drain(t, buffer);
      es := [e] + rest;
    }
  }

  /** From every reachable state in which nothing failed or was closed, internal events
      alone lead to a state where every body queued so far has been handed up. */
  lemma CanAlwaysDrain(txRole: S.Role, rxRole: S.Role, buffer: Msg, es: seq<Event>) returns (fs: seq<Event>)
    requires Legal(Init(txRole, rxRole, buffer), es)
    requires Healthy(Exec(Init(txRole, rxRole, buffer), es))
    ensures var s := Exec(Init(txRole, rxRole, buffer), es);
            && Legal(s, fs)
            && (forall i :: 0 <= i < |fs| ==> !(fs[i].Tx? && fs[i].e.Queue?))
            && Exec(s, fs).rx.handed == Bodies(s.tx.delivered)
  {
    RunKeepsInv(Init(txRole, rxRole, buffer), es, buffer);
    fs := Drain(Exec(Init(txRole, rxRole, buffer), es), buffer);
  }
}
