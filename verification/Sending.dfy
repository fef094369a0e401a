/** The sending half of a connection: a message queue, the asynchronous writes that have
    been started and not yet completed, and the wire they write to. */
module Sending {
  import opened Bytes
  import opened SocketMessage

  /** `socket_session` leaves the socket open after an error; `chat_client` closes it. */
  datatype Role = Server | Client

  /** A started `async_write`: the message it was given and the bytes sent so far. */
  datatype WriteOp = WriteOp(msg: Msg, sent: nat)

  /** `writes` is a sequence so that a second concurrent write could be represented. */
  datatype Sender = Sender(role: Role, queue: seq<Msg>, writes: seq<WriteOp>, open: bool)

  function StartWrite(s: Sender): Sender
    requires s.queue != []
  {
    s.(writes := s.writes + [WriteOp(s.queue[0], 0)])
  }

  function Deliver(s: Sender, m: Msg): Sender {
    var inProgress := s.queue != [];
    var s1 := s.(queue := s.queue + [m]);
    if !inProgress then StartWrite(s1) else s1
  }

  function PopFront(q: seq<Msg>): seq<Msg> {
    if q == [] then [] else q[1..]
  }

  function HandleWrite(s: Sender, error: bool): Sender {
    if !error then
      var s1 := s.(queue := PopFront(s.queue));
      if s1.queue != [] then StartWrite(s1) else s1
    else if s.role.Client? then s.(open := false)
    else s
  }

  /** The sender, every byte ever put on the wire, and the history of the run: messages
      delivered to the queue, messages whose write completed, whether a write failed. */
  datatype State = State(sender: Sender, wire: seq<Byte>, delivered: seq<Msg>, completed: seq<Msg>, failed: bool)

  datatype Event =
    | Queue(msg: Msg)             // deliver / do_write
    | Transfer(op: nat, n: nat)   // the i-th outstanding write moves n more bytes
    | Complete(op: nat)           // it has sent everything: handle_write without error
    | Fail(op: nat)               // it fails, possibly part way: handle_write with error
    | Close                       // the client closes the socket for another reason

  function Init(role: Role): State {
    State(Sender(role, [], [], true), [], [], [], false)
  }

  function Remove(ops: seq<WriteOp>, i: nat): seq<WriteOp>
    requires i < |ops|
  {
    ops[..i] + ops[i + 1..]
  }

  predicate Enabled(s: State, e: Event) {
    var ops := s.sender.writes;
    match e
    case Queue(_) => true
    case Transfer(i, n) => s.sender.open && i < |ops| && ops[i].sent + n <= |Frame(ops[i].msg)|
    case Complete(i) => i < |ops| && ops[i].sent == |Frame(ops[i].msg)|
    case Fail(i) => i < |ops|
    case Close => s.sender.role.Client?
  }

  function Step(s: State, e: Event): State
    requires Enabled(s, e)
  {
    var tx := s.sender;
    match e
    case Queue(m) =>
      s.(sender := Deliver(tx, m), delivered := s.delivered + [m])
    case Transfer(i, n) =>
      var op := tx.writes[i];
      s.(sender := tx.(writes := tx.writes[i := op.(sent := op.sent + n)]),
         wire := s.wire + Frame(op.msg)[op.sent..op.sent + n])
    case Complete(i) =>
      s.(sender := HandleWrite(tx.(writes := Remove(tx.writes, i)), false),
         completed := s.completed + [tx.writes[i].msg])
    case Fail(i) =>
      s.(sender := HandleWrite(tx.(writes := Remove(tx.writes, i)), true), failed := true)
    case Close =>
      s.(sender := tx.(open := false))
  }

  /** Every event of the run can happen when its turn comes. */
  predicate Legal(s: State, es: seq<Event>)
    decreases es
  {
    es != [] ==> Enabled(s, es[0]) && Legal(Step(s, es[0]), es[1..])
  }

  function Exec(s: State, es: seq<Event>): State
    requires Legal(s, es)
    decreases es
  {
    if es == [] then s else Exec(Step(s, es[0]), es[1..])
  }

  /** The frames of the messages, one after the other. */
  function Frames(ms: seq<Msg>): seq<Byte> {
    if ms == [] then [] else Frame(ms[0]) + Frames(ms[1..])
  }

  lemma {:induction false} FramesAppend(a: seq<Msg>, b: seq<Msg>)
    ensures Frames(a + b) == Frames(a) + Frames(b)
  {
    if a == [] {
      assert a + b == b;
    } else {
      assert (a + b)[1..] == a[1..] + b;
      FramesAppend(a[1..], b);
    }
  }

  /** The single-writer protocol. Before a failure a write is outstanding exactly when the
      queue is not empty, there is only one, it is for the front message, and the wire holds
      the completed frames and the part of the front frame that was sent. After a failure
      no write is outstanding, the queue is not empty, and the wire stops within the front frame. */
  ghost predicate SingleWriter(s: State) {
    var tx := s.sender;
    && s.delivered == s.completed + tx.queue
    && (s.failed ==>
          && tx.writes == []
          && tx.queue != []
          && Frames(s.completed) <= s.wire <= Frames(s.completed) + Frame(tx.queue[0]))
    && (!s.failed ==>
          if tx.queue == [] then
            tx.writes == [] && s.wire == Frames(s.completed)
          else
            && |tx.writes| == 1
            && tx.writes[0].msg == tx.queue[0]
            && tx.writes[0].sent <= |Frame(tx.queue[0])|
            && s.wire == Frames(s.completed) + Frame(tx.queue[0])[..tx.writes[0].sent])
  }

  lemma TransferKeeps(s: State, i: nat, n: nat)
    requires SingleWriter(s) && Enabled(s, Transfer(i, n))
    ensures SingleWriter(Step(s, Transfer(i, n)))
  {
  }

  lemma FramesSnoc(a: seq<Msg>, m: Msg)
    ensures Frames(a + [m]) == Frames(a) + Frame(m)
  {
    FramesAppend(a, [m]);
    assert Frames([m]) == Frame(m) + Frames([]);
  }

  lemma CompleteKeeps(s: State, i: nat)
    requires SingleWriter(s) && Enabled(s, Complete(i))
    ensures SingleWriter(Step(s, Complete(i)))
  {
    var front, later := s.sender.queue[0], s.sender.queue[1..];
    FramesSnoc(s.completed, front);
    assert s.wire == Frames(s.completed) + Frame(front);
    assert s.completed + s.sender.queue == (s.completed + [front]) + later;
    assert Remove(s.sender.writes, i) == [];
    if later != [] {
      assert Frame(later[0])[..0] == [];
    }
  }

  lemma StepKeepsSingleWriter(s: State, e: Event)
    requires SingleWriter(s) && Enabled(s, e)
    ensures SingleWriter(Step(s, e))
  {
    match e
    case Queue(m) =>
    case Transfer(i, n) => TransferKeeps(s, i, n);
    case Complete(i) => CompleteKeeps(s, i);
    case Fail(i) => assert Remove(s.sender.writes, i) == [];
    case Close =>
  }

  lemma {:induction false} RunKeepsSingleWriter(s: State, es: seq<Event>)
    requires SingleWriter(s) && Legal(s, es)
    ensures SingleWriter(Exec(s, es))
    decreases es
  {
    if es != [] {
      StepKeepsSingleWriter(s, es[0]);
      RunKeepsSingleWriter(Step(s, es[0]), es[1..]);
    }
  }

  /** Every run of either endpoint keeps the single-writer protocol; in particular a
      completed write always finds a message to pop. */
  lemma SingleWriterAlways(role: Role, es: seq<Event>)
    requires Legal(Init(role), es)
    ensures var s := Exec(Init(role), es);
            SingleWriter(s) && (s.sender.writes != [] ==> s.sender.queue != [])
  {
    RunKeepsSingleWriter(Init(role), es);
  }

  lemma WireOfSingleWriter(s: State)
    requires SingleWriter(s)
    ensures s.wire <= Frames(s.delivered)
    ensures s.sender.queue == [] ==> s.wire == Frames(s.delivered)
  {
    FramesAppend(s.completed, s.sender.queue);
  }

  /** In every run, failure or not, the wire is a prefix of all frames delivered, and all of
      them when the queue is empty; and a continuation only adds to it. */
  lemma WireIsPrefix(role: Role, es: seq<Event>, fs: seq<Event>)
    requires Legal(Init(role), es) && Legal(Exec(Init(role), es), fs)
    ensures var s := Exec(Init(role), es);
            && s.wire <= Frames(s.delivered)
            && (s.sender.queue == [] ==> s.wire == Frames(s.delivered))
            && s.wire <= Exec(s, fs).wire
  {
    RunKeepsSingleWriter(Init(role), es);
    WireOfSingleWriter(Exec(Init(role), es));
    WireOnlyGrows(Exec(Init(role), es), fs);
  }

  lemma {:induction false} WireOnlyGrows(s: State, es: seq<Event>)
    requires Legal(s, es)
    ensures s.wire <= Exec(s, es).wire
    decreases es
  {
    if es != [] {
      WireOnlyGrows(Step(s, es[0]), es[1..]);
    }
  }

  lemma {:induction false} FailureIsFinal(s: State, es: seq<Event>)
    requires SingleWriter(s) && s.failed && Legal(s, es)
    ensures var t := Exec(s, es);
            && t.failed && t.sender.writes == []
            && t.wire == s.wire && t.completed == s.completed
            && s.sender.queue <= t.sender.queue
    decreases es
  {
    if es != [] {
      StepKeepsSingleWriter(s, es[0]);
      FailureIsFinal(Step(s, es[0]), es[1..]);
    }
  }

  /** After a failed write nothing is ever written again, however many messages follow:
      whatever continuation `fs` a run `es` with a failure has, the wire stays the same
      prefix of the frames delivered, and no write is outstanding. */
  lemma NoWriteAfterFailure(role: Role, es: seq<Event>, fs: seq<Event>)
    requires Legal(Init(role), es) && Legal(Exec(Init(role), es), fs)
    requires Exec(Init(role), es).failed
    ensures var s := Exec(Init(role), es);
            var t := Exec(s, fs);
            && t.wire == s.wire <= Frames(s.delivered)
            && t.sender.writes == []
            && s.sender.queue <= t.sender.queue
  {
    var s := Exec(Init(role), es);
    RunKeepsSingleWriter(Init(role), es);
    WireOfSingleWriter(s);
    FailureIsFinal(s, fs);
  }
}
