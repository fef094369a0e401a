/** One endpoint as a whole: its sending and its reading half share one socket, so that what
    breaks one half of a client also stops the other. */
module Duplex {
  import opened Bytes
  import opened SocketMessage
  import S = Sending
  import R = Reading

  datatype Endpoint = Endpoint(tx: S.State, rx: R.Reader)

  datatype Event = Tx(tx: S.Event) | Rx(rx: R.Event)

  function Init(role: S.Role, m: Msg): Endpoint {
    Endpoint(S.Init(role), R.Start(role, m))
  }

  predicate Enabled(c: Endpoint, e: Event) {
    match e
    case Tx(e) => S.Enabled(c.tx, e)
    case Rx(e) => R.Enabled(c.rx, e)
  }

  /** Each half does its step, and the other one sees whether the socket is still open. */
  function Step(c: Endpoint, e: Event): Endpoint
    requires Enabled(c, e)
  {
    match e
    case Tx(e) =>
      var tx := S.Step(c.tx, e);
      Endpoint(tx, c.rx.(open := tx.sender.open))
    case Rx(e) =>
      var rx := R.Step(c.rx, e);
      Endpoint(c.tx.(sender := c.tx.sender.(open := rx.open)), rx)
  }

  predicate Legal(c: Endpoint, es: seq<Event>)
    decreases es
  {
    es != [] ==> Enabled(c, es[0]) && Legal(Step(c, es[0]), es[1..])
  }

  function Exec(c: Endpoint, es: seq<Event>): Endpoint
    requires Legal(c, es)
    decreases es
  {
    if es == [] then c else Exec(Step(c, es[0]), es[1..])
  }

  ghost predicate OneSocket(c: Endpoint) {
    c.tx.sender.role == c.rx.role && c.tx.sender.open == c.rx.open
  }

  /** A failed write, an aborted read, a close, or a complete header whose number is not a
      body length. */
  predicate Breaks(c: Endpoint, e: Event) {
    match e
    case Tx(e) => e.Fail? || e.Close?
    case Rx(Arrive(_)) => false
    case Rx(Abort) => true
    case Rx(Done) =>
      && c.rx.op.HeaderRead?
      && !(0 <= HeaderNumber(c.rx.msg.data[..HEADER_LENGTH]) <= MAX_BODY_LENGTH)
  }

  predicate Broken(c: Endpoint, es: seq<Event>)
    requires Legal(c, es)
    decreases es
  {
    es != [] && (Breaks(c, es[0]) || Broken(Step(c, es[0]), es[1..]))
  }

  lemma StepKeepsOneSocket(c: Endpoint, e: Event)
    requires OneSocket(c) && Enabled(c, e)
    ensures OneSocket(Step(c, e)) && Step(c, e).rx.role == c.rx.role
    ensures Step(c, e).rx.open <==> c.rx.open && (c.rx.role.Server? || !Breaks(c, e))
  {
    DecodeUsesNumber(c.rx.msg);
  }

  lemma {:induction false} RunOpenIff(c: Endpoint, es: seq<Event>)
    requires OneSocket(c) && Legal(c, es)
    ensures OneSocket(Exec(c, es)) && Exec(c, es).rx.role == c.rx.role
    ensures Exec(c, es).rx.open <==> c.rx.open && (c.rx.role.Server? || !Broken(c, es))
    decreases es
  {
    if es != [] {
      StepKeepsOneSocket(c, es[0]);
      RunOpenIff(Step(c, es[0]), es[1..]);
    }
  }

  /** In every run the two halves agree about the socket; a session's stays open whatever
      happens, and a client's is open exactly as long as no write failed, no read was
      aborted, no header was refused and nobody closed it. */
  lemma OpenIff(role: S.Role, m: Msg, es: seq<Event>)
    requires Legal(Init(role, m), es)
    ensures var c := Exec(Init(role, m), es);
            && c.tx.sender.open == c.rx.open
            && (c.rx.open <==> role.Server? || !Broken(Init(role, m), es))
  {
    RunOpenIff(Init(role, m), es);
  }

  /** An error can strike whenever an operation is outstanding, and each closes the socket of
      a client at once. */
  lemma ErrorsCloseClient(m: Msg, es: seq<Event>)
    requires Legal(Init(S.Client, m), es)
    ensures var c := Exec(Init(S.Client, m), es);
            && (c.tx.sender.writes != [] ==> Enabled(c, Tx(S.Fail(0))) && !Step(c, Tx(S.Fail(0))).rx.open)
            && (!c.rx.op.NoRead? ==> Enabled(c, Rx(R.Abort)) && !Step(c, Rx(R.Abort)).rx.open)
            && Enabled(c, Tx(S.Close)) && !Step(c, Tx(S.Close)).rx.open
  {
    RunOpenIff(Init(S.Client, m), es);
    var c := Exec(Init(S.Client, m), es);
    StepKeepsOneSocket(c, Tx(S.Close));
    if c.tx.sender.writes != [] {
      StepKeepsOneSocket(c, Tx(S.Fail(0)));
    }
    if !c.rx.op.NoRead? {
      StepKeepsOneSocket(c, Rx(R.Abort));
    }
  }

  /** The bytes that reach the buffer. */
  function Received(es: seq<Event>): seq<Byte> {
    if es == [] then []
    else (if es[0].Rx? && es[0].rx.Arrive? then es[0].rx.chunk else []) + Received(es[1..])
  }

  /** The bodies a closed endpoint can still hand up: that of a read which was complete, or a
      complete header announced as empty. */
  function MayStillHandUp(r: R.Reader): nat {
    if !r.op.NoRead? && R.Wants(r) == 0 then 1 else 0
  }

  lemma ClosedStep(c: Endpoint, e: Event)
    requires OneSocket(c) && !c.rx.open && Enabled(c, e)
    ensures var d := Step(c, e);
            && !d.rx.open && d.tx.wire == c.tx.wire && d.rx.msg.data == c.rx.msg.data
            && (e.Rx? ==> !e.rx.Arrive?)
            && |d.rx.handed| + MayStillHandUp(d.rx) <= |c.rx.handed| + MayStillHandUp(c.rx)
            && c.rx.handed <= d.rx.handed
  {
  }

  lemma {:induction false} ClosedRun(c: Endpoint, es: seq<Event>)
    requires OneSocket(c) && !c.rx.open && Legal(c, es)
    ensures var d := Exec(c, es);
            && !d.rx.open && d.tx.wire == c.tx.wire && d.rx.msg.data == c.rx.msg.data
            && Received(es) == []
            && |d.rx.handed| + MayStillHandUp(d.rx) <= |c.rx.handed| + MayStillHandUp(c.rx)
            && c.rx.handed <= d.rx.handed
    decreases es
  {
    if es != [] {
      StepKeepsOneSocket(c, es[0]);
      ClosedStep(c, es[0]);
      ClosedRun(Step(c, es[0]), es[1..]);
    }
  }

  /** Once a client's run is broken its socket is closed for ever: in any continuation no byte
      is sent, none is received, the buffer keeps its content, and at most the one body that
      had arrived completely is still handed up. */
  lemma SilentAfterBreak(m: Msg, es: seq<Event>, fs: seq<Event>)
    requires var c := Init(S.Client, m);
             Legal(c, es) && Broken(c, es) && Legal(Exec(c, es), fs)
    ensures var c := Exec(Init(S.Client, m), es);
            var d := Exec(c, fs);
            && !c.rx.open && !d.rx.open && !d.tx.sender.open
            && d.tx.wire == c.tx.wire
            && Received(fs) == [] && d.rx.msg.data == c.rx.msg.data
            && c.rx.handed <= d.rx.handed && |d.rx.handed| <= |c.rx.handed| + MayStillHandUp(c.rx)
  {
    RunOpenIff(Init(S.Client, m), es);
    ClosedRun(Exec(Init(S.Client, m), es), fs);
    RunOpenIff(Exec(Init(S.Client, m), es), fs);
  }

  // ---------- each half by itself ----------

  function RxEvents(es: seq<Event>): seq<R.Event> {
    if es == [] then [] else (if es[0].Rx? then [es[0].rx] else []) + RxEvents(es[1..])
  }

  /** What a step is for the sending half: its own event, a close, or nothing. */
  function TxEvents(c: Endpoint, e: Event): seq<S.Event>
    requires Enabled(c, e)
  {
    match e
    case Tx(e) => [e]
    case Rx(_) => if Step(c, e).rx.open == c.rx.open then [] else [S.Close]
  }

  lemma TxHalfStep(c: Endpoint, e: Event, ts: seq<S.Event>)
    requires OneSocket(c) && Enabled(c, e) && S.Legal(Step(c, e).tx, ts)
    ensures S.Legal(c.tx, TxEvents(c, e) + ts)
    ensures S.Exec(c.tx, TxEvents(c, e) + ts) == S.Exec(Step(c, e).tx, ts)
  {
    StepKeepsOneSocket(c, e);
    var us := TxEvents(c, e);
    if us == [] {
      assert us + ts == ts;
    } else {
      assert (us + ts)[0] == us[0] && (us + ts)[1..] == ts;
    }
  }

  lemma {:induction false} TxHalf(c: Endpoint, es: seq<Event>) returns (ts: seq<S.Event>)
    requires OneSocket(c) && Legal(c, es)
    ensures S.Legal(c.tx, ts) && S.Exec(c.tx, ts) == Exec(c, es).tx
    decreases es
  {
    ts := [];
    if es != [] {
      StepKeepsOneSocket(c, es[0]);
      ts := TxHalf(Step(c, es[0]), es[1..]);
      TxHalfStep(c, es[0], ts);
      ts := TxEvents(c, es[0]) + ts;
    }
  }

  lemma {:induction false} RxHalf(c: Endpoint, es: seq<Event>)
    requires OneSocket(c) && c.rx.open && Legal(c, es) && Exec(c, es).rx.open
    ensures R.Legal(c.rx, RxEvents(es)) && R.Exec(c.rx, RxEvents(es)) == Exec(c, es).rx
    decreases es
  {
    if es != [] {
      var d := Step(c, es[0]);
      StepKeepsOneSocket(c, es[0]);
      RunOpenIff(d, es[1..]);
      RxHalf(d, es[1..]);
      if es[0].Rx? {
        assert RxEvents(es)[0] == es[0].rx && RxEvents(es)[1..] == RxEvents(es[1..]);
      } else {
        assert RxEvents(es) == RxEvents(es[1..]);
      }
    }
  }

  /** Whatever the other half does, the sending half of an endpoint is a run of the sender,
      so the single-writer protocol holds of it; and while the socket is open the reading
      half is a run of the reader on the bytes received. */
  lemma HalvesAreRuns(role: S.Role, m: Msg, es: seq<Event>) returns (ts: seq<S.Event>)
    requires Legal(Init(role, m), es)
    ensures var c := Exec(Init(role, m), es);
            && S.Legal(S.Init(role), ts) && S.Exec(S.Init(role), ts) == c.tx
            && S.SingleWriter(c.tx)
            && (c.rx.open ==>
                  && R.Legal(R.Start(role, m), RxEvents(es))
                  && R.Exec(R.Start(role, m), RxEvents(es)) == c.rx)
  {
    ts := TxHalf(Init(role, m), es);
    S.RunKeepsSingleWriter(S.Init(role), ts);
    if Exec(Init(role, m), es).rx.open {
      RxHalf(Init(role, m), es);
    }
  }
}
