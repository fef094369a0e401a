/** The reading half of a connection: one message buffer, filled by alternating exact reads
    of a header and of a body, with the bytes arriving in chunks of any size. */
module Reading {
  import opened Bytes
  import opened SocketMessage
  import S = Sending

  /** The outstanding `async_read` and how many bytes it has received. */
  datatype ReadOp = NoRead | HeaderRead(got: nat) | BodyRead(got: nat)

  /** `handed` is the history of the bodies handed up by `handle_read_body`. */
  datatype Reader = Reader(role: S.Role, msg: Msg, op: ReadOp, open: bool, handed: seq<seq<Byte>>)

  /** What both handlers do on an error or a refused header: start no further read. */
  function GiveUp(r: Reader): Reader {
    r.(op := NoRead, open := r.open && r.role.Server?)
  }

  function HandleReadHeader(r: Reader, error: bool): Reader {
    if error then GiveUp(r)
    else
      var (m, ok) := DecodeHeader(r.msg);
      if ok then r.(msg := m, op := BodyRead(0)) else GiveUp(r.(msg := m))
  }

  function HandleReadBody(r: Reader, error: bool): Reader {
    if error then GiveUp(r)
    else r.(handed := r.handed + [Body(r.msg)], op := HeaderRead(0))
  }

  function Start(role: S.Role, m: Msg): Reader {
    Reader(role, m, HeaderRead(0), true, [])
  }

  /** Bytes the outstanding read still wants. */
  function Wants(r: Reader): int {
    match r.op
    case NoRead => 0
    case HeaderRead(got) => HEADER_LENGTH - got
    case BodyRead(got) => r.msg.bodyLength - got
  }

  datatype Event =
    | Arrive(chunk: seq<Byte>)  // part of what the read wants
    | Done                      // the read has everything: its handler runs without error
    | Abort                     // its handler runs with an error

  predicate Enabled(r: Reader, e: Event) {
    match e
    case Arrive(chunk) => r.open && !r.op.NoRead? && 0 < |chunk| <= Wants(r)
    case Done => !r.op.NoRead? && Wants(r) == 0
    case Abort => !r.op.NoRead?
  }

  function Put(r: Reader, chunk: seq<Byte>): Reader
    requires Enabled(r, Arrive(chunk))
  {
    match r.op
    case HeaderRead(got) =>
      r.(msg := r.msg.(data := Overwrite(r.msg.data, got, chunk)), op := HeaderRead(got + |chunk|))
    case BodyRead(got) =>
      r.(msg := r.msg.(data := Overwrite(r.msg.data, HEADER_LENGTH + got, chunk)), op := BodyRead(got + |chunk|))
  }

  function Finish(r: Reader, error: bool): Reader {
    match r.op
    case NoRead => r
    case HeaderRead(_) => HandleReadHeader(r, error)
    case BodyRead(_) => HandleReadBody(r, error)
  }

  function Step(r: Reader, e: Event): Reader
    requires Enabled(r, e)
  {
    match e
    case Arrive(chunk) => Put(r, chunk)
    case Done => Finish(r, false)
    case Abort => Finish(r, true)
  }

  predicate Legal(r: Reader, es: seq<Event>)
    decreases es
  {
    es != [] ==> Enabled(r, es[0]) && Legal(Step(r, es[0]), es[1..])
  }

  function Exec(r: Reader, es: seq<Event>): Reader
    requires Legal(r, es)
    decreases es
  {
    if es == [] then r else Exec(Step(r, es[0]), es[1..])
  }

  /** The bytes a run consumes. */
  function Consumed(es: seq<Event>): seq<Byte> {
    if es == [] then []
    else (if es[0].Arrive? then es[0].chunk else []) + Consumed(es[1..])
  }

  // ---------- byte at a time ----------

  function SettleBody(r: Reader): Reader {
    if r.op.BodyRead? && Wants(r) == 0 then HandleReadBody(r, false) else r
  }

  /** Runs the handlers that are due; an empty body is complete at once. */
  function Settle(r: Reader): Reader {
    if r.op.HeaderRead? && Wants(r) == 0 then SettleBody(HandleReadHeader(r, false))
    else SettleBody(r)
  }

  /** The reader after a stream that arrives one byte at a time, with no delay before a
      handler. Bytes after a refused header are not read. */
  function Feed(r: Reader, stream: seq<Byte>): Reader
    decreases stream
  {
    if stream == [] || !Enabled(r, Arrive([stream[0]])) then r
    else Feed(Settle(Put(r, [stream[0]])), stream[1..])
  }

  /** A reader between events: no handler is due. */
  predicate Settled(r: Reader) {
    r.op.NoRead? || (r.open && Wants(r) > 0)
  }

  /** What is true of the reader at every moment before an error. */
  predicate WellFormed(r: Reader) {
    Wants(r) >= 0 && (r.op.NoRead? || r.open)
  }

  lemma SettleSettles(r: Reader)
    requires WellFormed(r)
    ensures Settled(Settle(r)) && Settle(Settle(r)) == Settle(r)
  {
  }

  /** The due handlers hand up at most one body and take none back. */
  lemma SettleOnlyAdds(r: Reader)
    ensures r.handed <= Settle(r).handed
    ensures r.op.NoRead? ==> Settle(r) == r
  {
  }

  /** An error or a close adds no body to what was due. */
  lemma CutAddsNothing(r: Reader)
    ensures Settle(Finish(r, true)).handed <= Settle(r).handed
    ensures Settle(r.(open := false)).handed == Settle(r).handed
  {
  }

  lemma {:induction false} FeedAppend(r: Reader, a: seq<Byte>, b: seq<Byte>)
    requires Settled(r)
    ensures Feed(r, a + b) == Feed(Feed(r, a), b)
    decreases a
  {
    if a == [] {
      assert a + b == b;
    } else if Enabled(r, Arrive([a[0]])) {
      assert (a + b)[1..] == a[1..] + b;
      SettleSettles(Put(r, [a[0]]));
      FeedAppend(Settle(Put(r, [a[0]])), a[1..], b);
    }
  }

  lemma PutProgress(r: Reader, a: seq<Byte>)
    requires Enabled(r, Arrive(a))
    ensures Wants(Put(r, a)) == Wants(r) - |a| && Put(r, a).open && !Put(r, a).op.NoRead?
    ensures |a| < Wants(r) ==> Settle(Put(r, a)) == Put(r, a)
  {
  }

  lemma PutTwice(r: Reader, a: seq<Byte>, b: seq<Byte>)
    requires Enabled(r, Arrive(a)) && Enabled(Put(r, a), Arrive(b)) && Enabled(r, Arrive(a + b))
    ensures Put(Put(r, a), b) == Put(r, a + b)
  {
    match r.op
    case HeaderRead(got) => OverwriteTwice(r.msg.data, got, a, b);
    case BodyRead(got) => OverwriteTwice(r.msg.data, HEADER_LENGTH + got, a, b);
  }

  /** A chunk and then the due handlers are the same as its bytes one at a time. */
  lemma {:induction false} ChunkIsBytes(r: Reader, chunk: seq<Byte>)
    requires Enabled(r, Arrive(chunk))
    ensures Settle(Put(r, chunk)) == Feed(r, chunk)
    decreases chunk
  {
    if |chunk| == 1 {
      assert chunk == [chunk[0]];
    } else {
      assert chunk == [chunk[0]] + chunk[1..];
      PutProgress(r, [chunk[0]]);
      PutTwice(r, [chunk[0]], chunk[1..]);
      ChunkIsBytes(Put(r, [chunk[0]]), chunk[1..]);
    }
  }

  lemma StepAgreesWithFeed(r: Reader, e: Event)
    requires WellFormed(r) && Enabled(r, e) && !e.Abort?
    ensures WellFormed(Step(r, e))
    ensures Settle(Step(r, e)) == Feed(Settle(r), if e.Arrive? then e.chunk else [])
  {
    match e
    case Arrive(chunk) => ChunkIsBytes(r, chunk);
    case Done =>
    case Abort =>
  }

  /** A reader that stands where the byte-at-a-time reader stands on x still does so on
      x and the chunk it receives next. */
  lemma ReceiveMore(start: Reader, x: seq<Byte>, r: Reader, chunk: seq<Byte>)
    requires Settled(start) && WellFormed(r) && Settle(r) == Feed(start, x)
    requires Enabled(r, Arrive(chunk))
    ensures WellFormed(Step(r, Arrive(chunk)))
    ensures Settle(Step(r, Arrive(chunk))) == Feed(start, x + chunk)
  {
    StepAgreesWithFeed(r, Arrive(chunk));
    FeedAppend(start, x, chunk);
  }

  predicate NoAbort(es: seq<Event>) {
    forall i :: 0 <= i < |es| ==> !es[i].Abort?
  }

  /** Every run of the reader, whatever its chunks and handler delays, ends where the
      byte-at-a-time reader ends on the same stream. */
  lemma {:induction false} RunIsFeed(r: Reader, es: seq<Event>)
    requires WellFormed(r) && Legal(r, es) && NoAbort(es)
    ensures WellFormed(Exec(r, es))
    ensures Settle(Exec(r, es)) == Feed(Settle(r), Consumed(es))
    decreases es
  {
    if es != [] {
      StepAgreesWithFeed(r, es[0]);
      RunIsFeed(Step(r, es[0]), es[1..]);
      SettleSettles(r);
      FeedAppend(Settle(r), if es[0].Arrive? then es[0].chunk else [], Consumed(es[1..]));
    }
  }

  /** Chunk independence: two runs over the same byte stream hand up the same bodies and
      end in the same reader, buffer included, once no handler is due. */
  lemma ChunkIndependence(r: Reader, es: seq<Event>, fs: seq<Event>)
    requires WellFormed(r)
    requires Legal(r, es) && NoAbort(es) && Legal(r, fs) && NoAbort(fs)
    requires Consumed(es) == Consumed(fs)
    ensures Settle(Exec(r, es)) == Settle(Exec(r, fs))
    ensures !Enabled(Exec(r, es), Done) && !Enabled(Exec(r, fs), Done) ==> Exec(r, es) == Exec(r, fs)
  {
    RunIsFeed(r, es);
    RunIsFeed(r, fs);
  }

  // ---------- the stream as a list of frames ----------

  /** What a byte stream means: the bodies of its complete frames, whether it then shows a
      header that is refused, and the bytes after the last complete frame. */
  datatype Parsed = Parsed(bodies: seq<seq<Byte>>, refused: bool, rest: seq<Byte>)

  function Parse(x: seq<Byte>): (p: Parsed)
    ensures |p.rest| <= |x|
    decreases |x|
  {
    if |x| < HEADER_LENGTH then Parsed([], false, x)
    else
      var n := HeaderNumber(x[..HEADER_LENGTH]);
      if n < 0 || n > MAX_BODY_LENGTH then Parsed([], true, x)
      else if |x| < HEADER_LENGTH + n then Parsed([], false, x)
      else
        var p := Parse(x[HEADER_LENGTH + n..]);
        p.(bodies := [x[HEADER_LENGTH..HEADER_LENGTH + n]] + p.bodies)
  }

  /** How the reader stands after a stream with remainder `rest`. */
  ghost predicate StandsAfter(r: Reader, p: Parsed) {
    if p.refused then r.op.NoRead?
    else if |p.rest| < HEADER_LENGTH then r.op == HeaderRead(|p.rest|)
    else
      && r.op == BodyRead(|p.rest| - HEADER_LENGTH)
      && r.msg.bodyLength == HeaderNumber(p.rest[..HEADER_LENGTH])
      && Wants(r) > 0
  }

  ghost predicate AtStart(r: Reader) {
    r.open && r.op == HeaderRead(0)
  }

  lemma FeedPartialHeader(r: Reader, x: seq<Byte>)
    requires AtStart(r) && |x| < HEADER_LENGTH
    ensures Feed(r, x).handed == r.handed && Feed(r, x).op == HeaderRead(|x|)
  {
    if x != [] {
      ChunkIsBytes(r, x);
    }
  }

  /** The handlers due after a complete header. */
  lemma SettleHeader(r: Reader)
    requires r.open && r.op == HeaderRead(HEADER_LENGTH)
    ensures var n := HeaderNumber(r.msg.data[..HEADER_LENGTH]);
            var f := Settle(r);
            if n < 0 || n > MAX_BODY_LENGTH then f.op.NoRead? && f.handed == r.handed
            else if n == 0 then AtStart(f) && f.handed == r.handed + [[]]
            else f.open && f.op == BodyRead(0) && f.msg.bodyLength == n && f.handed == r.handed
  {
    DecodeUsesNumber(r.msg);
  }

  lemma FeedHeader(r: Reader, h: seq<Byte>)
    requires AtStart(r) && |h| == HEADER_LENGTH
    ensures var n := HeaderNumber(h);
            var f := Feed(r, h);
            if n < 0 || n > MAX_BODY_LENGTH then f.op.NoRead? && f.handed == r.handed
            else if n == 0 then AtStart(f) && f.handed == r.handed + [[]]
            else f.open && f.op == BodyRead(0) && f.msg.bodyLength == n && f.handed == r.handed
  {
    ChunkIsBytes(r, h);
    var full := Put(r, h);
    assert full.msg.data[..HEADER_LENGTH] == h;
    SettleHeader(full);
  }

  lemma FeedBody(r: Reader, b: seq<Byte>)
    requires r.open && r.op == BodyRead(0) && |b| <= r.msg.bodyLength && 0 < r.msg.bodyLength
    ensures var f := Feed(r, b);
            if |b| < r.msg.bodyLength then f.op == BodyRead(|b|) && f.msg.bodyLength == r.msg.bodyLength && f.handed == r.handed
            else AtStart(f) && f.handed == r.handed + [b]
  {
    if b != [] {
      ChunkIsBytes(r, b);
    }
  }

  /** One complete frame brings the reader back to the start with its body handed up. */
  lemma FeedFrame(r: Reader, h: seq<Byte>, b: seq<Byte>)
    requires AtStart(r) && |h| == HEADER_LENGTH
    requires HeaderNumber(h) == |b| <= MAX_BODY_LENGTH
    ensures AtStart(Feed(r, h + b)) && Feed(r, h + b).handed == r.handed + [b]
  {
    FeedAppend(r, h, b);
    FeedHeader(r, h);
    if b != [] {
      FeedBody(Feed(r, h), b);
    }
  }

  /** The first frame of x is not complete, or its header is refused. */
  ghost predicate NoFrame(x: seq<Byte>) {
    |x| >= HEADER_LENGTH ==>
      var n := HeaderNumber(x[..HEADER_LENGTH]);
      n < 0 || n > MAX_BODY_LENGTH || |x| < HEADER_LENGTH + n
  }

  lemma FeedNoFrame(r: Reader, x: seq<Byte>)
    requires AtStart(r) && NoFrame(x)
    ensures Feed(r, x).handed == r.handed && Parse(x).bodies == []
    ensures StandsAfter(Feed(r, x), Parse(x))
  {
    if |x| < HEADER_LENGTH {
      FeedPartialHeader(r, x);
    } else {
      var h, t := x[..HEADER_LENGTH], x[HEADER_LENGTH..];
      assert x == h + t;
      FeedAppend(r, h, t);
      FeedHeader(r, h);
      if 0 <= HeaderNumber(h) <= MAX_BODY_LENGTH {
        FeedBody(Feed(r, h), t);
      }
    }
  }

  /** Header and body of the first frame of x, and the rest. */
  lemma FirstFrame(x: seq<Byte>) returns (h: seq<Byte>, b: seq<Byte>, u: seq<Byte>)
    requires !NoFrame(x)
    ensures x == (h + b) + u && |h| == HEADER_LENGTH && HeaderNumber(h) == |b| <= MAX_BODY_LENGTH
    ensures Parse(x) == Parse(u).(bodies := [b] + Parse(u).bodies)
  {
    var n := HeaderNumber(x[..HEADER_LENGTH]);
    h, b, u := x[..HEADER_LENGTH], x[HEADER_LENGTH..HEADER_LENGTH + n], x[HEADER_LENGTH + n..];
  }

  lemma FeedFrameThen(r: Reader, h: seq<Byte>, b: seq<Byte>, u: seq<Byte>)
    requires AtStart(r) && |h| == HEADER_LENGTH && HeaderNumber(h) == |b| <= MAX_BODY_LENGTH
    ensures AtStart(Feed(r, h + b)) && Feed(r, h + b).handed == r.handed + [b]
    ensures Feed(r, (h + b) + u) == Feed(Feed(r, h + b), u)
  {
    FeedFrame(r, h, b);
    FeedAppend(r, h + b, u);
  }

  /** What `FeedIsParse` claims of a final reader `f`. */
  ghost predicate HandsUp(r: Reader, f: Reader, p: Parsed) {
    f.handed == r.handed + p.bodies && StandsAfter(f, p)
  }

  lemma ParsedAfterFrame(r: Reader, r1: Reader, f: Reader, b: seq<Byte>, p: Parsed)
    requires r1.handed == r.handed + [b] && HandsUp(r1, f, p)
    ensures HandsUp(r, f, p.(bodies := [b] + p.bodies))
  {
  }

  /** The reader computes `Parse`: the same bodies, the same refusal, the same position. */
  lemma {:induction false} FeedIsParse(r: Reader, x: seq<Byte>)
    requires AtStart(r)
    ensures HandsUp(r, Feed(r, x), Parse(x))
    decreases |x|
  {
    if NoFrame(x) {
      FeedNoFrame(r, x);
    } else {
      var h, b, u := FirstFrame(x);
      FeedFrameThen(r, h, b, u);
      FeedIsParse(Feed(r, h + b), u);
      ParsedAfterFrame(r, Feed(r, h + b), Feed(r, x), b, Parse(u));
    }
  }

  /** From a fresh reader, every run hands up exactly the bodies of the frames in the bytes
      consumed (at most one of them still waiting for its handler), and it stops exactly
      when the stream shows a refused header. */
  lemma RunParsesStream(role: S.Role, m: Msg, es: seq<Event>)
    requires Legal(Start(role, m), es) && NoAbort(es)
    ensures var f := Settle(Exec(Start(role, m), es));
            && f.handed == Parse(Consumed(es)).bodies
            && (f.op.NoRead? <==> Parse(Consumed(es)).refused)
            && StandsAfter(f, Parse(Consumed(es)))
  {
    RunIsFeed(Start(role, m), es);
    FeedIsParse(Start(role, m), Consumed(es));
  }

  /** Without an outstanding read there is no further event. */
  lemma NoEventWithoutRead(r: Reader, es: seq<Event>)
    requires r.op.NoRead? && Legal(r, es)
    ensures es == []
  {
  }

  /** A reader whose due handlers lead to a refusal has handed up all it ever will, and the
      only event left to it is the handler that refuses. */
  lemma RefusalIsNext(r: Reader, es: seq<Event>)
    requires WellFormed(r) && Settle(r).op.NoRead? && Legal(r, es)
    ensures r.handed == Settle(r).handed
    ensures Consumed(es) == [] && Exec(r, es).handed == r.handed
  {
    if es != [] {
      NoEventWithoutRead(Step(r, es[0]), es[1..]);
    }
  }

  /** After a refused header no byte is read and no body handed up, in any continuation of
      any run over a stream that shows one: what was handed up stays exactly the bodies of
      the frames before it. */
  lemma SilentAfterRefusal(role: S.Role, m: Msg, es: seq<Event>, fs: seq<Event>)
    requires Legal(Start(role, m), es) && NoAbort(es) && Parse(Consumed(es)).refused
    requires Legal(Exec(Start(role, m), es), fs)
    ensures Consumed(fs) == []
    ensures Exec(Exec(Start(role, m), es), fs).handed == Parse(Consumed(es)).bodies
  {
    RunIsFeed(Start(role, m), es);
    RunParsesStream(role, m, es);
    RefusalIsNext(Exec(Start(role, m), es), fs);
  }
}
