/** What the server prints for a message. `handle_read_body` of `socket_session` prints the
    receive buffer as a C string, although the buffer is never cleared and has no room for a
    terminating NUL. */
module Printing {
  import opened Bytes
  import opened Decimal
  import opened SocketMessage
  import S = Sending
  import R = Reading

  /** The text up to the first NUL, or a read past the end of the buffer. */
  datatype Printed = Text(text: seq<Byte>) | Overrun

  function Print(buffer: seq<Byte>): Printed {
    if NUL in buffer then Text(CString(buffer)) else Overrun
  }

  /** A complete frame: the header announces the bytes after it. */
  predicate IsFrame(f: seq<Byte>) {
    && HEADER_LENGTH <= |f| <= BUFFER_LENGTH
    && HeaderNumber(f[..HEADER_LENGTH]) == |f| - HEADER_LENGTH
  }

  predicate AllFrames(fs: seq<seq<Byte>>) {
    forall i :: 0 <= i < |fs| ==> IsFrame(fs[i])
  }

  function Stream(fs: seq<seq<Byte>>): seq<Byte> {
    if fs == [] then [] else Stream(fs[..|fs| - 1]) + fs[|fs| - 1]
  }

  /** The byte at position i after the frames: from the last frame that reaches it, or else
      what the buffer held at the start. */
  function LastByteAt(initial: seq<Byte>, fs: seq<seq<Byte>>, i: nat): Byte
    requires i < |initial|
  {
    if fs == [] then initial[i]
    else if i < |fs[|fs| - 1]| then fs[|fs| - 1][i]
    else LastByteAt(initial, fs[..|fs| - 1], i)
  }

  lemma SettleKeepsData(r: R.Reader)
    ensures R.Settle(r).msg.data == r.msg.data
  {
  }

  /** A frame overwrites the front of the buffer and nothing else. */
  lemma FrameOverwrites(r: R.Reader, f: seq<Byte>)
    requires R.AtStart(r) && IsFrame(f)
    ensures R.AtStart(R.Feed(r, f)) && R.Feed(r, f).msg.data == Overwrite(r.msg.data, 0, f)
  {
    var h, b := f[..HEADER_LENGTH], f[HEADER_LENGTH..];
    assert f == h + b;
    R.FeedFrame(r, h, b);
    R.FeedAppend(r, h, b);
    R.FeedHeader(r, h);
    R.ChunkIsBytes(r, h);
    SettleKeepsData(R.Put(r, h));
    BodyOverwrites(R.Feed(r, h), b);
    OverwriteTwice(r.msg.data, 0, h, b);
  }

  lemma BodyOverwrites(r: R.Reader, b: seq<Byte>)
    requires |b| <= MAX_BODY_LENGTH
    requires b != [] ==> r.open && r.op == R.BodyRead(0) && r.msg.bodyLength == |b|
    ensures R.Feed(r, b).msg.data == Overwrite(r.msg.data, HEADER_LENGTH, b)
  {
    if b != [] {
      R.ChunkIsBytes(r, b);
      SettleKeepsData(R.Put(r, b));
    }
  }

  /** The buffer after any frames, byte by byte. */
  lemma {:induction false} BufferAfterFrames(r: R.Reader, fs: seq<seq<Byte>>)
    requires R.AtStart(r) && AllFrames(fs)
    ensures R.AtStart(R.Feed(r, Stream(fs)))
    ensures forall i :: 0 <= i < BUFFER_LENGTH ==>
              R.Feed(r, Stream(fs)).msg.data[i] == LastByteAt(r.msg.data, fs, i)
  {
    if fs != [] {
      var front, f := fs[..|fs| - 1], fs[|fs| - 1];
      BufferAfterFrames(r, front);
      R.FeedAppend(r, Stream(front), f);
      FrameOverwrites(R.Feed(r, Stream(front)), f);
      assert f == Overwrite(R.Feed(r, Stream(front)).msg.data, 0, f)[..|f|];
    }
  }

  /** The body handler is due. */
  predicate AboutToPrint(r: R.Reader) {
    r.op.BodyRead? && R.Enabled(r, R.Done)
  }

  lemma {:induction false} CStringUpToNul(buffer: seq<Byte>, f: seq<Byte>)
    requires f < buffer && NUL !in f && buffer[|f|] == NUL
    ensures CString(buffer) == f
  {
    if f != [] {
      assert f[0] in f && buffer[0] == f[0];
      CStringUpToNul(buffer[1..], f[1..]);
    }
  }

  lemma PrintIffTerminated(buffer: seq<Byte>, f: seq<Byte>)
    requires f <= buffer
    ensures Print(buffer) == Text(f) <==> NUL !in f && |f| < |buffer| && buffer[|f|] == NUL
  {
    if NUL !in f && |f| < |buffer| && buffer[|f|] == NUL {
      CStringUpToNul(buffer, f);
    }
    assert |CString(buffer)| == |buffer| ==> CString(buffer) == buffer;
  }

  /** In every run whose stream is the frames `fs`, at the moment the last of them is
      printed: the server prints exactly that frame if and only if the frame has no NUL, does
      not fill the buffer, and the byte after it, left by the last earlier frame that was
      longer or by the uninitialised buffer, is NUL; and it reads past the buffer if and
      only if no byte in it is NUL. */
  lemma PrintsFrameIff(m: Msg, es: seq<R.Event>, fs: seq<seq<Byte>>)
    requires R.Legal(R.Start(S.Server, m), es) && R.NoAbort(es)
    requires fs != [] && AllFrames(fs) && R.Consumed(es) == Stream(fs)
    requires AboutToPrint(R.Exec(R.Start(S.Server, m), es))
    ensures var printed := Print(R.Exec(R.Start(S.Server, m), es).msg.data);
            var f := fs[|fs| - 1];
            && (printed == Text(f) <==>
                  NUL !in f && |f| < BUFFER_LENGTH && LastByteAt(m.data, fs[..|fs| - 1], |f|) == NUL)
            && (printed == Overrun <==>
                  forall i :: 0 <= i < BUFFER_LENGTH ==> LastByteAt(m.data, fs, i) != NUL)
  {
    var start := R.Start(S.Server, m);
    var r := R.Exec(start, es);
    R.RunIsFeed(start, es);
    SettleKeepsData(r);
    BufferAfterFrames(start, fs);
    PrintOfLastBytes(m.data, fs, r.msg.data);
  }

  lemma PrintOfLastBytes(initial: seq<Byte>, fs: seq<seq<Byte>>, buffer: seq<Byte>)
    requires |initial| == |buffer| == BUFFER_LENGTH && fs != [] && AllFrames(fs)
    requires forall i :: 0 <= i < BUFFER_LENGTH ==> buffer[i] == LastByteAt(initial, fs, i)
    ensures var f := fs[|fs| - 1];
            Print(buffer) == Text(f) <==>
            NUL !in f && |f| < BUFFER_LENGTH && LastByteAt(initial, fs[..|fs| - 1], |f|) == NUL
    ensures Print(buffer) == Overrun <==>
            forall i :: 0 <= i < BUFFER_LENGTH ==> LastByteAt(initial, fs, i) != NUL
  {
    var f := fs[|fs| - 1];
    assert f == buffer[..|f|];
    PrintIffTerminated(buffer, f);
    if NUL in buffer {
      var i :| 0 <= i < |buffer| && buffer[i] == NUL;
      assert LastByteAt(initial, fs, i) == NUL;
    }
  }

  // ---------- every list of frames gets printed ----------

  lemma {:induction false} ConsumedAppend(es: seq<R.Event>, gs: seq<R.Event>)
    ensures R.Consumed(es + gs) == R.Consumed(es) + R.Consumed(gs)
  {
    if es == [] {
      assert es + gs == gs;
    } else {
      assert (es + gs)[1..] == es[1..] + gs;
      ConsumedAppend(es[1..], gs);
    }
  }

  lemma {:induction false} LegalAppend(r: R.Reader, es: seq<R.Event>, gs: seq<R.Event>)
    requires R.Legal(r, es) && R.Legal(R.Exec(r, es), gs)
    ensures R.Legal(r, es + gs)
    ensures R.Exec(r, es + gs) == R.Exec(R.Exec(r, es), gs)
    decreases es
  {
    if es == [] {
      assert es + gs == gs;
    } else {
      assert (es + gs)[0] == es[0] && (es + gs)[1..] == es[1..] + gs;
      LegalAppend(R.Step(r, es[0]), es[1..], gs);
    }
  }

  /** A run without an error that consumes x. */
  ghost predicate Reads(r: R.Reader, es: seq<R.Event>, x: seq<Byte>) {
    R.Legal(r, es) && R.NoAbort(es) && R.Consumed(es) == x
  }

  lemma ReadsAppend(r: R.Reader, es: seq<R.Event>, x: seq<Byte>, gs: seq<R.Event>, y: seq<Byte>)
    requires Reads(r, es, x) && Reads(R.Exec(r, es), gs, y)
    ensures Reads(r, es + gs, x + y) && R.Exec(r, es + gs) == R.Exec(R.Exec(r, es), gs)
  {
    LegalAppend(r, es, gs);
    ConsumedAppend(es, gs);
  }

  lemma OneEvent(r: R.Reader, e: R.Event)
    requires R.Enabled(r, e) && !e.Abort?
    ensures Reads(r, [e], if e.Arrive? then e.chunk else []) && R.Exec(r, [e]) == R.Step(r, e)
  {
    assert R.Legal(R.Step(r, e), [e][1..]);
  }

  /** The header and the handler that decodes it. */
  lemma HeaderIsRead(r: R.Reader, h: seq<Byte>, n: nat) returns (es: seq<R.Event>)
    requires R.AtStart(r) && |h| == HEADER_LENGTH && HeaderNumber(h) == n <= MAX_BODY_LENGTH
    ensures Reads(r, es, h)
    ensures var r2 := R.Exec(r, es); r2.open && r2.op == R.BodyRead(0) && r2.msg.bodyLength == n
  {
    var r1 := R.Put(r, h);
    assert r1.msg.data[..HEADER_LENGTH] == h;
    DecodeUsesNumber(r1.msg);
    OneEvent(r, R.Arrive(h));
    OneEvent(r1, R.Done);
    ReadsAppend(r, [R.Arrive(h)], h, [R.Done], []);
    assert h + [] == h;
    es := [R.Arrive(h)] + [R.Done];
  }

  /** The events that bring one frame into the buffer, up to the call that prints it. */
  lemma FrameUpToPrint(r: R.Reader, f: seq<Byte>) returns (es: seq<R.Event>)
    requires R.AtStart(r) && IsFrame(f)
    ensures Reads(r, es, f)
    ensures R.Exec(r, es).open && AboutToPrint(R.Exec(r, es))
  {
    var h, b := f[..HEADER_LENGTH], f[HEADER_LENGTH..];
    assert f == h + b;
    var header := HeaderIsRead(r, h, |b|);
    if b == [] {
      es := header;
    } else {
      OneEvent(R.Exec(r, header), R.Arrive(b));
      ReadsAppend(r, header, h, [R.Arrive(b)], b);
      es := header + [R.Arrive(b)];
    }
  }

  lemma PrintAndGoOn(r: R.Reader)
    requires r.open && AboutToPrint(r)
    ensures Reads(r, [R.Done], []) && R.AtStart(R.Exec(r, [R.Done]))
  {
    OneEvent(r, R.Done);
  }

  lemma {:induction false} FramesUpToPrint(start: R.Reader, fs: seq<seq<Byte>>) returns (es: seq<R.Event>)
    requires R.AtStart(start) && fs != [] && AllFrames(fs)
    ensures Reads(start, es, Stream(fs))
    ensures R.Exec(start, es).open && AboutToPrint(R.Exec(start, es))
    decreases |fs|
  {
    var front, f := fs[..|fs| - 1], fs[|fs| - 1];
    var before: seq<R.Event> := [];
    if front != [] {
      var printed := FramesUpToPrint(start, front);
      PrintAndGoOn(R.Exec(start, printed));
      before := printed + [R.Done];
      ReadsAppend(start, printed, Stream(front), [R.Done], []);
      assert Stream(front) + [] == Stream(front);
    }
    var last := FrameUpToPrint(R.Exec(start, before), f);
    ReadsAppend(start, before, Stream(front), last, f);
    es := before + last;
  }

  /** Every list of frames has a run that reaches the print of its last frame. */
  lemma EveryFrameIsPrinted(m: Msg, fs: seq<seq<Byte>>) returns (es: seq<R.Event>)
    requires fs != [] && AllFrames(fs)
    ensures var start := R.Start(S.Server, m);
            && R.Legal(start, es) && R.NoAbort(es) && R.Consumed(es) == Stream(fs)
            && AboutToPrint(R.Exec(start, es))
  {
    es := FramesUpToPrint(R.Start(S.Server, m), fs);
  }

  const FRAME_AB: seq<Byte> := [0x20, 0x20, 0x20, 0x32, 0x61, 0x62]
  const FRAME_C: seq<Byte> := [0x20, 0x20, 0x20, 0x31, 0x63]

  lemma TheyAreFrames()
    ensures AllFrames([FRAME_AB, FRAME_C])
  {
    assert Digits(1) == [0x31] && Digits(2) == [0x32];
    assert SignOf(1) + Digits(1) == [0x31] && SignOf(2) + Digits(2) == [0x32];
    assert Format4d(1) == FRAME_C[..HEADER_LENGTH] && Format4d(2) == FRAME_AB[..HEADER_LENGTH];
    HeaderRoundTrip(1);
    HeaderRoundTrip(2);
  }

  /** A message after a longer one is printed with a stale tail, whatever the buffer held at
      the start: there is a run that receives "ab" and then "c" and does not print the
      second frame as it was sent. */
  lemma StaleTailIsPrinted(m: Msg) returns (es: seq<R.Event>)
    ensures var start := R.Start(S.Server, m);
            && R.Legal(start, es) && R.Consumed(es) == Stream([FRAME_AB, FRAME_C])
            && AboutToPrint(R.Exec(start, es))
            && Print(R.Exec(start, es).msg.data) != Text(FRAME_C)
  {
    var fs := [FRAME_AB, FRAME_C];
    TheyAreFrames();
    es := EveryFrameIsPrinted(m, fs);
    PrintsFrameIff(m, es, fs);
    assert fs[..1] == [FRAME_AB];
    assert LastByteAt(m.data, [FRAME_AB], |FRAME_C|) == 0x62;
  }
}
