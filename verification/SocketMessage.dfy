/** The length-prefixed message of socket_msg.h: a 4-character decimal header and at most
    1024 body bytes in one fixed buffer. */
module SocketMessage {
  import opened Bytes
  import opened Decimal

  const HEADER_LENGTH := 4
  const MAX_BODY_LENGTH := 1024
  const BUFFER_LENGTH := HEADER_LENGTH + MAX_BODY_LENGTH

  const SIZE_T_RANGE := 0x1_0000_0000_0000_0000

  datatype MsgData = MsgData(data: seq<Byte>, bodyLength: nat)

  predicate Fits(m: MsgData) {
    |m.data| == BUFFER_LENGTH && m.bodyLength <= MAX_BODY_LENGTH
  }

  /** A message as it is copied into a queue: the whole buffer and the body length. */
  type Msg = m: MsgData | Fits(m) witness MsgData(seq(BUFFER_LENGTH, _ => 0), 0)

  /** The bytes a write of the message sends: header and body. */
  function Frame(m: Msg): (r: seq<Byte>)
    ensures |r| == HEADER_LENGTH + m.bodyLength
  {
    m.data[..HEADER_LENGTH + m.bodyLength]
  }

  function Body(m: Msg): (r: seq<Byte>)
    ensures |r| == m.bodyLength
  {
    m.data[HEADER_LENGTH..HEADER_LENGTH + m.bodyLength]
  }

  /** Storing an `int` in a `size_t` reduces it modulo 2^64. */
  function ToSizeT(n: int): nat {
    n % SIZE_T_RANGE
  }

  /** The number in a 4-byte header: `strncat` stops at a NUL, `atoi` reads the rest. */
  function HeaderNumber(header: seq<Byte>): int {
    Atoi(CString(header))
  }

  function WithBodyLength(m: Msg, n: nat): Msg {
    m.(bodyLength := if n > MAX_BODY_LENGTH then MAX_BODY_LENGTH else n)
  }

  /** The new message and whether the header was accepted. */
  function DecodeHeader(m: Msg): (Msg, bool) {
    var n := ToSizeT(HeaderNumber(m.data[..HEADER_LENGTH]));
    if n > MAX_BODY_LENGTH then (m.(bodyLength := 0), false) else (m.(bodyLength := n), true)
  }

  function EncodeHeader(m: Msg): Msg {
    m.(data := Format4d(m.bodyLength)[..HEADER_LENGTH] + m.data[HEADER_LENGTH..])
  }

  /** The header announces the body that follows it. */
  predicate Encoded(m: Msg) {
    m.data[..HEADER_LENGTH] == Format4d(m.bodyLength)
  }

  /** What a frame carries of a text: its C string, cut after 1024 bytes. */
  function Clip(text: seq<Byte>): (r: seq<Byte>)
    ensures r <= CString(text)
    ensures |r| == MAX_BODY_LENGTH || (|r| < MAX_BODY_LENGTH && r == CString(text))
  {
    var s := CString(text);
    if |s| > MAX_BODY_LENGTH then s[..MAX_BODY_LENGTH] else s
  }

  /** Setter, copy, encode, in whatever buffer the message had. */
  function Build(m: Msg, text: seq<Byte>): Msg {
    var sized := WithBodyLength(m, |CString(text)|);
    EncodeHeader(sized.(data := Overwrite(sized.data, HEADER_LENGTH, Clip(text))))
  }

  /** What decoding does with the number in the header. */
  lemma DecodeUsesNumber(m: Msg)
    ensures var (d, ok) := DecodeHeader(m);
            var n := HeaderNumber(m.data[..HEADER_LENGTH]);
            && (ok <==> 0 <= n <= MAX_BODY_LENGTH)
            && d.bodyLength == (if ok then n else 0)
            && d.data == m.data
  {
    var header := m.data[..HEADER_LENGTH];
    var n := HeaderNumber(header);
    AtoiBound(CString(header));
    Pow10Monotone(|CString(header)|, 4);
    assert Pow10(3) == 1000 by { assert Pow10(1) == 10; }
    assert Pow10(4) == 10000;
    if n < 0 {
      assert ToSizeT(n) == n + SIZE_T_RANGE;
    }
  }

  /** What decoding must do with the header of `m`: cut the bytes before the first NUL as the
      standard says into blanks, sign, digits and a remainder. The header is accepted exactly
      when the signed number lies in 0 .. 1024; it is then the body length, and otherwise the
      body length is zero. */
  ghost predicate DecodedByCut(m: Msg, d: Msg, ok: bool) {
    forall blanks, sign, digits, rest ::
      Cut(CString(m.data[..HEADER_LENGTH]), blanks, sign, digits, rest) ==>
        && (ok <==> 0 <= CutValue(sign, digits) <= MAX_BODY_LENGTH)
        && d == m.(bodyLength := if ok then CutValue(sign, digits) else 0)
  }

  lemma DecodeAcceptsRange(m: Msg)
    ensures DecodedByCut(m, DecodeHeader(m).0, DecodeHeader(m).1)
  {
    DecodeUsesNumber(m);
    var header := CString(m.data[..HEADER_LENGTH]);
    forall blanks, sign, digits, rest | Cut(header, blanks, sign, digits, rest)
      ensures CutValue(sign, digits) == HeaderNumber(m.data[..HEADER_LENGTH])
    {
      AtoiIsCutValue(header, blanks, sign, digits, rest);
    }
  }

  /** Every header has a cut, so there is only one way to decode it. */
  lemma DecodedByCutIsUnique(m: Msg, d: Msg, ok: bool)
    ensures DecodedByCut(m, d, ok) <==> (d, ok) == DecodeHeader(m)
  {
    DecodeAcceptsRange(m);
    var blanks, sign, digits, rest := CutExists(CString(m.data[..HEADER_LENGTH]));
  }

  /** The header written for any body length up to 9999 reads back as that length. */
  lemma HeaderRoundTrip(n: nat)
    requires n <= 9999
    ensures |Format4d(n)| == HEADER_LENGTH
    ensures HeaderNumber(Format4d(n)) == n
  {
    Format4dLength(n);
    Format4dHasNoNul(n);
    CStringOfText(Format4d(n));
    AtoiUndoesFormat(n);
  }

  /** Encoding puts a correct header before the body and changes nothing else. */
  lemma EncodeMakesEncoded(m: Msg)
    ensures Encoded(EncodeHeader(m))
    ensures Body(EncodeHeader(m)) == Body(m)
    ensures EncodeHeader(m).bodyLength == m.bodyLength
  {
    HeaderRoundTrip(m.bodyLength);
  }

  /** Decoding an encoded header is accepted and recovers the length, whatever length
      was remembered meanwhile. */
  lemma DecodeUndoesEncode(m: Msg, stale: nat)
    requires Encoded(m) && stale <= MAX_BODY_LENGTH
    ensures DecodeHeader(m.(bodyLength := stale)) == (m, true)
  {
    HeaderRoundTrip(m.bodyLength);
  }

  /** The frame built from any text decodes to exactly what `Clip` keeps of it. */
  lemma BuildCarriesText(m: Msg, text: seq<Byte>)
    ensures Encoded(Build(m, text))
    ensures Body(Build(m, text)) == Clip(text)
    ensures DecodeHeader(Build(m, text)) == (Build(m, text), true)
  {
    var sized := WithBodyLength(m, |CString(text)|);
    var filled: Msg := sized.(data := Overwrite(sized.data, HEADER_LENGTH, Clip(text)));
    EncodeMakesEncoded(filled);
    DecodeUndoesEncode(Build(m, text), Build(m, text).bodyLength);
  }

  /** The message object: its buffer is written in place. */
  class SocketMsg {
    const data: array<Byte>
    var bodyLength: nat

    ghost predicate Valid()
      reads this
    {
      data.Length == BUFFER_LENGTH && bodyLength <= MAX_BODY_LENGTH
    }

    /** The message as a value. */
    function Value(): (m: Msg)
      requires Valid()
      reads this, data
    {
      MsgData(data[..], bodyLength)
    }

    /** The buffer is left uninitialised; only the body length is set. */
    constructor ()
      ensures Valid() && fresh(data) && bodyLength == 0
    {
      data := new Byte[BUFFER_LENGTH];
      bodyLength := 0;
    }

    method SetBodyLength(n: nat)
      requires Valid()
      modifies this
      ensures Valid() && Value() == WithBodyLength(old(Value()), n)
      ensures bodyLength == (if n > 1024 then 1024 else n) && data[..] == old(data[..])
    {
      bodyLength := n;
      if bodyLength > MAX_BODY_LENGTH {
        bodyLength := MAX_BODY_LENGTH;
      }
    }

    method DeleteMsg()
      requires Valid()
      modifies this, data
      ensures Valid() && bodyLength == 0
      ensures forall i :: 0 <= i < data.Length ==> data[i] == NUL
    {
      forall i | 0 <= i < data.Length {
        data[i] := NUL;
      }
      bodyLength := 0;
    }

    method DecodeHeaderInPlace() returns (ok: bool)
      requires Valid()
      modifies this
      ensures Valid() && (Value(), ok) == DecodeHeader(old(Value()))
      ensures DecodedByCut(old(Value()), Value(), ok)
    {
      DecodeAcceptsRange(Value());
      assert data[..][..HEADER_LENGTH] == data[..HEADER_LENGTH];
      var header := CString(data[..HEADER_LENGTH]);
      bodyLength := ToSizeT(Atoi(header));
      if bodyLength > MAX_BODY_LENGTH {
        bodyLength := 0;
        return false;
      }
      return true;
    }

    method EncodeHeaderInPlace()
      requires Valid()
      modifies data
      ensures Valid() && Value() == EncodeHeader(old(Value()))
      ensures Encoded(Value()) && Body(Value()) == old(Body(Value()))
    {
      EncodeMakesEncoded(Value());
      var header := Format4d(bodyLength);
      HeaderRoundTrip(bodyLength);
      forall i | 0 <= i < HEADER_LENGTH {
        data[i] := header[i];
      }
    }

    /** Fills the message from a NUL-terminated text, as the senders do. */
    method Fill(text: seq<Byte>)
      requires Valid()
      modifies this, data
      ensures Valid() && Value() == Build(old(Value()), text)
      ensures Encoded(Value()) && Body(Value()) == Clip(text)
    {
      BuildCarriesText(Value(), text);
      SetBodyLength(|CString(text)|);
      var body := Clip(text);
      forall i | 0 <= i < bodyLength {
        data[HEADER_LENGTH + i] := body[i];
      }
      assert data[..] == Overwrite(old(data[..]), HEADER_LENGTH, body);
      EncodeHeaderInPlace();
    }
  }
}
