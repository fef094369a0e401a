/** Bytes, buffers and the C string that starts a buffer. */
module Bytes {

  type Byte = b: int | 0 <= b < 256

  const NUL: Byte := 0
  const BLANK: Byte := 0x20

  /** n blanks. */
  function Blanks(n: nat): (r: seq<Byte>)
    ensures |r| == n
    ensures forall i :: 0 <= i < n ==> r[i] == BLANK
  {
    seq(n, _ => BLANK)
  }

  /** The part of a buffer that the C string functions see: everything before the first NUL. */
  function CString(s: seq<Byte>): (r: seq<Byte>)
    ensures r <= s
    ensures NUL !in r
    ensures |r| < |s| ==> s[|r|] == NUL
  {
    if s == [] || s[0] == NUL then [] else [s[0]] + CString(s[1..])
  }

  /** A buffer without NUL is a C string as a whole. */
  lemma {:induction false} CStringOfText(s: seq<Byte>)
    requires NUL !in s
    ensures CString(s) == s
  {
  }

  /** `buf` with the bytes `chunk` written at `off`. */
  function Overwrite(buf: seq<Byte>, off: nat, chunk: seq<Byte>): (r: seq<Byte>)
    requires off + |chunk| <= |buf|
    ensures |r| == |buf|
  {
    buf[..off] + chunk + buf[off + |chunk|..]
  }

  /** Two writes that touch end to end are one write. */
  lemma OverwriteTwice(buf: seq<Byte>, off: nat, a: seq<Byte>, b: seq<Byte>)
    requires off + |a| + |b| <= |buf|
    ensures Overwrite(Overwrite(buf, off, a), off + |a|, b) == Overwrite(buf, off, a + b)
  {
  }
}
