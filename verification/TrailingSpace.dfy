/** The two word-at-a-time versions of `skip_trailing_space` against the naive scan. */
module TrailingSpace {
  import opened Bytes
  import opened ByteOrder

  /** The naive backward scan from position `end`. */
  function NaiveEnd(s: seq<Byte>, end: nat): (r: nat)
    requires end <= |s|
    ensures r <= end
  {
    if end > 0 && s[end - 1] == BLANK then NaiveEnd(s, end - 1) else end
  }

  predicate AllBlank(s: seq<Byte>) {
    forall i :: 0 <= i < |s| ==> s[i] == BLANK
  }

  /** `r` is where the text ends once its trailing blanks are removed. */
  ghost predicate TextEnd(s: seq<Byte>, r: nat) {
    r <= |s| && AllBlank(s[r..]) && (r > 0 ==> s[r - 1] != BLANK)
  }

  lemma {:induction false} SkipBlanks(s: seq<Byte>, from: nat, end: nat)
    requires from <= end <= |s| && AllBlank(s[from..end])
    ensures NaiveEnd(s, end) == NaiveEnd(s, from)
    decreases end
  {
    if from < end {
      assert s[end - 1] == s[from..end][end - 1 - from];
      assert s[from..end - 1] == s[from..end][..end - 1 - from];
      SkipBlanks(s, from, end - 1);
    }
  }

  lemma {:induction false} NaiveSkipsBlanks(s: seq<Byte>, end: nat)
    requires end <= |s|
    ensures var r := NaiveEnd(s, end); AllBlank(s[r..end]) && (r > 0 ==> s[r - 1] != BLANK)
  {
    if end > 0 && s[end - 1] == BLANK {
      NaiveSkipsBlanks(s, end - 1);
      var r := NaiveEnd(s, end);
      assert s[r..end] == s[r..end - 1] + [BLANK];
    }
  }

  /** The naive scan finds the text end, and there is only one. */
  lemma {:induction false} NaiveIsTextEnd(s: seq<Byte>, r: nat)
    ensures r == NaiveEnd(s, |s|) <==> TextEnd(s, r)
  {
    if TextEnd(s, r) {
      assert s[r..|s|] == s[r..];
      SkipBlanks(s, r, |s|);
    }
    if r == NaiveEnd(s, |s|) {
      NaiveSkipsBlanks(s, |s|);
      assert s[r..|s|] == s[r..];
    }
  }

  const SPACE4 := 0x2020_2020
  const SPACE8 := 0x2020_2020_2020_2020

  lemma SpaceWords()
    ensures Little(Blanks(4)) == SPACE4 && Little(Blanks(8)) == SPACE8
  {
    var b := Blanks(4);
    Load4(b);
    assert b[..4] == b;
    LittleOfHalves(b, b);
    assert b + b == Blanks(8);
  }

  /** Eight bytes load as the word of spaces exactly when all eight are spaces. */
  lemma SpaceWordIff(a: seq<Byte>)
    requires |a| >= 8
    ensures Uint8korr(a) == SPACE8 <==> AllBlank(a[..8])
  {
    Load8(a);
    SpaceWords();
    if Uint8korr(a) == SPACE8 {
      LittleInjective(a[..8], Blanks(8));
    }
    if AllBlank(a[..8]) {
      assert a[..8] == Blanks(8);
    }
  }

  /** The version that reads eight bytes at a time, ignoring alignment. */
  method SkipTrailingSpace(s: seq<Byte>) returns (end: nat)
    ensures end == NaiveEnd(s, |s|)
    ensures TextEnd(s, end)
  {
    end := |s|;
    while end >= 8
      invariant end <= |s| && NaiveEnd(s, end) == NaiveEnd(s, |s|)
    {
      SpaceWordIff(s[end - 8..]);
      assert s[end - 8..][..8] == s[end - 8..end];
      if Uint8korr(s[end - 8..]) != SPACE8 {
        break;
      }
      SkipBlanks(s, end - 8, end);
      end := end - 8;
    }
    end := SkipByBytes(s, end);
    NaiveIsTextEnd(s, end);
  }

  /** The byte loop both versions end with. */
  method SkipByBytes(s: seq<Byte>, start: nat) returns (end: nat)
    requires start <= |s|
    ensures end == NaiveEnd(s, start)
  {
    end := start;
    while end > 0 && s[end - 1] == BLANK
      invariant end <= start && NaiveEnd(s, end) == NaiveEnd(s, start)
    {
      end := end - 1;
    }
  }

  /** A machine word of the big-endian processors this version is for. */
  function Word(bytes: seq<Byte>): nat {
    Little(Reversed(bytes))
  }

  function Reversed(s: seq<Byte>): (r: seq<Byte>)
    ensures |r| == |s|
    ensures forall i :: 0 <= i < |s| ==> r[i] == s[|s| - 1 - i]
  {
    seq(|s|, i requires 0 <= i < |s| => s[|s| - 1 - i])
  }

  /** A word of `w` bytes of spaces, `w` being the size of an int. */
  function SpaceInt(w: nat): nat {
    if w == 4 then SPACE4 else SPACE8
  }

  lemma SpaceIntIff(w: nat, bytes: seq<Byte>)
    requires w in {4, 8} && |bytes| == w
    ensures Word(bytes) == SpaceInt(w) <==> AllBlank(bytes)
  {
    SpaceWords();
    var r := Reversed(bytes);
    if Word(bytes) == SpaceInt(w) {
      LittleInjective(r, Blanks(w));
      forall i | 0 <= i < w ensures bytes[i] == BLANK {
        assert r[w - 1 - i] == bytes[i];
      }
    }
    if AllBlank(bytes) {
      assert r == Blanks(w);
    }
  }

  function AlignDown(a: nat, w: nat): nat
    requires w > 0
  {
    a / w * w
  }

  /** The zone borders: aligned, and inside a string of more than 20 bytes. */
  lemma Zones(ptr: nat, len: nat, w: nat)
    requires w in {4, 8} && len > 20
    ensures var endWords, startWords := AlignDown(ptr + len, w), AlignDown(ptr + w - 1, w);
            && ptr <= startWords && ptr < endWords <= ptr + len
            && startWords % w == 0 && endWords % w == 0
  {
    if w == 4 {
      assert AlignDown(ptr + len, 4) == ptr + len - (ptr + len) % 4;
    } else {
      assert AlignDown(ptr + len, 8) == ptr + len - (ptr + len) % 8;
    }
  }

  /** The version with three alignment zones, for a string at address `ptr` and ints of `w`
      bytes. `loads` is the address of every word it reads. */
  method SkipTrailingSpaceAligned(ptr: nat, s: seq<Byte>, w: nat) returns (end: nat, ghost loads: seq<nat>)
    requires w in {4, 8}
    ensures end == NaiveEnd(s, |s|)
    ensures TextEnd(s, end)
    ensures forall i :: 0 <= i < |loads| ==> loads[i] % w == 0 && ptr <= loads[i] && loads[i] + w <= ptr + |s|
  {
    end, loads := |s|, [];
    if |s| > 20 {
      Zones(ptr, |s|, w);
      var endWords := AlignDown(ptr + end, w) - ptr;
      var startWords := AlignDown(ptr + w - 1, w) - ptr;
      while end > endWords && s[end - 1] == BLANK
        invariant endWords <= end <= |s| && NaiveEnd(s, end) == NaiveEnd(s, |s|)
      {
        end := end - 1;
      }
      if s[end - 1] == BLANK && startWords < endWords {
        end, loads := SkipByWords(ptr, s, w, startWords, end);
      }
    }
    end := SkipByBytes(s, end);
    NaiveIsTextEnd(s, end);
  }

  /** The middle zone, aligned at both ends. */
  method SkipByWords(ptr: nat, s: seq<Byte>, w: nat, start: nat, from: nat) returns (end: nat, ghost loads: seq<nat>)
    requires w in {4, 8} && start <= from <= |s|
    requires (ptr + start) % w == 0 && (ptr + from) % w == 0
    ensures end <= |s| && NaiveEnd(s, end) == NaiveEnd(s, from)
    ensures forall i :: 0 <= i < |loads| ==> loads[i] % w == 0 && ptr <= loads[i] && loads[i] + w <= ptr + |s|
  {
    end, loads := from, [];
    while end > start
      invariant start <= end <= from && (ptr + end) % w == 0
      invariant NaiveEnd(s, end) == NaiveEnd(s, from)
      invariant forall i :: 0 <= i < |loads| ==> loads[i] % w == 0 && ptr <= loads[i] && loads[i] + w <= ptr + |s|
    {
      AlignedApart(w, ptr + start, ptr + end);
      loads := loads + [ptr + end - w];
      SpaceIntIff(w, s[end - w..end]);
      if Word(s[end - w..end]) != SpaceInt(w) {
        break;
      }
      SkipBlanks(s, end - w, end);
      end := end - w;
    }
  }

  lemma AlignedApart(w: nat, a: nat, b: nat)
    requires w in {4, 8} && a < b && a % w == 0 && b % w == 0
    ensures a + w <= b && (b - w) % w == 0
  {
  }
}
