/** Low-byte-first loads and stores. Every width is an instance of one value function on
    byte sequences of any length. A shift by k bits is a multiplication or division by 2^k,
    and `|` of shifted bytes, whose bits do not overlap, is a sum. */
module ByteOrder {
  import opened Bytes

  function Pow256(n: nat): (r: nat)
    ensures r > 0
  {
    if n == 0 then 1 else 256 * Pow256(n - 1)
  }

  /** The number a byte sequence denotes, first byte least significant. */
  function Little(bs: seq<Byte>): nat {
    if bs == [] then 0 else bs[0] + 256 * Little(bs[1..])
  }

  /** The low n bytes of v. */
  function ToLittle(n: nat, v: nat): (r: seq<Byte>)
    ensures |r| == n
  {
    if n == 0 then [] else [v % 256] + ToLittle(n - 1, v / 256)
  }

  lemma {:induction false} LittleBound(bs: seq<Byte>)
    ensures Little(bs) < Pow256(|bs|)
  {
    if bs != [] {
      LittleBound(bs[1..]);
    }
  }

  /** Storing and loading n bytes gives the number back modulo 256^n. */
  lemma {:induction false} LoadUndoesStore(n: nat, v: nat)
    ensures Little(ToLittle(n, v)) == v % Pow256(n)
    decreases n
  {
    if n > 0 {
      LoadUndoesStore(n - 1, v / 256);
      assert ToLittle(n, v)[1..] == ToLittle(n - 1, v / 256);
      DivModSplit(v, Pow256(n - 1));
    }
  }

  lemma MulAtLeast(k: int, d: nat)
    ensures k >= 1 ==> k * d >= d
    ensures k <= -1 ==> k * d <= 0 - d
  {
  }

  /** The quotient and remainder of a division are the only ones that fit. */
  lemma DivModUnique(v: int, d: nat, q: int, r: nat)
    requires d > 0 && v == q * d + r && r < d
    ensures v / d == q && v % d == r
  {
    var k := q - v / d;
    assert v == (v / d) * d + v % d;
    assert k * d == v % d - r;
    MulAtLeast(k, d);
  }

  /** Dividing by 256 m is dividing by 256 and then by m. */
  lemma DivModSplit(v: nat, m: nat)
    requires m > 0
    ensures v % (256 * m) == v % 256 + 256 * (v / 256 % m)
    ensures v / (256 * m) == v / 256 / m
  {
    var q, r := v / 256 / m, v / 256 % m;
    assert v / 256 == q * m + r;
    assert q * (256 * m) == 256 * (q * m);
    DivModUnique(v, 256 * m, q, 256 * r + v % 256);
  }

  /** Loading and storing gives the same bytes back. */
  lemma {:induction false} StoreUndoesLoad(bs: seq<Byte>)
    ensures ToLittle(|bs|, Little(bs)) == bs
  {
    if bs != [] {
      StoreUndoesLoad(bs[1..]);
      assert Little(bs) % 256 == bs[0] && Little(bs) / 256 == Little(bs[1..]);
    }
  }

  /** Equal lengths and equal values mean equal bytes. */
  lemma LittleInjective(a: seq<Byte>, b: seq<Byte>)
    requires |a| == |b| && Little(a) == Little(b)
    ensures a == b
  {
  }

  // ---------- loads ----------

  const TWO8 := 0x100
  const TWO16 := 0x1_0000
  const TWO24 := 0x100_0000
  const TWO32 := 0x1_0000_0000
  const TWO40 := 0x100_0000_0000
  const TWO64 := 0x1_0000_0000_0000_0000

  /** The signed reading of an n-bit pattern, `range` being 2^n. */
  function Signed(v: nat, range: nat): int {
    if v < range / 2 then v else v - range
  }

  function Uint2korr(a: seq<Byte>): nat
    requires |a| >= 2
  {
    (a[0] + a[1] * TWO8) % TWO16
  }

  function Uint3korr(a: seq<Byte>): nat
    requires |a| >= 3
  {
    (a[0] + a[1] * TWO8 + a[2] * TWO16) % TWO32
  }

  function Uint4korr(a: seq<Byte>): nat
    requires |a| >= 4
  {
    (a[0] + a[1] * TWO8 + a[2] * TWO16 + a[3] * TWO24) % TWO32
  }

  function Uint5korr(a: seq<Byte>): nat
    requires |a| >= 5
  {
    (Uint4korr(a) + a[4] * TWO32) % TWO64
  }

  function Uint6korr(a: seq<Byte>): nat
    requires |a| >= 6
  {
    (Uint4korr(a) + a[4] * TWO32 + a[5] * TWO40) % TWO64
  }

  function Uint8korr(a: seq<Byte>): nat
    requires |a| >= 8
  {
    (Uint4korr(a) + Uint4korr(a[4..]) * TWO32) % TWO64
  }

  function Sint2korr(a: seq<Byte>): int
    requires |a| >= 2
  {
    Signed((a[0] + a[1] * TWO8) % TWO16, TWO16)
  }

  /** A third byte with its top bit set is extended by a byte of ones. */
  function Sint3korr(a: seq<Byte>): int
    requires |a| >= 3
  {
    var low := a[2] * TWO16 + a[1] * TWO8 + a[0];
    Signed(if a[2] >= 128 then 255 * TWO24 + low else low, TWO32)
  }

  function Sint4korr(a: seq<Byte>): int
    requires |a| >= 4
  {
    Signed((a[0] + a[1] * TWO8 + a[2] * TWO16 + a[3] * TWO24) % TWO32, TWO32)
  }

  function Sint8korr(a: seq<Byte>): int
    requires |a| >= 8
  {
    Signed(Uint8korr(a), TWO64)
  }

  lemma LittleOf4(a: seq<Byte>)
    requires |a| >= 4
    ensures Little(a) == a[0] + a[1] * TWO8 + a[2] * TWO16 + a[3] * TWO24 + Little(a[4..]) * TWO32
  {
    var b := a[2..];
    assert Little(b) == b[0] + 256 * Little(b[1..]);
    assert b[1..] == a[3..] && a[1..][1..] == b && b[1..][1..] == a[4..];
  }

  /** The widths that have a load and a store. */
  predicate IsWidth(n: nat) {
    n in {2, 3, 4, 5, 6, 8}
  }

  /** The unsigned load of width n. */
  function UintKorr(n: nat, a: seq<Byte>): nat
    requires IsWidth(n) && |a| >= n
  {
    if n == 2 then Uint2korr(a)
    else if n == 3 then Uint3korr(a)
    else if n == 4 then Uint4korr(a)
    else if n == 5 then Uint5korr(a)
    else if n == 6 then Uint6korr(a)
    else Uint8korr(a)
  }

  lemma LittleOf1(b: Byte)
    ensures Little([b]) == b
  {
  }

  lemma Load2(a: seq<Byte>)
    requires |a| >= 2
    ensures Uint2korr(a) == Little(a[..2])
  {
    assert a[..2][1..] == [a[1]];
    LittleOf1(a[1]);
  }

  lemma Load3(a: seq<Byte>)
    requires |a| >= 3
    ensures Uint3korr(a) == Little(a[..3])
  {
    var b := a[..3][1..];
    assert b == [a[1], a[2]] && b[1..] == [a[2]];
    LittleOf1(a[2]);
    assert Little(b) == a[1] + 256 * Little([a[2]]);
  }

  lemma Load4(a: seq<Byte>)
    requires |a| >= 4
    ensures Uint4korr(a) == Little(a[..4]) == a[0] + a[1] * TWO8 + a[2] * TWO16 + a[3] * TWO24
  {
    LittleOf4(a[..4]);
  }

  lemma Load5(a: seq<Byte>)
    requires |a| >= 5
    ensures Uint5korr(a) == Little(a[..5])
  {
    Load4(a);
    LittleOf4(a[..5]);
    assert a[..5][4..] == [a[4]];
  }

  lemma Load6(a: seq<Byte>)
    requires |a| >= 6
    ensures Uint6korr(a) == Little(a[..6])
  {
    Load4(a);
    LittleOf4(a[..6]);
    var b := a[..6][4..];
    assert b == [a[4], a[5]] && b[1..] == [a[5]];
    assert Little(b) == a[4] + 256 * Little([a[5]]);
  }

  lemma Load8(a: seq<Byte>)
    requires |a| >= 8
    ensures Uint8korr(a) == Little(a[..8])
  {
    Load4(a);
    Load4(a[4..]);
    LittleOf4(a[..8]);
    assert a[..8][4..] == a[4..][..4];
  }

  /** Every unsigned load is the little-endian value of its bytes. */
  lemma LoadIsLittle(n: nat, a: seq<Byte>)
    requires IsWidth(n) && |a| >= n
    ensures UintKorr(n, a) == Little(a[..n])
  {
    if n == 2 {
      Load2(a);
    } else if n == 3 {
      Load3(a);
    } else if n == 4 {
      Load4(a);
    } else if n == 5 {
      Load5(a);
    } else if n == 6 {
      Load6(a);
    } else {
      Load8(a);
    }
  }

  /** `v` is the two's-complement reading of the bytes: it lies in the signed range of their
      width and is congruent to their unsigned value. Only one number is both. */
  ghost predicate IsTwosComplement(v: int, bs: seq<Byte>) {
    && 0 - Pow256(|bs|) / 2 <= v < Pow256(|bs|) / 2
    && v % Pow256(|bs|) == Little(bs)
  }

  /** A number congruent to the value of the bytes lies in the signed range at most once. */
  lemma TwosComplementIsUnique(v: int, w: int, bs: seq<Byte>)
    requires IsTwosComplement(v, bs) && IsTwosComplement(w, bs)
    ensures v == w
  {
    var range := Pow256(|bs|);
    assert v == v / range * range + v % range && w == w / range * range + w % range;
    assert (v / range - w / range) * range == v - w;
    MulAtLeast(v / range - w / range, range);
  }

  lemma SignedIsTwosComplement(v: nat, range: nat)
    requires 0 < range && range % 2 == 0 && v < range
    ensures 0 - range / 2 <= Signed(v, range) < range / 2
    ensures Signed(v, range) % range == v
  {
    if v < range / 2 {
      DivModUnique(v, range, 0, v);
    } else {
      DivModUnique(v - range, range, -1, v);
    }
  }

  /** The signed loads are the two's-complement readings of the same bytes, also where the
      width is not the width of the result. */
  lemma SignedLoadsAreTwosComplement(a: seq<Byte>)
    ensures |a| >= 2 ==> IsTwosComplement(Sint2korr(a), a[..2])
    ensures |a| >= 3 ==> IsTwosComplement(Sint3korr(a), a[..3])
    ensures |a| >= 4 ==> IsTwosComplement(Sint4korr(a), a[..4])
    ensures |a| >= 8 ==> IsTwosComplement(Sint8korr(a), a[..8])
  {
    SignedLoads(a);
    if |a| >= 2 {
      SignedOf(a[..2]);
    }
    if |a| >= 3 {
      SignedOf(a[..3]);
    }
    if |a| >= 4 {
      SignedOf(a[..4]);
    }
    if |a| >= 8 {
      SignedOf(a[..8]);
    }
  }

  lemma SignedOf(bs: seq<Byte>)
    requires bs != []
    ensures IsTwosComplement(Signed(Little(bs), Pow256(|bs|)), bs)
  {
    LittleBound(bs);
    assert Pow256(|bs|) == 256 * Pow256(|bs| - 1);
    SignedIsTwosComplement(Little(bs), Pow256(|bs|));
  }

  lemma SignedLoads(a: seq<Byte>)
    ensures |a| >= 2 ==> Sint2korr(a) == Signed(Little(a[..2]), Pow256(2))
    ensures |a| >= 3 ==> Sint3korr(a) == Signed(Little(a[..3]), Pow256(3))
    ensures |a| >= 4 ==> Sint4korr(a) == Signed(Little(a[..4]), Pow256(4))
    ensures |a| >= 8 ==> Sint8korr(a) == Signed(Little(a[..8]), Pow256(8))
  {
    Powers();
    if |a| >= 2 {
      Load2(a);
    }
    if |a| >= 3 {
      Load3(a);
    }
    if |a| >= 4 {
      Load4(a);
    }
    if |a| >= 8 {
      Load8(a);
    }
  }

  lemma Powers()
    ensures Pow256(2) == TWO16 && Pow256(3) == TWO24 && Pow256(4) == TWO32
    ensures Pow256(5) == TWO40 && Pow256(6) == 0x1_0000_0000_0000 && Pow256(8) == TWO64
  {
  }

  // ---------- stores ----------

  /** The content of the array after n bytes of v are stored at `at`. */
  ghost function Stored(before: seq<Byte>, at: nat, n: nat, v: nat): seq<Byte>
    requires at + n <= |before|
  {
    Overwrite(before, at, ToLittle(n, v))
  }

  method Int2Store(t: array<Byte>, at: nat, v: nat)
    requires at + 2 <= t.Length && v < TWO16
    modifies t
    ensures t[..] == Stored(old(t[..]), at, 2, v)
  {
    t[at] := v % TWO8;
    t[at + 1] := v / TWO8 % TWO8;
    ToLittleBytes(2, v);
  }

  method Int3Store(t: array<Byte>, at: nat, v: nat)
    requires at + 3 <= t.Length && v < TWO32
    modifies t
    ensures t[..] == Stored(old(t[..]), at, 3, v)
  {
    t[at] := v % TWO8;
    t[at + 1] := v / TWO8 % TWO8;
    t[at + 2] := v / TWO16 % TWO8;
    ToLittleBytes(3, v);
  }

  method Int4Store(t: array<Byte>, at: nat, v: nat)
    requires at + 4 <= t.Length && v < TWO32
    modifies t
    ensures t[..] == Stored(old(t[..]), at, 4, v)
  {
    t[at] := v % TWO8;
    t[at + 1] := v / TWO8 % TWO8;
    t[at + 2] := v / TWO16 % TWO8;
    t[at + 3] := v / TWO24 % TWO8;
    ToLittleBytes(4, v);
  }

  method Int5Store(t: array<Byte>, at: nat, v: nat)
    requires at + 5 <= t.Length && v < TWO64
    modifies t
    ensures t[..] == Stored(old(t[..]), at, 5, v)
  {
    t[at] := v % TWO8;
    t[at + 1] := v / TWO8 % TWO8;
    t[at + 2] := v / TWO16 % TWO8;
    t[at + 3] := v / TWO24 % TWO8;
    t[at + 4] := v / TWO32 % TWO8;
    ToLittleBytes(5, v);
  }

  method Int6Store(t: array<Byte>, at: nat, v: nat)
    requires at + 6 <= t.Length && v < TWO64
    modifies t
    ensures t[..] == Stored(old(t[..]), at, 6, v)
  {
    t[at] := v % TWO8;
    t[at + 1] := v / TWO8 % TWO8;
    t[at + 2] := v / TWO16 % TWO8;
    t[at + 3] := v / TWO24 % TWO8;
    t[at + 4] := v / TWO32 % TWO8;
    t[at + 5] := v / TWO40 % TWO8;
    ToLittleBytes(6, v);
  }

  /** The bytes of ToLittle, one by one. */
  lemma ToLittleBytes(n: nat, v: nat)
    requires 2 <= n <= 6
    ensures var r := ToLittle(n, v);
            && r[0] == v % TWO8 && r[1] == v / TWO8 % TWO8
            && (n >= 3 ==> r[2] == v / TWO16 % TWO8)
            && (n >= 4 ==> r[3] == v / TWO24 % TWO8)
            && (n >= 5 ==> r[4] == v / TWO32 % TWO8)
            && (n >= 6 ==> r[5] == v / TWO40 % TWO8)
  {
    Powers();
    ByteOf(n, v, 0);
    ByteOf(n, v, 1);
    if n >= 3 {
      ByteOf(n, v, 2);
    }
    if n >= 4 {
      ByteOf(n, v, 3);
    }
    if n >= 5 {
      ByteOf(n, v, 4);
    }
    if n >= 6 {
      ByteOf(n, v, 5);
    }
  }

  /** Byte i of v is v shifted right by 8 i bits, cut to a byte. */
  lemma {:induction false} ByteOf(n: nat, v: nat, i: nat)
    requires i < n
    ensures ToLittle(n, v)[i] == v / Pow256(i) % 256
    decreases n
  {
    if i > 0 {
      ByteOf(n - 1, v / 256, i - 1);
      DivModSplit(v, Pow256(i - 1));
    }
  }

  /** Two stores of the halves. */
  method Int8Store(t: array<Byte>, at: nat, v: nat)
    requires at + 8 <= t.Length && v < TWO64
    modifies t
    ensures t[..] == Stored(old(t[..]), at, 8, v)
  {
    var low, high := v % TWO32, v / TWO32 % TWO32;
    Int4Store(t, at, low);
    Int4Store(t, at + 4, high);
    ToLittleHalves(v);
    OverwriteTwice(old(t[..]), at, ToLittle(4, low), ToLittle(4, high));
  }

  lemma ToLittleHalves(v: nat)
    requires v < TWO64
    ensures ToLittle(8, v) == ToLittle(4, v % TWO32) + ToLittle(4, v / TWO32 % TWO32)
  {
    FourBytes(v % TWO32);
    FourBytes(v / TWO32 % TWO32);
    JoinHalves(ToLittle(4, v % TWO32), ToLittle(4, v / TWO32 % TWO32), v);
  }

  lemma FourBytes(v: nat)
    requires v < TWO32
    ensures Little(ToLittle(4, v)) == v
  {
    Powers();
    LoadUndoesStore(4, v);
  }

  lemma {:induction false} JoinHalves(low: seq<Byte>, high: seq<Byte>, v: nat)
    requires |low| == |high| == 4 && v == Little(low) + Little(high) * TWO32
    ensures ToLittle(8, v) == low + high
  {
    var x := low + high;
    LittleOfHalves(low, high);
    assert |x| == 8 && Little(x) == v;
    StoreUndoesLoad(x);
  }

  lemma LittleOfHalves(low: seq<Byte>, high: seq<Byte>)
    requires |low| == 4
    ensures Little(low + high) == Little(low) + Little(high) * TWO32
  {
    LittleOf4(low);
    LittleOf4(low + high);
    assert (low + high)[4..] == high;
  }

  /** Load after store, for every width and every place in the array: the low n bytes of
      the number come back, and all of it if it has no more. */
  lemma StoreThenLoad(n: nat, before: seq<Byte>, at: nat, v: nat)
    requires IsWidth(n) && at + n <= |before|
    ensures UintKorr(n, Stored(before, at, n, v)[at..]) == v % Pow256(n)
    ensures v < Pow256(n) ==> UintKorr(n, Stored(before, at, n, v)[at..]) == v
  {
    StoredBytes(n, before, at, v);
    LoadIsLittle(n, Stored(before, at, n, v)[at..]);
    LoadUndoesStore(n, v);
    if v < Pow256(n) {
      DivModUnique(v, Pow256(n), 0, v);
    }
  }

  lemma StoredBytes(n: nat, before: seq<Byte>, at: nat, v: nat)
    requires at + n <= |before|
    ensures Stored(before, at, n, v)[at..][..n] == ToLittle(n, v)
  {
  }

  /** Store after load, for every width: the array is left as it was. */
  lemma LoadThenStore(n: nat, before: seq<Byte>, at: nat)
    requires IsWidth(n) && at + n <= |before|
    ensures Stored(before, at, n, UintKorr(n, before[at..])) == before
  {
    LoadIsLittle(n, before[at..]);
    StoreUndoesLoad(before[at..][..n]);
  }
}
