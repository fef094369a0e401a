/** The two C library conversions of the frame header: `atoi` (section 7.22.1.2 of C11)
    and the `%4d` of `sprintf` (section 7.21.6.1 of C11). */
module Decimal {
  import opened Bytes

  const PLUS: Byte := 0x2B
  const MINUS: Byte := 0x2D
  const ZERO: Byte := 0x30

  predicate IsSpace(b: Byte) {
    b == BLANK || 9 <= b <= 13
  }

  predicate IsDigit(b: Byte) {
    ZERO <= b <= ZERO + 9
  }

  predicate AllDigits(s: seq<Byte>) {
    forall i :: 0 <= i < |s| ==> IsDigit(s[i])
  }

  predicate AllSpace(s: seq<Byte>) {
    forall i :: 0 <= i < |s| ==> IsSpace(s[i])
  }

  function SkipSpace(s: seq<Byte>): seq<Byte> {
    if s != [] && IsSpace(s[0]) then SkipSpace(s[1..]) else s
  }

  function DigitRun(s: seq<Byte>): (r: seq<Byte>)
    ensures AllDigits(r) && r <= s
  {
    if s != [] && IsDigit(s[0]) then [s[0]] + DigitRun(s[1..]) else []
  }

  /** The number a run of digits denotes. */
  function Numeric(ds: seq<Byte>): nat
    requires AllDigits(ds)
  {
    if ds == [] then 0 else Numeric(ds[..|ds| - 1]) * 10 + (ds[|ds| - 1] - ZERO)
  }

  /** `atoi`: blanks, at most one sign, digits, and whatever follows is ignored. */
  function Atoi(s: seq<Byte>): int {
    var t := SkipSpace(s);
    if t == [] then 0
    else if t[0] == MINUS then 0 - Numeric(DigitRun(t[1..]))
    else if t[0] == PLUS then Numeric(DigitRun(t[1..]))
    else Numeric(DigitRun(t))
  }

  /** The white-space characters of the C locale: space, tab, line feed, vertical tab, form
      feed, carriage return (section 7.4.1.10 of C11). */
  const WHITE_SPACE: set<Byte> := {0x20, 0x09, 0x0A, 0x0B, 0x0C, 0x0D}

  const DECIMAL_DIGITS: seq<Byte> := [0x30, 0x31, 0x32, 0x33, 0x34, 0x35, 0x36, 0x37, 0x38, 0x39]

  /** The character tests decide exactly these characters. */
  lemma CharacterClasses(b: Byte)
    ensures IsSpace(b) <==> b in WHITE_SPACE
    ensures IsDigit(b) <==> b in DECIMAL_DIGITS
    ensures IsDigit(b) ==> DECIMAL_DIGITS[b - ZERO] == b && Numeric([b]) == b - ZERO
  {
    if IsDigit(b) {
      assert DECIMAL_DIGITS[b - ZERO] == b;
      assert [b][..0] == [];
    }
  }

  /** How the standard cuts the subject string: blanks, sign, digits, remainder, each as
      long as it can be. */
  ghost predicate Cut(s: seq<Byte>, blanks: seq<Byte>, sign: seq<Byte>, digits: seq<Byte>, rest: seq<Byte>) {
    && s == blanks + sign + digits + rest
    && AllSpace(blanks)
    && sign in {[], [PLUS], [MINUS]}
    && AllDigits(digits)
    && (rest != [] ==> !IsDigit(rest[0]))
    && (sign == [] && digits + rest != [] ==>
          !IsSpace((digits + rest)[0]) && (digits + rest)[0] != PLUS && (digits + rest)[0] != MINUS)
  }

  ghost function CutValue(sign: seq<Byte>, digits: seq<Byte>): int
    requires AllDigits(digits)
  {
    if sign == [MINUS] then 0 - Numeric(digits) else Numeric(digits)
  }

  lemma {:induction false} SkipSpaceOver(blanks: seq<Byte>, t: seq<Byte>)
    requires AllSpace(blanks)
    requires t != [] ==> !IsSpace(t[0])
    ensures SkipSpace(blanks + t) == t
  {
    if blanks == [] {
      assert blanks + t == t;
    } else {
      assert (blanks + t)[1..] == blanks[1..] + t;
      SkipSpaceOver(blanks[1..], t);
    }
  }

  lemma {:induction false} DigitRunOver(digits: seq<Byte>, rest: seq<Byte>)
    requires AllDigits(digits)
    requires rest != [] ==> !IsDigit(rest[0])
    ensures DigitRun(digits + rest) == digits
  {
    if digits == [] {
      assert digits + rest == rest;
    } else {
      assert (digits + rest)[1..] == digits[1..] + rest;
      DigitRunOver(digits[1..], rest);
    }
  }

  /** The conversion after the blanks: sign and digits. */
  lemma SignedRunOver(sign: seq<Byte>, digits: seq<Byte>, rest: seq<Byte>)
    requires sign in {[], [PLUS], [MINUS]} && AllDigits(digits)
    requires rest != [] ==> !IsDigit(rest[0])
    ensures DigitRun((sign + (digits + rest))[|sign|..]) == digits
  {
    assert (sign + (digits + rest))[|sign|..] == digits + rest;
    DigitRunOver(digits, rest);
  }

  /** `Atoi` is the value of the cut, whatever the subject string. */
  lemma AtoiIsCutValue(s: seq<Byte>, blanks: seq<Byte>, sign: seq<Byte>, digits: seq<Byte>, rest: seq<Byte>)
    requires Cut(s, blanks, sign, digits, rest)
    ensures Atoi(s) == CutValue(sign, digits)
  {
    var t := sign + (digits + rest);
    assert s == blanks + t;
    assert sign == [] ==> t == digits + rest;
    SkipSpaceOver(blanks, t);
    SignedRunOver(sign, digits, rest);
  }

  /** Every subject string has a cut, so `AtoiIsCutValue` determines `Atoi` everywhere. */
  lemma {:induction false} CutExists(s: seq<Byte>)
    returns (blanks: seq<Byte>, sign: seq<Byte>, digits: seq<Byte>, rest: seq<Byte>)
    ensures Cut(s, blanks, sign, digits, rest)
  {
    if s != [] && IsSpace(s[0]) {
      var b;
      b, sign, digits, rest := CutExists(s[1..]);
      blanks := [s[0]] + b;
      assert s == [s[0]] + s[1..] == blanks + sign + digits + rest;
    } else {
      blanks := [];
      sign, digits, rest := CutWithoutBlanks(s);
      assert s == blanks + sign + digits + rest;
    }
  }

  lemma CutWithoutBlanks(s: seq<Byte>) returns (sign: seq<Byte>, digits: seq<Byte>, rest: seq<Byte>)
    requires s != [] ==> !IsSpace(s[0])
    ensures s == sign + digits + rest && sign in {[], [PLUS], [MINUS]} && AllDigits(digits)
    ensures rest != [] ==> !IsDigit(rest[0])
    ensures sign == [] ==> digits + rest == s && (s != [] ==> s[0] != PLUS && s[0] != MINUS)
  {
    sign := if s != [] && s[0] in {PLUS, MINUS} then [s[0]] else [];
    var t := s[|sign|..];
    digits := DigitRun(t);
    rest := t[|digits|..];
    DigitRunStops(t);
    assert digits + rest == t;
  }

  lemma DigitRunStops(s: seq<Byte>)
    ensures |DigitRun(s)| < |s| ==> !IsDigit(s[|DigitRun(s)|])
  {
  }

  function Pow10(n: nat): nat {
    if n == 0 then 1 else 10 * Pow10(n - 1)
  }

  lemma {:induction false} NumericBound(ds: seq<Byte>)
    requires AllDigits(ds)
    ensures Numeric(ds) < Pow10(|ds|)
  {
    if ds != [] {
      NumericBound(ds[..|ds| - 1]);
    }
  }

  /** A subject string of n characters reads as a number of at most n digits. */
  lemma AtoiBound(s: seq<Byte>)
    ensures 0 - Pow10(|s|) < Atoi(s) < Pow10(|s|)
  {
    var blanks, sign, digits, rest := CutExists(s);
    AtoiIsCutValue(s, blanks, sign, digits, rest);
    NumericBound(digits);
    Pow10Monotone(|digits|, |s|);
  }

  lemma {:induction false} Pow10Monotone(m: nat, n: nat)
    requires m <= n
    ensures 0 < Pow10(m) <= Pow10(n)
    decreases n
  {
    if n > 0 && m < n {
      Pow10Monotone(m, n - 1);
    } else if m > 0 {
      Pow10Monotone(m - 1, m - 1);
    }
  }

  /** The digits of n, most significant first. */
  function Digits(n: nat): (r: seq<Byte>)
    ensures AllDigits(r) && r != []
  {
    if n < 10 then [ZERO + n] else Digits(n / 10) + [ZERO + n % 10]
  }

  lemma {:induction false} NumericOfDigits(n: nat)
    ensures Numeric(Digits(n)) == n
  {
    var ds := Digits(n);
    if n < 10 {
      assert ds[..|ds| - 1] == [];
    } else {
      NumericOfDigits(n / 10);
      assert ds[..|ds| - 1] == Digits(n / 10);
    }
  }

  function SignOf(n: int): seq<Byte> {
    if n < 0 then [MINUS] else []
  }

  function Magnitude(n: int): nat {
    if n < 0 then -n else n
  }

  /** `%4d`: the decimal numeral, padded on the left with blanks to at least four characters. */
  function Format4d(n: int): seq<Byte> {
    var numeral := SignOf(n) + Digits(Magnitude(n));
    Blanks(if |numeral| < 4 then 4 - |numeral| else 0) + numeral
  }

  lemma Format4dHasNoNul(n: int)
    ensures NUL !in Format4d(n)
  {
  }

  /** The header is exactly four characters for the numbers -999 .. 9999 and for no others. */
  lemma Format4dLength(n: int)
    ensures |Format4d(n)| >= 4
    ensures |Format4d(n)| == 4 <==> -999 <= n <= 9999
  {
    var m := Magnitude(n);
    DigitsLength(m, 3);
    DigitsLength(m, 4);
    assert Pow10(3) == 1000 by { assert Pow10(1) == 10; }
    assert Pow10(4) == 10000;
  }

  /** The numeral is canonical (no leading zero) and stands at the right, after blanks only. */
  lemma {:induction false} Format4dIsJustified(n: int)
    ensures Digits(Magnitude(n))[0] == ZERO <==> n == 0
    ensures var r, numeral := Format4d(n), SignOf(n) + Digits(Magnitude(n));
            && r[|r| - |numeral|..] == numeral
            && (forall i :: 0 <= i < |r| - |numeral| ==> r[i] == BLANK)
            && (|r| > 4 ==> r == numeral)
  {
    NoLeadingZero(Magnitude(n));
  }

  lemma {:induction false} NoLeadingZero(n: nat)
    ensures Digits(n)[0] == ZERO <==> n == 0
  {
    if n >= 10 {
      NoLeadingZero(n / 10);
    }
  }

  lemma {:induction false} DigitsLength(n: nat, k: nat)
    requires k > 0
    ensures |Digits(n)| <= k <==> n < Pow10(k)
  {
    if k == 1 {
      assert Pow10(1) == 10 * Pow10(0);
    } else if n >= 10 {
      DigitsLength(n / 10, k - 1);
    } else {
      Pow10Monotone(1, k);
    }
  }

  /** `atoi` undoes `%4d` for every integer. */
  lemma AtoiUndoesFormat(n: int)
    ensures Atoi(Format4d(n)) == n
  {
    var sign, digits := SignOf(n), Digits(Magnitude(n));
    var numeral := sign + digits;
    var pad := Blanks(if |numeral| < 4 then 4 - |numeral| else 0);
    assert Format4d(n) == pad + sign + digits + [];
    assert IsDigit(digits[0]);
    AtoiIsCutValue(Format4d(n), pad, sign, digits, []);
    NumericOfDigits(Magnitude(n));
  }
}
