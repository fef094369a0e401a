/** Deadlines as second/nanosecond pairs (my_global.h) and the milliseconds left until one
    (thr_cond.h). The system clock counts units of 100 ns; its readings are parameters. */
module Deadlines {

  const ULONGLONG_RANGE := 0x1_0000_0000_0000_0000
  const DWORD_RANGE := 0x1_0000_0000
  const INT_MAX32 := 0x7FFF_FFFF
  const INT_MAX64 := 0x7FFF_FFFF_FFFF_FFFF
  const TICKS_PER_SEC := 10_000_000
  const NS_PER_SEC := 1_000_000_000
  const NS_PER_MS := 1_000_000

  type ULongLong = n: int | 0 <= n < ULONGLONG_RANGE

  datatype Timespec = Timespec(sec: nat, nsec: nat)

  /** `narrow` is the case of a time_t shorter than 64 bits. */
  function SetTimespecNsec(clock: ULongLong, nsec: ULongLong, narrow: bool): Timespec {
    var now := (clock + nsec / 100) % ULONGLONG_RANGE;
    var sec := now / TICKS_PER_SEC;
    Timespec(if narrow && sec > INT_MAX32 then INT_MAX32 else sec,
             now % TICKS_PER_SEC * 100 + nsec % 100)
  }

  function SetTimespec(clock: ULongLong, sec: ULongLong, narrow: bool): Timespec {
    SetTimespecNsec(clock, sec * NS_PER_SEC % ULONGLONG_RANGE, narrow)
  }

  function CmpTimespec(a: Timespec, b: Timespec): int {
    if a.sec > b.sec || (a.sec == b.sec && a.nsec > b.nsec) then 1
    else if a.sec < b.sec || (a.sec == b.sec && a.nsec < b.nsec) then -1
    else 0
  }

  function DiffTimespec(a: Timespec, b: Timespec): int {
    ((a.sec - b.sec) * NS_PER_SEC + a.nsec - b.nsec) % ULONGLONG_RANGE
  }

  /** The largest value of a time_t, which is signed. */
  function TimeMax(narrow: bool): nat {
    if narrow then INT_MAX32 else INT_MAX64
  }

  /** A wait in milliseconds, or nothing when the expression overflows: a signed overflow is
      undefined (section 6.5 of C11). */
  datatype Wait = Undefined | Milliseconds(n: nat)

  /** The sum `tv_sec * 1000 + tv_nsec / 1000000` is computed in time_t before it is stored
      in an unsigned 64-bit word. */
  function GetMilliseconds(ts: Timespec, clock: ULongLong, narrow: bool): Wait {
    var future := ts.sec * 1000 + ts.nsec / NS_PER_MS;
    var now := clock / 10_000;
    if future > TimeMax(narrow) then Undefined
    else if future < now then Milliseconds(0)
    else Milliseconds((future - now) % DWORD_RANGE)
  }

  /** The nanoseconds a pair stands for. */
  function Nanoseconds(ts: Timespec): nat {
    ts.sec * NS_PER_SEC + ts.nsec
  }

  /** The sum fits the clock word, and the seconds fit a narrow time_t. */
  predicate Representable(clock: nat, nsec: nat, narrow: bool) {
    && clock + nsec / 100 < ULONGLONG_RANGE
    && (narrow ==> (clock + nsec / 100) / TICKS_PER_SEC <= INT_MAX32)
  }

  /** The nanosecond field is always below a second. */
  lemma AlwaysNormalised(clock: ULongLong, nsec: ULongLong, narrow: bool)
    ensures SetTimespecNsec(clock, nsec, narrow).nsec < NS_PER_SEC
  {
  }

  /** No nanosecond is lost or gained, exactly when the deadline is representable; a
      deadline that is not representable falls short. */
  lemma ConservesNanosecondsIff(clock: ULongLong, nsec: ULongLong, narrow: bool)
    ensures Nanoseconds(SetTimespecNsec(clock, nsec, narrow)) <= clock * 100 + nsec
    ensures Nanoseconds(SetTimespecNsec(clock, nsec, narrow)) == clock * 100 + nsec
            <==> Representable(clock, nsec, narrow)
  {
  }

  /** The tick count the clock word holds: the sum wraps at most once. */
  function HeldTicks(clock: ULongLong, nsec: ULongLong): (r: ULongLong)
    ensures r == clock + nsec / 100 || r == clock + nsec / 100 - ULONGLONG_RANGE
  {
    if clock + nsec / 100 < ULONGLONG_RANGE then clock + nsec / 100
    else clock + nsec / 100 - ULONGLONG_RANGE
  }

  /** By how much a deadline falls short, for all inputs: by the 2^64 ticks of a wrapped
      clock word, and for a narrow time_t by all seconds above 2147483647, which become that
      number while the fraction of the second is kept. */
  lemma ShortfallExactly(clock: ULongLong, nsec: ULongLong, narrow: bool)
    ensures var ts := SetTimespecNsec(clock, nsec, narrow);
            var held := HeldTicks(clock, nsec) * 100 + nsec % 100;
            if narrow && held >= (INT_MAX32 + 1) * NS_PER_SEC then
              ts.sec == INT_MAX32 && (held - ts.nsec) % NS_PER_SEC == 0
            else
              Nanoseconds(ts) == held
  {
  }

  /** In whole seconds: also the multiplication must not wrap. */
  lemma ConservesSecondsIff(clock: ULongLong, sec: ULongLong, narrow: bool)
    ensures Nanoseconds(SetTimespec(clock, sec, narrow)) == clock * 100 + sec * NS_PER_SEC
            <==> sec * NS_PER_SEC < ULONGLONG_RANGE && Representable(clock, sec * NS_PER_SEC, narrow)
  {
    ConservesNanosecondsIff(clock, sec * NS_PER_SEC % ULONGLONG_RANGE, narrow);
  }

  /** The request that a multiplication which wraps stands for: the one congruent to it. */
  lemma SecondsAreCongruent(clock: ULongLong, sec: ULongLong, n: ULongLong, narrow: bool)
    requires (sec * NS_PER_SEC - n) % ULONGLONG_RANGE == 0
    ensures SetTimespec(clock, sec, narrow) == SetTimespecNsec(clock, n, narrow)
  {
    CongruentIsRemainder(sec * NS_PER_SEC, n);
  }

  lemma CongruentIsRemainder(x: int, n: ULongLong)
    requires (x - n) % ULONGLONG_RANGE == 0
    ensures x % ULONGLONG_RANGE == n
  {
    assert (x - n) / ULONGLONG_RANGE * ULONGLONG_RANGE == x - n;
  }

  /** On normalised pairs the comparison is the order of the times they stand for. */
  lemma CmpIsOrder(a: Timespec, b: Timespec)
    requires a.nsec < NS_PER_SEC && b.nsec < NS_PER_SEC
    ensures CmpTimespec(a, b) == 1 <==> Nanoseconds(a) > Nanoseconds(b)
    ensures CmpTimespec(a, b) == -1 <==> Nanoseconds(a) < Nanoseconds(b)
    ensures CmpTimespec(a, b) == 0 <==> Nanoseconds(a) == Nanoseconds(b)
  {
  }

  /** Two deadlines from one clock reading: they compare as the requests do, and their
      difference is the difference of the requests exactly when the first is not earlier. */
  lemma DeadlinesOfOneReading(clock: ULongLong, n1: ULongLong, n2: ULongLong, narrow: bool)
    requires Representable(clock, n1, narrow) && Representable(clock, n2, narrow)
    ensures var a, b := SetTimespecNsec(clock, n1, narrow), SetTimespecNsec(clock, n2, narrow);
            && CmpTimespec(a, b) == (if n1 > n2 then 1 else if n1 < n2 then -1 else 0)
            && DiffTimespec(a, b) == (if n1 >= n2 then n1 - n2 else n1 - n2 + ULONGLONG_RANGE)
            && (DiffTimespec(a, b) == n1 - n2 <==> n1 >= n2)
  {
    var a, b := SetTimespecNsec(clock, n1, narrow), SetTimespecNsec(clock, n2, narrow);
    ConservesNanosecondsIff(clock, n1, narrow);
    ConservesNanosecondsIff(clock, n2, narrow);
    AlwaysNormalised(clock, n1, narrow);
    AlwaysNormalised(clock, n2, narrow);
    CmpIsOrder(a, b);
    assert (a.sec - b.sec) * NS_PER_SEC + a.nsec - b.nsec == n1 - n2;
  }

  /** The whole milliseconds between the clock and the deadline, before the cut to 32 bits. */
  function DueMilliseconds(setAt: ULongLong, nsec: ULongLong, clock: ULongLong): int {
    (setAt * 100 + nsec) / NS_PER_MS - clock / 10_000
  }

  /** The nanoseconds left, zero when the deadline has passed. */
  function NanosecondsLeft(setAt: ULongLong, nsec: ULongLong, clock: ULongLong): nat {
    var left := setAt * 100 + nsec - clock * 100;
    if left > 0 then left else 0
  }

  /** The deadline in whole milliseconds, which get_milliseconds computes in time_t. */
  function DeadlineMilliseconds(setAt: ULongLong, nsec: ULongLong): nat {
    (setAt * 100 + nsec) / NS_PER_MS
  }

  /** The wait for any normalised deadline: the whole milliseconds of the deadline less those
      of the clock, zero if it has passed, cut to 32 bits; undefined exactly when the
      milliseconds of the deadline do not fit time_t. */
  lemma WaitForAnyDeadline(ts: Timespec, clock: ULongLong, narrow: bool)
    requires ts.nsec < NS_PER_SEC
    ensures var w, due := GetMilliseconds(ts, clock, narrow), Nanoseconds(ts) / NS_PER_MS - clock / 10_000;
            && (w == Undefined <==> Nanoseconds(ts) / NS_PER_MS > TimeMax(narrow))
            && (w.Milliseconds? && due < 0 ==> w.n == 0)
            && (w.Milliseconds? && due >= 0 ==> w.n < DWORD_RANGE && (due - w.n) % DWORD_RANGE == 0)
  {
    assert Nanoseconds(ts) / NS_PER_MS == ts.sec * 1000 + ts.nsec / NS_PER_MS;
    CutIsCongruent(Nanoseconds(ts) / NS_PER_MS - clock / 10_000);
  }

  lemma CutIsCongruent(due: int)
    ensures (due - due % DWORD_RANGE) % DWORD_RANGE == 0
  {
    assert due == due / DWORD_RANGE * DWORD_RANGE + due % DWORD_RANGE;
  }

  lemma GetMillisecondsIsDue(setAt: ULongLong, nsec: ULongLong, narrow: bool, clock: ULongLong)
    requires Representable(setAt, nsec, narrow)
    ensures var due := DueMilliseconds(setAt, nsec, clock);
            GetMilliseconds(SetTimespecNsec(setAt, nsec, narrow), clock, narrow)
            == if narrow && DeadlineMilliseconds(setAt, nsec) > INT_MAX32 then Undefined
               else Milliseconds(if due < 0 then 0 else due % DWORD_RANGE)
  {
    var ts := SetTimespecNsec(setAt, nsec, narrow);
    ConservesNanosecondsIff(setAt, nsec, narrow);
    assert DeadlineMilliseconds(setAt, nsec) == ts.sec * 1000 + ts.nsec / NS_PER_MS;
  }

  lemma DueIsWithinOneMillisecond(setAt: ULongLong, nsec: ULongLong, clock: ULongLong)
    ensures var due, left := DueMilliseconds(setAt, nsec, clock), setAt * 100 + nsec - clock * 100;
            left - NS_PER_MS < due * NS_PER_MS < left + NS_PER_MS
  {
  }

  /** Rounding and the cut to 32 bits, for any number of milliseconds due. */
  lemma CutIsAccurateIff(due: int, left: int, nsec: nat)
    requires left - NS_PER_MS < due * NS_PER_MS < left + NS_PER_MS && left <= nsec
    ensures var wait := if due < 0 then 0 else due % DWORD_RANGE;
            var positive := if left > 0 then left else 0;
            && wait * NS_PER_MS < nsec + NS_PER_MS
            && (positive - NS_PER_MS < wait * NS_PER_MS < positive + NS_PER_MS <==> due < DWORD_RANGE)
  {
    if due >= DWORD_RANGE {
      assert due % DWORD_RANGE <= due - DWORD_RANGE;
    }
  }

  /** The wait is within one millisecond of the time left. */
  ghost predicate Accurate(w: Wait, left: nat) {
    w.Milliseconds? && left - NS_PER_MS < w.n * NS_PER_MS < left + NS_PER_MS
  }

  /** A wait computed from a representable deadline is defined exactly when the deadline in
      milliseconds fits time_t; it is then never negative and never exceeds the requested
      timeout by a full millisecond. It is defined and within one millisecond of the time
      left exactly when, besides, the milliseconds due fit 32 bits, which every timeout up to
      2^32 - 1 ms ensures. */
  lemma WaitIsAccurateIff(setAt: ULongLong, nsec: ULongLong, narrow: bool, clock: ULongLong)
    requires Representable(setAt, nsec, narrow) && setAt <= clock
    ensures var w := GetMilliseconds(SetTimespecNsec(setAt, nsec, narrow), clock, narrow);
            var fits := narrow ==> DeadlineMilliseconds(setAt, nsec) <= INT_MAX32;
            && (w.Milliseconds? <==> fits)
            && (w.Milliseconds? ==> w.n < DWORD_RANGE && w.n * NS_PER_MS < nsec + NS_PER_MS)
            && (Accurate(w, NanosecondsLeft(setAt, nsec, clock))
                <==> fits && DueMilliseconds(setAt, nsec, clock) < DWORD_RANGE)
            && (nsec <= (DWORD_RANGE - 1) * NS_PER_MS ==> DueMilliseconds(setAt, nsec, clock) < DWORD_RANGE)
  {
    GetMillisecondsIsDue(setAt, nsec, narrow, clock);
    DueIsWithinOneMillisecond(setAt, nsec, clock);
    CutIsAccurateIff(DueMilliseconds(setAt, nsec, clock), setAt * 100 + nsec - clock * 100, nsec);
  }

  /** A narrow time_t fails for every clock after 2147483 seconds, although the deadline
      itself is representable: here for a timeout of one second. */
  lemma NarrowWaitOverflows(clock: ULongLong)
    requires 2_147_484 * TICKS_PER_SEC <= clock <= (INT_MAX32 - 1) * TICKS_PER_SEC
    ensures Representable(clock, NS_PER_SEC, true)
    ensures GetMilliseconds(SetTimespecNsec(clock, NS_PER_SEC, true), clock, true) == Undefined
    ensures GetMilliseconds(SetTimespecNsec(clock, NS_PER_SEC, false), clock, false) == Milliseconds(1000)
  {
    GetMillisecondsIsDue(clock, NS_PER_SEC, true, clock);
    GetMillisecondsIsDue(clock, NS_PER_SEC, false, clock);
    assert DueMilliseconds(clock, NS_PER_SEC, clock) == 1000;
  }

  // ---------- without struct timespec ----------

  /** A deadline as a file time, with the requested timeout beside it. */
  datatype FileDeadline = FileDeadline(at: nat, maxMilliseconds: nat)

  /** The file time is a signed 64-bit number, and a long has 32 bits there. */
  function SetFileDeadline(clock: nat, nsec: ULongLong): FileDeadline {
    var ms := nsec / NS_PER_MS;
    FileDeadline(clock + nsec / 100, if ms > INT_MAX32 then INT_MAX32 else ms)
  }

  /** C division rounds toward zero. */
  function TruncDiv(a: int, b: nat): int
    requires b > 0
  {
    if a >= 0 then a / b else -((-a) / b)
  }

  function GetFileMilliseconds(d: FileDeadline, clock: nat): nat {
    var millis := TruncDiv(d.at - clock, 10_000);
    if millis < 0 then 0
    else
      var capped := if millis > d.maxMilliseconds then d.maxMilliseconds else millis;
      if capped > DWORD_RANGE - 1 then DWORD_RANGE - 1 else capped
  }

  /** A wait of n milliseconds is within the requested timeout, a long, and the time left. */
  predicate FileWaitFits(n: nat, setAt: nat, nsec: ULongLong, clock: nat) {
    && n * NS_PER_MS <= nsec
    && n <= INT_MAX32
    && (n == 0 || n * 10_000 <= setAt + nsec / 100 - clock)
  }

  /** The wait never exceeds the requested timeout, whatever the clock does meanwhile, not
      even when it is set back, so it is never the value that means an endless wait: it is
      the longest wait within the timeout, the time left and a long. With a
      clock that does not go back it is within one millisecond of the time left exactly when
      the whole milliseconds left fit a long. */
  lemma FileWaitIsBounded(setAt: nat, nsec: ULongLong, clock: nat)
    requires setAt + nsec / 100 <= INT_MAX64 && clock <= INT_MAX64
    ensures var wait := GetFileMilliseconds(SetFileDeadline(setAt, nsec), clock);
            var left := setAt * 100 + nsec - clock * 100;
            var positive := if left > 0 then left else 0;
            && wait * NS_PER_MS <= nsec && wait < DWORD_RANGE - 1
            && FileWaitFits(wait, setAt, nsec, clock) && !FileWaitFits(wait + 1, setAt, nsec, clock)
            && (setAt <= clock ==>
                  (positive - NS_PER_MS < wait * NS_PER_MS < positive + NS_PER_MS
                   <==> (setAt + nsec / 100 - clock) / 10_000 <= INT_MAX32))
  {
    assert nsec == nsec / 100 * 100 + nsec % 100;
    assert nsec / NS_PER_MS == nsec / 100 / 10_000;
  }

  /** The structure that the setters write through a pointer. */
  class TimespecCell {
    var tvSec: nat
    var tvNsec: nat

    function Value(): Timespec
      reads this
    {
      Timespec(tvSec, tvNsec)
    }

    method SetNsec(clock: ULongLong, nsec: ULongLong, narrow: bool)
      modifies this
      ensures Value() == SetTimespecNsec(clock, nsec, narrow)
      ensures tvNsec < NS_PER_SEC
      ensures Representable(clock, nsec, narrow) ==> Nanoseconds(Value()) == clock * 100 + nsec
      ensures narrow && HeldTicks(clock, nsec) / TICKS_PER_SEC > INT_MAX32 ==> tvSec == INT_MAX32
    {
      ConservesNanosecondsIff(clock, nsec, narrow);
      var now := (clock + nsec / 100) % ULONGLONG_RANGE;
      var sec := now / TICKS_PER_SEC;
      if narrow && sec > INT_MAX32 {
        sec := INT_MAX32;
      }
      tvSec := sec;
      tvNsec := now % TICKS_PER_SEC * 100 + nsec % 100;
    }

    method Set(clock: ULongLong, sec: ULongLong, narrow: bool)
      modifies this
      ensures Value() == SetTimespec(clock, sec, narrow)
    {
      SetNsec(clock, sec * NS_PER_SEC % ULONGLONG_RANGE, narrow);
    }
  }
}
