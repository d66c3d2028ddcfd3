/** The fixed-width timestamps of the SQLite auth-state tables
    (internal/database/sqlite.go): "2006-01-02T15:04:05.000Z".

    An instant is a number of nanoseconds since the start of year 0 of the (proleptic
    Gregorian) calendar, in UTC. */
module AuthTime {
  import opened Prelude
  import opened ByteStrings

  const NANOS_PER_MILLI: int := 1_000_000
  const MILLIS_PER_DAY: int := 86_400_000

  // ----- The calendar -----

  predicate IsLeap(y: nat) {
    y % 4 == 0 && (y % 100 != 0 || y % 400 == 0)
  }

  function DaysInYear(y: nat): nat {
    if IsLeap(y) then 366 else 365
  }

  /** Days before year `y`. */
  function YearStart(y: nat): nat {
    if y == 0 then 0 else YearStart(y - 1) + DaysInYear(y - 1)
  }

  /** Days of the year before month `m`; month 13 stands for the end of the year. */
  function MonthStart(y: nat, m: nat): nat
    requires 1 <= m <= 13
  {
    [0, 31, 59, 90, 120, 151, 181, 212, 243, 273, 304, 334, 365][m - 1] + if m > 2 && IsLeap(y) then 1 else 0
  }

  datatype Civil = Civil(year: nat, month: nat, day: nat, hour: nat, minute: nat, second: nat, milli: nat)

  predicate ValidDate(y: nat, m: nat, d: nat) {
    1 <= m <= 12 && 1 <= d && MonthStart(y, m) + d - 1 < MonthStart(y, m + 1)
  }

  predicate ValidCivil(c: Civil) {
    && c.year < 10000 && ValidDate(c.year, c.month, c.day)
    && c.hour < 24 && c.minute < 60 && c.second < 60 && c.milli < 1000
  }

  function DayNumber(y: nat, m: nat, d: nat): nat
    requires ValidDate(y, m, d)
  {
    YearStart(y) + MonthStart(y, m) + (d - 1)
  }

  function MillisOfDay(h: nat, mi: nat, s: nat, ms: nat): nat {
    ((h * 60 + mi) * 60 + s) * 1000 + ms
  }

  function Millis(c: Civil): nat
    requires ValidCivil(c)
  {
    DayNumber(c.year, c.month, c.day) * MILLIS_PER_DAY + MillisOfDay(c.hour, c.minute, c.second, c.milli)
  }

  /** The first instant after year 9999. */
  const END: int := YearStart(10000) * MILLIS_PER_DAY * NANOS_PER_MILLI

  predicate InRange(t: int) {
    0 <= t < END
  }

  lemma {:induction false} YearStartMonotone(y: nat, z: nat)
    requires y < z
    ensures YearStart(y) + DaysInYear(y) <= YearStart(z)
    decreases z
  {
    if y < z - 1 {
      YearStartMonotone(y, z - 1);
    }
  }

  /** The leap years among the years 1 to n: every fourth one, but of the hundredths only
      every fourth. */
  function Leaps(n: nat): int {
    n / 4 - n / 100 + n / 400
  }

  lemma LeapsStep(n: nat)
    ensures Leaps(n + 1) == Leaps(n) + if IsLeap(n + 1) then 1 else 0
  {
    assert (n + 1) / 4 == n / 4 + if (n + 1) % 4 == 0 then 1 else 0;
    assert (n + 1) / 100 == n / 100 + if (n + 1) % 100 == 0 then 1 else 0;
    assert (n + 1) / 400 == n / 400 + if (n + 1) % 400 == 0 then 1 else 0;
    assert (n + 1) % 400 == 0 ==> (n + 1) % 100 == 0;
    assert (n + 1) % 100 == 0 ==> (n + 1) % 4 == 0;
  }

  /** Year 0 is a leap year, too. */
  lemma {:induction false} YearStartCounts(y: nat)
    requires y > 0
    ensures YearStart(y) == 365 * y + Leaps(y - 1) + 1
  {
    if y == 1 {
      assert YearStart(0) == 0;
    } else {
      YearStartCounts(y - 1);
      LeapsStep(y - 2);
      hide Leaps;
      hide IsLeap;
    }
  }

  lemma MonthLengths(y: nat, m: nat)
    requires 1 <= m <= 12
    ensures MonthStart(y, m + 1) - MonthStart(y, m) ==
            if m in {4, 6, 9, 11} then 30
            else if m != 2 then 31
            else if y % 400 == 0 || (y % 4 == 0 && y % 100 != 0) then 29 else 28
  {}

  lemma MonthStartMonotone(y: nat, m: nat, n: nat)
    requires 1 <= m <= n <= 13
    ensures MonthStart(y, m) <= MonthStart(y, n)
    ensures MonthStart(y, 1) == 0 && MonthStart(y, 13) == DaysInYear(y)
  {}

  /** The year that day `n` falls in, searched from year `y`. */
  function YearFrom(n: nat, y: nat): (r: nat)
    requires YearStart(y) <= n
    ensures y <= r && YearStart(r) <= n < YearStart(r) + DaysInYear(r)
    decreases n - YearStart(y)
  {
    if n < YearStart(y) + DaysInYear(y) then y else YearFrom(n, y + 1)
  }

  function MonthFrom(y: nat, n: nat, m: nat): (r: nat)
    requires 1 <= m <= 12 && MonthStart(y, m) <= n < MonthStart(y, 13)
    ensures m <= r <= 12 && MonthStart(y, r) <= n < MonthStart(y, r + 1)
    decreases 12 - m
  {
    if m == 12 || n < MonthStart(y, m + 1) then m else MonthFrom(y, n, m + 1)
  }

  /** The calendar fields of a millisecond. */
  function CivilOfMillis(ms: nat): (c: Civil)
    requires ms < YearStart(10000) * MILLIS_PER_DAY
    ensures ValidCivil(c) && Millis(c) == ms
  {
    var days, rest := ms / MILLIS_PER_DAY, ms % MILLIS_PER_DAY;
    var y := YearFrom(days, 0);
    DayInRange(ms, y);
    MonthStartMonotone(y, 1, 13);
    var m := MonthFrom(y, days - YearStart(y), 1);
    var d := days - YearStart(y) - MonthStart(y, m) + 1;
    MillisSplit(rest);
    Civil(y, m, d, rest / 3_600_000, rest / 60_000 % 60, rest / 1000 % 60, rest % 1000)
  }

  /** The calendar fields of an instant, down to milliseconds. */
  function CivilOf(t: int): (c: Civil)
    requires InRange(t)
    ensures ValidCivil(c) && Millis(c) == t / NANOS_PER_MILLI
  {
    CivilOfMillis(t / NANOS_PER_MILLI)
  }

  lemma DayInRange(ms: nat, y: nat)
    requires ms < YearStart(10000) * MILLIS_PER_DAY && YearStart(y) <= ms / MILLIS_PER_DAY
    ensures y < 10000
  {
    assert ms / MILLIS_PER_DAY < YearStart(10000);
    forall z: nat | z >= 10000 ensures YearStart(10000) <= YearStart(z) {
      if z > 10000 {
        YearStartMonotone(10000, z);
      }
    }
  }

  lemma MillisSplit(rest: nat)
    requires rest < MILLIS_PER_DAY
    ensures rest / 3_600_000 < 24
    ensures MillisOfDay(rest / 3_600_000, rest / 60_000 % 60, rest / 1000 % 60, rest % 1000) == rest
  {
    assert rest / 60_000 == rest / 3_600_000 * 60 + rest / 60_000 % 60;
    assert rest / 1000 == rest / 60_000 * 60 + rest / 1000 % 60;
  }

  // ----- Calendar order -----

  function Fields(c: Civil): (fields: seq<nat>)
    ensures |fields| == 7
  {
    [c.year, c.month, c.day, c.hour, c.minute, c.second, c.milli]
  }

  /** Lexicographic order of fields, from field `k` on. */
  predicate LexLess(a: seq<nat>, b: seq<nat>, k: nat)
    requires |a| == |b|
    decreases |a| - k
  {
    k < |a| && (a[k] < b[k] || (a[k] == b[k] && LexLess(a, b, k + 1)))
  }

  lemma DateOrder(c: Civil, c': Civil)
    requires ValidCivil(c) && ValidCivil(c')
    requires c.year < c'.year || (c.year == c'.year && (c.month < c'.month || (c.month == c'.month && c.day < c'.day)))
    ensures DayNumber(c.year, c.month, c.day) < DayNumber(c'.year, c'.month, c'.day)
  {
    MonthStartMonotone(c.year, c.month + 1, 13);
    if c.year < c'.year {
      YearStartMonotone(c.year, c'.year);
    } else if c.month < c'.month {
      MonthStartMonotone(c.year, c.month + 1, c'.month);
    }
  }

  lemma TimeOrder(c: Civil, c': Civil)
    requires ValidCivil(c) && ValidCivil(c')
    ensures MillisOfDay(c.hour, c.minute, c.second, c.milli) < MILLIS_PER_DAY
    ensures LexLess(Fields(c), Fields(c'), 3) ==>
              MillisOfDay(c.hour, c.minute, c.second, c.milli) < MillisOfDay(c'.hour, c'.minute, c'.second, c'.milli)
  {
    var a, b := Fields(c), Fields(c');
    assert LexLess(a, b, 3) <==> a[3] < b[3] || (a[3] == b[3] && LexLess(a, b, 4));
    assert LexLess(a, b, 4) <==> a[4] < b[4] || (a[4] == b[4] && LexLess(a, b, 5));
    assert LexLess(a, b, 5) <==> a[5] < b[5] || (a[5] == b[5] && LexLess(a, b, 6));
    assert LexLess(a, b, 6) <==> a[6] < b[6];
  }

  lemma LexIncreases(c: Civil, c': Civil)
    requires ValidCivil(c) && ValidCivil(c') && LexLess(Fields(c), Fields(c'), 0)
    ensures Millis(c) < Millis(c')
  {
    var a, b := Fields(c), Fields(c');
    TimeOrder(c, c');
    assert LexLess(a, b, 0) <==> a[0] < b[0] || (a[0] == b[0] && LexLess(a, b, 1));
    assert LexLess(a, b, 1) <==> a[1] < b[1] || (a[1] == b[1] && LexLess(a, b, 2));
    assert LexLess(a, b, 2) <==> a[2] < b[2] || (a[2] == b[2] && LexLess(a, b, 3));
    if a[0] != b[0] || a[1] != b[1] || a[2] != b[2] {
      DateOrder(c, c');
      assert DayNumber(c.year, c.month, c.day) + 1 <= DayNumber(c'.year, c'.month, c'.day);
    }
  }

  lemma {:induction false} LexTotal(a: seq<nat>, b: seq<nat>, k: nat)
    requires |a| == |b| && (forall i :: 0 <= i < k && i < |a| ==> a[i] == b[i])
    ensures LexLess(a, b, k) || LexLess(b, a, k) || a == b
    decreases |a| - k
  {
    if k < |a| && a[k] == b[k] {
      LexTotal(a, b, k + 1);
    }
  }

  /** Fields in lexicographic order are instants in order. */
  lemma LexIsOrder(c: Civil, c': Civil)
    requires ValidCivil(c) && ValidCivil(c')
    ensures LexLess(Fields(c), Fields(c'), 0) <==> Millis(c) < Millis(c')
  {
    LexTotal(Fields(c), Fields(c'), 0);
    if LexLess(Fields(c), Fields(c'), 0) {
      LexIncreases(c, c');
    } else if LexLess(Fields(c'), Fields(c), 0) {
      LexIncreases(c', c);
    } else {
      assert Fields(c)[0] == Fields(c')[0] && Fields(c)[1] == Fields(c')[1] && Fields(c)[2] == Fields(c')[2];
      assert Fields(c)[3] == Fields(c')[3] && Fields(c)[4] == Fields(c')[4] && Fields(c)[5] == Fields(c')[5];
      assert Fields(c)[6] == Fields(c')[6];
    }
  }

  // ----- Text -----

  function Pow10(w: nat): nat {
    if w == 0 then 1 else 10 * Pow10(w - 1)
  }

  /** `x` in `w` decimal digits. */
  function Pad(x: nat, w: nat): (s: string)
    ensures |s| == w
  {
    if w == 0 then "" else Pad(x / 10, w - 1) + [(48 + x % 10) as char]
  }

  function ReadDigits(s: string): int {
    if s == "" then 0 else ReadDigits(s[..|s| - 1]) * 10 + (s[|s| - 1] as int - 48)
  }

  predicate AllDigits(s: string) {
    forall i :: 0 <= i < |s| ==> '0' <= s[i] <= '9'
  }

  lemma {:induction false} PadReads(x: nat, w: nat)
    requires x < Pow10(w)
    ensures ReadDigits(Pad(x, w)) == x && AllDigits(Pad(x, w))
  {
    if w > 0 {
      PadReads(x / 10, w - 1);
      assert Pad(x, w)[..w - 1] == Pad(x / 10, w - 1);
    }
  }

  /** Zero-padded numbers compare as numbers. */
  lemma {:induction false} PadOrder(x: nat, y: nat, w: nat)
    requires x < Pow10(w) && y < Pow10(w)
    ensures Less(Pad(x, w), Pad(y, w)) <==> x < y
    ensures Pad(x, w) == Pad(y, w) <==> x == y
  {
    PadReads(x, w);
    PadReads(y, w);
    if w > 0 {
      PadOrder(x / 10, y / 10, w - 1);
      var a, b := [(48 + x % 10) as char], [(48 + y % 10) as char];
      LessByParts(Pad(x / 10, w - 1), Pad(y / 10, w - 1), a, b);
      assert Less(a, b) <==> x % 10 < y % 10 by {
        assert a[1..] == "" && b[1..] == "";
      }
    }
  }

  const WIDTHS: seq<nat> := [4, 2, 2, 2, 2, 2, 3]
  const SEPARATORS: string := "--T::.Z"

  predicate Fits(fields: seq<nat>) {
    |fields| == 7 && |WIDTHS| == 7 && forall i :: 0 <= i < 7 ==> fields[i] < Pow10(WIDTHS[i])
  }

  /** Each field in its width, followed by its separator. */
  function FormatFields(fields: seq<nat>, k: nat): string
    requires |fields| == 7
    decreases 7 - k
  {
    if k >= 7 then "" else Pad(fields[k], WIDTHS[k]) + ([SEPARATORS[k]] + FormatFields(fields, k + 1))
  }

  lemma CivilFits(c: Civil)
    requires ValidCivil(c)
    ensures Fits(Fields(c))
  {
    assert Pow10(2) == 100 && Pow10(3) == 1000 && Pow10(4) == 10000;
    MonthStartMonotone(c.year, c.month + 1, 13);
  }

  lemma {:induction false} FormatOrder(a: seq<nat>, b: seq<nat>, k: nat)
    requires Fits(a) && Fits(b)
    ensures Less(FormatFields(a, k), FormatFields(b, k)) <==> LexLess(a, b, k)
    decreases 7 - k
  {
    if k < 7 {
      FormatOrder(a, b, k + 1);
      PadOrder(a[k], b[k], WIDTHS[k]);
      var x, y := [SEPARATORS[k]] + FormatFields(a, k + 1), [SEPARATORS[k]] + FormatFields(b, k + 1);
      LessByParts(Pad(a[k], WIDTHS[k]), Pad(b[k], WIDTHS[k]), x, y);
      LessByParts([SEPARATORS[k]], [SEPARATORS[k]], FormatFields(a, k + 1), FormatFields(b, k + 1));
      assert !Less([SEPARATORS[k]], [SEPARATORS[k]]) by {
        LessIsStrict([SEPARATORS[k]], [SEPARATORS[k]]);
      }
    }
  }

  /** sqliteFmtAuthTime. */
  function FormatAuthTime(t: int): string
    requires InRange(t)
  {
    FormatFields(Fields(CivilOf(t)), 0)
  }

  /** The text goes on with field `k` at `pos`, `w` digits wide, and `sep` after it. */
  lemma FieldAt(s: string, pos: nat, fields: seq<nat>, k: nat, w: nat, sep: char)
    requires Fits(fields) && k < 7 && w == WIDTHS[k] && sep == SEPARATORS[k]
    requires pos <= |s| && s[pos..] == FormatFields(fields, k)
    ensures pos + w < |s| && ReadDigits(s[pos..pos + w]) == fields[k] && AllDigits(s[pos..pos + w])
    ensures s[pos + w] == sep && s[pos + w + 1..] == FormatFields(fields, k + 1)
  {
    PadReads(fields[k], w);
    var digits, rest := Pad(fields[k], w), FormatFields(fields, k + 1);
    assert s[pos..] == digits + ([sep] + rest);
    assert s[pos..pos + w] == s[pos..][..w] == digits;
    assert s[pos + w] == s[pos..][w];
    assert s[pos + w + 1..] == s[pos..][w + 1..] == rest;
  }

  /** The layout is 2006-01-02T15:04:05.000Z: 24 characters, of which these are fixed and the
      others are the decimal digits of the calendar fields. */
  lemma TimestampLayout(t: int)
    requires InRange(t)
    ensures var s, c := FormatAuthTime(t), CivilOf(t);
            && |s| == 24
            && s[4] == '-' && s[7] == '-' && s[10] == 'T' && s[13] == ':' && s[16] == ':' && s[19] == '.'
            && s[23] == 'Z'
            && ReadDigits(s[0..4]) == c.year && ReadDigits(s[5..7]) == c.month && ReadDigits(s[8..10]) == c.day
            && ReadDigits(s[11..13]) == c.hour && ReadDigits(s[14..16]) == c.minute && ReadDigits(s[17..19]) == c.second
            && ReadDigits(s[20..23]) == c.milli
            && AllDigits(s[0..4]) && AllDigits(s[5..7]) && AllDigits(s[8..10]) && AllDigits(s[11..13])
            && AllDigits(s[14..16]) && AllDigits(s[17..19]) && AllDigits(s[20..23])
  {
    CivilFits(CivilOf(t));
    FieldsLayout(Fields(CivilOf(t)), FormatAuthTime(t));
  }

  lemma FieldsLayout(f: seq<nat>, s: string)
    requires Fits(f) && s == FormatFields(f, 0)
    ensures |s| == 24
    ensures s[4] == '-' && s[7] == '-' && s[10] == 'T' && s[13] == ':' && s[16] == ':' && s[19] == '.' && s[23] == 'Z'
    ensures ReadDigits(s[0..4]) == f[0] && AllDigits(s[0..4])
    ensures ReadDigits(s[5..7]) == f[1] && AllDigits(s[5..7])
    ensures ReadDigits(s[8..10]) == f[2] && AllDigits(s[8..10])
    ensures ReadDigits(s[11..13]) == f[3] && AllDigits(s[11..13])
    ensures ReadDigits(s[14..16]) == f[4] && AllDigits(s[14..16])
    ensures ReadDigits(s[17..19]) == f[5] && AllDigits(s[17..19])
    ensures ReadDigits(s[20..23]) == f[6] && AllDigits(s[20..23])
  {
    assert s[0..] == s;
    hide FormatFields;
    hide ReadDigits;
    hide AllDigits;
    hide Fits;
    FieldAt(s, 0, f, 0, 4, '-');
    FieldAt(s, 5, f, 1, 2, '-');
    FieldAt(s, 8, f, 2, 2, 'T');
    FieldAt(s, 11, f, 3, 2, ':');
    FieldAt(s, 14, f, 4, 2, ':');
    FieldAt(s, 17, f, 5, 2, '.');
    FieldAt(s, 20, f, 6, 3, 'Z');
    FormatEnd(f);
    assert |s[24..]| == 0;
  }

  lemma FormatEnd(fields: seq<nat>)
    requires |fields| == 7
    ensures FormatFields(fields, 7) == ""
  {}

  function TruncateToMillis(t: int): int {
    t / NANOS_PER_MILLI * NANOS_PER_MILLI
  }

  /** The byte order of two timestamps is the order of the instants, to the millisecond. */
  lemma TextOrderIsTimeOrder(t: int, u: int)
    requires InRange(t) && InRange(u)
    ensures Less(FormatAuthTime(t), FormatAuthTime(u)) <==> TruncateToMillis(t) < TruncateToMillis(u)
  {
    CivilFits(CivilOf(t));
    CivilFits(CivilOf(u));
    FormatOrder(Fields(CivilOf(t)), Fields(CivilOf(u)), 0);
    LexIsOrder(CivilOf(t), CivilOf(u));
  }

  // ----- Parsing -----

  /** Reads field `k` and the following ones. */
  function ScanFields(s: string, k: nat): Option<seq<nat>>
    decreases 7 - k
  {
    if k >= 7 then (if s == "" then Some([]) else None)
    else
      var w := WIDTHS[k];
      if |s| <= w || !AllDigits(s[..w]) || s[w] != SEPARATORS[k] then None
      else
        var rest := ScanFields(s[w + 1..], k + 1);
        var x := ReadDigits(s[..w]);
        if rest.None? || x < 0 then None else Some([x] + rest.value)
  }

  /** The zero time.Time: the start of year 1. */
  const ZERO_TIME: int := YearStart(1) * MILLIS_PER_DAY * NANOS_PER_MILLI

  /** parseTime on the texts of this layout; any other text gives the zero time. */
  function ParseAuthTime(s: string): int {
    var fields := ScanFields(s, 0);
    if fields.None? || |fields.value| != 7 then ZERO_TIME
    else
      var f := fields.value;
      var c := Civil(f[0], f[1], f[2], f[3], f[4], f[5], f[6]);
      if ValidCivil(c) then Millis(c) * NANOS_PER_MILLI else ZERO_TIME
  }

  lemma ScanStep(digits: string, tail: string, k: nat)
    requires k < 7 && |digits| == WIDTHS[k] && AllDigits(digits) && ReadDigits(digits) >= 0
    requires ScanFields(tail, k + 1).Some?
    ensures ScanFields(digits + ([SEPARATORS[k]] + tail), k)
         == Some([ReadDigits(digits)] + ScanFields(tail, k + 1).value)
  {
    var s, w := digits + ([SEPARATORS[k]] + tail), WIDTHS[k];
    assert s[..w] == digits && s[w] == SEPARATORS[k] && s[w + 1..] == tail;
  }

  lemma {:induction false} ScanFormat(fields: seq<nat>, k: nat)
    requires Fits(fields) && k <= 7
    ensures ScanFields(FormatFields(fields, k), k) == Some(fields[k..])
    decreases 7 - k
  {
    if k < 7 {
      PadReads(fields[k], WIDTHS[k]);
      ScanFormat(fields, k + 1);
      var digits, tail := Pad(fields[k], WIDTHS[k]), FormatFields(fields, k + 1);
      assert FormatFields(fields, k) == digits + ([SEPARATORS[k]] + tail);
      ScanStep(digits, tail, k);
      assert fields[k..] == [fields[k]] + fields[k + 1..];
    } else {
      assert FormatFields(fields, k) == "" && fields[k..] == [];
    }
  }

  /** Parsing undoes formatting, up to the truncation to milliseconds. */
  lemma ParseUndoesFormat(t: int)
    requires InRange(t)
    ensures ParseAuthTime(FormatAuthTime(t)) == TruncateToMillis(t)
  {
    var c := CivilOf(t);
    CivilFits(c);
    ScanFormat(Fields(c), 0);
    assert Fields(c)[0..] == Fields(c);
  }
}
