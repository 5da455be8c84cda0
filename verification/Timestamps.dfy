/**
 The timestamps of history rows: how the resident writes them, what storage
 accepts, and how they sort.  Storage compares bytes; every accepted timestamp
 is ASCII, so characters stand for bytes here.
 */
module Timestamps {
  import opened Common
  import opened Calendar

  // ------------------------------------------------------------- decimals

  predicate IsDigit(c: char) { '0' <= c <= '9' }

  predicate AllDigits(text: string) { forall i :: 0 <= i < |text| ==> IsDigit(text[i]) }

  function Digit(n: int): (c: char)
    requires 0 <= n <= 9
    ensures IsDigit(c)
  {
    ('0' as int + n) as char
  }

  function DigitValue(c: char): (n: int)
    requires IsDigit(c)
    ensures 0 <= n <= 9 && Digit(n) == c
  {
    c as int - '0' as int
  }

  /** Decimal digits of `n`, zero-padded to `width` and longer if needed. */
  function Padded(n: nat, width: nat): string
    decreases n, width
  {
    if n == 0 && width == 0 then ""
    else Padded(n / 10, if width == 0 then 0 else width - 1) + [Digit(n % 10)]
  }

  function Value(digits: string): nat
    requires AllDigits(digits)
  {
    if digits == "" then 0
    else Value(digits[..|digits| - 1]) * 10 + DigitValue(digits[|digits| - 1])
  }

  function Power10(width: nat): nat { if width == 0 then 1 else 10 * Power10(width - 1) }

  lemma {:induction false} PaddedFits(n: nat, width: nat)
    requires n < Power10(width)
    ensures |Padded(n, width)| == width && AllDigits(Padded(n, width)) && Value(Padded(n, width)) == n
    decreases width
  {
    if width > 0 {
      PaddedFits(n / 10, width - 1);
      var rest := Padded(n / 10, width - 1);
      assert Padded(n, width) == rest + [Digit(n % 10)];
      assert Padded(n, width)[..width - 1] == rest;
    }
  }

  lemma {:induction false} ValuePads(digits: string)
    requires AllDigits(digits)
    ensures Value(digits) < Power10(|digits|) && Padded(Value(digits), |digits|) == digits
    decreases |digits|
  {
    if digits != "" {
      var rest := digits[..|digits| - 1];
      ValuePads(rest);
      assert Value(digits) / 10 == Value(rest) && Value(digits) % 10 == DigitValue(digits[|digits| - 1]);
    }
  }

  lemma Powers()
    ensures Power10(2) == 100 && Power10(4) == 10000
  {
    assert Power10(3) == 10 * Power10(2);
  }

  method ParseDigits(bytes: string) returns (value: Option<nat>)
    ensures value.Some? <==> AllDigits(bytes)
    ensures value.Some? ==> value.value == Value(bytes)
  {
    var v: nat := 0;
    var i := 0;
    while i < |bytes|
      invariant 0 <= i <= |bytes|
      invariant AllDigits(bytes[..i]) && v == Value(bytes[..i])
    {
      assert bytes[..i + 1][..i] == bytes[..i];
      if !IsDigit(bytes[i]) {
        return None;
      }
      v := v * 10 + DigitValue(bytes[i]);
      i := i + 1;
    }
    assert bytes[..i] == bytes;
    return Some(v);
  }

  // ----------------------------------------------------------- the format

  /** The moment a timestamp names, to the second. */
  datatype Moment = Moment(year: nat, month: nat, day: nat, hour: nat, minute: nat, second: nat)

  predicate InRange(m: Moment) {
    && 1 <= m.year <= 9999 && 1 <= m.month <= 12 && 1 <= m.day <= 31
    && m.hour <= 23 && m.minute <= 59 && m.second <= 59
  }

  function Prefix(m: Moment): string {
    Padded(m.year, 4) + "-" + Padded(m.month, 2) + "-" + Padded(m.day, 2)
    + "T" + Padded(m.hour, 2) + ":" + Padded(m.minute, 2) + ":" + Padded(m.second, 2)
  }

  /** A fraction is absent, or a point and at least one digit. */
  predicate IsFraction(text: string) {
    text == "" || (|text| >= 2 && text[0] == '.' && AllDigits(text[1..]))
  }

  /** The timestamps storage accepts: every text of this shape, and no other. */
  ghost predicate Canonical(value: string) {
    exists m: Moment, fraction: string :: InRange(m) && IsFraction(fraction) && value == Prefix(m) + fraction + "Z"
  }

  // -------------------------------------------------------- the validator

  predicate HasShape(value: string) {
    && |value| >= 20 && value[|value| - 1] == 'Z'
    && value[4] == '-' && value[7] == '-' && value[10] == 'T' && value[13] == ':' && value[16] == ':'
    && AllDigits(value[0..4]) && AllDigits(value[5..7]) && AllDigits(value[8..10])
    && AllDigits(value[11..13]) && AllDigits(value[14..16]) && AllDigits(value[17..19])
  }

  function MomentOf(value: string): Moment
    requires HasShape(value)
  {
    Moment(Value(value[0..4]), Value(value[5..7]), Value(value[8..10]),
           Value(value[11..13]), Value(value[14..16]), Value(value[17..19]))
  }

  function FractionOf(value: string): string
    requires HasShape(value)
  {
    value[19..|value| - 1]
  }

  method IsCanonicalUtcTimestamp(value: string) returns (ok: bool)
    ensures ok <==> Canonical(value)
  {
    CanonicalIff(value);
    if |value| < 20 || value[|value| - 1] != 'Z' {
      return false;
    }
    if value[4] != '-' || value[7] != '-' || value[10] != 'T' || value[13] != ':' || value[16] != ':' {
      return false;
    }
    var year := ParseDigits(value[0..4]);
    var month := ParseDigits(value[5..7]);
    var day := ParseDigits(value[8..10]);
    var hour := ParseDigits(value[11..13]);
    var minute := ParseDigits(value[14..16]);
    var second := ParseDigits(value[17..19]);
    if year.None? || month.None? || day.None? || hour.None? || minute.None? || second.None? {
      return false;
    }
    FourDigits(value[0..4]);
    if year.value == 0 || !(1 <= month.value <= 12) || !(1 <= day.value <= 31)
       || !(hour.value <= 23) || !(minute.value <= 59) || !(second.value <= 59) {
      return false;
    }
    if |value| == 20 {
      return true;
    }
    var i := 20;
    while i < |value| - 1 && IsDigit(value[i])
      invariant 20 <= i <= |value| - 1
      invariant forall k :: 20 <= k < i ==> IsDigit(value[k])
    {
      i := i + 1;
    }
    var fraction := value[19..|value| - 1];
    assert fraction[1..] == value[20..|value| - 1];
    assert i < |value| - 1 ==> !IsDigit(fraction[1..][i - 20]);
    return value[19] == '.' && i == |value| - 1 && |value| > 21;
  }

  lemma FourDigits(digits: string)
    requires |digits| == 4 && AllDigits(digits)
    ensures Value(digits) <= 9999
  {
    ValuePads(digits);
    Powers();
  }

  lemma Fits(m: Moment)
    requires InRange(m)
    ensures |Padded(m.year, 4)| == 4 && |Padded(m.month, 2)| == 2 && |Padded(m.day, 2)| == 2
    ensures |Padded(m.hour, 2)| == 2 && |Padded(m.minute, 2)| == 2 && |Padded(m.second, 2)| == 2
    ensures AllDigits(Padded(m.year, 4)) && AllDigits(Padded(m.month, 2)) && AllDigits(Padded(m.day, 2))
    ensures AllDigits(Padded(m.hour, 2)) && AllDigits(Padded(m.minute, 2)) && AllDigits(Padded(m.second, 2))
    ensures Value(Padded(m.year, 4)) == m.year && Value(Padded(m.month, 2)) == m.month && Value(Padded(m.day, 2)) == m.day
    ensures Value(Padded(m.hour, 2)) == m.hour && Value(Padded(m.minute, 2)) == m.minute
    ensures Value(Padded(m.second, 2)) == m.second
  {
    Powers();
    PaddedFits(m.year, 4);
    PaddedFits(m.month, 2);
    PaddedFits(m.day, 2);
    PaddedFits(m.hour, 2);
    PaddedFits(m.minute, 2);
    PaddedFits(m.second, 2);
  }

  /** Six parts and their separators, taken apart again. */
  lemma Parts(a: string, b: string, c: string, d: string, e: string, f: string, tail: string)
    requires |a| == 4 && |b| == |c| == |d| == |e| == |f| == 2
    ensures var v := a + "-" + b + "-" + c + "T" + d + ":" + e + ":" + f + tail;
            && |v| == 19 + |tail| && v[19..] == tail
            && v[4] == '-' && v[7] == '-' && v[10] == 'T' && v[13] == ':' && v[16] == ':'
            && v[0..4] == a && v[5..7] == b && v[8..10] == c && v[11..13] == d && v[14..16] == e && v[17..19] == f
  {
    var v := a + "-" + b + "-" + c + "T" + d + ":" + e + ":" + f + tail;
    Middle("", a, v[4..], v);
    Middle(a + "-", b, v[7..], v);
    Middle(a + "-" + b + "-", c, v[10..], v);
    Middle(a + "-" + b + "-" + c + "T", d, v[13..], v);
    Middle(a + "-" + b + "-" + c + "T" + d + ":", e, v[16..], v);
    Middle(a + "-" + b + "-" + c + "T" + d + ":" + e + ":", f, v[19..], v);
  }

  lemma Middle(before: string, part: string, after: string, v: string)
    requires |v| == |before| + |part| + |after| && v[..|before| + |part|] == before + part
    ensures v[|before|..|before| + |part|] == part
  {
    assert v[|before|..|before| + |part|] == v[..|before| + |part|][|before|..];
  }

  lemma Reassembled(value: string)
    requires |value| >= 20 && value[|value| - 1] == 'Z'
    requires value[4] == '-' && value[7] == '-' && value[10] == 'T' && value[13] == ':' && value[16] == ':'
    ensures value == value[0..4] + "-" + value[5..7] + "-" + value[8..10] + "T" + value[11..13] + ":"
                     + value[14..16] + ":" + value[17..19] + value[19..|value| - 1] + "Z"
  {
  }

  lemma CanonicalText(m: Moment, fraction: string)
    requires InRange(m)
    ensures var value := Prefix(m) + fraction + "Z";
            HasShape(value) && MomentOf(value) == m && FractionOf(value) == fraction
  {
    hide Padded, Value;
    Fits(m);
    var value := Prefix(m) + fraction + "Z";
    Parts(Padded(m.year, 4), Padded(m.month, 2), Padded(m.day, 2), Padded(m.hour, 2), Padded(m.minute, 2),
          Padded(m.second, 2), fraction + "Z");
    assert value == Prefix(m) + (fraction + "Z");
    assert value[19..] == fraction + "Z";
    assert value[19..|value| - 1] == value[19..][..|fraction|];
  }

  lemma ShapeText(value: string)
    requires HasShape(value)
    ensures value == Prefix(MomentOf(value)) + FractionOf(value) + "Z"
  {
    hide Padded, Value;
    ValuePads(value[0..4]);
    ValuePads(value[5..7]);
    ValuePads(value[8..10]);
    ValuePads(value[11..13]);
    ValuePads(value[14..16]);
    ValuePads(value[17..19]);
    Reassembled(value);
  }

  /** The positional checks and the grammar agree. */
  lemma CanonicalIff(value: string)
    ensures Canonical(value) <==> HasShape(value) && InRange(MomentOf(value)) && IsFraction(FractionOf(value))
  {
    hide HasShape, MomentOf, FractionOf, InRange, IsFraction, Prefix;
    if Canonical(value) {
      var m: Moment, fraction: string :| InRange(m) && IsFraction(fraction) && value == Prefix(m) + fraction + "Z";
      CanonicalText(m, fraction);
    }
    if HasShape(value) {
      ShapeText(value);
    }
  }

  // ----------------------------------------------------------- the writer

  lemma FromTheEpochOn(days: nat)
    ensures ValidDate(CivilDateFromDays(days)) && CivilDateFromDays(days).year >= 1970
    ensures CivilDateFromDays(days).year <= 9999 <==> days < 2932897
  {
    hide CivilDateFromDays, ValidDate, DayNumber, Earlier;
    var date := CivilDateFromDays(days);
    CivilDateValid(days);
    CivilDateInverts(days);
    EpochDay();
    Around(date, 1970);
    Around(date, 10000);
  }

  lemma Around(date: Date, year: int)
    requires ValidDate(date)
    ensures ValidDate(Date(year, 1, 1)) && (date.year < year <==> DayNumber(date) < DayNumber(Date(year, 1, 1)))
  {
    hide DayNumber;
    if date.year < year {
      DayNumberOrders(date, Date(year, 1, 1));
    } else if date != Date(year, 1, 1) {
      DayNumberOrders(Date(year, 1, 1), date);
    }
  }

  /** The moment a number of seconds after the epoch. */
  function MomentAt(seconds: nat): (m: Moment)
    ensures 1970 <= m.year && 1 <= m.month <= 12 && 1 <= m.day <= 31
    ensures m.hour <= 23 && m.minute <= 59 && m.second <= 59
  {
    var days, daySeconds := seconds / 86400, seconds % 86400;
    var date := CivilDateFromDays(days);
    FromTheEpochOn(days);
    Moment(date.year, date.month, date.day, daySeconds / 3600, daySeconds % 3600 / 60, daySeconds % 60)
  }

  function CanonicalUtc(seconds: nat): string { Prefix(MomentAt(seconds)) + "Z" }

  /** The last second of the year 9999. */
  const LAST_SECOND := 2932897 * 86400 - 1

  lemma {:induction false} PaddedOverflows(n: nat, width: nat)
    requires n >= Power10(width)
    ensures |Padded(n, width)| > width && AllDigits(Padded(n, width))
    decreases n, width
  {
    if n / 10 >= Power10(if width == 0 then 0 else width - 1) {
      PaddedOverflows(n / 10, if width == 0 then 0 else width - 1);
    } else {
      PaddedFits(n / 10, if width == 0 then 0 else width - 1);
      assert width == 0;
    }
  }

  /** What the resident writes is accepted exactly through the year 9999. */
  lemma WrittenIsAccepted(seconds: nat)
    ensures Canonical(CanonicalUtc(seconds)) <==> seconds <= LAST_SECOND
  {
    hide CivilDateFromDays, Canonical, Padded;
    var m := MomentAt(seconds);
    FromTheEpochOn(seconds / 86400);
    if m.year <= 9999 {
      assert CanonicalUtc(seconds) == Prefix(m) + "" + "Z";
      Accepted(m, "");
    } else {
      Powers();
      PaddedOverflows(m.year, 4);
      assert CanonicalUtc(seconds)[4] == Padded(m.year, 4)[4];
      CanonicalIff(CanonicalUtc(seconds));
    }
  }

  lemma Accepted(m: Moment, fraction: string)
    requires InRange(m) && IsFraction(fraction)
    ensures Canonical(Prefix(m) + fraction + "Z")
  {
  }

  // ---------------------------------------------------------------- order

  /** Byte order, as the history table sorts its timestamps. */
  predicate LexLess(a: string, b: string)
    decreases |a|
  {
    if b == "" then false
    else if a == "" then true
    else if a[0] != b[0] then a[0] < b[0]
    else LexLess(a[1..], b[1..])
  }

  lemma {:induction false} LexCommon(p: string, a: string, b: string)
    ensures LexLess(p + a, p + b) <==> LexLess(a, b)
    decreases |p|
  {
    if p == "" {
      assert p + a == a && p + b == b;
    } else {
      assert (p + a)[1..] == p[1..] + a && (p + b)[1..] == p[1..] + b;
      LexCommon(p[1..], a, b);
    }
  }

  lemma {:induction false} LexField(a: string, b: string, c: string, d: string)
    requires |a| == |b| && LexLess(a, b)
    ensures LexLess(a + c, b + d)
    decreases |a|
  {
    assert (a + c)[1..] == a[1..] + c && (b + d)[1..] == b[1..] + d;
    if a[0] == b[0] {
      LexField(a[1..], b[1..], c, d);
    }
  }

  lemma {:induction false} PaddedOrder(x: nat, y: nat, width: nat)
    requires x < y < Power10(width)
    ensures LexLess(Padded(x, width), Padded(y, width))
    decreases width
  {
    var a, b := Padded(x / 10, width - 1), Padded(y / 10, width - 1);
    PaddedFits(x / 10, width - 1);
    PaddedFits(y / 10, width - 1);
    assert Padded(x, width) == a + [Digit(x % 10)] && Padded(y, width) == b + [Digit(y % 10)];
    if x / 10 < y / 10 {
      PaddedOrder(x / 10, y / 10, width - 1);
      LexField(a, b, [Digit(x % 10)], [Digit(y % 10)]);
    } else {
      LexCommon(a, [Digit(x % 10)], [Digit(y % 10)]);
    }
  }

  /** One more field in front decides first. */
  lemma FieldFirst(x: nat, y: nat, width: nat, separator: string, rest: string, other: string)
    requires x < Power10(width) && y < Power10(width)
    requires x < y || (x == y && LexLess(rest, other))
    ensures LexLess(Padded(x, width) + separator + rest, Padded(y, width) + separator + other)
  {
    var a, b := Padded(x, width), Padded(y, width);
    assert a + separator + rest == a + (separator + rest) && b + separator + other == b + (separator + other);
    if x < y {
      PaddedFits(x, width);
      PaddedFits(y, width);
      PaddedOrder(x, y, width);
      LexField(a, b, separator + rest, separator + other);
    } else {
      LexCommon(a + separator, rest, other);
    }
  }

  predicate Before(m: Moment, n: Moment) {
    || m.year < n.year
    || (m.year == n.year && m.month < n.month)
    || (m.year == n.year && m.month == n.month && m.day < n.day)
    || (m.year == n.year && m.month == n.month && m.day == n.day && m.hour < n.hour)
    || (m.year == n.year && m.month == n.month && m.day == n.day && m.hour == n.hour && m.minute < n.minute)
    || (m.year == n.year && m.month == n.month && m.day == n.day && m.hour == n.hour && m.minute == n.minute
        && m.second < n.second)
  }

  function Clock(m: Moment): string {
    Padded(m.hour, 2) + ":" + (Padded(m.minute, 2) + ":" + (Padded(m.second, 2) + "Z" + ""))
  }

  function Nested(m: Moment): string {
    Padded(m.year, 4) + "-" + (Padded(m.month, 2) + "-" + (Padded(m.day, 2) + "T" + Clock(m)))
  }

  lemma NestedIs(m: Moment)
    ensures Nested(m) == Prefix(m) + "Z"
  {
    hide Padded;
  }

  lemma ClocksSort(m: Moment, n: Moment)
    requires InRange(m) && InRange(n)
    requires m.hour < n.hour || (m.hour == n.hour && (m.minute < n.minute || (m.minute == n.minute && m.second < n.second)))
    ensures LexLess(Clock(m), Clock(n))
  {
    hide Padded, LexLess;
    Powers();
    if m.minute == n.minute && m.second < n.second {
      FieldFirst(m.second, n.second, 2, "Z", "", "");
    }
    if m.hour == n.hour {
      FieldFirst(m.minute, n.minute, 2, ":", Padded(m.second, 2) + "Z" + "", Padded(n.second, 2) + "Z" + "");
    }
    FieldFirst(m.hour, n.hour, 2, ":", Padded(m.minute, 2) + ":" + (Padded(m.second, 2) + "Z" + ""),
               Padded(n.minute, 2) + ":" + (Padded(n.second, 2) + "Z" + ""));
  }

  /** Byte order of whole-second timestamps is the order of their moments. */
  lemma MomentsSort(m: Moment, n: Moment)
    requires InRange(m) && InRange(n) && Before(m, n)
    ensures LexLess(Prefix(m) + "Z", Prefix(n) + "Z")
  {
    hide Padded, LexLess, Clock, Prefix;
    Powers();
    NestedIs(m);
    NestedIs(n);
    if m.year == n.year && m.month == n.month {
      if m.day == n.day {
        ClocksSort(m, n);
      }
      FieldFirst(m.day, n.day, 2, "T", Clock(m), Clock(n));
    }
    if m.year == n.year {
      FieldFirst(m.month, n.month, 2, "-", Padded(m.day, 2) + "T" + Clock(m), Padded(n.day, 2) + "T" + Clock(n));
    }
    FieldFirst(m.year, n.year, 4, "-", Padded(m.month, 2) + "-" + (Padded(m.day, 2) + "T" + Clock(m)),
               Padded(n.month, 2) + "-" + (Padded(n.day, 2) + "T" + Clock(n)));
  }

  lemma MomentsAdvance(a: nat, b: nat)
    requires a < b
    ensures Before(MomentAt(a), MomentAt(b))
  {
    hide CivilDateFromDays, DayNumber, ValidDate;
    var x, y := CivilDateFromDays(a / 86400), CivilDateFromDays(b / 86400);
    FromTheEpochOn(a / 86400);
    FromTheEpochOn(b / 86400);
    if a / 86400 < b / 86400 {
      CivilDateInverts(a / 86400);
      CivilDateInverts(b / 86400);
      if Earlier(y, x) {
        DayNumberOrders(y, x);
      }
    } else {
      ClockAdvances(a % 86400, b % 86400);
    }
  }

  lemma ClockAdvances(a: nat, b: nat)
    requires a < b < 86400
    ensures || a / 3600 < b / 3600
            || (a / 3600 == b / 3600
                && (a % 3600 / 60 < b % 3600 / 60 || (a % 3600 / 60 == b % 3600 / 60 && a % 60 < b % 60)))
  {
    ClockReads(a);
    ClockReads(b);
  }

  lemma ClockReads(t: nat)
    ensures t == 3600 * (t / 3600) + 60 * (t % 3600 / 60) + t % 60
    ensures t % 3600 / 60 < 60 && t % 60 < 60
  {
    var hours, rest := t / 3600, t % 3600;
    DivIs(t, 60, 60 * hours + rest / 60, rest % 60);
  }

  lemma {:induction false} LexIrreflexive(a: string)
    ensures !LexLess(a, a)
    decreases |a|
  {
    if a != "" {
      LexIrreflexive(a[1..]);
    }
  }

  lemma {:induction false} LexAsymmetric(a: string, b: string)
    requires LexLess(a, b)
    ensures !LexLess(b, a)
    decreases |a|
  {
    if a != "" && a[0] == b[0] {
      LexAsymmetric(a[1..], b[1..]);
    }
  }

  /** Through the year 9999, timestamps as written sort exactly as their times. */
  lemma WrittenSorts(a: nat, b: nat)
    requires a <= LAST_SECOND && b <= LAST_SECOND
    ensures LexLess(CanonicalUtc(a), CanonicalUtc(b)) <==> a < b
  {
    hide CivilDateFromDays, LexLess, Prefix, Before;
    FromTheEpochOn(a / 86400);
    FromTheEpochOn(b / 86400);
    if a < b {
      MomentsAdvance(a, b);
      MomentsSort(MomentAt(a), MomentAt(b));
    } else if a == b {
      LexIrreflexive(CanonicalUtc(a));
    } else {
      MomentsAdvance(b, a);
      MomentsSort(MomentAt(b), MomentAt(a));
      LexAsymmetric(CanonicalUtc(b), CanonicalUtc(a));
    }
  }

  // ------------------------------------------------- order with fractions

  /** Digits behind a decimal point, as a part of a second. */
  function Tenths(digits: string): real
    requires AllDigits(digits)
  {
    if digits == "" then 0.0 else (DigitValue(digits[0]) as real + Tenths(digits[1..])) / 10.0
  }

  function SecondPart(fraction: string): real
    requires IsFraction(fraction)
  {
    if fraction == "" then 0.0 else Tenths(fraction[1..])
  }

  predicate TimeLess(m: Moment, f: string, n: Moment, g: string)
    requires IsFraction(f) && IsFraction(g)
  {
    Before(m, n) || (m == n && SecondPart(f) < SecondPart(g))
  }

  predicate ProperPrefix(f: string, g: string) { f <= g && f != g }

  function Stamp(m: Moment, fraction: string): string { Prefix(m) + fraction + "Z" }

  /** Byte order of two timestamps is their order in time, both ways. */
  predicate OrdersAgree(m: Moment, f: string, n: Moment, g: string)
    requires IsFraction(f) && IsFraction(g)
  {
    && (LexLess(Stamp(m, f), Stamp(n, g)) <==> TimeLess(m, f, n, g))
    && (LexLess(Stamp(n, g), Stamp(m, f)) <==> TimeLess(n, g, m, f))
  }

  lemma {:induction false} LexCut(a: string, b: string, c: string)
    requires |a| == |b| && LexLess(a + c, b + c)
    ensures LexLess(a, b)
    decreases |a|
  {
    if a == "" {
      assert a + c == c && b + c == c;
      LexIrreflexive(c);
    } else {
      assert (a + c)[1..] == a[1..] + c && (b + c)[1..] == b[1..] + c;
      if a[0] == b[0] {
        LexCut(a[1..], b[1..], c);
      }
    }
  }

  lemma {:induction false} TenthsBound(digits: string)
    requires AllDigits(digits)
    ensures 0.0 <= Tenths(digits) < 1.0
  {
    if digits != "" {
      TenthsBound(digits[1..]);
    }
  }

  /** Digits, ended by a letter, sort as the numbers they are, except that a proper
      prefix always sorts behind what goes on from it. */
  lemma {:induction false} DigitsSort(a: string, b: string)
    requires AllDigits(a) && AllDigits(b)
    ensures ProperPrefix(a, b) ==> LexLess(b + "Z", a + "Z") && Tenths(a) <= Tenths(b)
    ensures !ProperPrefix(a, b) && !ProperPrefix(b, a) ==> (LexLess(a + "Z", b + "Z") <==> Tenths(a) < Tenths(b))
    decreases |a|
  {
    if a == "" {
      TenthsBound(b);
      assert a + "Z" == "Z" && !LexLess("Z", "Z");
    } else if b != "" {
      TenthsBound(a[1..]);
      TenthsBound(b[1..]);
      assert (a + "Z")[1..] == a[1..] + "Z" && (b + "Z")[1..] == b[1..] + "Z";
      SamePrefix(a, b);
      if a[0] == b[0] {
        DigitsSort(a[1..], b[1..]);
      } else {
        DigitsDiffer(a, b);
      }
    }
  }

  lemma SamePrefix(a: string, b: string)
    requires a != "" && b != ""
    ensures ProperPrefix(a, b) <==> a[0] == b[0] && ProperPrefix(a[1..], b[1..])
    ensures ProperPrefix(b, a) <==> a[0] == b[0] && ProperPrefix(b[1..], a[1..])
  {
    assert a == [a[0]] + a[1..] && b == [b[0]] + b[1..];
  }

  lemma DigitsDiffer(a: string, b: string)
    requires AllDigits(a) && AllDigits(b) && a != "" && b != "" && a[0] != b[0]
    ensures Tenths(a) < Tenths(b) <==> a[0] < b[0]
  {
    TenthsBound(a[1..]);
    TenthsBound(b[1..]);
    var x, y := DigitValue(a[0]), DigitValue(b[0]);
    assert x < y <==> a[0] < b[0];
    assert x < y ==> x + 1 <= y;
    assert y < x ==> y + 1 <= x;
  }

  lemma SecondPartsSort(f: string, g: string)
    requires IsFraction(f) && IsFraction(g)
    ensures ProperPrefix(f, g) ==> LexLess(g + "Z", f + "Z") && SecondPart(f) <= SecondPart(g)
    ensures !ProperPrefix(f, g) && !ProperPrefix(g, f) ==>
              (LexLess(f + "Z", g + "Z") <==> SecondPart(f) < SecondPart(g))
  {
    if f == "" {
      assert f + "Z" == "Z";
      if g != "" {
        TenthsBound(g[1..]);
        assert (g + "Z")[0] == '.';
      } else {
        LexIrreflexive("Z");
      }
    } else if g != "" {
      DigitsSort(f[1..], g[1..]);
      SamePrefix(f, g);
      LexCommon(".", f[1..] + "Z", g[1..] + "Z");
      LexCommon(".", g[1..] + "Z", f[1..] + "Z");
      assert "." + (f[1..] + "Z") == f + "Z" && "." + (g[1..] + "Z") == g + "Z";
    }
  }

  lemma EarlierMoments(m: Moment, f: string, n: Moment, g: string)
    requires InRange(m) && InRange(n) && IsFraction(f) && IsFraction(g) && Before(m, n)
    ensures OrdersAgree(m, f, n, g)
  {
    hide LexLess, Prefix, InRange, IsFraction, SecondPart, Before;
    MomentsSort(m, n);
    PrefixLength(m);
    PrefixLength(n);
    LexCut(Prefix(m), Prefix(n), "Z");
    LexField(Prefix(m), Prefix(n), f + "Z", g + "Z");
    assert Stamp(m, f) == Prefix(m) + (f + "Z") && Stamp(n, g) == Prefix(n) + (g + "Z");
    LexAsymmetric(Stamp(m, f), Stamp(n, g));
    OnlyOneIsBefore(m, n);
  }

  lemma OnlyOneIsBefore(m: Moment, n: Moment)
    requires Before(m, n)
    ensures !Before(n, m) && m != n
  {
  }

  lemma PrefixLength(m: Moment)
    requires InRange(m)
    ensures |Prefix(m)| == 19
  {
    hide Padded;
    Fits(m);
  }

  /** For any two timestamps that storage accepts, byte order is time order, unless
      they name one second and the fraction of one goes on from the other's. */
  lemma FractionsSort(m: Moment, f: string, n: Moment, g: string)
    requires InRange(m) && InRange(n) && IsFraction(f) && IsFraction(g)
    ensures Canonical(Stamp(m, f)) && Canonical(Stamp(n, g))
    ensures OrdersAgree(m, f, n, g) <==> !(m == n && (ProperPrefix(f, g) || ProperPrefix(g, f)))
  {
    hide LexLess, Prefix, Tenths, IsFraction;
    Accepted(m, f);
    Accepted(n, g);
    if Before(m, n) {
      EarlierMoments(m, f, n, g);
    } else if Before(n, m) {
      EarlierMoments(n, g, m, f);
    } else {
      SameMoment(m, f, g);
    }
  }

  lemma SameMoment(m: Moment, f: string, g: string)
    requires InRange(m) && IsFraction(f) && IsFraction(g)
    ensures OrdersAgree(m, f, m, g) <==> !ProperPrefix(f, g) && !ProperPrefix(g, f)
  {
    hide LexLess, Prefix, Tenths;
    SecondPartsSort(f, g);
    SecondPartsSort(g, f);
    LexCommon(Prefix(m), f + "Z", g + "Z");
    LexCommon(Prefix(m), g + "Z", f + "Z");
    assert Stamp(m, f) == Prefix(m) + (f + "Z") && Stamp(m, g) == Prefix(m) + (g + "Z");
  }

  /** So half a second past a moment is accepted, and sorts before the moment itself. */
  lemma FractionsSortFirst(m: Moment)
    requires InRange(m)
    ensures Canonical(Stamp(m, ".5")) && Canonical(Stamp(m, ""))
    ensures LexLess(Stamp(m, ".5"), Stamp(m, "")) && TimeLess(m, "", m, ".5")
  {
    Accepted(m, ".5");
    Accepted(m, "");
    SecondPartsSort("", ".5");
    LexCommon(Prefix(m), ".5Z", "Z");
    assert Stamp(m, ".5") == Prefix(m) + ".5Z" && Stamp(m, "") == Prefix(m) + "Z";
    assert ".5"[1..] == "5" && "5"[1..] == "";
  }
}
