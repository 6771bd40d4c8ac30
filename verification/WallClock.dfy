/** utils/astl_wall_clock.hpp: correlation of raw and wall-clock nanoseconds in int64 arithmetic, and the
    fixed-width UTC text. */
module WallClock {
  import opened Common
  import opened Calendar

  newtype int64 = x: int | -0x8000_0000_0000_0000 <= x < 0x8000_0000_0000_0000

  const MIN: int64 := -0x8000_0000_0000_0000
  const MAX: int64 := 0x7FFF_FFFF_FFFF_FFFF

  predicate Fits(x: int) {
    MIN as int <= x <= MAX as int
  }

  /** Every operation below is an int64 operation, so that none of them overflows is part of the proof. */
  function Correlate(raw: int64, referenceRaw: int64, referenceRealtime: int64): (r: Option<int64>)
    ensures r.Some? <==>
            && Fits(raw as int - referenceRaw as int)
            && Fits(referenceRealtime as int + (raw as int - referenceRaw as int))
    ensures r.Some? ==> r.value as int == referenceRealtime as int + raw as int - referenceRaw as int
  {
    if (referenceRaw > 0 && raw < MIN + referenceRaw) || (referenceRaw < 0 && raw > MAX + referenceRaw) then
      None
    else
      var delta := raw - referenceRaw;
      if (delta > 0 && referenceRealtime > MAX - delta) || (delta < 0 && referenceRealtime < MIN - delta) then
        None
      else
        Some(referenceRealtime + delta)
  }

  // ----- the instant a nanosecond count names

  const NANOS_PER_DAY := 86_400_000_000_000

  datatype Instant = Instant(date: Date, hours: int, minutes: int, seconds: int, nanos: int)

  predicate IsInstant(i: Instant) {
    && 1000 <= i.date.year <= 9999 && IsDate(i.date)
    && 0 <= i.hours < 24 && 0 <= i.minutes < 60 && 0 <= i.seconds < 60 && 0 <= i.nanos < 1_000_000_000
  }

  /** Nanoseconds since midnight. */
  function WithinDay(i: Instant): int {
    ((i.hours * 60 + i.minutes) * 60 + i.seconds) * 1_000_000_000 + i.nanos
  }

  predicate Before(a: Instant, b: Instant) {
    Earlier(a.date, b.date) || (a.date == b.date && WithinDay(a) < WithinDay(b))
  }

  function TimeOfDay(date: Date, within: int): Instant {
    Instant(date, within / 3_600_000_000_000, within / 60_000_000_000 % 60,
            within / 1_000_000_000 % 60, within % 1_000_000_000)
  }

  lemma TimeOfDayRecomposes(date: Date, within: int)
    requires 0 <= within < NANOS_PER_DAY
    ensures var i := TimeOfDay(date, within);
            && WithinDay(i) == within
            && 0 <= i.hours < 24 && 0 <= i.minutes < 60 && 0 <= i.seconds < 60 && 0 <= i.nanos < 1_000_000_000
  {
    var s := within / 1_000_000_000;
    assert within / 60_000_000_000 == s / 60;
    assert within / 3_600_000_000_000 == s / 3600 == s / 60 / 60;
  }

  /** Floor day and Euclidean remainder: the instant `t` nanoseconds after the epoch. */
  function InstantOf(t: int64): Instant {
    TimeOfDay(DateOf(t as int / NANOS_PER_DAY), t as int % NANOS_PER_DAY)
  }

  /** The day number and the time of day give back the count, at both int64 extremes and below zero. */
  lemma InstantRecomposes(t: int64)
    ensures IsInstant(InstantOf(t))
    ensures DayNumber(InstantOf(t).date) * NANOS_PER_DAY + WithinDay(InstantOf(t)) == t as int
  {
    var n := t as int / NANOS_PER_DAY;
    DayNumberOfDate(n);
    YearBounds(n);
    TimeOfDayRecomposes(DateOf(n), t as int % NANOS_PER_DAY);
  }

  lemma InstantsInOrder(t: int64, u: int64)
    ensures Before(InstantOf(t), InstantOf(u)) <==> t < u
  {
    var n, m := t as int / NANOS_PER_DAY, u as int / NANOS_PER_DAY;
    InstantRecomposes(t);
    InstantRecomposes(u);
    DatesInOrder(n, m);
    DatesInOrder(m, n);
    if n == m {
      assert InstantOf(t).date == InstantOf(u).date;
    } else {
      DayNumberOfDate(n);
      DayNumberOfDate(m);
    }
  }

  // ----- fixed-width decimal fields

  function Pow10(w: nat): (p: nat)
    ensures p > 0
  {
    if w == 0 then 1 else 10 * Pow10(w - 1)
  }

  function Digit(d: int): char
    requires 0 <= d < 10
  {
    "0123456789"[d]
  }

  /** The decimal digits of `n`, as a stream inserts them. */
  function Decimal(n: nat): string {
    if n < 10 then [Digit(n)] else Decimal(n / 10) + [Digit(n % 10)]
  }

  function Zeros(k: nat): string {
    seq(k, _ => '0')
  }

  /** `setfill('0') << setw(w) << n`: at least `w` characters. */
  function Padded(n: nat, w: nat): string {
    var d := Decimal(n);
    (if |d| < w then Zeros(w - |d|) else []) + d
  }

  /** The last `w` digits of `n`. */
  function Digits(n: nat, w: nat): (s: string)
    ensures |s| == w
  {
    if w == 0 then [] else Digits(n / 10, w - 1) + [Digit(n % 10)]
  }

  lemma {:induction false} DigitsOfZero(w: nat)
    ensures Digits(0, w) == Zeros(w)
  {
    if w > 0 {
      DigitsOfZero(w - 1);
    }
  }

  lemma PaddedStep(n: nat, w: nat)
    requires w > 1 && n >= 10
    ensures Padded(n, w) == Padded(n / 10, w - 1) + [Digit(n % 10)]
  {
    var d := Decimal(n / 10);
    if |d| < w - 1 {
      assert Zeros(w - (|d| + 1)) + (d + [Digit(n % 10)]) == Zeros(w - 1 - |d|) + d + [Digit(n % 10)];
    }
  }

  lemma {:induction false} PaddedIsDigits(n: nat, w: nat)
    requires w > 0 && n < Pow10(w)
    ensures Padded(n, w) == Digits(n, w)
  {
    if n < 10 {
      DigitsOfZero(w - 1);
    } else {
      assert w > 1 by { assert Pow10(0) == 1; }
      PaddedIsDigits(n / 10, w - 1);
      PaddedStep(n, w);
    }
  }

  // ----- lexicographic order of texts

  predicate LexLess(s: string, t: string) {
    if t == [] then false
    else if s == [] then true
    else s[0] < t[0] || (s[0] == t[0] && LexLess(s[1..], t[1..]))
  }

  lemma {:induction false} LexLessAppend(a: string, b: string, x: string, y: string)
    requires |a| == |b|
    ensures LexLess(a + x, b + y) <==> LexLess(a, b) || (a == b && LexLess(x, y))
  {
    if a == [] {
      assert a + x == x && b + y == y;
    } else {
      assert (a + x)[1..] == a[1..] + x && (b + y)[1..] == b[1..] + y;
      LexLessAppend(a[1..], b[1..], x, y);
      assert a == [a[0]] + a[1..] && b == [b[0]] + b[1..];
    }
  }

  lemma {:induction false} DigitsInOrder(n: nat, m: nat, w: nat)
    requires n < Pow10(w) && m < Pow10(w)
    ensures LexLess(Digits(n, w), Digits(m, w)) <==> n < m
    ensures Digits(n, w) == Digits(m, w) ==> n == m
  {
    if w > 0 {
      var d, e := Digit(n % 10), Digit(m % 10);
      var p, q := Digits(n / 10, w - 1), Digits(m / 10, w - 1);
      DigitsInOrder(n / 10, m / 10, w - 1);
      LexLessAppend(p, q, [d], [e]);
      assert LexLess([d], [e]) <==> d < e;
      assert (p + [d])[w - 1] == d && (q + [e])[w - 1] == e;
      assert (p + [d])[..w - 1] == p && (q + [e])[..w - 1] == q;
    }
  }

  // ----- the printed text

  function Cell(n: nat, w: nat, separator: char, rest: string): (s: string)
    ensures |s| == w + 1 + |rest|
  {
    Digits(n, w) + ([separator] + rest)
  }

  lemma CellsInOrder(n: nat, m: nat, w: nat, separator: char, x: string, y: string)
    requires n < Pow10(w) && m < Pow10(w)
    ensures LexLess(Cell(n, w, separator, x), Cell(m, w, separator, y)) <==> n < m || (n == m && LexLess(x, y))
  {
    DigitsInOrder(n, m, w);
    LexLessAppend(Digits(n, w), Digits(m, w), [separator] + x, [separator] + y);
    LexLessAppend([separator], [separator], x, y);
    assert !LexLess([separator], [separator]);
  }

  function NanoText(i: Instant): (s: string)
    requires IsInstant(i)
    ensures |s| == 10
  {
    Cell(i.nanos, 9, 'Z', [])
  }

  function SecondText(i: Instant): (s: string)
    requires IsInstant(i)
    ensures |s| == 13
  {
    Cell(i.seconds, 2, '.', NanoText(i))
  }

  function MinuteText(i: Instant): (s: string)
    requires IsInstant(i)
    ensures |s| == 16
  {
    Cell(i.minutes, 2, ':', SecondText(i))
  }

  function ClockText(i: Instant): (s: string)
    requires IsInstant(i)
    ensures |s| == 19
  {
    Cell(i.hours, 2, ':', MinuteText(i))
  }

  function DayText(i: Instant): (s: string)
    requires IsInstant(i)
    ensures |s| == 22
  {
    Cell(i.date.day, 2, 'T', ClockText(i))
  }

  function MonthText(i: Instant): (s: string)
    requires IsInstant(i)
    ensures |s| == 25
  {
    Cell(i.date.month, 2, '-', DayText(i))
  }

  /** `YYYY-MM-DDThh:mm:ss.nnnnnnnnnZ` */
  function Text(i: Instant): (s: string)
    requires IsInstant(i)
    ensures |s| == 30
  {
    Cell(i.date.year, 4, '-', MonthText(i))
  }

  lemma Powers()
    ensures Pow10(2) == 100 && Pow10(4) == 10_000 && Pow10(9) == 1_000_000_000
  {
    assert Pow10(1) == 10 && Pow10(3) == 1000 && Pow10(5) == 100_000;
    assert Pow10(6) == 1_000_000 && Pow10(7) == 10_000_000 && Pow10(8) == 100_000_000;
  }

  lemma TextsInOrder(a: Instant, b: Instant)
    requires IsInstant(a) && IsInstant(b)
    ensures LexLess(Text(a), Text(b)) <==> Before(a, b)
  {
    Powers();
    CellsInOrder(a.nanos, b.nanos, 9, 'Z', [], []);
    CellsInOrder(a.seconds, b.seconds, 2, '.', NanoText(a), NanoText(b));
    CellsInOrder(a.minutes, b.minutes, 2, ':', SecondText(a), SecondText(b));
    CellsInOrder(a.hours, b.hours, 2, ':', MinuteText(a), MinuteText(b));
    assert LexLess(ClockText(a), ClockText(b)) <==> WithinDay(a) < WithinDay(b);
    CellsInOrder(a.date.day, b.date.day, 2, 'T', ClockText(a), ClockText(b));
    CellsInOrder(a.date.month, b.date.month, 2, '-', DayText(a), DayText(b));
    CellsInOrder(a.date.year, b.date.year, 4, '-', MonthText(a), MonthText(b));
  }

  /** The text of a count. */
  function Utc(t: int64): (s: string)
    ensures |s| == 30
  {
    InstantRecomposes(t);
    Text(InstantOf(t))
  }

  /** C++ `%`: the remainder takes the sign of the dividend. */
  function TruncatedRemainder(t: int64, d: int64): (r: int64)
    requires d > 0
    ensures -(d as int) < r as int < d as int
  {
    if t >= 0 then (t as int % d as int) as int64 else -((-(t as int) % d as int) as int64)
  }

  lemma AdjustedRemainder(t: int64)
    ensures var r := TruncatedRemainder(t, 86_400_000_000_000) as int;
            (if r < 0 then r + NANOS_PER_DAY else r) == t as int % NANOS_PER_DAY
  {
    if t < 0 {
      var a := -(t as int);
      var q, r := a / NANOS_PER_DAY, a % NANOS_PER_DAY;
      assert t as int == NANOS_PER_DAY * (-q) - r;
      if r > 0 {
        assert t as int == NANOS_PER_DAY * (-q - 1) + (NANOS_PER_DAY - r);
      }
    }
  }

  /** One field and its separator, inserted after `output`; `rest` is what the later insertions add. */
  method Insert(output: string, n: nat, w: nat, separator: char, ghost rest: string) returns (r: string)
    requires w > 0 && n < Pow10(w)
    ensures r + rest == output + Cell(n, w, separator, rest)
  {
    PaddedIsDigits(n, w);
    r := output + Padded(n, w) + [separator];
  }

  /** The stream insertions, in the order the source makes them. */
  method Print(i: Instant) returns (output: string)
    requires IsInstant(i)
    ensures output == Text(i)
  {
    Powers();
    output := "";
    output := Insert(output, i.date.year, 4, '-', MonthText(i));
    assert output + MonthText(i) == Text(i);
    output := Insert(output, i.date.month, 2, '-', DayText(i));
    assert output + DayText(i) == Text(i);
    output := Insert(output, i.date.day, 2, 'T', ClockText(i));
    assert output + ClockText(i) == Text(i);
    output := Insert(output, i.hours, 2, ':', MinuteText(i));
    assert output + MinuteText(i) == Text(i);
    output := Insert(output, i.minutes, 2, ':', SecondText(i));
    assert output + SecondText(i) == Text(i);
    output := Insert(output, i.seconds, 2, '.', NanoText(i));
    assert output + NanoText(i) == Text(i);
    output := Insert(output, i.nanos, 9, 'Z', []);
    assert output + [] == output;
  }

  method FormatUtc(realtimeNs: int64) returns (output: string)
    ensures output == Utc(realtimeNs)
  {
    var date := DateOf(realtimeNs as int / NANOS_PER_DAY);
    var withinDay := TruncatedRemainder(realtimeNs, 86_400_000_000_000);
    if withinDay < 0 {
      withinDay := withinDay + 86_400_000_000_000;
    }
    AdjustedRemainder(realtimeNs);
    InstantRecomposes(realtimeNs);
    var time := TimeOfDay(date, withinDay as int);
    assert time == InstantOf(realtimeNs);
    output := Print(time);
  }

  // ----- reading the text back

  function DigitValue(c: char): int {
    if '0' <= c <= '9' then c as int - '0' as int else -1
  }

  /** The number a string of decimal digits denotes. */
  function Number(s: string): Option<nat> {
    if s == [] then Some(0)
    else
      var d := DigitValue(s[|s| - 1]);
      match Number(s[..|s| - 1])
      case Some(n) => if d < 0 then None else Some(10 * n + d)
      case None => None
  }

  /** A field of exactly `w` digits and its separator, and what follows them. */
  function Take(s: string, w: nat, separator: char): Option<(nat, string)> {
    if |s| <= w || s[w] != separator || Number(s[..w]).None? then None
    else Some((Number(s[..w]).value, s[w + 1..]))
  }

  /** Field widths and the separators after them. */
  datatype Layout = End | Field(width: nat, separator: char, rest: Layout)

  datatype Numbers = Nil | Cons(head: nat, tail: Numbers)

  function Write(ns: Numbers, l: Layout): string
    decreases ns
  {
    if l.End? || ns.Nil? then [] else Cell(ns.head, l.width, l.separator, Write(ns.tail, l.rest))
  }

  function Read(s: string, l: Layout): Option<Numbers>
    decreases |s|
  {
    if l.End? then (if s == [] then Some(Nil) else None)
    else
      match Take(s, l.width, l.separator)
      case None => None
      case Some((n, rest)) =>
        match Read(rest, l.rest)
        case None => None
        case Some(ns) => Some(Cons(n, ns))
  }

  const SECOND_LAYOUT := Field(2, '.', Field(9, 'Z', End))
  const CLOCK_LAYOUT := Field(2, ':', Field(2, ':', SECOND_LAYOUT))
  const UTC_LAYOUT := Field(4, '-', Field(2, '-', Field(2, 'T', CLOCK_LAYOUT)))

  function ClockNumbers(i: Instant): Numbers
    requires IsInstant(i)
  {
    Cons(i.hours, Cons(i.minutes, Cons(i.seconds, Cons(i.nanos, Nil))))
  }

  function UtcNumbers(i: Instant): Numbers
    requires IsInstant(i)
  {
    Cons(i.date.year, Cons(i.date.month, Cons(i.date.day, ClockNumbers(i))))
  }

  function InstantFrom(ns: Numbers): Option<Instant> {
    match ns
    case Cons(year, Cons(month, Cons(day, Cons(hours, Cons(minutes, Cons(seconds, Cons(nanos, Nil))))))) =>
      var i := Instant(Date(year, month, day), hours, minutes, seconds, nanos);
      if IsInstant(i) then Some(i) else None
    case _ => None
  }

  /** Reads `YYYY-MM-DDThh:mm:ss.nnnnnnnnnZ`. */
  function ReadUtc(s: string): Option<Instant> {
    var ns := Read(s, UTC_LAYOUT);
    if ns.None? then None else InstantFrom(ns.value)
  }

  lemma {:induction false} NumberOfDigits(n: nat, w: nat)
    requires n < Pow10(w)
    ensures Number(Digits(n, w)) == Some(n)
  {
    if w > 0 {
      NumberOfDigits(n / 10, w - 1);
      var p, d := Digits(n / 10, w - 1), Digit(n % 10);
      assert (p + [d])[..w - 1] == p && (p + [d])[w - 1] == d;
      assert DigitValue(d) == n % 10;
    }
  }

  lemma TakeCell(n: nat, w: nat, separator: char, rest: string)
    requires n < Pow10(w)
    ensures Take(Cell(n, w, separator, rest), w, separator) == Some((n, rest))
  {
    NumberOfDigits(n, w);
    var s := Cell(n, w, separator, rest);
    assert s[..w] == Digits(n, w) && s[w] == separator && s[w + 1..] == rest;
  }

  ghost predicate Fills(ns: Numbers, l: Layout) {
    match (ns, l)
    case (Nil, End) => true
    case (Cons(n, tail), Field(w, _, rest)) => n < Pow10(w) && Fills(tail, rest)
    case _ => false
  }

  lemma {:induction false} ReadWhatWasWritten(ns: Numbers, l: Layout)
    requires Fills(ns, l)
    ensures Read(Write(ns, l), l) == Some(ns)
  {
    if ns.Cons? {
      TakeCell(ns.head, l.width, l.separator, Write(ns.tail, l.rest));
      ReadWhatWasWritten(ns.tail, l.rest);
    }
  }

  lemma TextIsLayout(i: Instant)
    requires IsInstant(i)
    ensures Text(i) == Write(UtcNumbers(i), UTC_LAYOUT) && Fills(UtcNumbers(i), UTC_LAYOUT)
  {
    Powers();
    var n1 := Cons(i.nanos, Nil);
    var n2 := Cons(i.seconds, n1);
    assert Write(n1, Field(9, 'Z', End)) == NanoText(i) && Fills(n1, Field(9, 'Z', End));
    assert Write(n2, SECOND_LAYOUT) == SecondText(i) && Fills(n2, SECOND_LAYOUT);
    assert Write(Cons(i.minutes, n2), Field(2, ':', SECOND_LAYOUT)) == MinuteText(i);
    assert Write(ClockNumbers(i), CLOCK_LAYOUT) == ClockText(i);
    assert Fills(ClockNumbers(i), CLOCK_LAYOUT);
    var n5 := Cons(i.date.day, ClockNumbers(i));
    assert Write(n5, Field(2, 'T', CLOCK_LAYOUT)) == DayText(i) && Fills(n5, Field(2, 'T', CLOCK_LAYOUT));
    assert Write(Cons(i.date.month, n5), Field(2, '-', Field(2, 'T', CLOCK_LAYOUT))) == MonthText(i);
  }

  /** The number of the decimal digits from `i` to `j`. */
  function NumberAt(s: string, i: nat, j: nat): Option<nat>
    requires i <= j <= |s|
  {
    Number(s[i..j])
  }

  /** Where the fields of the text stand, and what is between them. */
  lemma TextFields(i: Instant, s: string)
    requires IsInstant(i) && s == Text(i)
    ensures s[4] == '-' && s[7] == '-' && s[10] == 'T' && s[13] == ':' && s[16] == ':' && s[19] == '.' && s[29] == 'Z'
    ensures NumberAt(s, 0, 4) == Some(i.date.year) && NumberAt(s, 5, 7) == Some(i.date.month)
    ensures NumberAt(s, 8, 10) == Some(i.date.day) && NumberAt(s, 11, 13) == Some(i.hours)
    ensures NumberAt(s, 14, 16) == Some(i.minutes) && NumberAt(s, 17, 19) == Some(i.seconds)
    ensures NumberAt(s, 20, 29) == Some(i.nanos)
  {
    DateFields(i, s);
    ClockFields(i, s);
  }

  lemma DateFields(i: Instant, s: string)
    requires IsInstant(i) && s == Text(i)
    ensures |s| == 30 && s[4] == '-' && s[7] == '-' && s[10] == 'T' && s[11..] == ClockText(i)
    ensures NumberAt(s, 0, 4) == Some(i.date.year) && NumberAt(s, 5, 7) == Some(i.date.month)
    ensures NumberAt(s, 8, 10) == Some(i.date.day)
  {
    Powers();
    CellAt(s, 0, i.date.year, 4, '-', MonthText(i));
    CellAt(s, 5, i.date.month, 2, '-', DayText(i));
    CellAt(s, 8, i.date.day, 2, 'T', ClockText(i));
  }

  lemma ClockFields(i: Instant, s: string)
    requires IsInstant(i) && |s| == 30 && s[11..] == ClockText(i)
    ensures s[13] == ':' && s[16] == ':' && s[19] == '.' && s[29] == 'Z'
    ensures NumberAt(s, 11, 13) == Some(i.hours) && NumberAt(s, 14, 16) == Some(i.minutes)
    ensures NumberAt(s, 17, 19) == Some(i.seconds) && NumberAt(s, 20, 29) == Some(i.nanos)
  {
    Powers();
    CellAt(s, 11, i.hours, 2, ':', MinuteText(i));
    CellAt(s, 14, i.minutes, 2, ':', SecondText(i));
    CellAt(s, 17, i.seconds, 2, '.', NanoText(i));
    CellAt(s, 20, i.nanos, 9, 'Z', []);
  }

  lemma CellAt(s: string, k: nat, n: nat, w: nat, separator: char, rest: string)
    requires n < Pow10(w) && k <= |s| && s[k..] == Cell(n, w, separator, rest)
    ensures k + w < |s| && s[k + w] == separator && NumberAt(s, k, k + w) == Some(n)
    ensures s[k + w + 1..] == rest
  {
    var c := Cell(n, w, separator, rest);
    NumberOfDigits(n, w);
    assert |s| - k == |c| && s[k + w] == c[w] && c[..w] == Digits(n, w);
    assert s[k..k + w] == c[..w];
    assert c[w + 1..] == rest && s[k + w + 1..] == c[w + 1..];
  }

  // ----- main results

  lemma ReadText(i: Instant, text: string)
    requires IsInstant(i) && text == Text(i)
    ensures ReadUtc(text) == Some(i)
  {
    TextIsLayout(i);
    ReadWhatWasWritten(UtcNumbers(i), UTC_LAYOUT);
    InstantFromNumbers(i);
  }

  lemma InstantFromNumbers(i: Instant)
    requires IsInstant(i)
    ensures InstantFrom(UtcNumbers(i)) == Some(i)
  {
  }

  /** An independent reader of the format finds the instant, and with it the count. */
  lemma ReadBack(t: int64, text: string)
    requires text == Utc(t)
    ensures ReadUtc(text).Some?
    ensures var i := ReadUtc(text).value; DayNumber(i.date) * NANOS_PER_DAY + WithinDay(i) == t as int
  {
    InstantRecomposes(t);
    ReadText(InstantOf(t), text);
  }

  /** Text order is time order. */
  lemma UtcInOrder(t: int64, u: int64)
    ensures LexLess(Utc(t), Utc(u)) <==> t < u
  {
    InstantRecomposes(t);
    InstantRecomposes(u);
    TextsInOrder(InstantOf(t), InstantOf(u));
    InstantsInOrder(t, u);
  }

  lemma UtcIsInjective(t: int64, u: int64)
    requires Utc(t) == Utc(u)
    ensures t == u
  {
    ReadBack(t, Utc(t));
    ReadBack(u, Utc(t));
  }

  /** Samples keep their raw order as text, whatever the reference pair. */
  lemma RawOrderIsTextOrder(raw: int64, raw': int64, referenceRaw: int64, referenceRealtime: int64)
    requires Correlate(raw, referenceRaw, referenceRealtime).Some?
    requires Correlate(raw', referenceRaw, referenceRealtime).Some?
    ensures var t := Correlate(raw, referenceRaw, referenceRealtime).value;
            var t' := Correlate(raw', referenceRaw, referenceRealtime).value;
            LexLess(Utc(t), Utc(t')) <==> raw < raw'
  {
    UtcInOrder(Correlate(raw, referenceRaw, referenceRealtime).value,
               Correlate(raw', referenceRaw, referenceRealtime).value);
  }
}
