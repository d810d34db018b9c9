/**
 * Duration and idle-time formatting shared by the dashboard page, the product
 * row and the product-analysis panel. A millisecond count becomes
 * "{h}h {m}m" / "{m}m {s}s" (or, in the panel, "{h}h {m}m {s}s"), and an idle
 * record {days, hours, minutes, seconds} is normalised to seconds first.
 *
 * The partner of the formatters is `ParseSegments`, a reader for the
 * "12h 5m" shape: the lemmas show what a reader recovers from each output.
 */
module Durations {
  import opened Wrappers
  import opened JsText

  const MS_PER_SECOND: int := 1000
  const MS_PER_MINUTE: int := 60000
  const MS_PER_HOUR: int := 3600000

  /** JavaScript's `%`: the remainder takes the sign of the dividend. */
  function JsRem(a: int, b: int): (r: int)
    requires b > 0
    ensures a >= 0 ==> r == a % b
    ensures a < 0 ==> -b < r <= 0
    ensures (a - r) % b == 0
  {
    RemainderLeavesMultiple(if a >= 0 then a else -a, b);
    if a >= 0 then a % b else -((-a) % b)
  }

  /** Taking `n % b` off `n`, or adding it to `-n`, leaves a multiple of `b`. */
  lemma RemainderLeavesMultiple(n: int, b: int)
    requires b > 0
    ensures (n - n % b) % b == 0 && (-n + n % b) % b == 0
  {
    var q := n / b;
    assert n - n % b == q * b;
    assert -n + n % b == (-q) * b;
    ModOfMultiplePlus(q, 0, b);
    ModOfMultiplePlus(-q, 0, b);
  }

  /** The three numbers `formatDuration` computes before printing. */
  datatype Clock = Clock(hours: int, minutes: int, seconds: int)

  function ClockMillis(c: Clock): int {
    c.hours * MS_PER_HOUR + c.minutes * MS_PER_MINUTE + c.seconds * MS_PER_SECOND
  }

  /** A non-negative duration's clock reading: whole hours, then minutes and seconds below 60. */
  ghost predicate IsReadingOf(c: Clock, ms: int) {
    && 0 <= c.hours && 0 <= c.minutes < 60 && 0 <= c.seconds < 60
    && ClockMillis(c) <= ms < ClockMillis(c) + MS_PER_SECOND
  }

  /**
   * `Math.floor(ms / 3600000)`, `Math.floor((ms % 3600000) / 60000)` and
   * `Math.floor((ms % 60000) / 1000)`; Dafny's `/` by a positive constant is
   * `Math.floor` of the quotient, and `%` is JavaScript's through `JsRem`.
   */
  function Decompose(ms: int): (c: Clock)
    ensures ms >= 0 ==> IsReadingOf(c, ms)
    ensures ms < 0 ==> c.hours < 0 && -60 <= c.minutes <= 0 && -60 <= c.seconds <= 0
    ensures c.hours > 0 <==> ms >= MS_PER_HOUR
  {
    var c := Clock(ms / MS_PER_HOUR, JsRem(ms, MS_PER_HOUR) / MS_PER_MINUTE, JsRem(ms, MS_PER_MINUTE) / MS_PER_SECOND);
    DecomposeNonNegative(ms);
    c
  }

  lemma DecomposeNonNegative(ms: int)
    ensures ms >= 0 ==> IsReadingOf(Clock(ms / MS_PER_HOUR, (ms % MS_PER_HOUR) / MS_PER_MINUTE, (ms % MS_PER_MINUTE) / MS_PER_SECOND), ms)
  {
    if ms < 0 {
      return;
    }
    var h, r1 := ms / MS_PER_HOUR, ms % MS_PER_HOUR;
    var m, r2 := r1 / MS_PER_MINUTE, r1 % MS_PER_MINUTE;
    var s, r3 := r2 / MS_PER_SECOND, r2 % MS_PER_SECOND;
    assert ms == h * MS_PER_HOUR + r1;
    assert r1 == m * MS_PER_MINUTE + r2;
    assert r2 == s * MS_PER_SECOND + r3;
    assert ms == h * MS_PER_HOUR + m * MS_PER_MINUTE + r2;
    assert h * MS_PER_HOUR + m * MS_PER_MINUTE == (h * 60 + m) * MS_PER_MINUTE;
    ModOfMultiplePlus(h * 60 + m, r2, MS_PER_MINUTE);
    assert ms % MS_PER_MINUTE == r2;
  }

  lemma ModOfMultiplePlus(q: int, r: int, b: int)
    requires b > 0 && 0 <= r < b
    ensures (q * b + r) % b == r && (q * b + r) / b == q
  {
    var a := q * b + r;
    var q', r' := a / b, a % b;
    assert a == q' * b + r';
    assert (q' - q) * b == r - r';
    if q' > q {
      MulAtLeast(q' - q, b);
    } else if q' < q {
      MulAtLeast(q - q', b);
    }
  }

  lemma MulAtLeast(k: int, b: int)
    requires k >= 1 && b > 0
    ensures k * b >= b
  {
  }

  /** Any clock reading of a non-negative duration is the one `Decompose` computes. */
  lemma DecomposeIsTheOnlyReading(ms: int, c: Clock)
    requires ms >= 0
    ensures IsReadingOf(c, ms) <==> c == Decompose(ms)
  {
    if IsReadingOf(c, ms) {
      var r := ms - ClockMillis(c);
      assert 0 <= r < MS_PER_SECOND;
      var r1 := c.minutes * MS_PER_MINUTE + c.seconds * MS_PER_SECOND + r;
      assert 0 <= r1 < MS_PER_HOUR;
      ModOfMultiplePlus(c.hours, r1, MS_PER_HOUR);
      assert ms == c.hours * MS_PER_HOUR + r1;
      var r2 := c.seconds * MS_PER_SECOND + r;
      ModOfMultiplePlus(c.minutes, r2, MS_PER_MINUTE);
      assert r1 / MS_PER_MINUTE == c.minutes;
      assert c.hours * MS_PER_HOUR + c.minutes * MS_PER_MINUTE == (c.hours * 60 + c.minutes) * MS_PER_MINUTE;
      ModOfMultiplePlus(c.hours * 60 + c.minutes, r2, MS_PER_MINUTE);
      assert ms % MS_PER_MINUTE == r2;
      ModOfMultiplePlus(c.seconds, r, MS_PER_SECOND);
    }
  }

  /** `${n}` immediately followed by a unit letter. */
  function Group(n: int, unit: char): string {
    ShowInt(n) + [unit]
  }

  /** `formatDuration` of app/page.tsx and components/enhanced-product-row.tsx: seconds are dropped once hours show. */
  function FormatDuration(ms: int): (text: string)
    ensures |text| > 0
    ensures Decompose(ms).hours > 0 ==> text[|text| - 1] == 'm'
    ensures Decompose(ms).hours <= 0 ==> text[|text| - 1] == 's'
  {
    ShortClockText(Decompose(ms))
  }

  function ShortClockText(c: Clock): (text: string)
    ensures |text| > 0
    ensures c.hours > 0 ==> text[|text| - 1] == 'm'
    ensures c.hours <= 0 ==> text[|text| - 1] == 's'
  {
    if c.hours > 0 then Group(c.hours, 'h') + " " + Group(c.minutes, 'm')
    else Group(c.minutes, 'm') + " " + Group(c.seconds, 's')
  }

  /** `formatDuration` of components/product-analysis.tsx: seconds are kept after hours. */
  function FormatDurationWithSeconds(ms: int): (text: string)
    ensures |text| > 0 && text[|text| - 1] == 's'
  {
    LongClockText(Decompose(ms))
  }

  function LongClockText(c: Clock): (text: string)
    ensures |text| > 0 && text[|text| - 1] == 's'
  {
    if c.hours > 0 then Group(c.hours, 'h') + " " + Group(c.minutes, 'm') + " " + Group(c.seconds, 's')
    else Group(c.minutes, 'm') + " " + Group(c.seconds, 's')
  }

  /** Below one hour the two variants print the same text; above it the panel appends the seconds. */
  lemma FormatVariantsAgree(ms: int)
    ensures ms < MS_PER_HOUR ==> FormatDurationWithSeconds(ms) == FormatDuration(ms)
    ensures ms >= MS_PER_HOUR ==>
      FormatDurationWithSeconds(ms) == FormatDuration(ms) + " " + Group(Decompose(ms).seconds, 's')
  {
  }

  // ----- Reading a formatted duration back -----

  /** One "{amount}{unit}" group of a formatted duration. */
  datatype Segment = Segment(amount: nat, unit: char)

  predicate IsUnit(c: char) {
    !IsDigit(c) && c != ' '
  }

  predicate WellFormed(segs: seq<Segment>) {
    |segs| > 0 && forall i :: 0 <= i < |segs| ==> IsUnit(segs[i].unit)
  }

  /** Groups printed one after another, separated by single spaces. */
  function Render(segs: seq<Segment>): string
    decreases |segs|
  {
    if |segs| == 0 then ""
    else if |segs| == 1 then Group(segs[0].amount, segs[0].unit)
    else Group(segs[0].amount, segs[0].unit) + " " + Render(segs[1..])
  }

  /** Reads "{n}{u} {n}{u} ..." back into groups; `None` for any other shape. */
  function ParseSegments(t: string): (r: Option<seq<Segment>>)
    ensures r.Some? ==> WellFormed(r.value)
    decreases |t|
  {
    var k := DigitRun(t);
    if k == 0 || k == |t| || t[k] == ' ' then None
    else
      var head := Segment(DigitsValue(t[..k]), t[k]);
      if k + 1 == |t| then Some([head])
      else if t[k + 1] != ' ' then None
      else
        match ParseSegments(t[k + 2..])
        case None => None
        case Some(tail) => Some([head] + tail)
  }

  lemma {:induction false} ParseRender(segs: seq<Segment>)
    requires WellFormed(segs)
    ensures ParseSegments(Render(segs)) == Some(segs)
    decreases |segs|
  {
    var d := ShowNat(segs[0].amount);
    var u := segs[0].unit;
    var t := Render(segs);
    var rest := if |segs| == 1 then [u] else [u] + " " + Render(segs[1..]);
    assert Group(segs[0].amount, u) == d + [u];
    assert t == d + rest;
    DigitRunStopsAtNonDigit(d, rest);
    assert t[..|d|] == d;
    DigitsValueOfShowNat(segs[0].amount);
    assert t[|d|] == u;
    var k := DigitRun(t);
    assert k == |d|;
    var head := Segment(DigitsValue(t[..k]), t[k]);
    assert head == segs[0];
    if |segs| == 1 {
      assert k + 1 == |t|;
      assert ParseSegments(t) == Some([head]);
      assert [head] == segs;
    } else {
      assert t[k + 1] == ' ';
      assert t[k + 2..] == Render(segs[1..]);
      ParseRender(segs[1..]);
      assert ParseSegments(t) == Some([head] + segs[1..]);
      assert [segs[0]] + segs[1..] == segs;
    }
  }

  /** The milliseconds a reader attributes to the groups (h, m and s; other units count nothing). */
  function UnitMillis(u: char): nat {
    if u == 'h' then 3600000 else if u == 'm' then 60000 else if u == 's' then 1000 else 0
  }

  function SegmentsMillis(segs: seq<Segment>): int
    decreases |segs|
  {
    if |segs| == 0 then 0 else segs[0].amount * UnitMillis(segs[0].unit) + SegmentsMillis(segs[1..])
  }

  /** The groups `FormatDuration` prints for a non-negative duration. */
  lemma FormatDurationReadsBack(ms: int)
    requires ms >= 0
    ensures var c := Decompose(ms);
      ParseSegments(FormatDuration(ms)) ==
        Some(if c.hours > 0 then [Segment(c.hours, 'h'), Segment(c.minutes, 'm')]
             else [Segment(c.minutes, 'm'), Segment(c.seconds, 's')])
  {
    var c := Decompose(ms);
    var h: nat, m: nat, s: nat := c.hours, c.minutes, c.seconds;
    var segs := if h > 0 then [Segment(h, 'h'), Segment(m, 'm')] else [Segment(m, 'm'), Segment(s, 's')];
    assert segs[1..] == [segs[1]];
    assert ShortClockText(c) == Render(segs);
    ParseRender(segs);
  }

  lemma LongClockTextReadsBack(h: nat, m: nat, s: nat)
    ensures ParseSegments(LongClockText(Clock(h, m, s))) ==
      Some(if h > 0 then [Segment(h, 'h'), Segment(m, 'm'), Segment(s, 's')] else [Segment(m, 'm'), Segment(s, 's')])
  {
    var last := [Segment(m, 'm'), Segment(s, 's')];
    assert last[1..] == [last[1]];
    assert Render(last) == Group(m, 'm') + " " + Group(s, 's');
    if h > 0 {
      var segs := [Segment(h, 'h')] + last;
      assert segs[1..] == last;
      assert Render(segs) == Group(h, 'h') + " " + Render(last);
      assert LongClockText(Clock(h, m, s)) == Render(segs);
      ParseRender(segs);
      assert segs == [Segment(h, 'h'), Segment(m, 'm'), Segment(s, 's')];
    } else {
      ParseRender(last);
    }
  }

  /** The groups `FormatDurationWithSeconds` prints for a non-negative duration. */
  lemma FormatDurationWithSecondsReadsBack(ms: int)
    requires ms >= 0
    ensures var c := Decompose(ms);
      ParseSegments(FormatDurationWithSeconds(ms)) ==
        Some(if c.hours > 0 then [Segment(c.hours, 'h'), Segment(c.minutes, 'm'), Segment(c.seconds, 's')]
             else [Segment(c.minutes, 'm'), Segment(c.seconds, 's')])
  {
    var c := Decompose(ms);
    LongClockTextReadsBack(c.hours, c.minutes, c.seconds);
  }

  /**
   * What the page's text says is the duration cut down to its last printed
   * unit: whole minutes from one hour on, whole seconds below.
   */
  lemma FormatDurationTruncates(ms: int)
    requires ms >= 0
    ensures var segs := ParseSegments(FormatDuration(ms));
      && segs.Some?
      && SegmentsMillis(segs.value) == if ms >= MS_PER_HOUR then ms - ms % MS_PER_MINUTE else ms - ms % MS_PER_SECOND
  {
    FormatDurationReadsBack(ms);
    var c := Decompose(ms);
    var segs := ParseSegments(FormatDuration(ms)).value;
    if c.hours > 0 {
      PairMillis(c.hours, 'h', c.minutes, 'm');
      MinuteFloor(ms, c);
    } else {
      PairMillis(c.minutes, 'm', c.seconds, 's');
      SecondFloor(ms, c);
    }
  }

  /** The panel's text always keeps every whole second. */
  lemma FormatDurationWithSecondsTruncates(ms: int)
    requires ms >= 0
    ensures var segs := ParseSegments(FormatDurationWithSeconds(ms));
      segs.Some? && SegmentsMillis(segs.value) == ms - ms % MS_PER_SECOND
  {
    FormatDurationWithSecondsReadsBack(ms);
    var c := Decompose(ms);
    var segs := ParseSegments(FormatDurationWithSeconds(ms)).value;
    if c.hours > 0 {
      TripleMillis(c.hours, 'h', c.minutes, 'm', c.seconds, 's');
    } else {
      PairMillis(c.minutes, 'm', c.seconds, 's');
    }
    SecondFloor(ms, c);
  }

  lemma PairMillis(a: nat, u: char, b: nat, v: char)
    ensures SegmentsMillis([Segment(a, u), Segment(b, v)]) == a * UnitMillis(u) + b * UnitMillis(v)
  {
    var segs := [Segment(a, u), Segment(b, v)];
    assert segs[1..] == [Segment(b, v)];
    assert segs[1..][1..] == [];
    assert SegmentsMillis(segs[1..][1..]) == 0;
    assert SegmentsMillis(segs[1..]) == b * UnitMillis(v);
  }

  lemma TripleMillis(a: nat, u: char, b: nat, v: char, c: nat, w: char)
    ensures SegmentsMillis([Segment(a, u), Segment(b, v), Segment(c, w)])
         == a * UnitMillis(u) + b * UnitMillis(v) + c * UnitMillis(w)
  {
    var segs := [Segment(a, u), Segment(b, v), Segment(c, w)];
    assert segs[1..] == [Segment(b, v), Segment(c, w)];
    PairMillis(b, v, c, w);
  }

  lemma MinuteFloor(ms: int, c: Clock)
    requires ms >= 0 && c == Decompose(ms)
    ensures c.hours * MS_PER_HOUR + c.minutes * MS_PER_MINUTE == ms - ms % MS_PER_MINUTE
  {
    var q := c.hours * 60 + c.minutes;
    var r := ms - q * MS_PER_MINUTE;
    assert 0 <= r < MS_PER_MINUTE;
    ModOfMultiplePlus(q, r, MS_PER_MINUTE);
  }

  lemma SecondFloor(ms: int, c: Clock)
    requires ms >= 0 && c == Decompose(ms)
    ensures ClockMillis(c) == ms - ms % MS_PER_SECOND
  {
    var q := c.hours * 3600 + c.minutes * 60 + c.seconds;
    assert ClockMillis(c) == q * MS_PER_SECOND;
    var r := ms - q * MS_PER_SECOND;
    assert 0 <= r < MS_PER_SECOND;
    ModOfMultiplePlus(q, r, MS_PER_SECOND);
  }

  // ----- Idle time -----

  /**
   * The backend's idle-time value: falsy (null, undefined, 0, "") or an
   * object whose `days`/`hours`/`minutes`/`seconds` may each be missing.
   * A non-empty string is truthy with every field missing.
   */
  datatype IdleValue =
    | Falsy
    | Fields(days: Option<int>, hours: Option<int>, minutes: Option<int>, seconds: Option<int>)

  /** `(x || 0)` for an integer field: a missing field and a zero field both read 0. */
  function OrZero(x: Option<int>): int {
    x.GetOr(0)
  }

  function IdleSeconds(v: IdleValue): int
    requires v.Fields?
  {
    OrZero(v.days) * 86400 + OrZero(v.hours) * 3600 + OrZero(v.minutes) * 60 + OrZero(v.seconds)
  }

  /**
   * `formatIdleTime` of the product row: "0s" for a falsy value; for a record,
   * a reader gets back its seconds total, cut to whole minutes from one hour on.
   */
  function FormatIdleTime(v: IdleValue): (text: string)
    ensures v.Falsy? ==> text == "0s"
    ensures v.Fields? && IdleSeconds(v) >= 0 ==>
      var ms := IdleSeconds(v) * MS_PER_SECOND;
      var segs := ParseSegments(text);
      && segs.Some?
      && SegmentsMillis(segs.value) == if IdleSeconds(v) >= 3600 then ms - ms % MS_PER_MINUTE else ms
  {
    if v.Falsy? then "0s"
    else
      WholeSecondsShortReadBack(IdleSeconds(v));
      FormatDuration(IdleSeconds(v) * MS_PER_SECOND)
  }

  /**
   * `formatIdleTime` of the analysis panel: "0s" for a falsy value; for a
   * record, a reader gets back exactly its seconds total.
   */
  function FormatIdleTimeWithSeconds(v: IdleValue): (text: string)
    ensures v.Falsy? ==> text == "0s"
    ensures v.Fields? && IdleSeconds(v) >= 0 ==>
      var segs := ParseSegments(text);
      segs.Some? && SegmentsMillis(segs.value) == IdleSeconds(v) * MS_PER_SECOND
  {
    if v.Falsy? then "0s"
    else
      WholeSecondsLongReadBack(IdleSeconds(v));
      FormatDurationWithSeconds(IdleSeconds(v) * MS_PER_SECOND)
  }

  /** A falsy idle value and an all-zero record print differently. */
  lemma IdleZeroCasesDiffer()
    ensures FormatIdleTime(Falsy) == "0s"
    ensures FormatIdleTime(Fields(None, None, None, None)) == "0m 0s"
    ensures FormatIdleTime(Fields(Some(0), Some(0), Some(0), Some(0))) == "0m 0s"
    ensures FormatIdleTimeWithSeconds(Fields(None, None, None, None)) == "0m 0s"
  {
    assert Decompose(0) == Clock(0, 0, 0);
    assert ShowInt(0) == "0";
    assert FormatDuration(0) == "0m 0s";
    assert FormatDurationWithSeconds(0) == "0m 0s";
    assert IdleSeconds(Fields(None, None, None, None)) == 0;
    assert IdleSeconds(Fields(Some(0), Some(0), Some(0), Some(0))) == 0;
  }

  /** The record a backend would send for `total` seconds: every field below its next unit. */
  function CanonicalIdle(total: nat): IdleValue {
    Fields(Some(total / 86400), Some(total % 86400 / 3600), Some(total % 3600 / 60), Some(total % 60))
  }

  /** Normalising to seconds undoes the canonical split. */
  lemma IdleSecondsOfCanonical(total: nat)
    ensures IdleSeconds(CanonicalIdle(total)) == total
  {
    var d, r1 := total / 86400, total % 86400;
    var h, r2 := r1 / 3600, r1 % 3600;
    var m, s := r2 / 60, r2 % 60;
    assert total == d * 86400 + r1;
    assert r1 == h * 3600 + r2;
    assert r2 == m * 60 + s;
    assert total % 3600 == r2 by {
      assert total == (d * 24 + h) * 3600 + r2;
      ModOfMultiplePlus(d * 24 + h, r2, 3600);
    }
    assert total % 60 == s by {
      assert total == (d * 1440 + h * 60 + m) * 60 + s;
      ModOfMultiplePlus(d * 1440 + h * 60 + m, s, 60);
    }
    assert CanonicalIdle(total) == Fields(Some(d), Some(h), Some(m), Some(s));
  }

  /** A whole number of seconds, shown short: exact below one hour, whole minutes from there. */
  lemma WholeSecondsShortReadBack(secs: int)
    ensures secs >= 0 ==>
      var ms := secs * MS_PER_SECOND;
      var segs := ParseSegments(FormatDuration(ms));
      && segs.Some?
      && SegmentsMillis(segs.value) == if secs >= 3600 then ms - ms % MS_PER_MINUTE else ms
  {
    if secs >= 0 {
      var ms := secs * MS_PER_SECOND;
      ModOfMultiplePlus(secs, 0, MS_PER_SECOND);
      assert ms % MS_PER_SECOND == 0;
      assert ms >= MS_PER_HOUR <==> secs >= 3600;
      FormatDurationTruncates(ms);
    }
  }

  /** A whole number of seconds, shown with seconds: always exact. */
  lemma WholeSecondsLongReadBack(secs: int)
    ensures secs >= 0 ==>
      var segs := ParseSegments(FormatDurationWithSeconds(secs * MS_PER_SECOND));
      segs.Some? && SegmentsMillis(segs.value) == secs * MS_PER_SECOND
  {
    if secs >= 0 {
      var ms := secs * MS_PER_SECOND;
      ModOfMultiplePlus(secs, 0, MS_PER_SECOND);
      FormatDurationWithSecondsTruncates(ms);
    }
  }
}
