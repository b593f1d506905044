/**
  Go durations (`crates/rustlet-build/src/config.rs`): `format_duration` and
  `parse_duration` are inverses, and parsing truncates by less than 10 ns for
  each component.
*/
module Duration {
  import opened Common
  import opened Decimals

  const TWO_64: nat := 0x1_0000_0000_0000_0000
  const TWO_128: nat := 0x1_0000_0000_0000_0000_0000_0000_0000_0000

  const MICRO: nat := 1_000
  const MILLI: nat := 1_000_000
  const SECOND: nat := 1_000_000_000
  const MINUTE: nat := 60_000_000_000
  const HOUR: nat := 3_600_000_000_000

  function Digit(d: nat): (c: char)
    requires d < 10
    ensures IsDigit(c) && DigitValue(c) == d
  {
    '0' + d as char
  }

  // ------------------------------------------------------------------ format

  /** `value` in exactly `width` digits. */
  function Padded(value: nat, width: nat): (s: string)
    requires value < Pow10(width)
    ensures |s| == width && AllDigits(s)
  {
    if width == 0 then "" else Padded(value / 10, width - 1) + [Digit(value % 10)]
  }

  function Width(n: nat): (w: nat)
    ensures w > 0 && n < Pow10(w)
  {
    if n < 10 then 1 else 1 + Width(n / 10)
  }

  function Decimal(n: nat): (s: string)
    ensures s != "" && AllDigits(s)
  {
    Padded(n, Width(n))
  }

  function TrimZeros(s: string): (r: string)
    ensures r <= s && (r == "" || r[|r| - 1] != '0')
  {
    if s != "" && s[|s| - 1] == '0' then TrimZeros(s[..|s| - 1]) else s
  }

  /** `split_fraction`: a number with a remainder of `digits` decimal places, shown without trailing zeros. */
  function Number(whole: nat, rest: nat, digits: nat): string
    requires rest < Pow10(digits)
  {
    Decimal(whole) + if rest == 0 then "" else ['.'] + TrimZeros(Padded(rest, digits))
  }

  /** A number and its unit, as they are written. */
  datatype Cut = Cut(number: string, unit: string)

  function Shown(cuts: seq<Cut>): string {
    if cuts == [] then "" else cuts[0].number + (cuts[0].unit + Shown(cuts[1..]))
  }

  /** What `format_duration` writes for a number of nanoseconds. */
  function Parts(nanos: nat): seq<Cut> {
    PowersOfUnits();
    if nanos == 0 then [Cut("0", "s")]
    else if nanos < MICRO then [Cut(Number(nanos, 0, 0), "ns")]
    else if nanos < MILLI then [Cut(Number(nanos / MICRO, nanos % MICRO, 3), "\U{B5}s")]
    else if nanos < SECOND then [Cut(Number(nanos / MILLI, nanos % MILLI, 6), "ms")]
    else
      var seconds := nanos / SECOND;
      ClockParts(seconds / 3600, seconds / 60 % 60, seconds % 60, nanos % SECOND)
  }

  function ClockParts(hours: nat, minutes: nat, seconds: nat, rest: nat): seq<Cut>
    requires rest < SECOND
  {
    PowersOfUnits();
    Clocked(hours, Cut(Decimal(hours), "h"), minutes, Cut(Decimal(minutes), "m"), Cut(Number(seconds, rest, 9), "s"))
  }

  /** The hours and the minutes are left out when nothing before the seconds counts. */
  function Clocked(hours: nat, h: Cut, minutes: nat, m: Cut, s: Cut): seq<Cut> {
    if hours > 0 then [h, m, s] else if minutes > 0 then [m, s] else [s]
  }

  /** `format_duration`. */
  function Format(nanos: nat): string {
    Shown(Parts(nanos))
  }

  lemma PowersOfUnits()
    ensures Pow10(0) == 1 && Pow10(3) == MICRO && Pow10(6) == MILLI && Pow10(9) == SECOND
  {
    assert Pow10(3) == 10 * Pow10(2) && Pow10(6) == 10 * Pow10(5) && Pow10(9) == 10 * Pow10(8);
    assert Pow10(4) == 10_000 && Pow10(7) == 10 * Pow10(6);
  }

  // ------------------------------------------------------------------- parse

  predicate InNumber(c: char) { IsDigit(c) || c == '.' }

  /** How many characters of a number `s` starts with. */
  function NumberLength(s: string): (n: nat)
    ensures n <= |s| && (n < |s| ==> !InNumber(s[n]))
  {
    if s == "" || !InNumber(s[0]) then 0 else 1 + NumberLength(s[1..])
  }

  function UnitLength(s: string): (n: nat)
    ensures n <= |s|
  {
    if s == "" || InNumber(s[0]) then 0 else 1 + UnitLength(s[1..])
  }

  function NanosPer(unit: string): Option<nat> {
    if unit == "ns" then Some(1)
    else if unit == "us" || unit == "\U{B5}s" || unit == "\U{3BC}s" then Some(MICRO)
    else if unit == "ms" then Some(MILLI)
    else if unit == "s" then Some(SECOND)
    else if unit == "m" then Some(MINUTE)
    else if unit == "h" then Some(HOUR)
    else None
  }

  /** The units by each other, in all their spellings. */
  lemma Units()
    ensures NanosPer("ns") == Some(1)
    ensures NanosPer("us") == NanosPer("\U{B5}s") == NanosPer("\U{3BC}s") == Some(1000 * NanosPer("ns").value)
    ensures NanosPer("ms") == Some(1000 * NanosPer("us").value)
    ensures NanosPer("s") == Some(1000 * NanosPer("ms").value)
    ensures NanosPer("m") == Some(60 * NanosPer("s").value)
    ensures NanosPer("h") == Some(60 * NanosPer("m").value)
  {
  }

  /** Where the decimal point is, or the end. */
  function PointAt(number: string): (n: nat)
    ensures n <= |number| && (n < |number| ==> number[n] == '.') && forall i :: 0 <= i < n ==> number[i] != '.'
  {
    if number == "" || number[0] == '.' then 0 else 1 + PointAt(number[1..])
  }

  /** The fraction's nanoseconds, digit by digit, each with what is left of the scale. */
  function FractionNanos(fraction: string, scale: nat): nat
    requires AllDigits(fraction)
  {
    if fraction == "" then 0
    else DigitValue(fraction[0]) * (scale / 10) + FractionNanos(fraction[1..], scale / 10)
  }

  /** `whole.fraction` of a unit, or nothing when it is malformed or does not fit 128 bits. */
  function Amount(whole: string, fraction: string, per: nat): Option<nat> {
    if (whole == "" && fraction == "") || !AllDigits(whole) || !AllDigits(fraction) then None
    else
      var part := NumberOf(whole) * per + FractionNanos(fraction, per);
      if NumberOf(whole) < TWO_128 && part < TWO_128 then Some(part) else None
  }

  /** One component: a number and its unit. */
  function Component(cut: Cut): Option<nat> {
    var point := PointAt(cut.number);
    if NanosPer(cut.unit).None? then None
    else
      var fraction := if point < |cut.number| then cut.number[point + 1..] else "";
      Amount(cut.number[..point], fraction, NanosPer(cut.unit).value)
  }

  /** The first number and unit of a text, and what follows them. */
  function Head(s: string): (r: Option<(Cut, string)>)
    ensures r.Some? ==> |r.value.1| < |s|
  {
    var n := NumberLength(s);
    if n == |s| then None
    else
      var m := UnitLength(s[n..]);
      Some((Cut(s[..n], s[n..n + m]), s[n + m..]))
  }

  /** A text cut into numbers and units, as far as it has that shape. */
  function Cuts(s: string): Option<seq<Cut>>
    decreases |s|
  {
    if s == "" then Some([])
    else if Head(s).None? then None
    else Before(Head(s).value.0, Cuts(Head(s).value.1))
  }

  function Before(cut: Cut, more: Option<seq<Cut>>): Option<seq<Cut>> {
    if more.None? then None else Some([cut] + more.value)
  }

  /** How a number and its unit are valued. */
  type Valuation = Cut -> Option<nat>

  /** A stand-in for `Component`, whose value is then known only where it is asked for. */
  ghost predicate Values(value: Valuation) {
    forall cut {:trigger Component(cut)} :: value(cut) == Component(cut)
  }

  /** The values of the components added to `total`, as long as they fit 128 bits. */
  function Total(value: Valuation, cuts: seq<Cut>, total: nat): Option<nat> {
    if cuts == [] then Some(total)
    else match value(cuts[0])
      case None => None
      case Some(part) => if total + part < TWO_128 then Total(value, cuts[1..], total + part) else None
  }

  /** The characters with the White_Space property of Unicode. */
  predicate IsWhitespace(c: char) {
    || '\U{9}' <= c <= '\U{D}' || c == ' ' || c == '\U{85}' || c == '\U{A0}' || c == '\U{1680}'
    || '\U{2000}' <= c <= '\U{200A}' || c == '\U{2028}' || c == '\U{2029}' || c == '\U{202F}'
    || c == '\U{205F}' || c == '\U{3000}'
  }

  function TrimStart(s: string): string {
    if s != "" && IsWhitespace(s[0]) then TrimStart(s[1..]) else s
  }

  function TrimEnd(s: string): string {
    if s != "" && IsWhitespace(s[|s| - 1]) then TrimEnd(s[..|s| - 1]) else s
  }

  function Trim(s: string): string { TrimEnd(TrimStart(s)) }

  function Unsigned(trimmed: string): string {
    if trimmed != "" && trimmed[0] == '+' then trimmed[1..] else trimmed
  }

  /** `parse_duration` of a text without surrounding blanks: its nanoseconds. */
  function Parsed(trimmed: string): Option<nat> {
    var text := Unsigned(trimmed);
    if text == "0" then Some(0)
    else if text == "" || text[0] == '-' || Cuts(text).None? then None
    else Fitting(Total(Component, Cuts(text).value, 0))
  }

  function Fitting(total: Option<nat>): Option<nat> {
    if total.Some? && total.value < TWO_64 then total else None
  }

  // ------------------------------------------------------------- round trip

  lemma Tenfold(d: nat, p: nat)
    ensures d * (10 * p) == 10 * (d * p)
  {
  }

  lemma {:induction false} NumberOfLonger(s: string, c: char)
    requires AllDigits(s) && IsDigit(c)
    ensures AllDigits(s + [c]) && NumberOf(s + [c]) == 10 * NumberOf(s) + DigitValue(c)
  {
    var t := s + [c];
    if s == "" {
      assert t == [c] && t[1..] == "";
    } else {
      assert t[1..] == s[1..] + [c] && t[0] == s[0];
      NumberOfLonger(s[1..], c);
      Tenfold(DigitValue(s[0]), Pow10(|s| - 1));
    }
  }

  lemma {:induction false} NumberOfPadded(value: nat, width: nat)
    requires value < Pow10(width)
    ensures NumberOf(Padded(value, width)) == value
  {
    if width > 0 {
      NumberOfPadded(value / 10, width - 1);
      NumberOfLonger(Padded(value / 10, width - 1), Digit(value % 10));
    }
  }

  /** At its own scale a fraction is just its digits. */
  lemma {:induction false} FractionOfDigits(s: string)
    requires AllDigits(s)
    ensures FractionNanos(s, Pow10(|s|)) == NumberOf(s)
  {
    if s != "" {
      assert Pow10(|s|) / 10 == Pow10(|s| - 1);
      FractionOfDigits(s[1..]);
    }
  }

  lemma {:induction false} TrailingZero(s: string, scale: nat)
    requires AllDigits(s)
    ensures AllDigits(s + "0") && FractionNanos(s + "0", scale) == FractionNanos(s, scale)
  {
    if s != "" {
      assert (s + "0")[1..] == s[1..] + "0";
      TrailingZero(s[1..], scale / 10);
    } else {
      assert s + "0" == "0" && "0"[1..] == "";
    }
  }

  lemma {:induction false} TrimmedFraction(s: string, scale: nat)
    requires AllDigits(s)
    ensures AllDigits(TrimZeros(s)) && FractionNanos(TrimZeros(s), scale) == FractionNanos(s, scale)
  {
    if s != "" && s[|s| - 1] == '0' {
      var t := s[..|s| - 1];
      assert s == t + "0";
      TrailingZero(t, scale);
      TrimmedFraction(t, scale);
    }
  }

  lemma {:induction false} PointAfterDigits(digits: string, k: string)
    requires AllDigits(digits) && (k == "" || k[0] == '.')
    ensures PointAt(digits + k) == |digits| && (digits + k)[..|digits|] == digits
  {
    if digits == "" {
      assert digits + k == k;
    } else {
      assert (digits + k)[1..] == digits[1..] + k;
      PointAfterDigits(digits[1..], k);
    }
  }

  lemma ComponentOfDigits(whole: string, fraction: string, unit: string)
    requires AllDigits(whole) && NanosPer(unit).Some?
    ensures Component(Cut(whole, unit)) == Amount(whole, "", NanosPer(unit).value)
    ensures Component(Cut(whole + (['.'] + fraction), unit)) == Amount(whole, fraction, NanosPer(unit).value)
  {
    PointAfterDigits(whole, "");
    assert whole + "" == whole;
    PointAfterDigits(whole, ['.'] + fraction);
    assert (whole + (['.'] + fraction))[|whole| + 1..] == fraction;
  }

  lemma AmountIs(whole: string, fraction: string, per: nat, part: nat)
    requires AllDigits(whole) && AllDigits(fraction) && whole != ""
    requires NumberOf(whole) < TWO_128 && NumberOf(whole) * per + FractionNanos(fraction, per) == part < TWO_128
    ensures Amount(whole, fraction, per) == Some(part)
  {
  }

  /** A formatted number is read back, fraction and all. */
  lemma NumberRead(value: Valuation, whole: nat, rest: nat, digits: nat, unit: string, per: nat, part: nat)
    requires Values(value) && per == Pow10(digits) && rest < per && NanosPer(unit) == Some(per)
    requires whole < TWO_128 && part == whole * per + rest < TWO_128
    ensures value(Cut(Number(whole, rest, digits), unit)) == Some(part)
  {
    var fraction := TrimZeros(Padded(rest, digits));
    FractionRead(rest, digits);
    NumberOfPadded(whole, Width(whole));
    ComponentOfDigits(Decimal(whole), fraction, unit);
    if rest == 0 {
      AmountIs(Decimal(whole), "", per, part);
      assert Decimal(whole) + "" == Decimal(whole);
    } else {
      AmountIs(Decimal(whole), fraction, per, part);
    }
  }

  lemma FractionRead(rest: nat, digits: nat)
    requires rest < Pow10(digits)
    ensures var fraction := TrimZeros(Padded(rest, digits));
      AllDigits(fraction) && FractionNanos(fraction, Pow10(digits)) == rest
  {
    var p := Padded(rest, digits);
    TrimmedFraction(p, Pow10(digits));
    FractionOfDigits(p);
    NumberOfPadded(rest, digits);
  }

  /** A whole number of hours or minutes is read back. */
  lemma WholeRead(value: Valuation, whole: nat, unit: string, per: nat, part: nat)
    requires Values(value) && NanosPer(unit) == Some(per) && whole < TWO_128 && part == whole * per < TWO_128
    ensures value(Cut(Decimal(whole), unit)) == Some(part)
  {
    NumberOfPadded(whole, Width(whole));
    ComponentOfDigits(Decimal(whole), "", unit);
    AmountIs(Decimal(whole), "", per, part);
  }

  // ---- the shape of the text

  predicate WellCut(cut: Cut) {
    && cut.number != "" && (forall i :: 0 <= i < |cut.number| ==> InNumber(cut.number[i]))
    && cut.unit != "" && (forall i :: 0 <= i < |cut.unit| ==> !InNumber(cut.unit[i]))
  }

  lemma {:induction false} NumberLengthIs(number: string, k: string)
    requires (forall i :: 0 <= i < |number| ==> InNumber(number[i])) && k != "" && !InNumber(k[0])
    ensures NumberLength(number + k) == |number|
  {
    if number == "" {
      assert number + k == k;
    } else {
      assert (number + k)[1..] == number[1..] + k;
      NumberLengthIs(number[1..], k);
    }
  }

  lemma {:induction false} UnitLengthIs(unit: string, k: string)
    requires (forall i :: 0 <= i < |unit| ==> !InNumber(unit[i])) && (k == "" || InNumber(k[0]))
    ensures UnitLength(unit + k) == |unit|
  {
    if unit == "" {
      assert unit + k == k;
    } else {
      assert (unit + k)[1..] == unit[1..] + k;
      UnitLengthIs(unit[1..], k);
    }
  }

  lemma HeadIs(number: string, unit: string, k: string)
    requires WellCut(Cut(number, unit)) && (k == "" || InNumber(k[0]))
    ensures Head(number + (unit + k)) == Some((Cut(number, unit), k))
  {
    var s, n := number + (unit + k), |number|;
    NumberLengthIs(number, unit + k);
    assert s[..n] == number && s[n..] == unit + k;
    UnitLengthIs(unit, k);
    assert s[n..n + |unit|] == unit && s[n + |unit|..] == k;
  }

  /** Written components are cut where they were joined. */
  lemma {:induction false} CutsOfShown(cuts: seq<Cut>)
    requires forall i :: 0 <= i < |cuts| ==> WellCut(cuts[i])
    ensures Cuts(Shown(cuts)) == Some(cuts)
    ensures cuts != [] ==> cuts[0].number != "" && Shown(cuts) != "" && Shown(cuts)[0] == cuts[0].number[0]
  {
    if cuts != [] {
      CutsOfShown(cuts[1..]);
      assert WellCut(cuts[0]);
      HeadIs(cuts[0].number, cuts[0].unit, Shown(cuts[1..]));
      assert cuts == [cuts[0]] + cuts[1..];
    }
  }

  lemma NumberInNumber(whole: nat, rest: nat, digits: nat)
    requires rest < Pow10(digits)
    ensures var number := Number(whole, rest, digits);
      number != "" && IsDigit(number[0]) && forall i :: 0 <= i < |number| ==> InNumber(number[i])
  {
    var p := Padded(rest, digits);
    assert forall i :: 0 <= i < |TrimZeros(p)| ==> TrimZeros(p)[i] == p[i];
  }

  predicate EndsInS(unit: string) { unit != "" && unit[|unit| - 1] == 's' }

  /** The shape of formatted text: it starts with a digit and ends in an `s`. */
  predicate Written(cuts: seq<Cut>) {
    && cuts != []
    && (forall i :: 0 <= i < |cuts| ==> WellCut(cuts[i]))
    && cuts[0].number != "" && IsDigit(cuts[0].number[0]) && EndsInS(cuts[|cuts| - 1].unit)
  }

  lemma NumberWellCut(whole: nat, rest: nat, digits: nat, unit: string)
    requires rest < Pow10(digits) && EndsInS(unit) && forall i :: 0 <= i < |unit| ==> !InNumber(unit[i])
    ensures Written([Cut(Number(whole, rest, digits), unit)])
  {
    NumberInNumber(whole, rest, digits);
  }

  lemma ClockWellCut(hours: nat, minutes: nat, seconds: nat, rest: nat)
    requires rest < SECOND
    ensures Written(ClockParts(hours, minutes, seconds, rest))
  {
    PowersOfUnits();
    NumberWellCut(seconds, rest, 9, "s");
    ClockedWritten(hours, Cut(Decimal(hours), "h"), minutes, Cut(Decimal(minutes), "m"), Cut(Number(seconds, rest, 9), "s"));
  }

  lemma ClockedWritten(hours: nat, h: Cut, minutes: nat, m: Cut, s: Cut)
    requires WellCut(h) && WellCut(m) && IsDigit(h.number[0]) && IsDigit(m.number[0]) && Written([s])
    ensures Written(Clocked(hours, h, minutes, m, s))
  {
    assert [s][0] == s;
  }

  lemma PartsWellCut(nanos: nat)
    ensures Written(Parts(nanos))
  {
    PowersOfUnits();
    if 0 < nanos < MICRO {
      NumberWellCut(nanos, 0, 0, "ns");
    } else if MICRO <= nanos < MILLI {
      NumberWellCut(nanos / MICRO, nanos % MICRO, 3, "\U{B5}s");
    } else if MILLI <= nanos < SECOND {
      NumberWellCut(nanos / MILLI, nanos % MILLI, 6, "ms");
    } else if SECOND <= nanos {
      var seconds := nanos / SECOND;
      ClockWellCut(seconds / 3600, seconds / 60 % 60, seconds % 60, nanos % SECOND);
    }
  }

  // ---- the value of the text

  lemma TotalStep(value: Valuation, cuts: seq<Cut>, part: nat, total: nat)
    requires cuts != [] && value(cuts[0]) == Some(part) && total + part < TWO_128
    ensures Total(value, cuts, total) == Total(value, cuts[1..], total + part)
  {
  }

  lemma OneTotal(value: Valuation, a: Cut, pa: nat, total: nat)
    requires value(a) == Some(pa) && total + pa < TWO_128
    ensures Total(value, [a], total) == Some(total + pa)
  {
    TotalStep(value, [a], pa, total);
    assert [a][1..] == [];
  }

  lemma TwoTotal(value: Valuation, a: Cut, pa: nat, b: Cut, pb: nat, total: nat)
    requires value(a) == Some(pa) && value(b) == Some(pb) && total + pa + pb < TWO_128
    ensures Total(value, [a, b], total) == Some(total + pa + pb)
  {
    TotalStep(value, [a, b], pa, total);
    assert [a, b][1..] == [b];
    OneTotal(value, b, pb, total + pa);
  }

  lemma ThreeTotal(value: Valuation, a: Cut, pa: nat, b: Cut, pb: nat, c: Cut, pc: nat)
    requires value(a) == Some(pa) && value(b) == Some(pb) && value(c) == Some(pc) && pa + pb + pc < TWO_128
    ensures Total(value, [a, b, c], 0) == Some(pa + pb + pc)
  {
    TotalStep(value, [a, b, c], pa, 0);
    assert [a, b, c][1..] == [b, c];
    TwoTotal(value, b, pb, c, pc, pa);
  }

  /** The parts of a clock time add up. */
  lemma Clock(nanos: nat)
    ensures var seconds := nanos / SECOND;
      seconds / 3600 * HOUR + seconds / 60 % 60 * MINUTE + (seconds % 60 * SECOND + nanos % SECOND) == nanos
  {
    var seconds := nanos / SECOND;
    assert seconds == seconds / 3600 * 3600 + seconds / 60 % 60 * 60 + seconds % 60;
  }

  lemma ClockedTotal(value: Valuation, hours: nat, h: Cut, minutes: nat, m: Cut, s: Cut, ph: nat, pm: nat, ps: nat)
    requires value(h) == Some(ph) && value(m) == Some(pm) && value(s) == Some(ps) && ph + pm + ps < TWO_128
    requires (hours == 0 ==> ph == 0) && (minutes == 0 ==> pm == 0)
    ensures Total(value, Clocked(hours, h, minutes, m, s), 0) == Some(ph + pm + ps)
  {
    OneTotal(value, s, ps, 0);
    TwoTotal(value, m, pm, s, ps, 0);
    ThreeTotal(value, h, ph, m, pm, s, ps);
  }

  lemma SecondsRead(value: Valuation, seconds: nat, rest: nat)
    requires Values(value) && seconds < 60 && rest < SECOND
    ensures rest < Pow10(9) && value(Cut(Number(seconds, rest, 9), "s")) == Some(seconds * SECOND + rest)
  {
    PowersOfUnits();
    NumberRead(value, seconds, rest, 9, "s", SECOND, seconds * SECOND + rest);
  }

  lemma ClockRead(value: Valuation, hours: nat, minutes: nat, seconds: nat, rest: nat)
    requires Values(value) && hours < TWO_64 && minutes < 60 && seconds < 60 && rest < SECOND
    ensures Total(value, ClockParts(hours, minutes, seconds, rest), 0)
         == Some(hours * HOUR + minutes * MINUTE + (seconds * SECOND + rest))
  {
    SecondsRead(value, seconds, rest);
    WholeRead(value, minutes, "m", MINUTE, minutes * MINUTE);
    WholeRead(value, hours, "h", HOUR, hours * HOUR);
    ClockedTotal(value, hours, Cut(Decimal(hours), "h"), minutes, Cut(Decimal(minutes), "m"),
                 Cut(Number(seconds, rest, 9), "s"), hours * HOUR, minutes * MINUTE, seconds * SECOND + rest);
  }

  lemma OnePart(value: Valuation, whole: nat, rest: nat, digits: nat, unit: string, per: nat, part: nat)
    requires Values(value) && per == Pow10(digits) && rest < per && NanosPer(unit) == Some(per)
    requires whole < TWO_128 && part == whole * per + rest < TWO_128
    ensures Total(value, [Cut(Number(whole, rest, digits), unit)], 0) == Some(part)
  {
    NumberRead(value, whole, rest, digits, unit, per, part);
    OneTotal(value, Cut(Number(whole, rest, digits), unit), part, 0);
  }

  lemma ZeroTotal(value: Valuation)
    requires Values(value)
    ensures Total(value, [Cut("0", "s")], 0) == Some(0)
  {
    ComponentOfDigits("0", "", "s");
    assert "0"[1..] == "";
    AmountIs("0", "", SECOND, 0);
    OneTotal(value, Cut("0", "s"), 0, 0);
  }

  lemma PartsTotal(value: Valuation, nanos: nat)
    requires Values(value) && nanos < TWO_64 * SECOND
    ensures Total(value, Parts(nanos), 0) == Some(nanos)
  {
    PowersOfUnits();
    if nanos == 0 {
      ZeroTotal(value);
    } else if nanos < MICRO {
      OnePart(value, nanos, 0, 0, "ns", 1, nanos);
    } else if nanos < MILLI {
      OnePart(value, nanos / MICRO, nanos % MICRO, 3, "\U{B5}s", MICRO, nanos);
    } else if nanos < SECOND {
      OnePart(value, nanos / MILLI, nanos % MILLI, 6, "ms", MILLI, nanos);
    } else {
      var all := nanos / SECOND;
      Clock(nanos);
      ClockRead(value, all / 3600, all / 60 % 60, all % 60, nanos % SECOND);
    }
  }

  lemma {:induction false} ShownEnds(cuts: seq<Cut>)
    requires cuts != [] && cuts[|cuts| - 1].unit != ""
    ensures var s, unit := Shown(cuts), cuts[|cuts| - 1].unit; s != "" && s[|s| - 1] == unit[|unit| - 1]
  {
    if |cuts| > 1 {
      ShownEnds(cuts[1..]);
    }
  }

  lemma NothingToTrim(s: string)
    requires s != "" && IsDigit(s[0]) && s[|s| - 1] == 's'
    ensures Trim(s) == s && |s| > 1
  {
  }

  /** Written components have no blanks around them. */
  lemma ShownTrimmed(cuts: seq<Cut>)
    requires Written(cuts)
    ensures var s := Shown(cuts); Trim(s) == s && |s| > 1 && IsDigit(s[0])
  {
    CutsOfShown(cuts);
    ShownEnds(cuts);
    NothingToTrim(Shown(cuts));
  }

  lemma ParsedShown(value: Valuation, cuts: seq<Cut>)
    requires Written(cuts)
    requires value == Component
    ensures Parsed(Trim(Shown(cuts))) == Fitting(Total(value, cuts, 0))
  {
    ShownTrimmed(cuts);
    CutsOfShown(cuts);
  }

  /** Every duration that fits 64 bits of nanoseconds is read back; the others are refused. */
  lemma RoundTrip(nanos: nat)
    requires nanos < TWO_64 * SECOND
    ensures Parsed(Trim(Format(nanos))) == if nanos < 18_446_744_073_709_551_616 then Some(nanos) else None
  {
    PartsWellCut(nanos);
    PartsTotal(Component, nanos);
    ParsedShown(Component, Parts(nanos));
  }

  // ------------------------------------------------------- what is printed

  /** A whole number has no zeros in front. */
  lemma {:induction false} DecimalShape(n: nat)
    ensures NumberOf(Decimal(n)) == n && (|Decimal(n)| == 1 || Decimal(n)[0] != '0')
  {
    NumberOfPadded(n, Width(n));
    if n >= 10 {
      DecimalShape(n / 10);
      FirstDigit(n);
    }
  }

  lemma FirstDigit(n: nat)
    requires n >= 10
    ensures Decimal(n) == Decimal(n / 10) + [Digit(n % 10)]
    ensures n < 100 ==> Decimal(n / 10)[0] != '0'
  {
    if n < 100 {
      assert Decimal(n / 10) == Padded(n / 10, 1) && Padded(n / 10 / 10, 0) == "";
    }
  }

  /** A fraction has a digit, no zeros at its end, and is worth the remainder. */
  lemma FractionShape(rest: nat, digits: nat)
    requires 0 < rest < Pow10(digits)
    ensures var f := TrimZeros(Padded(rest, digits));
      0 < |f| <= digits && f[|f| - 1] != '0' && AllDigits(f) && FractionNanos(f, Pow10(digits)) == rest
  {
    FractionRead(rest, digits);
  }

  /** Below a second: whole nanoseconds, or a number of the largest unit that is not more. */
  lemma FormatNanos(n: nat)
    requires 0 < n < 1_000
    ensures Format(0) == "0s" && Format(n) == Decimal(n) + "ns"
  {
    PowersOfUnits();
    ShownOne(Cut("0", "s"));
    ShownOne(Cut(Number(n, 0, 0), "ns"));
    assert Decimal(n) + "" == Decimal(n);
  }

  lemma FormatMicros(whole: nat, rest: nat)
    requires 0 < whole < 1_000 && rest < 1_000
    ensures rest < Pow10(3) && Format(whole * 1_000 + rest) == Number(whole, rest, 3) + "\U{B5}s"
  {
    PowersOfUnits();
    assert (whole * 1_000 + rest) / 1_000 == whole && (whole * 1_000 + rest) % 1_000 == rest;
    ShownOne(Cut(Number(whole, rest, 3), "\U{B5}s"));
  }

  lemma FormatMillis(whole: nat, rest: nat)
    requires 0 < whole < 1_000 && rest < 1_000_000
    ensures rest < Pow10(6) && Format(whole * 1_000_000 + rest) == Number(whole, rest, 6) + "ms"
  {
    PowersOfUnits();
    assert (whole * 1_000_000 + rest) / 1_000_000 == whole && (whole * 1_000_000 + rest) % 1_000_000 == rest;
    ShownOne(Cut(Number(whole, rest, 6), "ms"));
  }

  lemma ShownOne(cut: Cut)
    ensures Shown([cut]) == cut.number + cut.unit
  {
    assert [cut][1..] == [] && cut.unit + "" == cut.unit;
  }

  /** From a second on: hours if there are any, minutes if there are any or hours, and seconds with their fraction. */
  lemma FormatClock(h: nat, m: nat, s: nat, f: nat)
    requires m < 60 && s < 60 && f < SECOND && h + m + s > 0
    ensures f < Pow10(9)
    ensures Format(((h * 60 + m) * 60 + s) * SECOND + f) ==
      (if h > 0 then Decimal(h) + "h" else "")
      + ((if h > 0 || m > 0 then Decimal(m) + "m" else "")
         + (Number(s, f, 9) + "s"))
  {
    PowersOfUnits();
    ClockDivides(h, m, s, f);
    ShownClock(h, Cut(Decimal(h), "h"), m, Cut(Decimal(m), "m"), Cut(Number(s, f, 9), "s"));
  }

  lemma ClockDivides(h: nat, m: nat, s: nat, f: nat)
    requires m < 60 && s < 60 && f < SECOND && h + m + s > 0
    ensures Parts(((h * 60 + m) * 60 + s) * SECOND + f) == ClockParts(h, m, s, f)
  {
    var all := (h * 60 + m) * 60 + s;
    SecondsDivide(all, f);
    HoursDivide(h, m, s);
    assert all * SECOND + f >= SECOND;
  }

  lemma HoursDivide(h: nat, m: nat, s: nat)
    requires m < 60 && s < 60
    ensures var all := (h * 60 + m) * 60 + s; all / 3600 == h && all / 60 % 60 == m && all % 60 == s
  {
  }

  lemma SecondsDivide(all: nat, f: nat)
    requires f < SECOND
    ensures (all * SECOND + f) / SECOND == all && (all * SECOND + f) % SECOND == f
  {
  }

  lemma ShownClock(h: nat, a: Cut, m: nat, b: Cut, c: Cut)
    ensures Shown(Clocked(h, a, m, b, c)) ==
      (if h > 0 then a.number + a.unit else "")
      + ((if h > 0 || m > 0 then b.number + b.unit else "")
         + (c.number + c.unit))
  {
    ShownOne(c);
    assert [b, c][1..] == [c] && [a, b, c][1..] == [b, c];
    assert Shown([b, c]) == b.number + (b.unit + Shown([c]));
    assert Shown([a, b, c]) == a.number + (a.unit + Shown([b, c]));
  }

  /** A `+` in front changes nothing, a `-` is refused, and `0` needs no unit. */
  lemma Signs(s: string)
    ensures s != "" && s[0] != '+' ==> Parsed("+" + s) == Parsed(s)
    ensures Parsed("-" + s) == None
    ensures Parsed("0") == Some(0) && Parsed("") == None
  {
    assert ("+" + s)[1..] == s && ("-" + s)[0] == '-';
  }

  /** Blanks around a text do not matter. */
  lemma {:induction false} BlanksAround(before: string, s: string, after: string)
    requires (forall i :: 0 <= i < |before| ==> before[i] in " \t\n\r") && (forall i :: 0 <= i < |after| ==> after[i] in " \t\n\r")
    requires s != "" && !IsWhitespace(s[0]) && !IsWhitespace(s[|s| - 1])
    ensures Trim(before + (s + after)) == s
  {
    BlanksBefore(before, s + after);
    BlanksAfter(s, after);
  }

  lemma {:induction false} BlanksBefore(before: string, s: string)
    requires (forall i :: 0 <= i < |before| ==> before[i] in " \t\n\r") && s != "" && !IsWhitespace(s[0])
    ensures TrimStart(before + s) == s
  {
    if before == "" {
      assert before + s == s;
    } else {
      assert (before + s)[1..] == before[1..] + s;
      BlanksBefore(before[1..], s);
    }
  }

  lemma {:induction false} BlanksAfter(s: string, after: string)
    requires (forall i :: 0 <= i < |after| ==> after[i] in " \t\n\r") && s != "" && !IsWhitespace(s[|s| - 1])
    ensures TrimEnd(s + after) == s
  {
    if after == "" {
      assert s + after == s;
    } else {
      var t := s + after;
      assert t[..|t| - 1] == s + after[..|after| - 1] && t[|t| - 1] == after[|after| - 1];
      BlanksAfter(s, after[..|after| - 1]);
    }
  }

  // -------------------------------------------------------------- truncation

  /** The exact value of a fraction's digits: each is worth a tenth of the one before. */
  function ExactFraction(fraction: string, scale: real): real
    requires AllDigits(fraction)
  {
    if fraction == "" then 0.0
    else Worth(DigitValue(fraction[0]), scale / 10.0) + ExactFraction(fraction[1..], scale / 10.0)
  }

  /** `d` times a value, as a sum. */
  function Worth(d: nat, value: real): real {
    if d == 0 then 0.0 else value + Worth(d - 1, value)
  }

  /** The exact value of a component, in nanoseconds. */
  function Exact(cut: Cut): real {
    var point := PointAt(cut.number);
    var fraction := if point < |cut.number| then cut.number[point + 1..] else "";
    if NanosPer(cut.unit).None? then 0.0 else ExactAmount(cut.number[..point], fraction, NanosPer(cut.unit).value)
  }

  function ExactAmount(whole: string, fraction: string, per: nat): real {
    if !AllDigits(whole) || !AllDigits(fraction) then 0.0
    else (NumberOf(whole) * per) as real + ExactFraction(fraction, per as real)
  }

  function Sum(exact: Cut -> real, cuts: seq<Cut>): real {
    if cuts == [] then 0.0 else exact(cuts[0]) + Sum(exact, cuts[1..])
  }

  /** The scales met from a unit down: tenths are exact until 36 or a single digit is left. */
  predicate Scale(scale: nat) {
    scale < 10 || scale == 36 || (scale % 10 == 0 && Scale(scale / 10))
  }

  lemma UnitsAreScales(unit: string)
    requires NanosPer(unit).Some?
    ensures Scale(NanosPer(unit).value)
  {
    assert Scale(36) && Scale(360) && Scale(3600) && Scale(36_000) && Scale(360_000) && Scale(3_600_000);
    assert Scale(36_000_000) && Scale(360_000_000) && Scale(3_600_000_000) && Scale(36_000_000_000);
    assert Scale(360_000_000_000) && Scale(HOUR);
    assert Scale(10) && Scale(100) && Scale(MICRO) && Scale(10_000) && Scale(100_000) && Scale(MILLI);
    assert Scale(10_000_000) && Scale(100_000_000) && Scale(SECOND);
    assert Scale(60) && Scale(600) && Scale(6_000) && Scale(60_000) && Scale(600_000) && Scale(6_000_000);
    assert Scale(60_000_000) && Scale(600_000_000) && Scale(6_000_000_000) && Scale(MINUTE);
  }

  lemma {:induction false} SmallScale(fraction: string, scale: nat)
    requires AllDigits(fraction) && scale < 10
    ensures FractionNanos(fraction, scale) == 0
  {
    if fraction != "" {
      SmallScale(fraction[1..], scale / 10);
    }
  }

  lemma {:induction false} WorthBounds(d: nat, value: real)
    requires d < 10 && value >= 0.0
    ensures 0.0 <= Worth(d, value) <= Worth(9, value)
    decreases 9 - d
  {
    if d < 9 {
      WorthBounds(d + 1, value);
    }
    WorthPositive(d, value);
  }

  lemma {:induction false} WorthPositive(d: nat, value: real)
    requires value >= 0.0
    ensures 0.0 <= Worth(d, value)
  {
    if d > 0 {
      WorthPositive(d - 1, value);
    }
  }

  lemma NineTimes(value: real)
    ensures Worth(9, value) == 9.0 * value
  {
    assert Worth(1, value) == value + Worth(0, value) && Worth(2, value) == value + Worth(1, value);
    assert Worth(3, value) == value + Worth(2, value) && Worth(4, value) == value + Worth(3, value);
    assert Worth(5, value) == value + Worth(4, value) && Worth(6, value) == value + Worth(5, value);
    assert Worth(7, value) == value + Worth(6, value) && Worth(8, value) == value + Worth(7, value);
  }

  lemma {:induction false} WorthProduct(d: nat, value: nat)
    ensures Worth(d, value as real) == (d * value) as real
  {
    if d > 0 {
      WorthProduct(d - 1, value);
      assert d * value == value + (d - 1) * value;
    }
  }

  lemma {:induction false} FractionBounds(fraction: string, scale: real)
    requires AllDigits(fraction) && scale >= 0.0
    ensures 0.0 <= ExactFraction(fraction, scale) <= scale
  {
    if fraction != "" {
      WorthBounds(DigitValue(fraction[0]), scale / 10.0);
      NineTimes(scale / 10.0);
      FractionBounds(fraction[1..], scale / 10.0);
    }
  }

  predicate Short(exact: real, nanos: nat) { 0.0 <= exact - (nanos as real) < 10.0 }

  lemma {:induction false} LastTenth(d: nat)
    ensures Worth(d, 3.6) == (d * 3) as real + 0.6 * (d as real)
  {
    if d > 0 {
      LastTenth(d - 1);
    }
  }

  /** A fraction loses less than 10 ns, and never gains. */
  lemma {:induction false} FractionShortfall(fraction: string, scale: nat)
    requires AllDigits(fraction) && Scale(scale)
    ensures Short(ExactFraction(fraction, scale as real), FractionNanos(fraction, scale))
  {
    if scale < 10 {
      SmallScale(fraction, scale);
      FractionBounds(fraction, scale as real);
    } else if fraction != "" {
      if scale == 36 {
        SmallScale(fraction[1..], 3);
        FractionBounds(fraction[1..], 3.6);
        LastTenth(DigitValue(fraction[0]));
      } else {
        FractionShortfall(fraction[1..], scale / 10);
        WorthProduct(DigitValue(fraction[0]), scale / 10);
        assert scale as real / 10.0 == (scale / 10) as real;
      }
    }
  }

  lemma AmountShortfall(whole: string, fraction: string, per: nat)
    requires Amount(whole, fraction, per).Some? && Scale(per)
    ensures Short(ExactAmount(whole, fraction, per), Amount(whole, fraction, per).value)
  {
    FractionShortfall(fraction, per);
  }

  lemma ComponentShortfall(cut: Cut)
    ensures Close(Component, Exact, cut)
  {
    if Component(cut).Some? {
      var point := PointAt(cut.number);
      var fraction := if point < |cut.number| then cut.number[point + 1..] else "";
      UnitsAreScales(cut.unit);
      AmountShortfall(cut.number[..point], fraction, NanosPer(cut.unit).value);
    }
  }

  predicate Close(value: Valuation, exact: Cut -> real, cut: Cut) {
    value(cut).Some? ==> Short(exact(cut), value(cut).value)
  }

  lemma {:induction false} TotalShortfall(value: Valuation, exact: Cut -> real, cuts: seq<Cut>, total: nat)
    requires Total(value, cuts, total).Some? && forall cut :: Close(value, exact, cut)
    ensures forall i :: 0 <= i < |cuts| ==> value(cuts[i]).Some?
    ensures var short := Sum(exact, cuts) + (total as real) - (Total(value, cuts, total).value as real);
      0.0 <= short <= 10.0 * (|cuts| as real) && (cuts != [] ==> short < 10.0 * (|cuts| as real))
  {
    if cuts != [] {
      assert Close(value, exact, cuts[0]);
      TotalShortfall(value, exact, cuts[1..], total + value(cuts[0]).value);
    }
  }

  /**
    Whatever is accepted is `0` or a sequence of components, and its value
    never exceeds their exact sum and falls short of it by less than 10 ns
    for each.
  */
  lemma Shortfall(trimmed: string)
    requires Parsed(trimmed).Some?
    ensures Unsigned(trimmed) == "0" || Cuts(Unsigned(trimmed)).Some?
    ensures Unsigned(trimmed) != "0" ==>
      var cuts, nanos := Cuts(Unsigned(trimmed)).value, Parsed(trimmed).value as real;
      && (forall i :: 0 <= i < |cuts| ==> Component(cuts[i]).Some?)
      && nanos <= Sum(Exact, cuts) < nanos + 10.0 * (|cuts| as real)
  {
    if Unsigned(trimmed) != "0" {
      forall cut: Cut ensures Close(Component, Exact, cut) {
        ComponentShortfall(cut);
      }
      TotalShortfall(Component, Exact, Cuts(Unsigned(trimmed)).value, 0);
    }
  }

  // --------------------------------------------------------------- the loops

  function Outcome(value: Valuation, cuts: Option<seq<Cut>>, total: nat): Option<nat> {
    if cuts.None? then None else Total(value, cuts.value, total)
  }

  lemma OutcomeBefore(
    value: Valuation, cut: Cut, part: Option<nat>, cuts: Option<seq<Cut>>, more: Option<seq<Cut>>, total: nat)
    requires part == value(cut) && cuts == Before(cut, more)
    ensures part.None? || total + part.value >= TWO_128 ==> Outcome(value, cuts, total) == None
    ensures part.Some? && total + part.value < TWO_128
      ==> Outcome(value, cuts, total) == Outcome(value, more, total + part.value)
  {
    if more.Some? {
      assert cuts.value[1..] == more.value;
    }
  }

  /** The fraction's loop: the digits left, at the scale left, make up the rest of the part. */
  method AddFraction(whole: nat, fraction: string, per: nat) returns (r: Option<nat>)
    ensures r == if AllDigits(fraction) && whole + FractionNanos(fraction, per) < TWO_128
      then Some(whole + FractionNanos(fraction, per)) else None
  {
    var part, scale := whole, per;
    if part >= TWO_128 {
      return None;
    }
    for i := 0 to |fraction|
      invariant part < TWO_128
      invariant AllDigits(fraction[..i])
      invariant AllDigits(fraction[i..]) ==> AllDigits(fraction)
      invariant AllDigits(fraction[i..]) ==> part + FractionNanos(fraction[i..], scale) == whole + FractionNanos(fraction, per)
    {
      ghost var left := fraction[i..];
      assert left[1..] == fraction[i + 1..] && left[0] == fraction[i];
      if !IsDigit(fraction[i]) {
        return None;
      }
      assert AllDigits(fraction[i + 1..]) ==> AllDigits(left);
      scale := scale / 10;
      part := part + DigitValue(fraction[i]) * scale;
      if part >= TWO_128 {
        return None;
      }
    }
    return Some(part);
  }

  method ReadAmount(whole: string, fraction: string, per: nat) returns (r: Option<nat>)
    ensures r == Amount(whole, fraction, per)
  {
    if (whole == "" && fraction == "") || !AllDigits(whole) || NumberOf(whole) >= TWO_128 {
      return None;
    }
    r := AddFraction(NumberOf(whole) * per, fraction, per);
  }

  method ReadComponent(number: string, unit: string, ghost value: Valuation) returns (r: Option<nat>)
    requires Values(value)
    ensures r == value(Cut(number, unit))
  {
    assert value(Cut(number, unit)) == Component(Cut(number, unit));
    var per := NanosPer(unit);
    if per.None? {
      return None;
    }
    var point := PointAt(number);
    r := ReadAmount(number[..point], if point < |number| then number[point + 1..] else "", per.value);
  }

  method ReadHead(rest: string) returns (r: Option<(Cut, string)>)
    ensures r == Head(rest)
  {
    var n := NumberLength(rest);
    if n == |rest| {
      return None;
    }
    var after := rest[n..];
    var m := UnitLength(after);
    assert after[..m] == rest[n..n + m] && after[m..] == rest[n + m..];
    return Some((Cut(rest[..n], after[..m]), after[m..]));
  }

  lemma RoundStep(value: Valuation, rest: string, cut: Cut, next: string, part: Option<nat>, total: nat)
    requires rest != "" && Head(rest) == Some((cut, next)) && part == value(cut)
    ensures part.None? || total + part.value >= TWO_128 ==> Outcome(value, Cuts(rest), total) == None
    ensures part.Some? && total + part.value < TWO_128
      ==> Outcome(value, Cuts(rest), total) == Outcome(value, Cuts(next), total + part.value)
  {
    OutcomeBefore(value, cut, part, Cuts(rest), Cuts(next), total);
  }

  /** The loop over the components. */
  method AddComponents(text: string, ghost value: Valuation) returns (r: Option<nat>)
    requires Values(value)
    ensures r == Outcome(value, Cuts(text), 0)
  {
    var total: nat, rest := 0, text;
    while rest != ""
      invariant total < TWO_128
      invariant Outcome(value, Cuts(rest), total) == Outcome(value, Cuts(text), 0)
      decreases |rest|
    {
      var head := ReadHead(rest);
      if head.None? {
        return None;
      }
      var part := ReadComponent(head.value.0.number, head.value.0.unit, value);
      RoundStep(value, rest, head.value.0, head.value.1, part, total);
      if part.None? || total + part.value >= TWO_128 {
        return None;
      }
      total, rest := total + part.value, head.value.1;
    }
    return Some(total);
  }

  /** `parse_duration`. */
  method ParseDuration(s: string) returns (r: Option<nat>)
    ensures r == Parsed(Trim(s))
  {
    var text := Unsigned(Trim(s));
    if text == "0" {
      return Some(0);
    }
    if text == "" || text[0] == '-' {
      return None;
    }
    var total := AddComponents(text, Component);
    return if total.Some? && total.value < TWO_64 then total else None;
  }
}
