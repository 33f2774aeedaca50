/** The widget's two formatting helpers: `formatFileSize` (a byte count as a
    number with at most two decimals and a unit) and `formatTime` (hours and
    minutes as `HH:MM`). Both are computed here with exact integers. */
module Format {
  import opened Wrappers
  import opened JsText

  /** `k` in `formatFileSize`. */
  const Kilo: nat := 1024

  /** `sizes` in `formatFileSize`; an index past its end reads `undefined`. */
  const SizeUnits: seq<string> := ["Bytes", "KB", "MB", "GB"]

  function Pow(b: nat, e: nat): (r: nat)
    ensures b >= 1 ==> r >= 1
  {
    if e == 0 then 1 else b * Pow(b, e - 1)
  }

  /** `Math.floor(Math.log(bytes) / Math.log(k))` computed exactly: the unit
      tier of a positive byte count. */
  function Tier(bytes: nat): (i: nat)
    requires bytes >= 1
    ensures Pow(Kilo, i) <= bytes < Pow(Kilo, i + 1)
  {
    if bytes < Kilo then 0
    else
      var j := Tier(bytes / Kilo);
      assert Pow(Kilo, j + 1) == Kilo * Pow(Kilo, j);
      assert Pow(Kilo, j + 2) == Kilo * Pow(Kilo, j + 1);
      DivBounds(bytes, Pow(Kilo, j), Pow(Kilo, j + 1));
      1 + j
  }

  /** `lo <= b / 1024 < hi` scales to `1024 * lo <= b < 1024 * hi`. */
  lemma DivBounds(b: nat, lo: nat, hi: nat)
    requires lo <= b / Kilo < hi
    ensures Kilo * lo <= b < Kilo * hi
  {
    var q := b / Kilo;
    assert b == Kilo * q + b % Kilo;
    assert Kilo * lo <= Kilo * q;
    assert q + 1 <= hi;
    assert Kilo * (q + 1) <= Kilo * hi;
  }

  /** The tier is the only one whose range holds the byte count. */
  lemma TierUnique(bytes: nat, i: nat)
    requires bytes >= 1
    requires Pow(Kilo, i) <= bytes < Pow(Kilo, i + 1)
    ensures Tier(bytes) == i
  {
    var t := Tier(bytes);
    if t < i { PowMonotone(t + 1, i); }
    if i < t { PowMonotone(i + 1, t); }
  }

  lemma {:induction false} PowMonotone(a: nat, b: nat)
    requires a <= b
    ensures Pow(Kilo, a) <= Pow(Kilo, b)
  {
    if a < b {
      PowMonotone(a, b - 1);
      assert Pow(Kilo, b) == Kilo * Pow(Kilo, b - 1);
    }
  }

  /** `Math.round(bytes / Math.pow(k, i) * 100)`: the value in hundredths of
      the unit, rounded half up. */
  function Hundredths(bytes: nat, i: nat): nat {
    (200 * bytes + Pow(Kilo, i)) / (2 * Pow(Kilo, i))
  }

  /** Whole-number division bounds the quotient from both sides. */
  lemma DivBracket(n: nat, d: nat)
    requires d > 0
    ensures d * (n / d) <= n < d * (n / d) + d
  {
  }

  /** A quotient is at least `k` when the dividend is, and below `k + 1`
      when the dividend is below the next multiple. */
  lemma QuotientBetween(n: nat, d: nat, lo: nat, hi: nat)
    requires d > 0 && d * lo <= n < d * hi
    ensures lo <= n / d < hi
  {
    DivBracket(n, d);
    var q := n / d;
    if q < lo { MulMonotone(d, q + 1, lo); }
    if q >= hi { MulMonotone(d, hi, q); }
  }

  lemma MulMonotone(d: nat, a: nat, b: nat)
    requires a <= b
    ensures d * a <= d * b
  {
  }

  /** Rounding `100 * bytes / p` half up, for a byte count between `p` and
      `1024 * p`. */
  lemma RoundingBounds(bytes: nat, p: nat)
    requires 1 <= p <= bytes < Kilo * p
    ensures var h := (200 * bytes + p) / (2 * p);
      && 2 * p * h <= 200 * bytes + p < 2 * p * (h + 1)
      && 100 <= h <= 102400
  {
    var n := 200 * bytes + p;
    var d := 2 * p;
    DivBracket(n, d);
    assert d * 100 <= n by {
      MulMonotone(200, p, bytes);
    }
    assert n < d * 102401 by {
      assert bytes + 1 <= Kilo * p;
      MulMonotone(200, bytes + 1, Kilo * p);
    }
    QuotientBetween(n, d, 100, 102401);
  }

  /** The hundredths are the nearest whole number to 100 * bytes / 1024^i,
      a tie going up; in the byte count's own tier they lie in [100, 102400]. */
  lemma HundredthsRounding(bytes: nat)
    requires bytes >= 1
    ensures var p, h := Pow(Kilo, Tier(bytes)), Hundredths(bytes, Tier(bytes));
      && 2 * p * h <= 200 * bytes + p < 2 * p * (h + 1)
      && 100 <= h <= 102400
  {
    var p := Pow(Kilo, Tier(bytes));
    assert Pow(Kilo, Tier(bytes) + 1) == Kilo * p;
    RoundingBounds(bytes, p);
  }

  /** The fraction digits JavaScript prints for `h / 100`: none when the
      value is whole, and no trailing zero otherwise. */
  function FractionDigits(h: nat): (f: string)
    ensures |f| <= 2 && IsDigits(f)
    ensures f != "" ==> f[|f| - 1] != '0'
  {
    if h % 100 == 0 then ""
    else if h % 10 == 0 then [DigitChar(h / 10 % 10)]
    else [DigitChar(h / 10 % 10), DigitChar(h % 10)]
  }

  /** How `h / 100` prints as a JavaScript number. */
  function HundredthsText(h: nat): string {
    var f := FractionDigits(h);
    ToDecimal(h / 100) + (if f == "" then "" else "." + f)
  }

  function Pow10(e: nat): nat {
    if e == 0 then 1 else 10 * Pow10(e - 1)
  }

  lemma DecimalValueSnoc(a: string, c: char)
    ensures DecimalValue(a + [c]) == 10 * DecimalValue(a) + DigitValue(c)
  {
    assert (a + [c])[..|a|] == a;
  }

  /** The decimal digits of a number of hundredths. */
  lemma HundredthsDigits(h: nat)
    ensures h == 100 * (h / 100) + 10 * (h / 10 % 10) + h % 10
    ensures h % 100 == 0 <==> h / 10 % 10 == 0 && h % 10 == 0
  {
  }

  /** The printed number denotes exactly `h / 100`: its digits, with the
      point removed, read as `h` scaled down by the dropped trailing zeros. */
  lemma HundredthsTextDenotes(h: nat)
    ensures var f := FractionDigits(h);
      DecimalValue(ToDecimal(h / 100) + f) * Pow10(2 - |f|) == h
  {
    var ip, f := ToDecimal(h / 100), FractionDigits(h);
    var q, t, u := h / 100, h / 10 % 10, h % 10;
    HundredthsDigits(h);
    ToDecimalRoundTrip(q);
    if h % 100 == 0 {
      assert f == [];
      ScaleWhole(ip, q);
    } else if h % 10 == 0 {
      assert f == [DigitChar(t)];
      ScaleTenths(ip, q, t);
    } else {
      assert f == [DigitChar(t), DigitChar(u)];
      ScaleHundredths(ip, q, t, u);
    }
  }

  lemma ScaleWhole(ip: string, q: nat)
    requires DecimalValue(ip) == q
    ensures DecimalValue(ip + []) * Pow10(2) == 100 * q
  {
    assert ip + [] == ip;
    assert Pow10(2) == 100 by { assert Pow10(1) == 10; }
  }

  lemma ScaleTenths(ip: string, q: nat, t: nat)
    requires DecimalValue(ip) == q && t < 10
    ensures DecimalValue(ip + [DigitChar(t)]) * Pow10(1) == 100 * q + 10 * t
  {
    DigitRoundTrip(t);
    DecimalValueSnoc(ip, DigitChar(t));
    assert Pow10(1) == 10 by { assert Pow10(0) == 1; }
  }

  lemma ScaleHundredths(ip: string, q: nat, t: nat, u: nat)
    requires DecimalValue(ip) == q && t < 10 && u < 10
    ensures DecimalValue(ip + [DigitChar(t), DigitChar(u)]) * Pow10(0) == 100 * q + 10 * t + u
  {
    DigitRoundTrip(t);
    DigitRoundTrip(u);
    DecimalValueSnoc(ip, DigitChar(t));
    DecimalValueSnoc(ip + [DigitChar(t)], DigitChar(u));
    assert ip + [DigitChar(t), DigitChar(u)] == (ip + [DigitChar(t)]) + [DigitChar(u)];
  }

  /** `sizes[i]` as string concatenation reads it. */
  function UnitName(i: nat): string {
    if i < |SizeUnits| then SizeUnits[i] else "undefined"
  }

  /** `formatFileSize(bytes)` for a byte count. */
  function FormatFileSize(bytes: nat): string {
    if bytes == 0 then "0 Bytes"
    else
      var i := Tier(bytes);
      HundredthsText(Hundredths(bytes, i)) + " " + UnitName(i)
  }

  /** `formatFileSize(size)` where `size` may be `undefined`: every step of
      the arithmetic yields `NaN` and `sizes[NaN]` is `undefined`. */
  function SizeText(size: Option<nat>): string {
    match size
    case None => "NaN undefined"
    case Some(b) => FormatFileSize(b)
  }

  /** A positive byte count below 1024^4 is printed with the unit of its tier:
      the one unit `u` of the list with 1024^i <= bytes < 1024^(i+1). */
  lemma FormatFileSizeUnit(bytes: nat)
    requires 1 <= bytes < Pow(Kilo, 4)
    ensures exists i :: (0 <= i < |SizeUnits| && Pow(Kilo, i) <= bytes < Pow(Kilo, i + 1)
      && FormatFileSize(bytes) == HundredthsText(Hundredths(bytes, i)) + " " + SizeUnits[i])
  {
    var i := Tier(bytes);
    if i >= 4 { PowMonotone(4, i); }
  }

  /** The figures the widget's size label is expected to show: a zero, a
      fraction of a kilobyte and a whole megabyte. */
  lemma FormatFileSizeExamples()
    ensures FormatFileSize(0) == "0 Bytes"
    ensures FormatFileSize(1536) == "1.5 KB"
    ensures FormatFileSize(1048576) == "1 MB"
  {
    KilobyteAndAHalf();
    OneMegabyte();
  }

  lemma KilobyteAndAHalf()
    ensures FormatFileSize(1536) == "1.5 KB"
  {
    assert Pow(Kilo, 1) == 1024 && Pow(Kilo, 2) == 1048576;
    TierUnique(1536, 1);
    var h := Hundredths(1536, 1);
    assert h == 150;
    assert HundredthsText(h) == "1.5" by {
      assert FractionDigits(150) == "5" && ToDecimal(1) == "1";
    }
  }

  lemma OneMegabyte()
    ensures FormatFileSize(1048576) == "1 MB"
  {
    assert Pow(Kilo, 2) == 1048576 && Pow(Kilo, 3) == 1073741824;
    TierUnique(1048576, 2);
    var h := Hundredths(1048576, 2);
    assert h == 100;
    assert HundredthsText(h) == "1" by {
      assert FractionDigits(100) == "" && ToDecimal(1) == "1";
    }
  }

  /** `padStart(2, '0')` of a number below 100. */
  function TwoDigits(n: nat): (r: string)
    requires n < 100
    ensures |r| == 2 && IsDigits(r)
  {
    PadStart(ToDecimal(n), 2, '0')
  }

  /** The two digits read back as the number they print. */
  lemma TwoDigitsValue(n: nat)
    requires n < 100
    ensures DecimalValue(TwoDigits(n)) == n
  {
    ToDecimalRoundTrip(n);
    if n < 10 {
      ZeroPadValue(ToDecimal(n));
    }
  }

  /** Cutting `x + [c] + y` around `c` gives back its pieces. */
  lemma AroundChar(x: string, c: char, y: string)
    ensures (x + [c] + y)[..|x|] == x && (x + [c] + y)[|x|] == c && (x + [c] + y)[|x| + 1..] == y
  {
  }

  /** `formatTime(date)` for the hours and minutes `date` holds: two digits,
      a colon, two digits. */
  function FormatTime(hours: nat, minutes: nat): (r: string)
    requires hours < 24 && minutes < 60
    ensures |r| == 5 && r[2] == ':' && IsDigits(r[..2]) && IsDigits(r[3..])
  {
    var hh, mm := TwoDigits(hours), TwoDigits(minutes);
    AroundChar(hh, ':', mm);
    hh + ":" + mm
  }

  /** The digits before the colon read as the hours, those after it as the
      minutes. */
  lemma FormatTimeValue(hours: nat, minutes: nat)
    requires hours < 24 && minutes < 60
    ensures DecimalValue(FormatTime(hours, minutes)[..2]) == hours
    ensures DecimalValue(FormatTime(hours, minutes)[3..]) == minutes
  {
    var hh, mm := TwoDigits(hours), TwoDigits(minutes);
    AroundChar(hh, ':', mm);
    TwoDigitsValue(hours);
    TwoDigitsValue(minutes);
  }
}
