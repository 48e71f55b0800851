/**
 * Numbers as the core reads, prints, rounds and clamps them.
 *
 * Python's `float(text)` and `pandas.to_numeric(text, errors='coerce')` are modelled by
 * `ParseDecimal`: optional surrounding whitespace, an optional sign, and decimal digits
 * with at most one point. `round(x, n)` is modelled by half-up rounding to `n` decimal
 * places on exact reals.
 */
module Numbers {
  import opened Wrappers
  import opened Text

  function Pow10(n: nat): (r: nat)
    ensures r >= 1
  {
    if n == 0 then 1 else 10 * Pow10(n - 1)
  }

  function DigitValue(c: char): (d: nat)
    requires IsDigit(c)
    ensures d < 10
  {
    c as int - '0' as int
  }

  /** `int(d)` for a run of decimal digits: a number below `10^|d|`. */
  function DigitsValue(d: string): (r: nat)
    requires AllDigits(d)
    ensures r < Pow10(|d|)
  {
    if d == [] then 0 else DigitsValue(d[..|d| - 1]) * 10 + DigitValue(d[|d| - 1])
  }

  /** The value of the decimal text `ip.fp` (either part may be empty). */
  function DecimalValue(ip: string, fp: string): (r: real)
    requires AllDigits(ip) && AllDigits(fp)
    ensures DigitsValue(ip) as real <= r < DigitsValue(ip) as real + 1.0
  {
    FractionBelowOne(DigitsValue(fp) as real, Pow10(|fp|) as real);
    DigitsValue(ip) as real + DigitsValue(fp) as real / Pow10(|fp|) as real
  }

  lemma FractionBelowOne(a: real, b: real)
    requires 0.0 <= a < b
    ensures 0.0 <= a / b < 1.0
  {
    assert a / b * b == a;
    if a / b >= 1.0 {
      MulPositiveLe(1.0, a / b, b);
    }
  }

  /** An unsigned decimal: digits, optionally a point and more digits, at least one digit. */
  function ParseUnsigned(body: string): Option<real> {
    match IndexOf(body, ".")
    case None =>
      if body != [] && AllDigits(body) then Some(DigitsValue(body) as real) else None
    case Some(i) =>
      var ip := body[..i];
      var fp := body[i + 1..];
      if AllDigits(ip) && AllDigits(fp) && |ip| + |fp| >= 1 then Some(DecimalValue(ip, fp)) else None
  }

  /** `float(s)` for the decimal forms listed in the module comment. */
  function ParseDecimal(s: string): (r: Option<real>)
    ensures (forall k :: 0 <= k < |s| ==> !IsDigit(s[k])) ==> r.None?
  {
    var t := Strip(s);
    var signed := t != [] && (t[0] == '+' || t[0] == '-');
    var body := if signed then t[1..] else t;
    match ParseUnsigned(body)
    case None => None
    case Some(v) =>
      NoDigitNoNumber(s, t, body, signed);
      Some(if signed && t[0] == '-' then -v else v)
  }

  /** A text that parses holds a digit, and so does every text it is a piece of. */
  lemma NoDigitNoNumber(s: string, t: string, body: string, signed: bool)
    requires IsInfix(t, s)
    requires body == if signed && t != [] then t[1..] else t
    requires ParseUnsigned(body).Some?
    ensures exists k :: 0 <= k < |s| && IsDigit(s[k])
  {
    var d := DigitOf(body);
    var e := if signed && t != [] then d + 1 else d;
    assert e < |t| && t[e] == body[d];
    var j :| OccursAt(s, t, j);
    assert s[j..j + |t|][e] == s[j + e];
  }

  /** Where a text that parses as an unsigned decimal holds a digit. */
  lemma DigitOf(body: string) returns (d: nat)
    requires ParseUnsigned(body).Some?
    ensures d < |body| && IsDigit(body[d])
  {
    match IndexOf(body, ".")
    case None =>
      d := 0;
    case Some(i) =>
      if i > 0 {
        assert body[..i][0] == body[0];
        d := 0;
      } else {
        assert body[i + 1..][0] == body[i + 1];
        d := i + 1;
      }
  }

  lemma {:induction false} DigitsValueOfNat(n: nat)
    ensures DigitsValue(NatToString(n)) == n
  {
    if n >= 10 {
      DigitsValueOfNat(n / 10);
      var d := NatToString(n);
      assert d[..|d| - 1] == NatToString(n / 10);
    }
  }

  /** `float(str(n))` gives `n` back for every natural number. */
  lemma ParseNatToString(n: nat)
    ensures ParseDecimal(NatToString(n)) == Some(n as real)
  {
    var s := NatToString(n);
    DigitsValueOfNat(n);
    StripKeepsTrimmed(s);
    assert Strip(s) == s;
    assert !(s[0] == '+' || s[0] == '-');
    NoPointInDigits(s);
    assert ParseUnsigned(s) == Some(n as real);
  }

  /** A run of digits parses to its value. */
  lemma ParseDigitsText(d: string)
    requires d != [] && AllDigits(d)
    ensures ParseUnsigned(d) == Some(DigitsValue(d) as real)
  {
    NoPointInDigits(d);
  }

  /** Digits, a point and more digits parse to the decimal value they spell. */
  lemma ParsePointText(ip: string, fp: string)
    requires ip != [] && AllDigits(ip) && AllDigits(fp)
    ensures ParseUnsigned(ip + "." + fp) == Some(DecimalValue(ip, fp))
  {
    var t := ip + "." + fp;
    assert OccursAt(t, ".", |ip|);
    forall k | 0 <= k < |ip| ensures !OccursAt(t, ".", k) {
      assert t[k] == ip[k];
      assert t[k..k + 1] == [t[k]];
    }
    assert IndexOf(t, ".") == Some(|ip|);
    assert t[..|ip|] == ip;
    assert t[|ip| + 1..] == fp;
  }

  lemma NoPointInDigits(s: string)
    requires AllDigits(s)
    ensures IndexOf(s, ".").None?
  {
    forall i | 0 <= i ensures !OccursAt(s, ".", i) {
      if i + 1 <= |s| {
        assert s[i..i + 1][0] == s[i];
      }
    }
  }

  /** Python's `int(x)` on a float: truncation toward zero. */
  function TruncToInt(x: real): (r: int)
    ensures 0.0 <= x ==> 0 <= r && r as real <= x < r as real + 1.0
    ensures x < 0.0 ==> r <= 0 && r as real - 1.0 < x <= r as real
  {
    if x >= 0.0 then x.Floor else -((-x).Floor)
  }

  /** Python's `min(a, b)`: the first argument unless the second is smaller. */
  function Min(a: real, b: real): (r: real)
    ensures r <= a && r <= b && (r == a || r == b)
  {
    if b < a then b else a
  }

  /** Python's `max(a, b)`: the first argument unless the second is larger. */
  function Max(a: real, b: real): (r: real)
    ensures r >= a && r >= b && (r == a || r == b)
  {
    if b > a then b else a
  }

  /** `max(lo, min(hi, x))`: `x` clamped into `[lo, hi]`. */
  function Clamp(lo: real, hi: real, x: real): (r: real)
    requires lo <= hi
    ensures lo <= r <= hi
    ensures lo <= x <= hi ==> r == x
  {
    Max(lo, Min(hi, x))
  }

  /** `round(x, places)` counted in units of the last place, rounding halves upwards. */
  function RoundedUnits(x: real, places: nat): int {
    (x * Pow10(places) as real + 0.5).Floor
  }

  /** `round(x, places)`, rounding halves upwards. */
  function RoundTo(x: real, places: nat): real {
    RoundedUnits(x, places) as real / Pow10(places) as real
  }

  /** The rounded value is within half a unit of the last place. */
  lemma RoundToError(x: real, places: nat)
    ensures x - 1.0 / (2.0 * Pow10(places) as real) < RoundTo(x, places) <= x + 1.0 / (2.0 * Pow10(places) as real)
  {
    var p := Pow10(places) as real;
    var n := RoundedUnits(x, places);
    assert x * p - 0.5 < n as real <= x * p + 0.5;
    DivideBounds(x, p, n as real);
  }

  lemma DivideBounds(x: real, p: real, n: real)
    requires p >= 1.0
    requires x * p - 0.5 < n <= x * p + 0.5
    ensures x - 1.0 / (2.0 * p) < n / p <= x + 1.0 / (2.0 * p)
  {
    var q := 1.0 / p;
    assert n / p == n * q;
    ShiftScaled(x, p, -0.5);
    ShiftScaled(x, p, 0.5);
    MulPositive(x * p - 0.5, n, q);
    MulPositiveLe(n, x * p + 0.5, q);
  }

  /** Scaling `x * p + d` back by `p`. */
  lemma ShiftScaled(x: real, p: real, d: real)
    requires p >= 1.0 && (d == 0.5 || d == -0.5)
    ensures (x * p + d) * (1.0 / p) == x + d * 2.0 * (1.0 / (2.0 * p))
  {
    var q := 1.0 / p;
    assert p * q == 1.0;
    assert (x * p + d) * q == x * (p * q) + d * q;
    assert 1.0 / (2.0 * p) == q / 2.0;
  }

  lemma MulPositive(a: real, b: real, c: real)
    requires a < b && c > 0.0
    ensures a * c < b * c
  {
  }

  lemma MulPositiveLe(a: real, b: real, c: real)
    requires a <= b && c > 0.0
    ensures a * c <= b * c
  {
  }

  lemma DivMonotone(a: real, b: real, p: real)
    requires a <= b && p > 0.0
    ensures a / p <= b / p
  {
    assert a / p == a * (1.0 / p);
    assert b / p == b * (1.0 / p);
    MulPositiveLe(a, b, 1.0 / p);
  }

  lemma FloorBetween(y: real, lo: int, hi: int)
    requires lo as real + 0.5 <= y <= hi as real + 0.5
    ensures lo <= y.Floor <= hi
  {
  }

  /** A part of a whole, as a percentage, lies in `[0, 100]`. */
  lemma PercentOf(part: nat, total: nat)
    requires 0 < part <= total
    ensures 0.0 < part as real / total as real * 100.0 <= 100.0
  {
    var p, t := part as real, total as real;
    DivMonotone(p, t, t);
    assert t / t == 1.0 by {
      assert t != 0.0;
    }
    assert p / t > 0.0;
  }

  /** `round(x, places)` of a percentage in `[0, 100]` stays in `[0, 100]`. */
  lemma RoundPercent(x: real, places: nat)
    requires 0.0 <= x <= 100.0
    ensures 0.0 <= RoundTo(x, places) <= 100.0
  {
    var q := Pow10(places);
    UnitsWithin(x, q);
  }

  /** Rounding `x` in `[0, 100]` to units of `1/q` gives a value in `[0, 100]`. */
  lemma UnitsWithin(x: real, q: nat)
    requires 0.0 <= x <= 100.0 && q >= 1
    ensures var n := (x * q as real + 0.5).Floor; 0.0 <= n as real / q as real <= 100.0
  {
    ScaleWithin(x, q);
    FloorQuotient(x * q as real, q);
  }

  /** Scaling a percentage by `q` keeps it between `0` and `100 * q`. */
  lemma ScaleWithin(x: real, q: nat)
    requires 0.0 <= x <= 100.0 && q >= 1
    ensures 0.0 <= x * q as real <= (100 * q) as real
  {
    var p := q as real;
    assert (100 * q) as real == 100.0 * p;
    assert 100.0 * p - x * p == (100.0 - x) * p;
  }

  /** Rounding `y` in `[0, 100 * q]` to a whole number and dividing by `q` lands in `[0, 100]`. */
  lemma FloorQuotient(y: real, q: nat)
    requires q >= 1 && 0.0 <= y <= (100 * q) as real
    ensures var n := (y + 0.5).Floor; 0.0 <= n as real / q as real <= 100.0
  {
    FloorBetween(y + 0.5, 0, 100 * q);
    var n := (y + 0.5).Floor;
    QuotientWithin(n as real, q as real, 100.0);
  }

  /** A quotient by a positive number keeps the bounds of the dividend, scaled. */
  lemma QuotientWithin(n: real, p: real, hi: real)
    requires p > 0.0 && 0.0 <= n <= hi * p
    ensures 0.0 <= n / p <= hi
  {
    var r := n / p;
    assert r * p == n;
  }
}
