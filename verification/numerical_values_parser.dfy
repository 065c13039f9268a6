/**
 * scraper/jobs_to_csv/job_parser/_numerical_values_parser.py: string
 * values that read as non-negative numbers become ints or floats, and
 * strings that read as a percentage in [0, 1] become that number / 100.
 */
module NumericalValuesParser {
  import opened Wrappers
  import opened PyValues
  import opened Records
  import opened JobDicts
  import opened Text

  function Pow10(n: nat): (p: nat)
    ensures p >= 1
  {
    if n == 0 then 1 else 10 * Pow10(n - 1)
  }

  /**
   * The number a decimal literal spells, kept exact: `mantissa / 10^scale`.
   * `float` rounds this to binary; the model keeps the exact value.
   */
  datatype Decimal = Decimal(mantissa: int, scale: nat)

  /** The real number a decimal stands for. */
  function ToReal(d: Decimal): real
  {
    d.mantissa as real / Pow10(d.scale) as real
  }

  /** An unsigned decimal: digits, or digits '.' digits, with at least one digit in all. */
  function ParseUnsigned(u: string): Option<Decimal>
  {
    match Find(u, ".")
    case None =>
      if IsDigits(u) then Some(Decimal(DigitsValue(u), 0)) else None
    case Some(i) =>
      var whole, frac := u[..i], u[i + 1..];
      if AllDigits(whole) && AllDigits(frac) && (whole != [] || frac != []) then
        Some(Decimal(DigitsValue(whole + frac), |frac|))
      else None
  }

  /** An optionally signed decimal. */
  function ParseDecimal(t: string): Option<Decimal>
  {
    if t != [] && t[0] == '+' then ParseUnsigned(t[1..])
    else if t != [] && t[0] == '-' then
      match ParseUnsigned(t[1..])
      case None => None
      case Some(d) => Some(Decimal(-d.mantissa, d.scale))
    else ParseUnsigned(t)
  }

  /** Python `float(s)` on decimal notation: surrounding whitespace is ignored; None is ValueError. */
  function PyFloat(s: string): Option<Decimal>
  {
    ParseDecimal(Strip(s))
  }

  /**
   * `_is_number`: `float` accepts the string. Every digit string is a
   * number, and no number ends in '%' once stripped.
   */
  predicate IsNumber(s: string): (b: bool)
    ensures IsDigits(s) ==> b
    ensures b ==> Strip(s) != [] && !EndsWith(Strip(s), "%")
  {
    NumberShape(s);
    PyFloat(s).Some?
  }

  /** `_is_positive_number`: a number whose value is at least 0; every digit string is one. */
  predicate IsPositiveNumber(s: string): (b: bool)
    ensures b <==> IsNumber(s) && ToReal(PyFloat(s).value) >= 0.0
    ensures IsDigits(s) ==> b
  {
    NumberShape(s);
    if IsNumber(s) then
      NonNegativeIff(PyFloat(s).value);
      PyFloat(s).value.mantissa >= 0
    else false
  }

  /** A digit string parses as its own value; anything that parses is non-empty once stripped and does not end in '%'. */
  lemma NumberShape(s: string)
    ensures IsDigits(s) ==> PyFloat(s) == Some(Decimal(DigitsValue(s), 0))
    ensures PyFloat(s).Some? ==> Strip(s) != [] && !EndsWith(Strip(s), "%")
  {
    if IsDigits(s) {
      DigitsParse(s);
    }
    if PyFloat(s).Some? {
      var t := Strip(s);
      ParsedEnding(t);
      assert EndsWith(t, "%") ==> t[|t| - 1] == '%' by {
        assert t[|t| - 1..] == [t[|t| - 1]];
      }
    }
  }

  /** The sign test on the exact value agrees with `float(s) >= 0`. */
  lemma NonNegativeIff(d: Decimal)
    ensures d.mantissa >= 0 <==> ToReal(d) >= 0.0
  {
  }

  /**
   * `_get_percent_value`: strip, drop one trailing '%', then `float`;
   * None is ValueError. For a string that reads as a number, the percent
   * reading is that same number (not the number / 100).
   */
  function GetPercentValue(s: string): (r: Option<Decimal>)
    ensures PyFloat(s).Some? ==> r == PyFloat(s)
  {
    var t := Strip(s);
    StripIdempotent(s);
    assert PyFloat(s).Some? ==> IsNumber(s) && !EndsWith(t, "%");
    if EndsWith(t, "%") then PyFloat(t[..|t| - 1]) else PyFloat(t)
  }

  /** `_is_percent_valid`: `0.0 <= value <= 1.0`, tested on the exact value's integer form. */
  predicate IsPercentValid(d: Decimal): (b: bool)
    ensures b <==> 0.0 <= ToReal(d) <= 1.0
  {
    DivBounds(d.mantissa as real, Pow10(d.scale) as real);
    0 <= d.mantissa <= Pow10(d.scale)
  }

  lemma DivBounds(m: real, p: real)
    requires p > 0.0
    ensures 0.0 <= m / p <==> 0.0 <= m
    ensures m / p <= 1.0 <==> m <= p
  {
    var x := m / p;
    assert x * p == m;
    if x < 0.0 { assert x * p < 0.0; }
    if x > 1.0 { assert x * p > 1.0 * p; }
    if m > p { assert x * p > p; }
  }

  /**
   * `_is_percent_value`: the percent value parses and is valid; a
   * ValueError reads as false. A number string is a percent value exactly
   * when its value lies in [0, 1].
   */
  predicate IsPercentValue(s: string): (b: bool)
    ensures b <==> GetPercentValue(s).Some? && 0.0 <= ToReal(GetPercentValue(s).value) <= 1.0
    ensures IsNumber(s) ==> (b <==> 0.0 <= ToReal(PyFloat(s).value) <= 1.0)
  {
    match GetPercentValue(s)
    case None => false
    case Some(d) => IsPercentValid(d)
  }

  /** Dividing by 100 shifts the decimal point two places. */
  function Hundredth(d: Decimal): (h: Decimal)
    ensures ToReal(h) == ToReal(d) / 100.0
  {
    var h := Decimal(d.mantissa, d.scale + 2);
    assert Pow10(d.scale + 2) == 100 * Pow10(d.scale);
    h
  }

  /** `_percent_string_to_float`: ValueError unless the value parses and lies in [0, 1]; then value / 100. */
  function PercentStringToFloat(s: string): (r: Result<Decimal, PyError>)
    ensures r.Success? <==> IsPercentValue(s)
    ensures r.Failure? ==> r.error == ValueError
  {
    match GetPercentValue(s)
    case None => Failure(ValueError)
    case Some(d) => if IsPercentValid(d) then Success(Hundredth(d)) else Failure(ValueError)
  }

  /** Whatever `_percent_string_to_float` returns lies between 0.0 and 0.01. */
  lemma PercentResultRange(s: string)
    requires PercentStringToFloat(s).Success?
    ensures 0.0 <= ToReal(PercentStringToFloat(s).value) <= 0.01
  {
  }

  /**
   * What `parse_numerical_values` stores for one string value: a digit
   * string becomes its int, any stored number is at least 0, and a string
   * that is not converted is stored back as it was.
   */
  function CoerceString(s: string): (v: Value)
    ensures IsDigits(s) ==> v == Int(DigitsValue(s))
    ensures v.Int? ==> IsDigits(s)
    ensures v.Num? ==> v.r >= 0.0
    ensures v.Str? ==> v == Str(s)
    ensures v.Int? || v.Num? || v.Str?
  {
    if IsPositiveNumber(s) then
      if IsDigits(s) then Int(DigitsValue(s)) else Num(ToReal(PyFloat(s).value))
    else if IsPercentValue(s) then Num(ToReal(PercentStringToFloat(s).value))
    else Str(s)
  }

  /** What `parse_numerical_values` stores for any value: only strings are touched. */
  function CoerceValue(v: Value): (w: Value)
    ensures !v.Str? ==> w == v
  {
    if v.Str? then CoerceString(v.s) else v
  }

  /** The record after `parse_numerical_values`: same keys, each value coerced. */
  function CoerceNumbers(r: Record): (res: Record)
    ensures Keys(res) == Keys(r)
    ensures forall i :: 0 <= i < |r| ==> res[i].1 == CoerceValue(r[i].1)
  {
    MapValuesKeys(r, CoerceValue);
    MapValues(r, CoerceValue)
  }

  /** `parse_numerical_values(job)`: coerces every string value in place. */
  method ParseNumericalValues(job: JobDict)
    requires job.Valid()
    modifies job
    ensures job.Valid() && job.items == CoerceNumbers(old(job.items))
  {
    ghost var before := job.items;
    var i := 0;
    while i < |job.items|
      invariant 0 <= i <= |job.items| == |before|
      invariant job.Valid()
      invariant job.items == MapValues(before[..i], CoerceValue) + before[i..]
    {
      var (key, value) := job.items[i];
      MapValuesStep(before, CoerceValue, i);
      if value.Str? {
        var s := value.s;
        var converted := value;
        if IsPositiveNumber(s) {
          if IsDigits(s) {
            converted := Int(DigitsValue(s));
          } else {
            converted := Num(ToReal(PyFloat(s).value));
          }
        } else if IsPercentValue(s) {
          var pct := PercentStringToFloat(s);
          converted := Num(ToReal(pct.value));
        }
        // storing the unchanged string back is a no-op for the dict
        assert converted == CoerceValue(value);
        AssignAtIndex(job.items, i, converted);
        job.Set(key, converted);
      }
      i := i + 1;
    }
    MapValuesDone(before, CoerceValue);
  }

  /** Digits-only strings parse as that natural number under `float`. */
  lemma {:induction false} DigitsParse(s: string)
    requires IsDigits(s)
    ensures PyFloat(s) == Some(Decimal(DigitsValue(s), 0))
  {
    StripTrimmed(s);
    forall k | 0 <= k ensures !OccursAt(s, ".", k) {
      if k + 1 <= |s| {
        assert s[k..k + 1] == [s[k]];
      }
    }
    NotContains(s, ".");
  }

  /** A digits-only string becomes the int it spells. */
  lemma DigitStringBecomesInt(s: string)
    requires IsDigits(s)
    ensures CoerceString(s) == Int(DigitsValue(s))
  {
    DigitsParse(s);
  }

  /** Any other non-negative number becomes the float it spells. */
  lemma NonNegativeNumberBecomesFloat(s: string, d: Decimal)
    requires PyFloat(s) == Some(d) && ToReal(d) >= 0.0 && !IsDigits(s)
    ensures CoerceString(s) == Num(ToReal(d))
  {
    NonNegativeIff(d);
  }

  /** The last character of anything `ParseUnsigned` accepts is a digit or the point. */
  lemma UnsignedEnding(u: string)
    requires ParseUnsigned(u).Some?
    ensures u != [] && (IsDigit(u[|u| - 1]) || u[|u| - 1] == '.')
  {
    match Find(u, ".")
    case None =>
    case Some(i) =>
      assert OccursAt(u, ".", i);
      var frac := u[i + 1..];
      if frac == [] {
        assert u[i..i + 1][0] == u[i];
      } else {
        assert u[|u| - 1] == frac[|frac| - 1];
      }
  }

  /** The last character of anything `ParseDecimal` accepts is a digit or the point, never '%'. */
  lemma ParsedEnding(t: string)
    requires ParseDecimal(t).Some?
    ensures t != [] && (IsDigit(t[|t| - 1]) || t[|t| - 1] == '.')
  {
    if t != [] && (t[0] == '+' || t[0] == '-') {
      UnsignedEnding(t[1..]);
      assert t[|t| - 1] == t[1..][|t[1..]| - 1];
    } else {
      UnsignedEnding(t);
    }
  }

  /** A negative number is left as a string: the percent check sees the same negative value. */
  lemma NegativeNumberStaysString(s: string, d: Decimal)
    requires PyFloat(s) == Some(d) && ToReal(d) < 0.0
    ensures CoerceString(s) == Str(s)
  {
    NonNegativeIff(d);
  }

  /** Whatever the percent branch stores lies between 0.0 and 0.01 (a valid value, divided by 100). */
  lemma PercentBranchRange(s: string)
    requires !IsPositiveNumber(s) && IsPercentValue(s)
    ensures CoerceString(s).Num? && 0.0 <= CoerceString(s).r <= 0.01
  {
    PercentResultRange(s);
  }

  /** A whole number followed by '%' has no point and is not all digits, so `float` rejects it. */
  lemma {:induction false} WholePercentNotNumber(d: string)
    requires IsDigits(d)
    ensures Strip(d + "%") == d + "%"
    ensures !IsNumber(d + "%")
  {
    var s := d + "%";
    assert s[0] == d[0] && s[|s| - 1] == '%';
    StripTrimmed(s);
    forall k | 0 <= k ensures !OccursAt(s, ".", k) {
      if k + 1 <= |s| {
        assert s[k..k + 1] == [s[k]];
        if k < |d| { assert s[k] == d[k]; }
      }
    }
    NotContains(s, ".");
  }

  /** Its percent value is the whole number. */
  lemma WholePercent(d: string)
    requires IsDigits(d)
    ensures !IsNumber(d + "%")
    ensures GetPercentValue(d + "%") == Some(Decimal(DigitsValue(d), 0))
  {
    WholePercentNotNumber(d);
    var s := d + "%";
    assert EndsWith(s, "%");
    assert s[..|s| - 1] == d;
    DigitsParse(d);
  }

  /** A string `float` rejects is stored as its percent value / 100 when that lies in [0, 1], else kept. */
  lemma PercentBranchValue(s: string, d: Decimal)
    requires !IsNumber(s) && GetPercentValue(s) == Some(d)
    ensures IsPercentValid(d) ==> CoerceString(s) == Num(ToReal(d) / 100.0)
    ensures !IsPercentValid(d) ==> CoerceString(s) == Str(s)
  {
  }

  /**
   * A whole percentage is stored as number / 100 only for "0%" and "1%";
   * any larger one ("92%") fails the [0, 1] check and stays a string.
   */
  lemma WholePercentExamples(d: string)
    requires IsDigits(d)
    ensures DigitsValue(d) <= 1 ==> CoerceString(d + "%") == Num(DigitsValue(d) as real / 100.0)
    ensures DigitsValue(d) > 1 ==> CoerceString(d + "%") == Str(d + "%")
  {
    WholePercent(d);
    PercentBranchValue(d + "%", Decimal(DigitsValue(d), 0));
  }

  /** A string that strips to `t` followed by '%' reads as `float(t)`. */
  lemma PercentSuffix(s: string, t: string)
    requires Strip(s) == t + "%"
    ensures GetPercentValue(s) == PyFloat(t)
  {
    var u := Strip(s);
    assert EndsWith(u, "%") by {
      assert u[|u| - 1..] == "%";
    }
    assert u[..|u| - 1] == t;
  }

  /** "<digits>.<digits>" parses as the exact decimal its digits spell. */
  lemma PointParse(w: string, f: string)
    requires IsDigits(w) && IsDigits(f)
    ensures PyFloat(w + "." + f) == Some(Decimal(DigitsValue(w + f), |f|))
  {
    var u := w + "." + f;
    assert u[0] == w[0] && u[|u| - 1] == f[|f| - 1];
    StripTrimmed(u);
    assert OccursAt(u, ".", |w|) by {
      assert u[|w|..|w| + 1] == ".";
    }
    forall k | 0 <= k < |w| ensures !OccursAt(u, ".", k) {
      assert u[k..k + 1] == [w[k]];
    }
    FindFirst(u, ".", |w|);
    assert u[..|w|] == w && u[|w| + 1..] == f;
  }

  /**
   * A decimal percentage "<digits>.<digits>%" is not a number, so the
   * percent branch decides it: its value / 100 when the value lies in
   * [0, 1], otherwise the string is kept.
   */
  lemma PercentOfDecimal(w: string, f: string)
    requires IsDigits(w) && IsDigits(f)
    ensures var d := Decimal(DigitsValue(w + f), |f|);
            (IsPercentValid(d) ==> CoerceString(w + "." + f + "%") == Num(ToReal(d) / 100.0))
            && (!IsPercentValid(d) ==> CoerceString(w + "." + f + "%") == Str(w + "." + f + "%"))
  {
    var s := w + "." + f + "%";
    assert s[0] == w[0] && s[|s| - 1] == '%';
    StripTrimmed(s);
    assert EndsWith(Strip(s), "%") by {
      assert s[|s| - 1..] == "%";
    }
    PercentSuffix(s, w + "." + f);
    PointParse(w, f);
    PercentBranchValue(s, Decimal(DigitsValue(w + f), |f|));
  }

  /** "0.5%" reads as 0.5, which lies in [0, 1], so it becomes 0.005. */
  lemma DecimalPercentExamples()
    ensures CoerceString("0.5%") == Num(0.005)
  {
    HalfPercent("0", "5");
    assert "0" + "." + "5" + "%" == "0.5%";
  }

  /** "w.f%" with w = "0" and f = "5" becomes 0.005. */
  lemma HalfPercent(w: string, f: string)
    requires w == "0" && f == "5"
    ensures CoerceString(w + "." + f + "%") == Num(0.005)
  {
    FiveTenths();
    PercentOfDecimal(w, f);
  }

  /** The digits "0" and "5" after a point spell 0.5, a valid percent value. */
  lemma FiveTenths()
    ensures DigitsValue("0" + "5") == 5 && |"5"| == 1
    ensures ToReal(Decimal(5, 1)) == 0.5 && IsPercentValid(Decimal(5, 1))
    ensures ToReal(Decimal(5, 1)) / 100.0 == 0.005
  {
    TwoDigitValue('0', '5');
    assert Pow10(1) == 10;
  }

  /** "2.5%" reads as 2.5, outside [0, 1], so the string is kept. */
  lemma DecimalPercentOutOfRange()
    ensures CoerceString("2.5%") == Str("2.5%")
  {
    PercentOfDecimal("2", "5");
    assert "2" + "." + "5" + "%" == "2.5%";
    TwoDigitValue('2', '5');
  }

  lemma TwoDigitValue(a: char, b: char)
    requires '0' <= a <= '9' && '0' <= b <= '9'
    ensures DigitsValue([a] + [b]) == 10 * (a as int - '0' as int) + (b as int - '0' as int)
  {
    assert ([a] + [b])[..1] == [a];
    assert DigitsValue([a]) == a as int - '0' as int by {
      assert [a][..0] == [];
    }
  }
}
