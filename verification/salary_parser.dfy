/**
 * scraper/jobs_to_csv/job_parser/_salary_parser.py: the "Salary" column
 * ("$51K - $81K (Glassdoor est.)", "Employer Provided Salary:$200K -
 * $300K") is replaced, at its own position, by four derived columns:
 * the low and high ends of the first pay-scale range, its currency, and
 * whether the employer provided the figure.
 */
module SalaryParser {
  import opened Wrappers
  import opened PyValues
  import opened Records
  import opened Text
  import opened JobDicts

  const SalaryColumn := "Salary"
  const LowColumn := "Salary_low"
  const HighColumn := "Salary_high"
  const CurrencyColumn := "Currency"
  const ProvidedColumn := "Salary_provided"
  const RangeSeparator := " - "

  // ---------------------------------------------------------------------
  // The pay-scale pattern `\$\d+[Kk]? - \$\d+[Kk]?`
  // ---------------------------------------------------------------------

  /** The length of the run of digits that starts at `i` (`\d+` is greedy). */
  function DigitRun(s: string, i: nat): (n: nat)
    requires i <= |s|
    decreases |s| - i
    ensures i + n <= |s|
    ensures forall j :: i <= j < i + n ==> IsDigit(s[j])
    ensures i + n == |s| || !IsDigit(s[i + n])
  {
    if i < |s| && IsDigit(s[i]) then 1 + DigitRun(s, i + 1) else 0
  }

  predicate IsKiloMark(c: char)
  {
    c == 'K' || c == 'k'
  }

  /** The optional thousands mark after the digits of one side. */
  predicate IsKiloSuffix(k: string)
  {
    k == "" || k == "K" || k == "k"
  }

  /**
   * Where one side `\$\d+[Kk]?` matched at `i` ends: a dollar sign, the
   * maximal run of at least one digit, and a K or k when one follows.
   */
  function SideEnd(s: string, i: nat): (r: Option<nat>)
    ensures r.Some? ==> i + 2 <= r.value <= |s|
  {
    if i < |s| && s[i] == '$' then
      var d := DigitRun(s, i + 1);
      if d == 0 then None
      else
        var e := i + 1 + d;
        Some(if e < |s| && IsKiloMark(s[e]) then e + 1 else e)
    else None
  }

  /**
   * Where the whole pattern matched at `i` ends. Once a side has matched,
   * giving back its K or some of its digits can never let " - " follow,
   * so the greedy reading is the only one the regular expression finds.
   */
  function RangeEnd(s: string, i: nat): (r: Option<nat>)
    ensures r.Some? ==> i + 7 <= r.value <= |s|
  {
    match SideEnd(s, i)
    case None => None
    case Some(m) =>
      if m + 3 <= |s| && s[m..m + 3] == RangeSeparator then SideEnd(s, m + 3) else None
  }

  /** `re.search`: the leftmost index at or after `i` where the pattern matches, and the match's end. */
  function FirstRange(s: string, i: nat): (r: Option<(nat, nat)>)
    decreases |s| - i
    ensures r.Some? ==> i <= r.value.0 && RangeEnd(s, r.value.0) == Some(r.value.1)
    ensures r.Some? ==> forall j :: i <= j < r.value.0 ==> RangeEnd(s, j).None?
    ensures r.None? ==> forall j :: i <= j ==> RangeEnd(s, j).None?
  {
    if i >= |s| then None
    else
      match RangeEnd(s, i)
      case Some(e) => Some((i, e))
      case None => FirstRange(s, i + 1)
  }

  /** `get_pay_scale_ranges(salary)`: the first match, or IndexError when there is none. */
  function GetPayScaleRanges(s: string): (r: Result<string, PyError>)
    ensures r.Failure? <==> FirstRange(s, 0).None?
    ensures r.Failure? ==> r.error == IndexError
    ensures r.Success? ==> var (b, e) := FirstRange(s, 0).value; b <= e <= |s| && r.value == s[b..e]
  {
    match FirstRange(s, 0)
    case None => Failure(IndexError)
    case Some((b, e)) => Success(s[b..e])
  }

  // ---------------------------------------------------------------------
  // The pieces of a range
  // ---------------------------------------------------------------------

  /** `_change_to_integer(side)`: `int` of the digits of `side`; ValueError when it has none. */
  function ChangeToInteger(side: string): (r: Result<int, PyError>)
    ensures r.Failure? <==> KeepDigits(side) == []
    ensures r.Failure? ==> r.error == ValueError
    ensures r.Success? ==> r.value == DigitsValue(KeepDigits(side))
  {
    var digits := KeepDigits(side);
    if digits == [] then Failure(ValueError) else Success(DigitsValue(digits))
  }

  /** `_parse_to_int(side)`: a side ending in an upper-case K counts thousands. */
  function ParseToInt(side: string): (r: Result<int, PyError>)
    ensures r.Failure? <==> KeepDigits(side) == []
    ensures r.Success? && EndsWith(side, "K") ==> r.value == DigitsValue(KeepDigits(side)) * 1000
    ensures r.Success? && !EndsWith(side, "K") ==> r.value == DigitsValue(KeepDigits(side))
  {
    if EndsWith(side, "K") then
      match ChangeToInteger(side)
      case Failure(e) => Failure(e)
      case Success(v) => Success(v * 1000)
    else ChangeToInteger(side)
  }

  /**
   * `^.+?(?=\d)`: the shortest non-empty prefix, without a line break,
   * that a digit follows; `k` is the length tried next.
   */
  function CurrencyEnd(s: string, k: nat): (r: Option<nat>)
    requires k >= 1
    decreases |s| - k
    ensures r.Some? ==> k <= r.value < |s| && IsDigit(s[r.value])
    ensures r.Some? ==> forall j :: k <= j < r.value ==> !IsDigit(s[j])
    ensures r.Some? ==> forall j :: k - 1 <= j < r.value ==> s[j] != '\n'
  {
    if k >= |s| || s[k - 1] == '\n' then None
    else if IsDigit(s[k]) then Some(k)
    else CurrencyEnd(s, k + 1)
  }

  /** `_get_currency(range)`: the text before the first digit, stripped; IndexError when there is none. */
  function GetCurrency(range: string): (r: Result<string, PyError>)
    ensures r.Failure? ==> r.error == IndexError
  {
    match CurrencyEnd(range, 1)
    case None => Failure(IndexError)
    case Some(k) => Success(Strip(range[..k]))
  }

  /** `get_is_provided(salary)`: who gave the figure, NA when the text does not say. */
  function GetIsProvided(s: string): (r: Value)
    ensures r == Bool(true) <==> Contains(s, "Employer Provided Salary")
    ensures r == Bool(false) <==> !Contains(s, "Employer Provided Salary") && Contains(s, "Glassdoor est")
    ensures r == NA <==> !Contains(s, "Employer Provided Salary") && !Contains(s, "Glassdoor est")
  {
    if Contains(s, "Employer Provided Salary") then Bool(true)
    else if Contains(s, "Glassdoor est") then Bool(false)
    else NA
  }

  /** The four derived columns, in the order the parser builds them. */
  function SalaryPairs(low: Value, high: Value, currency: Value, provided: Value): (r: seq<(string, Value)>)
    ensures Keys(r) == [LowColumn, HighColumn, CurrencyColumn, ProvidedColumn]
    ensures UniqueKeys(r)
  {
    [(LowColumn, low), (HighColumn, high), (CurrencyColumn, currency), (ProvidedColumn, provided)]
  }

  /**
   * The `salary_values` dict of `parse_salary` for the value found in the
   * Salary column: all NA for an NA salary; for a string, the pieces of
   * its first pay-scale range; TypeError for any other value, which
   * `re.search` refuses.
   */
  function SalaryValues(salary: Value): (r: Result<seq<(string, Value)>, PyError>)
    ensures r.Success? ==> Keys(r.value) == [LowColumn, HighColumn, CurrencyColumn, ProvidedColumn]
    ensures EqualsNA(salary) ==> r == Success(SalaryPairs(NA, NA, NA, NA))
    ensures !EqualsNA(salary) && !salary.Str? ==> r == Failure(TypeError)
  {
    if EqualsNA(salary) then Success(SalaryPairs(NA, NA, NA, NA))
    else if !salary.Str? then Failure(TypeError)
    else
      match GetPayScaleRanges(salary.s)
      case Failure(e) => Failure(e)
      case Success(range) =>
        var parts := Split(range, RangeSeparator);
        if |parts| != 2 then Failure(ValueError)
        else
          match ParseToInt(parts[0])
          case Failure(e) => Failure(e)
          case Success(low) =>
            match ParseToInt(parts[1])
            case Failure(e) => Failure(e)
            case Success(high) =>
              match GetCurrency(range)
              case Failure(e) => Failure(e)
              case Success(currency) =>
                Success(SalaryPairs(Int(low), Int(high), Str(currency), GetIsProvided(salary.s)))
  }

  // ---------------------------------------------------------------------
  // What a matched range looks like, and what its pieces give
  // ---------------------------------------------------------------------

  /** The text the pattern matches: `$<a><ka> - $<b><kb>`. */
  function RangeText(a: string, ka: string, b: string, kb: string): string
  {
    "$" + a + ka + RangeSeparator + "$" + b + kb
  }

  lemma {:induction false} DigitRunOf(x: string, a: string, y: string)
    requires AllDigits(a) && (y == [] || !IsDigit(y[0]))
    ensures DigitRun(x + a + y, |x|) == |a|
    decreases |a|
  {
    var s := x + a + y;
    if a == [] {
      assert s == x + y;
      if y != [] {
        assert s[|x|] == y[0];
      }
    } else {
      assert s == (x + [a[0]]) + a[1..] + y;
      assert s[|x|] == a[0];
      DigitRunOf(x + [a[0]], a[1..], y);
    }
  }

  /** One side written at `|pre|` is read back to its end. */
  lemma SideAt(pre: string, a: string, k: string, post: string)
    requires IsDigits(a) && IsKiloSuffix(k)
    requires k == "" ==> post == [] || !(IsDigit(post[0]) || IsKiloMark(post[0]))
    ensures SideEnd(pre + "$" + a + k + post, |pre|) == Some(|pre| + 1 + |a| + |k|)
  {
    var s := pre + "$" + a + k + post;
    assert s == (pre + "$") + a + (k + post);
    DigitRunOf(pre + "$", a, k + post);
    assert s[|pre|] == '$';
    if k != "" {
      assert s[|pre| + 1 + |a|] == k[0];
    } else if post != [] {
      assert s[|pre| + 1 + |a|] == post[0];
    }
  }

  /** A whole range written at `|pre|` is matched there, to its end. */
  lemma RangeAt(pre: string, a: string, ka: string, b: string, kb: string, post: string)
    requires IsDigits(a) && IsKiloSuffix(ka) && IsDigits(b) && IsKiloSuffix(kb)
    requires kb == "" ==> post == [] || !(IsDigit(post[0]) || IsKiloMark(post[0]))
    ensures RangeEnd(pre + RangeText(a, ka, b, kb) + post, |pre|) == Some(|pre| + |RangeText(a, ka, b, kb)|)
  {
    var s := pre + RangeText(a, ka, b, kb) + post;
    var rest := RangeSeparator + "$" + b + kb + post;
    var pre' := pre + "$" + a + ka + RangeSeparator;
    RangeRegroup(pre, a, ka, b, kb, post);
    var m := |pre| + 1 + |a| + |ka|;
    var e := |pre| + |RangeText(a, ka, b, kb)|;
    SideAt(pre, a, ka, rest);
    assert SideEnd(s, |pre|) == Some(m);
    SideAt(pre', b, kb, post);
    assert SideEnd(s, m + 3) == Some(e);
    RangeEndOf(s, |pre|, m, e);
  }

  /** Both sides and the separator between them make a match. */
  lemma RangeEndOf(s: string, i: nat, m: nat, e: nat)
    requires SideEnd(s, i) == Some(m) && m + 3 <= |s| && s[m..m + 3] == RangeSeparator
    requires SideEnd(s, m + 3) == Some(e)
    ensures RangeEnd(s, i) == Some(e)
  {
  }

  lemma RangeRegroup(pre: string, a: string, ka: string, b: string, kb: string, post: string)
    ensures var s := pre + RangeText(a, ka, b, kb) + post;
            var pre' := pre + "$" + a + ka + RangeSeparator;
            && s == pre + "$" + a + ka + (RangeSeparator + "$" + b + kb + post)
            && s == pre' + "$" + b + kb + post
            && s[|pre'| - 3..|pre'|] == RangeSeparator
  {
    var s := pre + RangeText(a, ka, b, kb) + post;
    var pre' := pre + "$" + a + ka + RangeSeparator;
    assert s == pre' + "$" + b + kb + post;
    assert s[..|pre'|] == pre';
    assert pre'[|pre'| - 3..] == RangeSeparator;
  }

  /** Whatever one side matched is a dollar sign, digits and an optional thousands mark. */
  lemma SideShape(s: string, i: nat) returns (a: string, k: string)
    requires SideEnd(s, i).Some?
    ensures IsDigits(a) && IsKiloSuffix(k)
    ensures s[i..SideEnd(s, i).value] == "$" + a + k
  {
    var d := DigitRun(s, i + 1);
    var e := i + 1 + d;
    a := s[i + 1..e];
    k := if e < |s| && IsKiloMark(s[e]) then [s[e]] else [];
    assert s[i..SideEnd(s, i).value] == [s[i]] + a + k;
  }

  /** Whatever the pattern matched has the shape `RangeText` describes. */
  lemma RangeShape(s: string, i: nat) returns (a: string, ka: string, b: string, kb: string)
    requires RangeEnd(s, i).Some?
    ensures IsDigits(a) && IsKiloSuffix(ka) && IsDigits(b) && IsKiloSuffix(kb)
    ensures s[i..RangeEnd(s, i).value] == RangeText(a, ka, b, kb)
  {
    var m := SideEnd(s, i).value;
    var e := RangeEnd(s, i).value;
    a, ka := SideShape(s, i);
    b, kb := SideShape(s, m + 3);
    SliceInThree(s, i, m, m + 3, e);
    assert s[m..m + 3] == RangeSeparator;
    JoinedSides("$" + a + ka, "$" + b + kb, a, ka, b, kb);
  }

  lemma SliceInThree(s: string, i: nat, j: nat, k: nat, e: nat)
    requires i <= j <= k <= e <= |s|
    ensures s[i..e] == s[i..j] + s[j..k] + s[k..e]
  {
  }

  lemma JoinedSides(left: string, right: string, a: string, ka: string, b: string, kb: string)
    requires left == "$" + a + ka && right == "$" + b + kb
    ensures left + RangeSeparator + right == RangeText(a, ka, b, kb)
  {
  }

  /** One side: its digits are `a`, it ends in "K" only when its mark is "K", and it holds no space. */
  lemma SideDigits(a: string, k: string)
    requires IsDigits(a) && IsKiloSuffix(k)
    ensures KeepDigits("$" + a + k) == a
    ensures EndsWith("$" + a + k, "K") <==> k == "K"
    ensures forall j :: 0 <= j < |"$" + a + k| ==> ("$" + a + k)[j] != ' '
  {
    var side := "$" + a + k;
    KeepDigitsAppend("$" + a, k);
    KeepDigitsAppend("$", a);
    KeepDigitsOfDigits(a);
    assert KeepDigits(k) == [];
    if k == "" {
      assert side[|side| - 1] == a[|a| - 1];
    } else {
      assert side[|side| - 1] == k[0];
    }
  }

  /** A string without spaces contains no separator. */
  lemma NoSeparatorIn(t: string)
    requires forall j :: 0 <= j < |t| ==> t[j] != ' '
    ensures !Contains(t, RangeSeparator)
  {
    forall j | 0 <= j
      ensures !OccursAt(t, RangeSeparator, j)
    {
      if j + 3 <= |t| {
        assert t[j..j + 3][0] == t[j];
      }
    }
    NotContains(t, RangeSeparator);
  }

  /**
   * A matched range splits on " - " into exactly its two sides, each side
   * parses, an upper-case K multiplies by 1000 and a lower-case k does
   * not, and the currency is the dollar sign.
   */
  lemma RangeParts(a: string, ka: string, b: string, kb: string)
    requires IsDigits(a) && IsKiloSuffix(ka) && IsDigits(b) && IsKiloSuffix(kb)
    ensures Split(RangeText(a, ka, b, kb), RangeSeparator) == ["$" + a + ka, "$" + b + kb]
    ensures ParseToInt("$" + a + ka) == Success(if ka == "K" then DigitsValue(a) * 1000 else DigitsValue(a))
    ensures ParseToInt("$" + b + kb) == Success(if kb == "K" then DigitsValue(b) * 1000 else DigitsValue(b))
    ensures GetCurrency(RangeText(a, ka, b, kb)) == Success("$")
  {
    var low, high := "$" + a + ka, "$" + b + kb;
    var range := RangeText(a, ka, b, kb);
    SideDigits(a, ka);
    SideDigits(b, kb);
    assert range == low + RangeSeparator + high;
    forall j | 0 <= j < |low|
      ensures !OccursAt(range, RangeSeparator, j)
    {
      assert range[j] == low[j];
      if j + 3 <= |range| {
        assert range[j..j + 3][0] == range[j];
      }
    }
    NoSeparatorIn(high);
    SplitTwo(low, RangeSeparator, high);
    assert range[0] == '$' && range[1] == a[0];
    assert CurrencyEnd(range, 1) == Some(1);
    assert range[..1] == "$";
    StripTrimmed("$");
  }

  /** `re.search` skips the positions that cannot start a match. */
  lemma {:induction false} FirstRangeSkip(s: string, i: nat, b: nat, e: nat)
    requires i <= b <= |s| && RangeEnd(s, b) == Some(e)
    requires forall j :: i <= j < b ==> s[j] != '$'
    ensures FirstRange(s, i) == Some((b, e))
    decreases b - i
  {
    if i < b {
      FirstRangeStep(s, i);
      FirstRangeSkip(s, i + 1, b, e);
    } else {
      FirstRangeHere(s, b, e);
    }
  }

  lemma FirstRangeHere(s: string, b: nat, e: nat)
    requires RangeEnd(s, b) == Some(e)
    ensures FirstRange(s, b) == Some((b, e))
  {
  }

  lemma FirstRangeStep(s: string, i: nat)
    requires i < |s| && s[i] != '$'
    ensures FirstRange(s, i) == FirstRange(s, i + 1)
  {
    assert SideEnd(s, i).None?;
  }

  /**
   * A string salary fails to parse exactly when no pay-scale range occurs
   * in it, and then with IndexError: once a range is found, splitting,
   * both integer conversions and the currency always succeed.
   */
  lemma StringSalaryFailsOnlyWithoutRange(s: string)
    ensures SalaryValues(Str(s)).Failure? <==> FirstRange(s, 0).None?
    ensures SalaryValues(Str(s)).Failure? ==> SalaryValues(Str(s)).error == IndexError
  {
    if FirstRange(s, 0).Some? {
      var (b, e) := FirstRange(s, 0).value;
      var a, ka, b', kb := RangeShape(s, b);
      RangeParts(a, ka, b', kb);
    }
  }

  /**
   * The values of a salary whose first dollar sign starts a range, as in
   * "Employer Provided Salary:$200K - $300K" or "$51K - $81K (Glassdoor
   * est.)": each end is its digits, times 1000 after an upper-case K only
   * (a lower-case k is accepted by the pattern but not scaled), the
   * currency is "$", and the provider comes from the whole text.
   */
  lemma SalaryOfRange(pre: string, a: string, ka: string, b: string, kb: string, post: string)
    requires forall j :: 0 <= j < |pre| ==> pre[j] != '$'
    requires IsDigits(a) && IsKiloSuffix(ka) && IsDigits(b) && IsKiloSuffix(kb)
    requires kb == "" ==> post == [] || !(IsDigit(post[0]) || IsKiloMark(post[0]))
    ensures var s := pre + RangeText(a, ka, b, kb) + post;
            SalaryValues(Str(s)) == Success(SalaryPairs(
              Int(if ka == "K" then DigitsValue(a) * 1000 else DigitsValue(a)),
              Int(if kb == "K" then DigitsValue(b) * 1000 else DigitsValue(b)),
              Str("$"),
              GetIsProvided(s)))
  {
    var s := pre + RangeText(a, ka, b, kb) + post;
    PayScaleOfRange(pre, a, ka, b, kb, post);
    RangeParts(a, ka, b, kb);
  }

  /** The first range of such a string is the one written after `pre`. */
  lemma PayScaleOfRange(pre: string, a: string, ka: string, b: string, kb: string, post: string)
    requires forall j :: 0 <= j < |pre| ==> pre[j] != '$'
    requires IsDigits(a) && IsKiloSuffix(ka) && IsDigits(b) && IsKiloSuffix(kb)
    requires kb == "" ==> post == [] || !(IsDigit(post[0]) || IsKiloMark(post[0]))
    ensures GetPayScaleRanges(pre + RangeText(a, ka, b, kb) + post) == Success(RangeText(a, ka, b, kb))
  {
    var range := RangeText(a, ka, b, kb);
    var s := pre + range + post;
    RangeAt(pre, a, ka, b, kb, post);
    forall j | 0 <= j < |pre| ensures s[j] != '$' {
      assert s[j] == pre[j];
    }
    FirstRangeSkip(s, 0, |pre|, RangeEnd(s, |pre|).value);
    assert s[|pre|..|pre| + |range|] == range;
  }

  // ---------------------------------------------------------------------
  // Splicing the derived columns into the record
  // ---------------------------------------------------------------------

  /**
   * `parse_salary(job)` on a record: KeyError without a Salary column;
   * otherwise the derived pairs are inserted just before "Salary", the
   * dict is rebuilt from the resulting pairs, and "Salary" is deleted.
   */
  function SalarySpec(r: Record): (res: Result<Record, PyError>)
    ensures res == Failure(KeyError(SalaryColumn)) <==> SalaryColumn !in Keys(r)
    ensures res.Success? ==> SalaryColumn in Keys(r) && SalaryValues(Lookup(r, SalaryColumn).value).Success?
  {
    match Lookup(r, SalaryColumn)
    case None => Failure(KeyError(SalaryColumn))
    case Some(v) =>
      match SalaryValues(v)
      case Failure(e) =>
        assert e != KeyError(SalaryColumn);
        Failure(e)
      case Success(values) =>
        var idx := IndexOf(r, SalaryColumn).value;
        Success(Remove(AssignAll([], InsertAt(r, idx, values)), SalaryColumn))
  }

  /** The record `insert_keys_values` builds before it rebuilds the dict from it. */
  lemma InsertStep(r: Record, p: nat, adds: seq<(string, Value)>, i: nat)
    requires p <= |r| && i < |adds|
    ensures var items := InsertAt(r, p, adds[..i]);
            items[..p + i] + [adds[i]] + items[p + i..] == InsertAt(r, p, adds[..i + 1])
  {
    var items := InsertAt(r, p, adds[..i]);
    assert items[..p + i] == r[..p] + adds[..i];
    assert items[p + i..] == r[p..];
    assert adds[..i + 1] == adds[..i] + [adds[i]];
  }

  /**
   * `insert_keys_values(job, adds, position)`: each pair inserted in turn
   * at the next position (`list.insert` appends past the end), then the
   * dict cleared and refilled from the pairs, so a repeated key keeps its
   * first position and its last value.
   */
  method InsertKeysValues(job: JobDict, adds: seq<(string, Value)>, position: nat)
    requires job.Valid()
    modifies job
    ensures job.Valid()
    ensures job.items == AssignAll([], InsertAt(old(job.items),
                          if position <= |old(job.items)| then position else |old(job.items)|, adds))
  {
    var items := job.items;
    ghost var p := if position <= |items| then position else |items|;
    var pos := position;
    var i := 0;
    while i < |adds|
      invariant 0 <= i <= |adds|
      invariant pos == position + i
      invariant items == InsertAt(old(job.items), p, adds[..i])
    {
      InsertStep(old(job.items), p, adds, i);
      var q := if pos <= |items| then pos else |items|;
      items := items[..q] + [adds[i]] + items[q..];
      pos := pos + 1;
      i := i + 1;
    }
    assert adds[..i] == adds;
    job.Clear();
    job.Update(items);
  }

  /**
   * `insert_dict_to_dictionary(job, adds)`: the pairs go in front of the
   * Salary column; `list.index` raises ValueError when there is none.
   */
  method InsertDictToDictionary(job: JobDict, adds: seq<(string, Value)>) returns (err: Option<PyError>)
    requires job.Valid()
    modifies job
    ensures job.Valid()
    ensures SalaryColumn !in Keys(old(job.items)) ==> err == Some(ValueError) && job.items == old(job.items)
    ensures SalaryColumn in Keys(old(job.items)) ==>
              err.None? &&
              job.items == AssignAll([], InsertAt(old(job.items), IndexOf(old(job.items), SalaryColumn).value, adds))
  {
    match IndexOf(job.items, SalaryColumn)
    case None =>
      err := Some(ValueError);
    case Some(index) =>
      InsertKeysValues(job, adds, index);
      err := None;
  }

  /** The Salary column survives the rebuild, so the final `del` finds it. */
  lemma SalaryKeptUntilDelete(r: Record, idx: nat, values: seq<(string, Value)>)
    requires IndexOf(r, SalaryColumn) == Some(idx)
    ensures SalaryColumn in Keys(AssignAll([], InsertAt(r, idx, values)))
  {
    var x := InsertAt(r, idx, values);
    assert x[idx + |values|] == r[idx];
    assert Keys(x)[idx + |values|] == SalaryColumn;
    AssignAllLookup([], x, SalaryColumn);
  }

  /** `parse_salary(job)`, in place. */
  method ParseSalary(job: JobDict) returns (err: Option<PyError>)
    requires job.Valid()
    modifies job
    ensures job.Valid() && Applied(SalarySpec(old(job.items)), old(job.items), job.items, err)
  {
    var salary := job.Get(SalaryColumn);
    if salary.Failure? {
      return Some(salary.error);
    }
    var values := SalaryValues(salary.value);
    if values.Failure? {
      return Some(values.error);
    }
    ghost var idx := IndexOf(job.items, SalaryColumn).value;
    SalaryKeptUntilDelete(job.items, idx, values.value);
    var _ := InsertDictToDictionary(job, values.value);
    err := job.Delete(SalaryColumn);
  }

  /** A pair list inserted at `idx` with keys new to `r` keeps every key unique. */
  lemma InsertFreshUnique(r: Record, idx: nat, values: seq<(string, Value)>)
    requires UniqueKeys(r) && idx <= |r| && FreshPairs(r, values)
    ensures UniqueKeys(InsertAt(r, idx, values))
  {
    var x := InsertAt(r, idx, values);
    var n := |values|;
    forall i, j | 0 <= i < j < |x|
      ensures x[i].0 != x[j].0
    {
      var ki := if i < idx then r[i].0 else if i < idx + n then values[i - idx].0 else r[i - n].0;
      var kj := if j < idx then r[j].0 else if j < idx + n then values[j - idx].0 else r[j - n].0;
      assert x[i].0 == ki && x[j].0 == kj;
      if idx <= i < idx + n && !(idx <= j < idx + n) {
        var m := if j < idx then j else j - n;
        assert Keys(r)[m] == kj;
      } else if idx <= j < idx + n && !(idx <= i < idx + n) {
        var m := if i < idx then i else i - n;
        assert Keys(r)[m] == ki;
      }
    }
  }

  /** Deleting the pair at `idx + |values|` of the inserted record leaves the splice. */
  lemma RemoveAfterInsert(r: Record, idx: nat, values: seq<(string, Value)>)
    requires idx < |r|
    ensures var x := InsertAt(r, idx, values);
            x[..idx + |values|] + x[idx + |values| + 1..] == r[..idx] + values + r[idx + 1..]
  {
    var x := InsertAt(r, idx, values);
    assert x[..idx + |values|] == r[..idx] + values;
    assert x[idx + |values| + 1..] == r[idx + 1..];
  }

  /**
   * With derived keys new to the record, the Salary column is replaced in
   * place: everything before it and after it keeps its position, and the
   * four derived columns sit where "Salary" was.
   */
  lemma SalarySplice(r: Record)
    requires UniqueKeys(r) && SalarySpec(r).Success?
    requires DerivedKeysFresh(r)
    ensures var idx := IndexOf(r, SalaryColumn).value;
            var values := SalaryValues(Lookup(r, SalaryColumn).value).value;
            SalarySpec(r) == Success(r[..idx] + values + r[idx + 1..])
  {
    var idx := IndexOf(r, SalaryColumn).value;
    var values := SalaryValues(Lookup(r, SalaryColumn).value).value;
    FreshDerived(r, values);
    SpliceFresh(r, idx, values);
  }

  /** The record has none of the four derived columns yet. */
  predicate DerivedKeysFresh(r: Record)
  {
    LowColumn !in Keys(r) && HighColumn !in Keys(r) && CurrencyColumn !in Keys(r) && ProvidedColumn !in Keys(r)
  }

  lemma FreshDerived(r: Record, values: seq<(string, Value)>)
    requires DerivedKeysFresh(r) && Keys(values) == [LowColumn, HighColumn, CurrencyColumn, ProvidedColumn]
    ensures FreshPairs(r, values)
  {
    forall j | 0 <= j < |values| ensures values[j].0 !in Keys(r) {
      assert values[j].0 == Keys(values)[j];
    }
    forall i, j | 0 <= i < j < |values| ensures values[i].0 != values[j].0 {
      assert values[i].0 == Keys(values)[i] && values[j].0 == Keys(values)[j];
    }
  }

  /** Inserting fresh pairs before the pair at `idx`, rebuilding, and deleting that pair's key. */
  lemma SpliceFresh(r: Record, idx: nat, values: seq<(string, Value)>)
    requires UniqueKeys(r) && idx < |r| && FreshPairs(r, values)
    ensures Remove(AssignAll([], InsertAt(r, idx, values)), r[idx].0) == r[..idx] + values + r[idx + 1..]
  {
    var x := InsertAt(r, idx, values);
    var p := idx + |values|;
    InsertFreshUnique(r, idx, values);
    DictOfUnique(x);
    assert x[p] == r[idx];
    IndexOfUnique(x, p);
    RemoveAt(x, p);
    RemoveAfterInsert(r, idx, values);
  }

  lemma RemoveAt(x: Record, p: nat)
    requires p < |x| && IndexOf(x, x[p].0) == Some(p)
    ensures Remove(x, x[p].0) == x[..p] + x[p + 1..]
  {
  }

  /** An NA salary becomes four NA columns at its place. */
  lemma SalaryOfNA(r: Record)
    requires UniqueKeys(r) && Lookup(r, SalaryColumn).Some? && EqualsNA(Lookup(r, SalaryColumn).value)
    requires DerivedKeysFresh(r)
    ensures var idx := IndexOf(r, SalaryColumn).value;
            SalarySpec(r) == Success(r[..idx] + SalaryPairs(NA, NA, NA, NA) + r[idx + 1..])
  {
    SalarySplice(r);
  }

  /** The derived columns replace "Salary" in the key order, whatever the values. */
  lemma SalaryKeys(r: Record)
    requires UniqueKeys(r) && SalarySpec(r).Success?
    requires DerivedKeysFresh(r)
    ensures var idx := IndexOf(r, SalaryColumn).value;
            Keys(SalarySpec(r).value) == Keys(r)[..idx] + [LowColumn, HighColumn, CurrencyColumn, ProvidedColumn] + Keys(r)[idx + 1..]
  {
    var idx := IndexOf(r, SalaryColumn).value;
    var values := SalaryValues(Lookup(r, SalaryColumn).value).value;
    SalarySplice(r);
    KeysAppend(r[..idx] + values, r[idx + 1..]);
    KeysAppend(r[..idx], values);
    KeysSlices(r, idx);
  }
}
