/**
 * scraper/jobs_to_csv/job_parser/job_parser.py: `parse_data(job)` runs
 * the cleaning steps on one scraped record, in a fixed order: NA
 * values, revenue, company name, numbers, easy apply, employees. The NA
 * and employees steps it imports are the ones in
 * scraper/helpers/parse_job_data (the copies next to it are not part of
 * this model).
 */
module JobParser {
  import opened Wrappers
  import opened PyValues
  import opened Records
  import opened Text
  import opened JobDicts
  import opened FieldSteps
  import opened NAValuesParser
  import opened NumericalValuesParser
  import RevenueParser
  import opened CompanyNameParser
  import opened EasyApplyParser
  import opened EmployeesParser

  /**
   * `parse_data` on a record: each step runs on what the previous one
   * left; the first step that raises stops the sequence with the
   * changes so far in place. Every step only reassigns existing
   * columns, so the columns and their order never change.
   */
  function ParseDataSpec(r: Record): (o: Outcome)
    ensures Keys(o.rec) == Keys(r)
  {
    var r1 := NormalizeNA(r);
    match CleanField(r1, RevenueParser.RevenueColumn, Str(RevenueParser.CurrencyTag))
    case Failure(e) => Outcome(r1, Some(e))
    case Success(r2) =>
      match CompanyName(r2)
      case Failure(e) => Outcome(r2, Some(e))
      case Success(r3) =>
        var r4 := CoerceNumbers(r3);
        match BoolField(r4, EasyApplyColumn)
        case Failure(e) => Outcome(r4, Some(e))
        case Success(r5) =>
          match CleanField(r5, EmployeesColumn, Str("Employees"))
          case Failure(e) => Outcome(r5, Some(e))
          case Success(r6) => Outcome(r6, None)
  }

  /** `parse_data(job)`, in place; `err` is the exception that escapes, if any. */
  method ParseData(job: JobDict) returns (err: Option<PyError>)
    requires job.Valid()
    modifies job
    ensures job.Valid()
    ensures job.items == ParseDataSpec(old(job.items)).rec && err == ParseDataSpec(old(job.items)).raised
  {
    ParseNAValues(job);
    err := RevenueParser.ParseRevenue(job);
    if err.Some? {
      return;
    }
    err := ParseCompanyName(job);
    if err.Some? {
      return;
    }
    ParseNumericalValues(job);
    err := ParseEasyApply(job);
    if err.Some? {
      return;
    }
    err := ParseEmployees(job);
  }

  /**
   * The company step must run before numeric coercion: it reads the
   * rating as text. With a rating that reads as a non-negative number,
   * the step succeeds on the record as it is, but would raise TypeError
   * on the coerced record, where the rating has become a number.
   */
  lemma CompanyBeforeNumbers(r: Record, name: string, rating: string)
    requires Lookup(r, CompanyColumn) == Some(Str(name)) && CoerceString(name) == Str(name)
    requires Lookup(r, RatingColumn) == Some(Str(rating)) && IsPositiveNumber(rating)
    ensures CompanyName(r).Success?
    ensures CompanyName(CoerceNumbers(r)) == Failure(TypeError)
  {
    LookupMapValues(r, CoerceValue, CompanyColumn);
    LookupMapValues(r, CoerceValue, RatingColumn);
  }

  /** An NA-like Easy_apply (say "") is NA when its step runs, so a completed run stores True. */
  lemma EasyApplyOfNAIsTrue(r: Record)
    requires Lookup(r, EasyApplyColumn).Some? && IsNAValue(Lookup(r, EasyApplyColumn).value)
    requires ParseDataSpec(r).raised.None?
    ensures Lookup(ParseDataSpec(r).rec, EasyApplyColumn) == Some(Bool(true))
  {
    var r1, r2, r3, r4, r5 := CompletedSteps(r);
    assert r1 == MapValues(r, NormalizeValue);
    LookupMapValues(r, NormalizeValue, EasyApplyColumn);
    assert Lookup(r1, EasyApplyColumn) == Some(NA);
    CleanupsKeepEasyApply(r1, r2, r3);
    CoercionKeepsNA(r3, EasyApplyColumn);
    LastStepsOfNA(r4, r5, ParseDataSpec(r).rec);
  }

  /** Numeric coercion leaves an NA column NA. */
  lemma CoercionKeepsNA(r: Record, k: string)
    requires Lookup(r, k) == Some(NA)
    ensures Lookup(CoerceNumbers(r), k) == Some(NA)
  {
    LookupMapValues(r, CoerceValue, k);
  }

  /** From an NA Easy_apply, the truthiness step stores True and the employees step keeps it. */
  lemma LastStepsOfNA(r4: Record, r5: Record, r6: Record)
    requires Lookup(r4, EasyApplyColumn) == Some(NA)
    requires BoolField(r4, EasyApplyColumn) == Success(r5)
    requires CleanField(r5, EmployeesColumn, Str("Employees")) == Success(r6)
    ensures Lookup(r6, EasyApplyColumn) == Some(Bool(true))
  {
  }

  /** The revenue and company-name clean-ups leave Easy_apply as it was. */
  lemma CleanupsKeepEasyApply(r1: Record, r2: Record, r3: Record)
    requires CleanField(r1, RevenueParser.RevenueColumn, Str(RevenueParser.CurrencyTag)) == Success(r2)
    requires CompanyName(r2) == Success(r3)
    ensures Lookup(r3, EasyApplyColumn) == Lookup(r1, EasyApplyColumn)
  {
  }

  /**
   * A run that raises nothing went through every step: the intermediate
   * records, in order, and the final record is the employees step's.
   */
  lemma CompletedSteps(r: Record) returns (r1: Record, r2: Record, r3: Record, r4: Record, r5: Record)
    requires ParseDataSpec(r).raised.None?
    ensures r1 == NormalizeNA(r)
    ensures CleanField(r1, RevenueParser.RevenueColumn, Str(RevenueParser.CurrencyTag)) == Success(r2)
    ensures CompanyName(r2) == Success(r3)
    ensures r4 == CoerceNumbers(r3)
    ensures BoolField(r4, EasyApplyColumn) == Success(r5)
    ensures CleanField(r5, EmployeesColumn, Str("Employees")) == Success(ParseDataSpec(r).rec)
  {
    r1 := NormalizeNA(r);
    r2 := CleanField(r1, RevenueParser.RevenueColumn, Str(RevenueParser.CurrencyTag)).value;
    r3 := CompanyName(r2).value;
    r4 := CoerceNumbers(r3);
    r5 := BoolField(r4, EasyApplyColumn).value;
  }

  /** The head-count text is not a number, so numeric coercion keeps it as text. */
  lemma HeadCountText(d: string)
    requires IsDigits(d)
    ensures !IsNAValue(Str(d + " Employees"))
    ensures CoerceString(d + " Employees") == Str(d + " Employees")
  {
    var s := d + " Employees";
    assert s[0] == d[0] && s[|s| - 1] == 's';
    assert !IsBlank(s) by { assert !IsSpace(s[0]); }
    StripTrimmed(s);
    if ParseDecimal(s).Some? {
      ParsedEnding(s);
    }
  }

  /** "<digits> Employees" cleans to the digits. */
  lemma HeadCountCleaned(d: string)
    requires IsDigits(d)
    ensures Strip(Replace(d + " Employees", "Employees", [])) == d
  {
    var a := d + " ";
    forall k | 0 <= k < |a|
      ensures !OccursAt(a + "Employees", "Employees", k)
    {
      if k + 9 <= |a + "Employees"| {
        assert (a + "Employees")[k..k + 9][0] == (a + "Employees")[k] == a[k];
      }
    }
    assert a + "Employees" == d + " Employees";
    TrailingTokenRemoved(a, "Employees");
    assert LStrip(a) == a by { assert a[0] == d[0]; }
    assert a[..|a| - 1] == d;
    assert RStrip(a) == RStrip(d);
    StripTrimmed(d);
    assert LStrip(d) == d by { assert !IsSpace(d[0]); }
  }

  /**
   * The employees step runs after numeric coercion, so "51 Employees"
   * ends as the text "51", never as an int.
   */
  lemma EmployeesStayText(r: Record, d: string)
    requires IsDigits(d) && Lookup(r, EmployeesColumn) == Some(Str(d + " Employees"))
    requires ParseDataSpec(r).raised.None?
    ensures Lookup(ParseDataSpec(r).rec, EmployeesColumn) == Some(Str(d))
  {
    HeadCountText(d);
    HeadCountCleaned(d);
    var r1, r2, r3, r4, r5 := CompletedSteps(r);
    LookupMapValues(r, NormalizeValue, EmployeesColumn);
    assert Lookup(r3, EmployeesColumn) == Some(Str(d + " Employees"));
    LookupMapValues(r3, CoerceValue, EmployeesColumn);
    assert Lookup(r5, EmployeesColumn) == Some(Str(d + " Employees"));
  }
}
