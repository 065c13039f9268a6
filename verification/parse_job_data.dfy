/**
 * scraper/helpers/parse_job_data/parse_job_data.py: the older cleaning
 * pipeline, `parse_job_data(job)`: NA values, numbers, salary, easy
 * apply, employees, revenue, with no company-name step. The numeric and
 * salary steps it imports (under parse_job_data/parse) are not part of
 * this model; their counterparts in scraper/jobs_to_csv/job_parser stand
 * in for them.
 */
module ParseJobData {
  import opened Wrappers
  import opened PyValues
  import opened Records
  import opened JobDicts
  import opened FieldSteps
  import opened NAValuesParser
  import opened NumericalValuesParser
  import opened SalaryParser
  import LegacyEasyApplyParser
  import EmployeesParser
  import LegacyRevenueParser

  const EasyApplyColumn := "Easy_apply"
  const EmployeesColumn := "Employees"
  const RevenueColumn := "Revenue_USD"

  /**
   * `parse_job_data` on a record; the first step that raises stops the
   * sequence, earlier changes kept. The NA and numeric steps never raise,
   * so a missing Salary column fails the run with KeyError('Salary')
   * after those two steps have rewritten the values.
   */
  function ParseJobDataSpec(r: Record): (o: Outcome)
    ensures o.raised == Some(KeyError(SalaryColumn)) <==> SalaryColumn !in Keys(r)
    ensures SalaryColumn !in Keys(r) ==> o.rec == CoerceNumbers(NormalizeNA(r))
  {
    var r2 := CoerceNumbers(NormalizeNA(r));
    assert Keys(r2) == Keys(r);
    match SalarySpec(r2)
    case Failure(e) => Outcome(r2, Some(e))
    case Success(r3) => AfterSalary(r3)
  }

  /** The three single-column steps after the salary split; none of them changes the columns. */
  function AfterSalary(r3: Record): (o: Outcome)
    ensures Keys(o.rec) == Keys(r3)
    ensures o.raised != Some(KeyError(SalaryColumn))
  {
    match BoolField(r3, EasyApplyColumn)
    case Failure(e) => Outcome(r3, Some(e))
    case Success(r4) =>
      match CleanField(r4, EmployeesColumn, Str("Employees"))
      case Failure(e) => Outcome(r4, Some(e))
      case Success(r5) =>
        match CleanField(r5, RevenueColumn, Str("(USD)"))
        case Failure(e) => Outcome(r5, Some(e))
        case Success(r6) => Outcome(r6, None)
  }

  /** `parse_job_data(job)`, in place; `err` is the exception that escapes, if any. */
  method ParseJobDataInPlace(job: JobDict) returns (err: Option<PyError>)
    requires job.Valid()
    modifies job
    ensures job.Valid()
    ensures job.items == ParseJobDataSpec(old(job.items)).rec && err == ParseJobDataSpec(old(job.items)).raised
  {
    ParseNAValues(job);
    ParseNumericalValues(job);
    err := ParseSalary(job);
    if err.Some? {
      return;
    }
    err := LegacyEasyApplyParser.ParseEasyApply(job);
    if err.Some? {
      return;
    }
    err := EmployeesParser.ParseEmployees(job);
    if err.Some? {
      return;
    }
    err := LegacyRevenueParser.ParseRevenue(job);
  }

  /**
   * The salary step is the only one that changes the columns: after a
   * complete run, "Salary" has been replaced in place by the four derived
   * columns and every other column keeps its position.
   */
  lemma JobDataKeys(r: Record)
    requires UniqueKeys(r) && DerivedKeysFresh(r) && ParseJobDataSpec(r).raised.None?
    ensures var idx := IndexOf(r, SalaryColumn).value;
            Keys(ParseJobDataSpec(r).rec)
              == Keys(r)[..idx] + [LowColumn, HighColumn, CurrencyColumn, ProvidedColumn] + Keys(r)[idx + 1..]
  {
    var r2 := CoerceNumbers(NormalizeNA(r));
    assert Keys(r2) == Keys(r);
    UniqueKeysSameKeys(r, r2);
    IndexOfSameKeys(r, r2, SalaryColumn);
    SalaryKeys(r2);
    assert ParseJobDataSpec(r) == AfterSalary(SalarySpec(r2).value);
  }

  /**
   * Revenue is cleaned last, after numeric coercion: a complete run
   * leaves Revenue_USD as NA (or -1) or as text with no whitespace at
   * either end, never as a number.
   */
  lemma RevenueStaysText(r: Record)
    requires ParseJobDataSpec(r).raised.None?
    ensures var v := Lookup(ParseJobDataSpec(r).rec, RevenueColumn);
            v.Some? && (EqualsNA(v.value) || (v.value.Str? && (v.value.s == [] ||
              (!Text.IsSpace(v.value.s[0]) && !Text.IsSpace(v.value.s[|v.value.s| - 1])))))
  {
    var r2 := CoerceNumbers(NormalizeNA(r));
    var r3 := SalarySpec(r2).value;
    var r4 := BoolField(r3, EasyApplyColumn).value;
    var r5 := CleanField(r4, EmployeesColumn, Str("Employees")).value;
    var v := Lookup(r5, RevenueColumn).value;
    if EqualsNA(v) {
      CleanFieldKeepsNA(r5, RevenueColumn, Str("(USD)"));
    } else {
      CleanFieldResult(r5, RevenueColumn, Str("(USD)"));
    }
  }
}
