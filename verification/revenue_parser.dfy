/** scraper/jobs_to_csv/job_parser/_revenue_parser.py */
module RevenueParser {
  import opened Wrappers
  import opened PyValues
  import opened JobDicts
  import opened Records
  import opened Text
  import opened FieldSteps

  const RevenueColumn := "Revenue_USD"
  const CurrencyTag := "(USD)"

  /** `parse_revenue(job)`: a non-NA revenue loses "(USD)" and surrounding whitespace. */
  method ParseRevenue(job: JobDict) returns (err: Option<PyError>)
    requires job.Valid()
    modifies job
    ensures job.Valid()
    ensures Applied(CleanField(old(job.items), RevenueColumn, Str(CurrencyTag)), old(job.items), job.items, err)
  {
    err := CleanColumn(job, RevenueColumn, Str(CurrencyTag));
  }

  /** "$1 to $5 billion (USD)" is cleaned to "$1 to $5 billion". */
  lemma CurrencyTagRemoved(r: Record)
    requires Lookup(r, RevenueColumn) == Some(Str("$1 to $5 billion (USD)"))
    ensures CleanField(r, RevenueColumn, Str(CurrencyTag)).Success?
    ensures Lookup(CleanField(r, RevenueColumn, Str(CurrencyTag)).value, RevenueColumn) == Some(Str("$1 to $5 billion"))
  {
    TagRemovedText();
  }

  lemma TagRemovedText()
    ensures Strip(Replace("$1 to $5 billion (USD)", CurrencyTag, [])) == "$1 to $5 billion"
  {
    var a := "$1 to $5 billion ";
    assert a + CurrencyTag == "$1 to $5 billion (USD)";
    assert '(' !in a;
    FirstCharAbsent(a, CurrencyTag, []);
    assert a + CurrencyTag + [] == a + CurrencyTag;
    TrailingTokenRemoved(a, CurrencyTag);
    TrailingSpaceStripped();
  }

  lemma TrailingSpaceStripped()
    ensures Strip("$1 to $5 billion ") == "$1 to $5 billion"
  {
    var a := "$1 to $5 billion ";
    assert LStrip(a) == a;
    assert a[..|a| - 1] == "$1 to $5 billion";
    StripTrimmed("$1 to $5 billion");
  }
}
