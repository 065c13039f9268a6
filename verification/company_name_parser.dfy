/**
 * scraper/jobs_to_csv/job_parser/_company_name_parser.py: the company
 * name scraped from the page ends with the rating (e.g. "Acme4.0"); the
 * rating text is removed from a non-NA name.
 */
module CompanyNameParser {
  import opened Wrappers
  import opened PyValues
  import opened Records
  import opened JobDicts
  import opened Text
  import opened FieldSteps

  const CompanyColumn := "Company_name"
  const RatingColumn := "Rating"

  /**
   * `parse_company_name` on a record: KeyError without a Company_name
   * column; an NA name is left alone; otherwise the Rating column must
   * exist (KeyError) and its value is removed from the name, which is
   * then stripped.
   */
  function CompanyName(r: Record): (res: Result<Record, PyError>)
    ensures res == Failure(KeyError(CompanyColumn)) <==> CompanyColumn !in Keys(r)
    ensures res.Success? ==> Keys(res.value) == Keys(r)
    ensures res.Success? ==> forall k :: k != CompanyColumn ==> Lookup(res.value, k) == Lookup(r, k)
    ensures Lookup(r, CompanyColumn).Some? && EqualsNA(Lookup(r, CompanyColumn).value) ==> res == Success(r)
    ensures res.Success? && !EqualsNA(Lookup(r, CompanyColumn).value) ==>
              var name := Lookup(r, CompanyColumn).value;
              Lookup(r, RatingColumn).Some? && name.Str? && Lookup(r, RatingColumn).value.Str?
              && Lookup(res.value, CompanyColumn) == Some(Str(Strip(Replace(name.s, Lookup(r, RatingColumn).value.s, []))))
  {
    match Lookup(r, CompanyColumn)
    case None => Failure(KeyError(CompanyColumn))
    case Some(name) =>
      if EqualsNA(name) then Success(r)
      else
        match Lookup(r, RatingColumn)
        case None => Failure(KeyError(RatingColumn))
        case Some(rating) => CleanField(r, CompanyColumn, rating)
  }

  /** `parse_company_name(job)`, in place. */
  method ParseCompanyName(job: JobDict) returns (err: Option<PyError>)
    requires job.Valid()
    modifies job
    ensures job.Valid() && Applied(CompanyName(old(job.items)), old(job.items), job.items, err)
  {
    var name := job.Get(CompanyColumn);
    if name.Failure? {
      return Some(name.error);
    }
    if !EqualsNA(name.value) {
      var rating := job.Get(RatingColumn);
      if rating.Failure? {
        return Some(rating.error);
      }
      match ReplaceStrip(name.value, rating.value)
      case Failure(e) =>
        return Some(e);
      case Success(w) =>
        job.Set(CompanyColumn, w);
    }
    err := None;
  }

  /**
   * The cleanup needs a rating that is a string: a present name with an
   * NA rating raises TypeError, a missing Rating column raises KeyError.
   */
  lemma RatingMustBeText(r: Record)
    requires Lookup(r, CompanyColumn).Some? && Lookup(r, CompanyColumn).value.Str?
    ensures Lookup(r, RatingColumn).None? ==> CompanyName(r) == Failure(KeyError(RatingColumn))
    ensures Lookup(r, RatingColumn) == Some(NA) ==> CompanyName(r) == Failure(TypeError)
    ensures (Lookup(r, RatingColumn).Some? && Lookup(r, RatingColumn).value.Str?) ==>
              CompanyName(r).Success?
  {
  }

  /**
   * The rating at the end of a scraped name is cut off: "Acme4.0" with
   * the rating "4.0" becomes "Acme".
   */
  lemma RatingRemovedFromName(r: Record)
    requires Lookup(r, CompanyColumn) == Some(Str("Acme4.0")) && Lookup(r, RatingColumn) == Some(Str("4.0"))
    ensures CompanyName(r).Success? && Lookup(CompanyName(r).value, CompanyColumn) == Some(Str("Acme"))
  {
    RatingRemovedText();
  }

  lemma RatingRemovedText()
    ensures Strip(Replace("Acme4.0", "4.0", [])) == "Acme"
  {
    assert "Acme" + "4.0" == "Acme4.0" && "Acme" + "4.0" + [] == "Acme4.0";
    assert '4' !in "Acme";
    FirstCharAbsent("Acme", "4.0", []);
    TrailingTokenRemoved("Acme", "4.0");
    StripTrimmed("Acme");
  }
}
