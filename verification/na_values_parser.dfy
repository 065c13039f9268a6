/**
 * scraper/helpers/parse_job_data/parse_NA_values.py: every value that
 * means "not available" is replaced, in place, by the NA marker.
 */
module NAValuesParser {
  import opened PyValues
  import opened Records
  import opened JobDicts
  import Text

  /** `_is_emptish_string`: a string made only of whitespace, which is what `len(value.strip()) == 0` tests. */
  predicate IsEmptishString(v: Value): (b: bool)
    ensures b <==> v.Str? && Text.Strip(v.s) == []
  {
    if v.Str? then Text.StripSpec(v.s); Text.IsBlank(v.s) else false
  }

  /**
   * `_is_NA_value`: an emptish string, an empty list, "N/A" or "Unknown /
   * Non-Applicable". Only text and lists can be NA-like; the NA marker
   * itself and numbers never are.
   */
  predicate IsNAValue(v: Value): (b: bool)
    ensures b ==> v.Str? || v.StrList?
    ensures v.StrList? ==> (b <==> v.items == [])
  {
    IsEmptishString(v) || v == StrList([]) || v == Str("N/A") || v == Str("Unknown / Non-Applicable")
  }

  /** One value after NA normalisation. */
  function NormalizeValue(v: Value): (w: Value)
    ensures IsNAValue(v) ==> w == NA
    ensures !IsNAValue(v) ==> w == v
  {
    if IsNAValue(v) then NA else v
  }

  /** The record after `parse_NA_values`: every NA-like value replaced, keys untouched. */
  function NormalizeNA(r: Record): (res: Record)
    ensures Keys(res) == Keys(r)
    ensures forall i :: 0 <= i < |r| ==> res[i].1 == NormalizeValue(r[i].1)
  {
    MapValuesKeys(r, NormalizeValue);
    MapValues(r, NormalizeValue)
  }

  /** `parse_NA_values(job)`: each NA-like value is overwritten with the marker, in place. */
  method ParseNAValues(job: JobDict)
    requires job.Valid()
    modifies job
    ensures job.Valid() && job.items == NormalizeNA(old(job.items))
  {
    ghost var before := job.items;
    var i := 0;
    while i < |job.items|
      invariant 0 <= i <= |job.items| == |before|
      invariant job.Valid()
      invariant job.items == MapValues(before[..i], NormalizeValue) + before[i..]
    {
      var (key, value) := job.items[i];
      MapValuesStep(before, NormalizeValue, i);
      if IsNAValue(value) {
        AssignAtIndex(job.items, i, NA);
        job.Set(key, NA);
      }
      i := i + 1;
    }
    MapValuesDone(before, NormalizeValue);
  }

  /** Normalising twice changes nothing more: the marker itself is not NA-like. */
  lemma NormalizeNAIdempotent(r: Record)
    ensures NormalizeNA(NormalizeNA(r)) == NormalizeNA(r)
  {
  }

  /**
   * After normalisation no value is NA-like, and a value is the marker
   * exactly when it was the marker or NA-like before.
   */
  lemma NormalizeNAExact(r: Record, i: nat)
    requires i < |r|
    ensures !IsNAValue(NormalizeNA(r)[i].1)
    ensures NormalizeNA(r)[i].1 == NA <==> (r[i].1 == NA || IsNAValue(r[i].1))
  {
  }

  /** Strings that are not blank, "N/A" or "Unknown / Non-Applicable" survive unchanged, e.g. "n/a". */
  lemma OtherStringsSurvive()
    ensures NormalizeValue(Str("n/a")) == Str("n/a")
    ensures NormalizeValue(Str("  ")) == NA
    ensures NormalizeValue(StrList(["x"])) == StrList(["x"])
  {
    assert !Text.IsBlank("n/a") by { assert !Text.IsSpace("n/a"[0]); }
    assert Text.IsBlank("  ") by { assert "  "[0] == ' ' && "  "[1] == ' '; }
  }
}
