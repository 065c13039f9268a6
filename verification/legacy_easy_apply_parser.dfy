/** scraper/helpers/parse_job_data/parse_easy_apply.py: the older copy of the easy-apply step. */
module LegacyEasyApplyParser {
  import opened Wrappers
  import opened PyValues
  import opened JobDicts
  import opened FieldSteps

  /** `parse_easy_apply(job)`, identical in effect to the newer copy. */
  method ParseEasyApply(job: JobDict) returns (err: Option<PyError>)
    requires job.Valid()
    modifies job
    ensures job.Valid() && Applied(BoolField(old(job.items), "Easy_apply"), old(job.items), job.items, err)
  {
    err := BoolColumn(job, "Easy_apply");
  }
}
