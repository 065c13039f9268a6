/** scraper/jobs_to_csv/job_parser/_easy_apply_parser.py */
module EasyApplyParser {
  import opened Wrappers
  import opened PyValues
  import opened JobDicts
  import opened FieldSteps

  const EasyApplyColumn := "Easy_apply"

  /** `parse_easy_apply(job)`: the column becomes its truth value. */
  method ParseEasyApply(job: JobDict) returns (err: Option<PyError>)
    requires job.Valid()
    modifies job
    ensures job.Valid() && Applied(BoolField(old(job.items), EasyApplyColumn), old(job.items), job.items, err)
  {
    err := BoolColumn(job, EasyApplyColumn);
  }
}
