/** scraper/helpers/parse_job_data/parse/parse_revenue.py: the older copy of the revenue cleanup. */
module LegacyRevenueParser {
  import opened Wrappers
  import opened PyValues
  import opened JobDicts
  import opened FieldSteps

  /** `parse_revenue(job)`, identical in effect to the newer copy. */
  method ParseRevenue(job: JobDict) returns (err: Option<PyError>)
    requires job.Valid()
    modifies job
    ensures job.Valid()
    ensures Applied(CleanField(old(job.items), "Revenue_USD", Str("(USD)")), old(job.items), job.items, err)
  {
    err := CleanColumn(job, "Revenue_USD", Str("(USD)"));
  }
}
