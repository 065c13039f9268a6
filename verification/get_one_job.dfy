/**
 * scraper/helpers/get_one_job/get_one_job.py: `get_one_job` and its six
 * block functions, each building its schema of entry dicts and filling
 * the record from it in place. The record is the helpers' 25-column
 * record (`OneJobSchemas.OneJob`); the debug flag only prints it.
 */
module GetOneJob {
  import opened Wrappers
  import opened PyValues
  import opened Records
  import opened Dom
  import opened JobDicts
  import opened Fields
  import opened ValuesFromSource
  import opened OneJobSchemas
  import J = JobValueGetter
  import AddColumnsToJobFromSource
  import AddColumnsToJobFromDict

  /**
   * One block: its schema built fresh, then filled by
   * `add_columns_to_job_from_source` under the scope, or copied as built
   * by `add_columns_to_job_from_dict` when the scope is missing.
   */
  method FillSchema(job: JobDict, p: Page, scope: Option<Node>, fields: seq<Field>)
    requires job.Valid()
    modifies job
    ensures job.Valid() && job.items == AssignAll(old(job.items), EntryBlock(p, scope, fields))
  {
    var schema := NewSchema(fields);
    if scope.Some? {
      AddColumnsToJobFromSource.AddColumnsToJobFromSource(job, p, scope.value, schema);
    } else {
      AddColumnsToJobFromDict.AddColumnsToJobFromDict(job, schema);
    }
    FilledSchema(p, scope, fields, schema);
  }

  /** `get_job_descriptions_values(job, job_post)` */
  method GetJobDescriptionsValues(job: JobDict, p: Page, jobPost: Node)
    requires job.Valid()
    modifies job
    ensures job.Valid() && job.items == AssignAll(old(job.items), EntryBlock(p, Some(jobPost), J.DescriptionFields))
  {
    FillSchema(job, p, Some(jobPost), J.DescriptionFields);
  }

  /** `get_job_button_values(job, job_button)`: read under the listing button. */
  method GetJobButtonValues(job: JobDict, p: Page, jobButton: Node)
    requires job.Valid()
    modifies job
    ensures job.Valid() && job.items == AssignAll(old(job.items), EntryBlock(p, Some(jobButton), J.ButtonFields))
  {
    FillSchema(job, p, Some(jobButton), J.ButtonFields);
  }

  /** `get_company_description(job, job_post)`: under `EmpBasicInfo`, or the schema as built without it. */
  method GetCompanyDescription(job: JobDict, p: Page, jobPost: Node)
    requires job.Valid()
    modifies job
    ensures job.Valid() && job.items == AssignAll(old(job.items), EntryBlock(p, Anchor(p, jobPost, CompanyAnchor), SizeCompanyFields))
  {
    FillSchema(job, p, Anchor(p, jobPost, CompanyAnchor), SizeCompanyFields);
  }

  /** `get_company_ratings(job, job_post)`: under the company-ratings element, or the schema as built without it. */
  method GetCompanyRatings(job: JobDict, p: Page, jobPost: Node)
    requires job.Valid()
    modifies job
    ensures job.Valid() && job.items == AssignAll(old(job.items), EntryBlock(p, Anchor(p, jobPost, RatingsAnchor), J.RatingFields))
  {
    FillSchema(job, p, Anchor(p, jobPost, RatingsAnchor), J.RatingFields);
  }

  /** `get_company_reviews_by_job_title(job, job_post)`: under `Reviews`, or the schema as built without it. */
  method GetCompanyReviewsByJobTitle(job: JobDict, p: Page, jobPost: Node)
    requires job.Valid()
    modifies job
    ensures job.Valid() && job.items == AssignAll(old(job.items), EntryBlock(p, Anchor(p, jobPost, ReviewsAnchor), J.ReviewFields))
  {
    FillSchema(job, p, Anchor(p, jobPost, ReviewsAnchor), J.ReviewFields);
  }

  /**
   * `get_company_benefits_review(job, job_post)`: the schema's lookups
   * swallow NoSuchElement one entry at a time, so the fallback branch of
   * its `try` is never taken.
   */
  method GetCompanyBenefitsReview(job: JobDict, p: Page, jobPost: Node)
    requires job.Valid()
    modifies job
    ensures job.Valid() && job.items == AssignAll(old(job.items), EntryBlock(p, Some(jobPost), SchemaBenefitFields))
  {
    FillSchema(job, p, Some(jobPost), SchemaBenefitFields);
  }

  /**
   * `get_one_job(debug_mode, driver, job_button)`: the same record
   * whether or not `debug_mode` asks for it to be printed.
   */
  method GetOneJob(debugMode: bool, p: Page, root: Node, jobButton: Node) returns (r: Result<JobDict, PyError>)
    ensures r.Failure? <==> OneJob(p, root, jobButton).Failure?
    ensures r.Failure? ==> r.error == Timeout
    ensures r.Success? ==> fresh(r.value) && r.value.Valid() && r.value.items == OneJob(p, root, jobButton).value
  {
    var job := new JobDict();
    var jobPost := FindElement(p, root, DetailPanel);
    if jobPost.Failure? {
      return Failure(Timeout);
    }
    GetJobDescriptionsValues(job, p, jobPost.value);
    GetJobButtonValues(job, p, jobButton);
    GetCompanyDescription(job, p, jobPost.value);
    GetCompanyRatings(job, p, jobPost.value);
    GetCompanyReviewsByJobTitle(job, p, jobPost.value);
    GetCompanyBenefitsReview(job, p, jobPost.value);
    r := Success(job);
  }
}
