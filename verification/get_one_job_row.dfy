/**
 * scraper/helpers/get_one_job.py: the monolithic copy of `get_one_job`.
 * It builds the same six schemas inline and fills `job_row` with the
 * `_row_` helpers, so it yields the same record as the package copy
 * (`OneJobSchemas.OneJob`).
 */
module GetOneJobRow {
  import opened Wrappers
  import opened PyValues
  import opened Records
  import opened Dom
  import opened JobDicts
  import opened Fields
  import opened OneJobSchemas
  import J = JobValueGetter
  import AddColumnsToRowFromSource
  import AddColumnsToRowFromDict

  /**
   * One block of the function: its dict literal, filled by
   * `add_columns_to_row_from_source` under the scope, or copied by
   * `add_columns_to_row_from_dict` when the scope is missing.
   */
  method FillRowSchema(jobRow: JobDict, p: Page, scope: Option<Node>, fields: seq<Field>)
    requires jobRow.Valid()
    modifies jobRow
    ensures jobRow.Valid() && jobRow.items == AssignAll(old(jobRow.items), EntryBlock(p, scope, fields))
  {
    var schema := NewSchema(fields);
    if scope.Some? {
      AddColumnsToRowFromSource.AddColumnsToRowFromSource(jobRow, p, scope.value, schema);
    } else {
      AddColumnsToRowFromDict.AddColumnsToRowFromDict(jobRow, schema);
    }
    FilledSchema(p, scope, fields, schema);
  }

  /**
   * `get_one_job(debug_mode, driver, job_button)`: the description and
   * button blocks, then the three anchored blocks (each copied as built
   * when its anchor is missing), then the benefits block; the same
   * record whether or not `debug_mode` asks for it to be printed.
   */
  method GetOneJobRow(debugMode: bool, p: Page, root: Node, jobButton: Node) returns (r: Result<JobDict, PyError>)
    ensures r.Failure? <==> OneJob(p, root, jobButton).Failure?
    ensures r.Failure? ==> r.error == Timeout
    ensures r.Success? ==> fresh(r.value) && r.value.Valid() && r.value.items == OneJob(p, root, jobButton).value
  {
    var jobRow := new JobDict();
    var jobPost := FindElement(p, root, DetailPanel);
    if jobPost.Failure? {
      return Failure(Timeout);
    }
    FillRowSchema(jobRow, p, Some(jobPost.value), J.DescriptionFields);
    FillRowSchema(jobRow, p, Some(jobButton), J.ButtonFields);
    FillRowSchema(jobRow, p, Anchor(p, jobPost.value, CompanyAnchor), SizeCompanyFields);
    FillRowSchema(jobRow, p, Anchor(p, jobPost.value, RatingsAnchor), J.RatingFields);
    FillRowSchema(jobRow, p, Anchor(p, jobPost.value, ReviewsAnchor), J.ReviewFields);
    FillRowSchema(jobRow, p, Some(jobPost.value), SchemaBenefitFields);
    r := Success(jobRow);
  }
}
