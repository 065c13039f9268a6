/** scraper/helpers/add_columns_to_job_from_dict.py */
module AddColumnsToJobFromDict {
  import opened PyValues
  import opened Records
  import opened JobDicts
  import opened ValuesFromSource

  /**
   * `add_columns_to_job_from_dict(job, job_description)`: `job[key] =
   * value["value"]` for each key in order.
   */
  method AddColumnsToJobFromDict(job: JobDict, jobDescription: Schema)
    requires job.Valid()
    modifies job
    ensures job.Valid() && job.items == AssignAll(old(job.items), EntryPairs(jobDescription))
  {
    ghost var pairs := EntryPairs(jobDescription);
    for i := 0 to |jobDescription|
      invariant job.Valid()
      invariant forall j :: 0 <= j < |jobDescription| ==> pairs[j] == (jobDescription[j].0, jobDescription[j].1.value)
      invariant AssignAll(old(job.items), pairs) == AssignAll(job.items, pairs[i..])
    {
      AssignAllFrom(job.items, pairs, i);
      job.Set(jobDescription[i].0, jobDescription[i].1.value);
    }
    AssignAllFrom(job.items, pairs, |jobDescription|);
    assert EntryPairs(jobDescription) == pairs;
  }
}
