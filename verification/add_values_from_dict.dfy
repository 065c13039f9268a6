/** scraper/helpers/get_job_values/add_values_from_dict.py */
module AddValuesFromDict {
  import opened PyValues
  import opened Records
  import opened JobDicts
  import opened ValuesFromSource

  /**
   * `add_values_from_dict(job, values_to_add)`: `job[column] =
   * field["value"]` for each column in order. Every column of the schema
   * then reads back its entry's value, new columns are appended in
   * schema order, and every other column keeps its value and position.
   */
  method AddValuesFromDict(job: JobDict, valuesToAdd: Schema)
    requires job.Valid()
    modifies job
    ensures job.Valid() && job.items == AssignAll(old(job.items), EntryPairs(valuesToAdd))
  {
    ghost var pairs := EntryPairs(valuesToAdd);
    for i := 0 to |valuesToAdd|
      invariant job.Valid()
      invariant forall j :: 0 <= j < |valuesToAdd| ==> pairs[j] == (valuesToAdd[j].0, valuesToAdd[j].1.value)
      invariant AssignAll(old(job.items), pairs) == AssignAll(job.items, pairs[i..])
    {
      AssignAllFrom(job.items, pairs, i);
      job.Set(valuesToAdd[i].0, valuesToAdd[i].1.value);
    }
    AssignAllFrom(job.items, pairs, |valuesToAdd|);
    assert EntryPairs(valuesToAdd) == pairs;
  }
}
