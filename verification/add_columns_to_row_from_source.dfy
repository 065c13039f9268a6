/** scraper/helpers/add_columns_to_row_from_source.py */
module AddColumnsToRowFromSource {
  import opened Wrappers
  import opened PyValues
  import opened Records
  import opened Dom
  import opened JobDicts
  import opened ValuesFromSource
  import AddColumnsToRowFromDict

  /**
   * `add_columns_to_row_from_source(job_row, values_source, values_to_add)`: the schema's lookups
   * under `values_source`, then its values copied into the record. Every
   * schema column ends up holding its entry's value (an unresolved
   * single field keeps the value preset in the schema), and every other
   * column keeps its value and place.
   */
  method AddColumnsToRowFromSource(job: JobDict, p: Page, valuesSource: Node, valuesToAdd: Schema)
    requires job.Valid() && DistinctEntries(valuesToAdd)
    modifies job, Entries(valuesToAdd)
    ensures forall i :: 0 <= i < |valuesToAdd| ==>
              valuesToAdd[i].1.value == ResolvedText(p, valuesSource, valuesToAdd[i].1.element, valuesToAdd[i].1.isList, old(valuesToAdd[i].1.value))
    ensures job.Valid() && job.items == AssignAll(old(job.items), EntryPairs(valuesToAdd))
    ensures UniqueKeys(valuesToAdd) ==>
              forall i :: 0 <= i < |valuesToAdd| ==> Lookup(job.items, valuesToAdd[i].0) == Some(valuesToAdd[i].1.value)
    ensures UniqueKeys(valuesToAdd) ==>
              forall i :: 0 <= i < |old(job.items)| && old(job.items)[i].0 !in Keys(valuesToAdd) ==>
                i < |job.items| && job.items[i] == old(job.items)[i]
  {
    ghost var before := job.items;
    var filled := GetValuesFromSource(p, valuesSource, valuesToAdd);
    AddColumnsToRowFromDict.AddColumnsToRowFromDict(job, filled);
    if UniqueKeys(valuesToAdd) {
      var pairs := EntryPairs(valuesToAdd);
      assert Keys(pairs) == Keys(valuesToAdd);
      UniqueKeysSameKeys(valuesToAdd, pairs);
      AssignAllColumns(before, pairs);
    }
  }
}
