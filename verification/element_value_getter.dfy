/**
 * scraper/jobs_to_csv/job_value_getter/_element_value_getter.py: one
 * lookup per search object of a block, in the block's order; a lookup
 * that finds nothing leaves that search's value as it was.
 *
 * The extractor also hands a block to `add_values_to_job_from_dict`
 * (from `_dict_value_adder.py`, which is not part of this model); it is
 * given here the effect of its twin in
 * scraper/helpers/get_job_values/add_values_from_dict.py, reading each
 * search's `value`.
 */
module ElementValueGetter {
  import opened Wrappers
  import opened PyValues
  import opened Records
  import opened Dom
  import opened JobDicts
  import opened XpathTextGetter

  /** A block: column name to search object, in dict order. */
  type Block = seq<(string, XpathSearch)>

  function Searches(block: Block): set<XpathSearch>
  {
    set i | 0 <= i < |block| :: block[i].1
  }

  /** No search object sits under two columns. */
  predicate DistinctSearches(block: Block)
  {
    forall i, j :: 0 <= i < j < |block| ==> block[i].1 != block[j].1
  }

  /** The block's columns with the values their searches hold now. */
  function BlockPairs(block: Block): (r: Record)
    reads Searches(block)
    ensures |r| == |block|
    ensures forall i :: 0 <= i < |block| ==> r[i] == (block[i].0, block[i].1.value)
  {
    if block == [] then [] else [(block[0].0, block[0].1.value)] + BlockPairs(block[1..])
  }

  /**
   * `get_values_from_element(source_html, job_values)`: every search
   * takes the value its lookup under `scope` gives, or keeps its old
   * value when the lookup raises NoSuchElement; the block itself is
   * returned unchanged.
   */
  method GetValuesFromElement(p: Page, scope: Node, block: Block) returns (res: Block)
    requires DistinctSearches(block)
    modifies Searches(block)
    ensures res == block
    ensures forall i :: 0 <= i < |block| ==>
              block[i].1.value == Resolved(p, scope, block[i].1.element, block[i].1.listSearch, old(block[i].1.value))
  {
    for i := 0 to |block|
      invariant forall j :: 0 <= j < i ==>
                  block[j].1.value == Resolved(p, scope, block[j].1.element, block[j].1.listSearch, old(block[j].1.value))
      invariant forall j :: i <= j < |block| ==> block[j].1.value == old(block[j].1.value)
    {
      var search := block[i].1;
      var r := GetXpathValues(p, scope, search);
      if r.Success? {
        search.value := r.value;
      }
    }
    res := block;
  }

  /** `add_values_to_job_from_dict(job, block)`: `job[column] = search.value` for each column in order. */
  method AddValuesToJob(job: JobDict, block: Block)
    requires job.Valid()
    modifies job
    ensures job.Valid() && job.items == AssignAll(old(job.items), BlockPairs(block))
  {
    var pairs := BlockPairs(block);
    job.Update(pairs);
    assert BlockPairs(block) == pairs;
  }

  /**
   * `get_and_add_element_value(job, scope, block)` (from
   * `_element_value_getter_and_adder.py`, which is not part of this
   * model): the lookups, then the assignments to the job.
   */
  method GetAndAddElementValue(job: JobDict, p: Page, scope: Node, block: Block)
    requires job.Valid() && DistinctSearches(block)
    modifies job, Searches(block)
    ensures forall i :: 0 <= i < |block| ==>
              block[i].1.value == Resolved(p, scope, block[i].1.element, block[i].1.listSearch, old(block[i].1.value))
    ensures job.Valid() && job.items == AssignAll(old(job.items), BlockPairs(block))
  {
    var filled := GetValuesFromElement(p, scope, block);
    AddValuesToJob(job, filled);
  }
}
