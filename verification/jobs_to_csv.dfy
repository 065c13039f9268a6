/**
 * jobs_to_csv's `get_jobs_to_csv`: passes over the listing grid, each
 * clicking items from the first one and appending their parsed records
 * until the list holds `jobs_number` records. The function returns
 * nothing; the model hands back how it ended and, as a ghost, the list it
 * built.
 */
module JobsToCsv {
  import opened Wrappers
  import opened PyValues
  import opened Records
  import opened Collection
  import opened Collectors
  import JobValueGetter
  import JobParser

  /**
   * One item: the click, `get_values_for_job`, then `parse_data` on the
   * record. When the native click is intercepted, `execute_via_javascript`
   * clicks the same button, so interception changes nothing here.
   */
  method ReadItem(item: Item) returns (r: Result<Record, PyError>)
    ensures r == ItemOf(ToCsv)(item)
  {
    assert ItemOf(ToCsv)(item) == ParsedValues(item.page, item.root, item.button);
    var found := JobValueGetter.GetValuesForJob(item.page, item.root, item.button);
    if found.Failure? {
      return Failure(found.error);
    }
    var job := found.value;
    var err := JobParser.ParseData(job);
    if err.Some? {
      return Failure(err.value);
    }
    r := Success(job.items);
  }

  method GetJobsToCsv(jobsNumber: int, listings: seq<Listing>) returns (stop: Stop, ghost jobs: seq<Record>)
    ensures Collected(jobs, stop) == Run(ToCsv, jobsNumber, listings)
  {
    var f := ItemOf(ToCsv);
    var collected: seq<Record> := [];
    var li := 0;
    while |collected| < jobsNumber
      invariant 0 <= li <= |listings|
      invariant Collect(f, true, jobsNumber, listings[li..], collected) == Run(ToCsv, jobsNumber, listings)
      decreases |listings| - li
    {
      if li == |listings| {
        // the browser offers no further pass
        return Unfinished, collected;
      }
      match listings[li]
      case GridMissing =>
        return Raised(Timeout), collected;
      case ItemsMissing(error) =>
        return Exited(BlockedMessage(error)), collected;
      case Items(items) =>
        ghost var before := collected;
        var i := 0;
        while i < |items|
          invariant 0 <= i <= |items|
          invariant TakeItems(f, jobsNumber, items[i..], collected) == TakeItems(f, jobsNumber, items, before)
        {
          if |collected| >= jobsNumber {
            break;
          }
          var r := ReadItem(items[i]);
          assert items[i..][1..] == items[i + 1..];
          if r.Failure? {
            return Raised(r.error), collected;
          }
          collected := collected + [r.value];
          i := i + 1;
        }
        assert listings[li..][1..] == listings[li + 1..];
        li := li + 1;
    }
    return Reached, collected;
  }
}
