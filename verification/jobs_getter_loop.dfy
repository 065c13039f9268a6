/**
 * jobs_getter's `get_jobs`: the jobs_to_csv loop without the click
 * fallback, so an intercepted click escapes as an exception. It returns
 * nothing; the model hands back how it ended and, as a ghost, the list it
 * built.
 */
module JobsGetterLoop {
  import opened Wrappers
  import opened PyValues
  import opened Records
  import opened Collection
  import opened Collectors
  import JobValueGetter
  import JobParser

  /** One item: the native click, `get_values_for_job`, then `parse_data` on the record. */
  method ReadItem(item: Item) returns (r: Result<Record, PyError>)
    ensures r == ItemOf(JobsGetter)(item)
  {
    if item.intercepted {
      return Failure(ClickIntercepted);
    }
    assert ItemOf(JobsGetter)(item) == ParsedValues(item.page, item.root, item.button);
    var found := JobValueGetter.GetValuesForJob(item.page, item.root, item.button);
    if found.Failure? {
      return Failure(found.error);
    }
    var job := found.value;
    var err := JobParser.ParseData(job);
    if err.Some? {
      return Failure(err.value);
    }
    r := Success(job.items);
  }

  method GetJobs(jobsNumber: int, listings: seq<Listing>) returns (stop: Stop, ghost jobs: seq<Record>)
    ensures Collected(jobs, stop) == Run(JobsGetter, jobsNumber, listings)
  {
    var f := ItemOf(JobsGetter);
    var collected: seq<Record> := [];
    var li := 0;
    while |collected| < jobsNumber
      invariant 0 <= li <= |listings|
      invariant Collect(f, true, jobsNumber, listings[li..], collected) == Run(JobsGetter, jobsNumber, listings)
      decreases |listings| - li
    {
      if li == |listings| {
        // the browser offers no further pass
        return Unfinished, collected;
      }
      match listings[li]
      case GridMissing =>
        return Raised(Timeout), collected;
      case ItemsMissing(error) =>
        return Exited(BlockedMessage(error)), collected;
      case Items(items) =>
        ghost var before := collected;
        var i := 0;
        while i < |items|
          invariant 0 <= i <= |items|
          invariant TakeItems(f, jobsNumber, items[i..], collected) == TakeItems(f, jobsNumber, items, before)
        {
          if |collected| >= jobsNumber {
            break;
          }
          var r := ReadItem(items[i]);
          assert items[i..][1..] == items[i + 1..];
          if r.Failure? {
            return Raised(r.error), collected;
          }
          collected := collected + [r.value];
          i := i + 1;
        }
        assert listings[li..][1..] == listings[li + 1..];
        li := li + 1;
    }
    return Reached, collected;
  }
}
