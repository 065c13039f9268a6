/**
 * helpers' `get_jobs`: passes over the listing grid appending the
 * records `get_one_job` extracts, unparsed, until the list holds
 * `jobs_cap` records. Nothing catches an exception here, and the
 * function returns nothing (its caller `get_df_jobs` binds None); the
 * model hands back how it ended and, as a ghost, the list it built.
 */
module HelpersJobsLoop {
  import opened Wrappers
  import opened PyValues
  import opened Records
  import opened Collection
  import opened Collectors
  import GetOneJobRow

  /** One item: the native click, then helpers' `get_one_job`. */
  method ReadItem(debugMode: bool, item: Item) returns (r: Result<Record, PyError>)
    ensures r == ItemOf(HelpersGetJobs)(item)
  {
    if item.intercepted {
      return Failure(ClickIntercepted);
    }
    var found := GetOneJobRow.GetOneJobRow(debugMode, item.page, item.root, item.button);
    if found.Failure? {
      return Failure(found.error);
    }
    r := Success(found.value.items);
  }

  method GetJobs(jobsCap: int, debugMode: bool, listings: seq<Listing>) returns (stop: Stop, ghost jobs: seq<Record>)
    ensures Collected(jobs, stop) == Run(HelpersGetJobs, jobsCap, listings)
  {
    var f := ItemOf(HelpersGetJobs);
    var collected: seq<Record> := [];
    var li := 0;
    while |collected| < jobsCap
      invariant 0 <= li <= |listings|
      invariant Collect(f, false, jobsCap, listings[li..], collected) == Run(HelpersGetJobs, jobsCap, listings)
      decreases |listings| - li
    {
      if li == |listings| {
        // the browser offers no further pass
        return Unfinished, collected;
      }
      match listings[li]
      case GridMissing =>
        return Raised(Timeout), collected;
      case ItemsMissing(_) =>
        return Raised(NoSuchElement), collected;
      case Items(items) =>
        ghost var before := collected;
        var i := 0;
        while i < |items|
          invariant 0 <= i <= |items|
          invariant TakeItems(f, jobsCap, items[i..], collected) == TakeItems(f, jobsCap, items, before)
        {
          if |collected| >= jobsCap {
            break;
          }
          var r := ReadItem(debugMode, items[i]);
          assert items[i..][1..] == items[i + 1..];
          if r.Failure? {
            return Raised(r.error), collected;
          }
          collected := collected + [r.value];
          i := i + 1;
        }
        assert listings[li..][1..] == listings[li + 1..];
        li := li + 1;
    }
    return Reached, collected;
  }
}
