/**
 * What the three collection loops see of the browser, and the records
 * they collect, as values. Each pass of an outer loop waits for the
 * listing grid and reads its items afresh; the browser is given as the
 * sequence of listings those passes find (the page does not advance
 * between passes in any of the three loops). A run that uses up the
 * given listings before it stops ends as `Unfinished`.
 *
 * The loops differ only in what one item yields and in how they treat a
 * grid whose items cannot be listed, so the loop is stated once here,
 * over an item function `f` and a flag `exits`.
 */
module Collection {
  import opened Wrappers
  import opened PyValues
  import opened Records
  import opened Dom

  /** A listing item: the page its click shows, the node the detail panel is looked up under, its button, and whether a native click on it is intercepted. */
  datatype Item = Item(page: Page, root: Node, button: Node, intercepted: bool)

  /** What one pass finds: no grid within the wait, a grid whose items cannot be listed, or its items in order. */
  datatype Listing = GridMissing | ItemsMissing(error: string) | Items(items: seq<Item>)

  /** How a loop ends: the target reached, the process exited with a message, an exception escaping, or the given listings used up. */
  datatype Stop = Reached | Exited(message: string) | Raised(error: PyError) | Unfinished

  datatype Collected = Collected(jobs: seq<Record>, stop: Stop)

  /**
   * The `sys.exit` text of jobs_to_csv and jobs_getter when the grid's
   * items cannot be listed; the backslash continuations keep the next
   * lines' sixteen-space indentation.
   */
  function BlockedMessage(error: string): (m: string)
    ensures |m| > |error| && m[|m| - |error|..] == error
  {
    "Check if you did not any misspell in the job title or "
    + "                if you were silently blocked by glassdoor."
    + "                \nError: " + error
  }

  /** The records of the items that succeed, in order. */
  function Results(f: Item -> Result<Record, PyError>, items: seq<Item>): seq<Record>
  {
    if items == [] then []
    else match f(items[0])
      case Success(rec) => [rec] + Results(f, items[1..])
      case Failure(_) => Results(f, items[1..])
  }

  predicate AllSucceed(f: Item -> Result<Record, PyError>, items: seq<Item>)
  {
    forall i :: 0 <= i < |items| ==> f(items[i]).Success?
  }

  /**
   * The inner `for` loop: from the first item, each item's record is
   * appended until the list holds `target` records (checked before each
   * item) or an item raises.
   */
  function TakeItems(f: Item -> Result<Record, PyError>, target: int, items: seq<Item>, jobs: seq<Record>): (r: (seq<Record>, Option<PyError>))
    ensures jobs <= r.0
    ensures |jobs| <= target ==> |r.0| <= target
    ensures r.1.Some? ==> |r.0| < target
    ensures r.1.None? && |r.0| < target ==> |r.0| == |jobs| + |items|
  {
    if items == [] || |jobs| >= target then (jobs, None)
    else match f(items[0])
      case Failure(e) => (jobs, Some(e))
      case Success(rec) => TakeItems(f, target, items[1..], jobs + [rec])
  }

  /**
   * The outer `while len(jobs) < target` loop over the passes given in
   * `listings`, from the list `jobs` collected so far; `exits` says
   * whether an unlistable grid ends the process with a message (the
   * parsing loops) or raises NoSuchElementException (the helpers loop).
   */
  function Collect(f: Item -> Result<Record, PyError>, exits: bool, target: int, listings: seq<Listing>, jobs: seq<Record>): (c: Collected)
    decreases |listings|
  {
    if |jobs| >= target then Collected(jobs, Reached)
    else if listings == [] then Collected(jobs, Unfinished)
    else match listings[0]
      case GridMissing => Collected(jobs, Raised(Timeout))
      case ItemsMissing(error) =>
        if exits then Collected(jobs, Exited(BlockedMessage(error)))
        else Collected(jobs, Raised(NoSuchElement))
      case Items(items) =>
        var (taken, raised) := TakeItems(f, target, items, jobs);
        if raised.Some? then Collected(taken, Raised(raised.value))
        else Collect(f, exits, target, listings[1..], taken)
  }

  /**
   * The list never grows past the target, keeps what it held, and the
   * loop reports the target reached exactly when the list holds that
   * many records.
   */
  lemma {:induction false} CollectBounded(f: Item -> Result<Record, PyError>, exits: bool, target: int, listings: seq<Listing>, jobs: seq<Record>)
    requires |jobs| <= target
    ensures jobs <= Collect(f, exits, target, listings, jobs).jobs
    ensures |Collect(f, exits, target, listings, jobs).jobs| <= target
    ensures Collect(f, exits, target, listings, jobs).stop == Reached <==> |Collect(f, exits, target, listings, jobs).jobs| == target
    decreases |listings|
  {
    if |jobs| < target && listings != [] && listings[0].Items? {
      var (taken, raised) := TakeItems(f, target, listings[0].items, jobs);
      if raised.None? {
        CollectBounded(f, exits, target, listings[1..], taken);
      }
    }
  }

  /**
   * With items that all succeed, a pass appends their records in order,
   * from the first item, until the target is met.
   */
  lemma {:induction false} TakeItemsRecords(f: Item -> Result<Record, PyError>, target: int, items: seq<Item>, jobs: seq<Record>)
    requires AllSucceed(f, items) && |jobs| <= target
    ensures var k := if |items| <= target - |jobs| then |items| else target - |jobs|;
            TakeItems(f, target, items, jobs) == (jobs + Results(f, items[..k]), None)
    decreases |items|
  {
    var k := if |items| <= target - |jobs| then |items| else target - |jobs|;
    if items == [] || |jobs| >= target {
      assert items[..k] == [];
      assert jobs + [] == jobs;
    } else {
      var rec := f(items[0]).value;
      assert AllSucceed(f, items[1..]) by {
        forall i | 0 <= i < |items[1..]| ensures f(items[1..][i]).Success? {
          assert items[1..][i] == items[i + 1];
        }
      }
      TakeItemsRecords(f, target, items[1..], jobs + [rec]);
      assert items[..k][0] == items[0] && items[..k][1..] == items[1..][..k - 1];
      assert Results(f, items[..k]) == [rec] + Results(f, items[1..][..k - 1]);
      assert jobs + [rec] + Results(f, items[1..][..k - 1]) == jobs + ([rec] + Results(f, items[1..][..k - 1]));
    }
  }

  /** Items that all succeed give one record each. */
  lemma {:induction false} ResultsLength(f: Item -> Result<Record, PyError>, items: seq<Item>)
    requires AllSucceed(f, items)
    ensures |Results(f, items)| == |items|
    decreases |items|
  {
    if items != [] {
      assert f(items[0]).Success?;
      assert AllSucceed(f, items[1..]) by {
        forall i | 0 <= i < |items[1..]| ensures f(items[1..][i]).Success? {
          assert items[1..][i] == items[i + 1];
        }
      }
      ResultsLength(f, items[1..]);
    }
  }

  /**
   * Each pass starts again at the listing's first item: when the page
   * does not change between two passes, its records are collected twice.
   */
  lemma RepeatedPassRepeatsRecords(f: Item -> Result<Record, PyError>, exits: bool, target: int, items: seq<Item>)
    requires AllSucceed(f, items) && 2 * |items| <= target
    ensures Collect(f, exits, target, [Items(items), Items(items)], []).jobs == Results(f, items) + Results(f, items)
  {
    var none: seq<Record> := [];
    assert items[..|items|] == items;
    TakeItemsRecords(f, target, items, none);
    assert none + Results(f, items) == Results(f, items);
    ResultsLength(f, items);
    TakeItemsRecords(f, target, items, Results(f, items));
    var once := Results(f, items);
    var twice := once + once;
    assert TakeItems(f, target, items, none) == (once, None);
    assert TakeItems(f, target, items, once) == (twice, None);
    if 0 < target {
      assert Collect(f, exits, target, [Items(items), Items(items)], none)
          == Collect(f, exits, target, [Items(items)], once);
      if |once| < target {
        assert Collect(f, exits, target, [Items(items)], once) == Collect(f, exits, target, [], twice);
      }
    }
  }

  /** Passes that find no items add nothing: the loop makes no progress and never reaches its target. */
  lemma {:induction false} EmptyPassesNoProgress(f: Item -> Result<Record, PyError>, exits: bool, target: int, listings: seq<Listing>, jobs: seq<Record>)
    requires |jobs| < target
    requires forall i :: 0 <= i < |listings| ==> listings[i] == Items([])
    ensures Collect(f, exits, target, listings, jobs) == Collected(jobs, Unfinished)
    decreases |listings|
  {
    if listings != [] {
      EmptyPassesNoProgress(f, exits, target, listings[1..], jobs);
    }
  }

  /** A loop that raises on an unlistable grid never exits with a message. */
  lemma {:induction false} RaisingLoopNeverExits(f: Item -> Result<Record, PyError>, target: int, listings: seq<Listing>, jobs: seq<Record>)
    ensures !Collect(f, false, target, listings, jobs).stop.Exited?
    decreases |listings|
  {
    if |jobs| < target && listings != [] && listings[0].Items? {
      var (taken, raised) := TakeItems(f, target, listings[0].items, jobs);
      if raised.None? {
        RaisingLoopNeverExits(f, target, listings[1..], taken);
      }
    }
  }

  /**
   * When every item raises, nothing is ever appended: the first pass
   * with an item ends the loop on that item's exception.
   */
  lemma {:induction false} FailingItemsCollectNothing(f: Item -> Result<Record, PyError>, exits: bool, target: int, listings: seq<Listing>)
    requires forall item :: f(item).Failure?
    ensures Collect(f, exits, target, listings, []).jobs == []
    decreases |listings|
  {
    if 0 < target && listings != [] && listings[0].Items? {
      if listings[0].items == [] {
        FailingItemsCollectNothing(f, exits, target, listings[1..]);
      }
    }
  }
}
