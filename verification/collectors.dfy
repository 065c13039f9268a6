/**
 * What one listing item yields in each of the three collection loops:
 * the click, then the record extractor, then (in the two parsing loops)
 * `parse_data`.
 */
module Collectors {
  import opened Wrappers
  import opened PyValues
  import opened Records
  import opened Dom
  import opened Collection
  import JobValueGetter
  import JobParser
  import OneJobSchemas
  import NAValuesParser
  import FieldSteps
  import RevenueParser
  import CompanyNameParser
  import JobDicts
  import Fields

  /** The three loops: jobs_to_csv's `get_jobs_to_csv`, jobs_getter's `get_jobs`, helpers' `get_jobs`. */
  datatype Collector = ToCsv | JobsGetter | HelpersGetJobs

  /**
   * The click on an item: jobs_to_csv falls back to a script click on the
   * same button when the native click is intercepted; the other two let
   * the interception escape.
   */
  function Click(kind: Collector, item: Item): (r: Result<Node, PyError>)
    ensures kind == ToCsv ==> r == Success(item.button)
    ensures kind != ToCsv ==> (r.Failure? <==> item.intercepted)
    ensures r.Success? ==> r.value == item.button
    ensures r.Failure? ==> r.error == ClickIntercepted
  {
    if item.intercepted && kind != ToCsv then Failure(ClickIntercepted) else Success(item.button)
  }

  /** `get_values_for_job` on the clicked item, then `parse_data` on its record. */
  function ParsedValues(p: Page, root: Node, button: Node): (r: Result<Record, PyError>)
    ensures JobValueGetter.ValuesForJob(p, root, button).Failure? ==> r == Failure(Timeout)
    ensures JobValueGetter.ValuesForJob(p, root, button).Success? ==>
              var o := JobParser.ParseDataSpec(JobValueGetter.ValuesForJob(p, root, button).value);
              (r.Success? <==> o.raised.None?) && (r.Success? ==> r.value == o.rec) && (r.Failure? ==> r.error == o.raised.value)
  {
    match JobValueGetter.ValuesForJob(p, root, button)
    case Failure(e) => Failure(e)
    case Success(rec) =>
      var o := JobParser.ParseDataSpec(rec);
      if o.raised.Some? then Failure(o.raised.value) else Success(o.rec)
  }

  /** The record an item adds to the list, or the exception it raises. */
  function ItemResult(kind: Collector, item: Item): Result<Record, PyError>
  {
    match Click(kind, item)
    case Failure(e) => Failure(e)
    case Success(button) =>
      if kind == HelpersGetJobs then OneJobSchemas.OneJob(item.page, item.root, button)
      else ParsedValues(item.page, item.root, button)
  }

  /** A loop's item function, as the loop specification takes it. */
  function ItemOf(kind: Collector): Item -> Result<Record, PyError>
  {
    item => ItemResult(kind, item)
  }

  /** The two parsing loops exit with a message on an unlistable grid; the helpers loop raises. */
  function Exits(kind: Collector): bool
  {
    kind != HelpersGetJobs
  }

  /** The loop `kind` over the passes `listings`, from an empty list. */
  function Run(kind: Collector, target: int, listings: seq<Listing>): Collected
  {
    Collect(ItemOf(kind), Exits(kind), target, listings, [])
  }

  /**
   * jobs_to_csv reads the same record whether the native click went
   * through or was replaced by a script click; the other two loops raise
   * on an intercepted click, and otherwise jobs_getter reads what
   * jobs_to_csv reads.
   */
  lemma ClickFallback(item: Item)
    ensures ItemResult(ToCsv, item) == ItemResult(ToCsv, item.(intercepted := false))
    ensures item.intercepted ==> ItemResult(JobsGetter, item) == Failure(ClickIntercepted)
    ensures item.intercepted ==> ItemResult(HelpersGetJobs, item) == Failure(ClickIntercepted)
    ensures !item.intercepted ==> ItemResult(JobsGetter, item) == ItemResult(ToCsv, item)
  {
    var plain := item.(intercepted := false);
    assert plain.button == item.button && plain.page == item.page && plain.root == item.root;
    assert Click(ToCsv, item) == Click(ToCsv, plain) == Success(item.button);
    if !item.intercepted {
      assert Click(JobsGetter, item) == Success(item.button);
    }
  }

  /**
   * A record the two parsing loops append is `parse_data`'s complete
   * result on the item's extracted record; the helpers loop appends the
   * extracted record as it is.
   */
  lemma RecordsParsedOnce(kind: Collector, item: Item)
    requires ItemResult(kind, item).Success?
    ensures kind != HelpersGetJobs ==>
              JobValueGetter.ValuesForJob(item.page, item.root, item.button).Success?
              && JobParser.ParseDataSpec(JobValueGetter.ValuesForJob(item.page, item.root, item.button).value)
                 == JobDicts.Outcome(ItemResult(kind, item).value, None)
    ensures kind == HelpersGetJobs ==> ItemResult(kind, item) == OneJobSchemas.OneJob(item.page, item.root, item.button)
  {
  }

  /**
   * The extractor names the company column "Company_Name" while the
   * company step of `parse_data` reads "Company_name": `parse_data` raises
   * on every extracted record, with KeyError('Company_name') unless the
   * revenue step before it has already raised.
   */
  lemma ExtractedRecordsFailToParse(p: Page, jobPost: Node, jobButton: Node)
    ensures JobParser.ParseDataSpec(JobValueGetter.JobValues(p, jobPost, jobButton)).raised.Some?
    ensures var r1 := NAValuesParser.NormalizeNA(JobValueGetter.JobValues(p, jobPost, jobButton));
            FieldSteps.CleanField(r1, RevenueParser.RevenueColumn, Str(RevenueParser.CurrencyTag)).Success? ==>
              JobParser.ParseDataSpec(JobValueGetter.JobValues(p, jobPost, jobButton)).raised
              == Some(KeyError(CompanyNameParser.CompanyColumn))
  {
    JobValueGetter.JobLayout(p, jobPost, jobButton);
    CompanyColumnNotExtracted();
  }

  lemma CompanyColumnNotExtracted()
    ensures CompanyNameParser.CompanyColumn !in JobValueGetter.JobColumns
  {
  }

  /** Hence no item ever gets through either parsing loop. */
  lemma ParsingLoopItemsFail(kind: Collector, item: Item)
    requires kind != HelpersGetJobs
    ensures ItemResult(kind, item).Failure?
  {
    if Click(kind, item).Success? {
      var found := JobValueGetter.ValuesForJob(item.page, item.root, item.button);
      if found.Success? {
        ExtractedRecordsFailToParse(item.page, Dom.FindElement(item.page, item.root, Fields.DetailPanel).value, item.button);
      }
    }
  }

  /**
   * And neither parsing loop ever appends a record: the first item that
   * gets past its click raises, and the list stays empty.
   */
  lemma ParsingLoopsCollectNothing(kind: Collector, target: int, listings: seq<Listing>)
    requires kind != HelpersGetJobs
    ensures Run(kind, target, listings).jobs == []
  {
    forall item ensures ItemOf(kind)(item).Failure? {
      ParsingLoopItemsFail(kind, item);
    }
    FailingItemsCollectNothing(ItemOf(kind), Exits(kind), target, listings);
  }
}
