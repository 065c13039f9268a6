/**
 * glassdoor_scraper/src/main.py: the `glassdoor_scraper` run. It builds
 * the search URL from the JSON configuration, writes the CSV header,
 * stops at once when the target is not below the site's maximum, then
 * walks result pages by rewriting the URL's page suffix, appending each
 * page's listing rows. The network (`requestAndParse`,
 * `extract_listings`, `extract_listing`, `extract_maximums`) is the
 * environment: the pages a run would fetch are given in order.
 */
module GlassdoorMain {
  import opened Wrappers
  import opened PyValues
  import opened Text
  import ScraperConfig

  /** A CSV line as the `csv` module is handed it. */
  type Row = seq<Value>

  /** The fields of the JSON configuration the run reads: `url` parts, `url["003_job_type"]`, `jobs` and `target_num`. */
  datatype JsonConfig = JsonConfig(url: map<string, string>, jobTypes: seq<string>, jobs: seq<string>, targetNum: int)

  /** One fetched result page: its listings' rows (as `extract_listing` returns them) and the job count it reports. */
  datatype PageData = PageData(rows: seq<Row>, jobCount: int)

  /** How a run ends: the page loop finished, `os._exit(0)` on a target too large, an exception, or the given pages used up. */
  datatype RunEnd = Done | Aborted | Raised(error: PyError) | Unfinished

  /**
   * `update_url`: on page 1 every ".htm" becomes "_IP1.htm"; on page n
   * every "_IP{n-1}.htm" becomes "_IP{n}.htm".
   */
  function UpdateUrl(prevUrl: string, pageIndex: int): (u: string)
    ensures !Contains(prevUrl, ".htm") ==> u == prevUrl
    ensures pageIndex != 1 && !Contains(prevUrl, "_IP") ==> u == prevUrl
  {
    if pageIndex == 1 then Replace(prevUrl, ".htm", "_IP" + IntToString(pageIndex) + ".htm")
    else
      var d := IntToString(pageIndex - 1);
      assert "_IP" + d + ".htm" == "_IP" + (d + ".htm");
      NotContainsInner(prevUrl, "_IP" + d, ".htm");
      if !Contains(prevUrl, "_IP") then
        NotContainsExtension(prevUrl, "_IP", d + ".htm");
        NotContainsFromNone(prevUrl, "_IP" + d + ".htm");
        Replace(prevUrl, "_IP" + d + ".htm", "_IP" + IntToString(pageIndex) + ".htm")
      else
        Replace(prevUrl, "_IP" + d + ".htm", "_IP" + IntToString(pageIndex) + ".htm")
  }

  /** No "q" anywhere means no "p + q" anywhere either. */
  lemma NotContainsInner(x: string, p: string, q: string)
    requires q != []
    ensures !Contains(x, q) ==> !Contains(x, p + q)
  {
    if !Contains(x, q) {
      forall k | 0 <= k && OccursAt(x, p + q, k) ensures false {
        assert x[k + |p|..k + |p| + |q|] == (p + q)[|p|..];
        assert OccursAt(x, q, k + |p|);
      }
      NotContains(x, p + q);
    }
  }

  /** A URL without the substring to rewrite comes back unchanged. */
  lemma UpdateUrlAbsent(prevUrl: string, pageIndex: int)
    requires pageIndex == 1 ==> !Contains(prevUrl, ".htm")
    requires pageIndex != 1 ==> !Contains(prevUrl, "_IP" + IntToString(pageIndex - 1) + ".htm")
    ensures UpdateUrl(prevUrl, pageIndex) == prevUrl
  {
    if pageIndex == 1 {
      ReplaceAbsent(prevUrl, ".htm", "_IP" + IntToString(pageIndex) + ".htm");
    } else {
      ReplaceAbsent(prevUrl, "_IP" + IntToString(pageIndex - 1) + ".htm", "_IP" + IntToString(pageIndex) + ".htm");
    }
  }

  /** `update_url` as a value, for the page loop's specification. */
  function UpdateFn(): (string, int) -> string
  {
    (u, i) => UpdateUrl(u, i)
  }

  /** The URL requested for page `n` with the rewrite `update`, each page's URL rewritten from the previous one, starting from the base. */
  function PageUrlBy(update: (string, int) -> string, base: string, n: nat): string
  {
    if n == 0 then base else update(PageUrlBy(update, base, n - 1), n)
  }

  /** The URL the loop requests for page `n`. */
  function PageUrl(base: string, n: nat): string
  {
    PageUrlBy(UpdateFn(), base, n)
  }

  /** The page suffix "_IP{n}.htm". */
  function PageSuffix(n: nat): string
  {
    "_IP" + NatToString(n) + ".htm"
  }

  /**
   * From a base with one ".htm" and no "_IP", the URL for page n (n at
   * least 1) is the base with its ".htm" turned into "_IP{n}.htm".
   */
  lemma {:induction false} PageUrlChain(a: string, b: string, n: nat)
    requires n >= 1
    requires !Contains(a, ".htm") && !Contains(a, "_IP")
    requires !Contains(b, ".htm") && !Contains(b, "_IP")
    ensures PageUrl(a + ".htm" + b, n) == a + PageSuffix(n) + b
  {
    var base := a + ".htm" + b;
    assert PageUrl(base, n) == UpdateUrl(PageUrl(base, n - 1), n);
    if n == 1 {
      assert PageUrl(base, 0) == base;
    } else {
      PageUrlChain(a, b, n - 1);
    }
    UpdateUrlStep(a, b, n);
  }

  /**
   * One rewrite: page 1 turns the single ".htm" into "_IP1.htm", and page
   * n turns the single "_IP{n-1}.htm" into "_IP{n}.htm".
   */
  lemma UpdateUrlStep(a: string, b: string, n: nat)
    requires n >= 1
    requires !Contains(a, ".htm") && !Contains(a, "_IP")
    requires !Contains(b, ".htm") && !Contains(b, "_IP")
    ensures n == 1 ==> UpdateUrl(a + ".htm" + b, n) == a + PageSuffix(n) + b
    ensures n > 1 ==> UpdateUrl(a + PageSuffix(n - 1) + b, n) == a + PageSuffix(n) + b
  {
    if n == 1 {
      NoStraddle(a, ".htm", b);
      ReplaceSingle(a, ".htm", b, PageSuffix(1));
      assert IntToString(1) == NatToString(1);
    } else {
      var pat := PageSuffix(n - 1);
      assert pat == "_IP" + (NatToString(n - 1) + ".htm");
      SuffixFirstCharUnique(n - 1);
      NotContainsExtension(a, "_IP", NatToString(n - 1) + ".htm");
      NotContainsExtension(b, "_IP", NatToString(n - 1) + ".htm");
      NoStraddle(a, pat, b);
      NotContainsFromNone(b, pat);
      ReplaceSingle(a, pat, b, PageSuffix(n));
      assert IntToString(n - 1) == NatToString(n - 1) && IntToString(n) == NatToString(n);
    }
  }

  /** `pat`'s first character occurs nowhere else in it, and `a` has no `pat`: so no occurrence in `a + pat + b` starts inside `a`. */
  lemma NoStraddle(a: string, pat: string, b: string)
    requires pat != []
    requires forall j :: 0 < j < |pat| ==> pat[j] != pat[0]
    requires forall k :: 0 <= k ==> !OccursAt(a, pat, k)
    ensures forall k :: 0 <= k < |a| ==> !OccursAt(a + pat + b, pat, k)
  {
    var s := a + pat + b;
    forall k | 0 <= k < |a| ensures !OccursAt(s, pat, k) {
      if k + |pat| <= |s| {
        if k + |pat| <= |a| {
          assert !OccursAt(a, pat, k);
          assert s[k..k + |pat|] == a[k..k + |pat|];
        } else {
          var j := |a| - k;
          assert 0 < j < |pat|;
          assert s[|a|] == pat[0];
          assert s[k..k + |pat|][j] == s[|a|];
          assert pat[j] != pat[0];
        }
      }
    }
  }

  lemma SuffixFirstCharUnique(n: nat)
    ensures forall j :: 0 < j < |PageSuffix(n)| ==> PageSuffix(n)[j] != '_'
    ensures PageSuffix(n)[0] == '_'
  {
    var d := NatToString(n);
    forall j | 0 < j < |PageSuffix(n)| ensures PageSuffix(n)[j] != '_' {
      if 3 <= j < 3 + |d| {
        assert PageSuffix(n)[j] == d[j - 3];
        assert IsDigit(d[j - 3]);
      }
    }
  }

  /** No "p" anywhere means no "p + q" anywhere either. */
  lemma NotContainsExtension(x: string, p: string, q: string)
    requires !Contains(x, p)
    ensures forall k :: 0 <= k ==> !OccursAt(x, p + q, k)
  {
    forall k | 0 <= k && OccursAt(x, p + q, k) ensures false {
      assert x[k..k + |p|] == (p + q)[..|p|];
      assert OccursAt(x, p, k);
    }
  }

  lemma NotContainsFromNone(x: string, p: string)
    requires forall k :: 0 <= k ==> !OccursAt(x, p, k)
    ensures !Contains(x, p)
  {
    NotContains(x, p);
  }

  /**
   * `load_configs`: the base, the quoted first job title, the keyword
   * part, the title again and the first job type, with `target_num`.
   * Lookups fail in the order the source reads them.
   */
  function LoadConfigs(c: JsonConfig, quote: string -> string): (r: Result<(string, int), PyError>)
    ensures r.Success? <==> "001_base" in c.url && "002_keyword" in c.url && c.jobTypes != [] && c.jobs != []
    ensures r.Success? ==> r.value.1 == c.targetNum
  {
    if "001_base" !in c.url then Failure(KeyError("001_base"))
    else if "002_keyword" !in c.url then Failure(KeyError("002_keyword"))
    else if c.jobTypes == [] then Failure(IndexError)
    else if c.jobs == [] then Failure(IndexError)
    else
      var job := quote(c.jobs[0]);
      Success((c.url["001_base"] + job + c.url["002_keyword"] + job + c.jobTypes[0], c.targetNum))
  }

  /**
   * The base URL has the shape of the scraper's `get_url`, with the
   * quoted title and the first job type in the location's place.
   */
  lemma LoadConfigsUrl(c: JsonConfig, quote: string -> string)
    requires LoadConfigs(c, quote).Success?
    ensures var parts := map["001_base" := c.url["001_base"], "002_keyword" := c.url["002_keyword"], "003_location" := c.jobTypes[0]];
            LoadConfigs(c, quote).value.0 == ScraperConfig.GetUrl(parts, quote(c.jobs[0])).value
  {
  }

  /** The rows of `rows` the csv writer accepts, in order. */
  function Accepted(rows: seq<Row>, accepts: Row -> bool): (r: seq<Row>)
    ensures |r| <= |rows|
    ensures forall i :: 0 <= i < |r| ==> accepts(r[i])
  {
    if rows == [] then []
    else if accepts(rows[0]) then [rows[0]] + Accepted(rows[1..], accepts)
    else Accepted(rows[1..], accepts)
  }

  lemma {:induction false} AcceptedAppend(x: seq<Row>, y: seq<Row>, accepts: Row -> bool)
    ensures Accepted(x + y, accepts) == Accepted(x, accepts) + Accepted(y, accepts)
  {
    if x == [] {
      assert x + y == y;
    } else {
      assert (x + y)[1..] == x[1..] + y;
      AcceptedAppend(x[1..], y, accepts);
    }
  }

  /** Every row the writer accepts is kept: a file written with only acceptable rows gets all of them. */
  lemma {:induction false} AllAccepted(rows: seq<Row>, accepts: Row -> bool)
    requires forall i :: 0 <= i < |rows| ==> accepts(rows[i])
    ensures Accepted(rows, accepts) == rows
  {
    if rows != [] {
      AllAccepted(rows[1..], accepts);
    }
  }

  /**
   * `fileWriter`: each row in turn, appended when the writer takes it,
   * skipped with a warning when it raises; the loop always runs to the end.
   */
  method FileWriter(file: seq<Row>, rows: seq<Row>, accepts: Row -> bool) returns (written: seq<Row>)
    ensures written == file + Accepted(rows, accepts)
  {
    written := file;
    for i := 0 to |rows|
      invariant written == file + Accepted(rows[..i], accepts)
    {
      AcceptedAppend(rows[..i], [rows[i]], accepts);
      assert rows[..i + 1] == rows[..i] + [rows[i]];
      if accepts(rows[i]) {
        written := written + [rows[i]];
      } else {
        // "[WARN] In filewriter: ..." and on to the next row
      }
    }
    assert rows[..|rows|] == rows;
  }

  /** The sum of the job counts of the first `n` pages. */
  function Total(pages: seq<PageData>, n: nat): int
    requires n <= |pages|
  {
    if n == 0 then 0 else Total(pages, n - 1) + pages[n - 1].jobCount
  }

  /** The rows the writer keeps from the first `n` pages, page after page. */
  function PageRows(pages: seq<PageData>, n: nat, accepts: Row -> bool): seq<Row>
    requires n <= |pages|
  {
    if n == 0 then [] else PageRows(pages, n - 1, accepts) + Accepted(pages[n - 1].rows, accepts)
  }

  /** The CSV header the run writes first. */
  const Header: Row := [Str("companyName"), Str("company_starRating"), Str("company_offeredRole"),
                        Str("company_roleLocation"), Str("listing_jobDesc"), Str("requested_url")]

  /** The URLs of pages 1 to `n`, in order. */
  function PageUrls(update: (string, int) -> string, baseUrl: string, n: nat): (urls: seq<string>)
    ensures |urls| == n
  {
    if n == 0 then [] else PageUrls(update, baseUrl, n - 1) + [PageUrlBy(update, baseUrl, n)]
  }

  /** The i-th URL requested is page i + 1's. */
  lemma {:induction false} PageUrlsAt(update: (string, int) -> string, baseUrl: string, n: nat, i: nat)
    requires i < n
    ensures PageUrls(update, baseUrl, n)[i] == PageUrlBy(update, baseUrl, i + 1)
  {
    if i < n - 1 {
      PageUrlsAt(update, baseUrl, n - 1, i);
    }
  }

  /** The count stayed at most the target before each of the first `n` pages, so the loop went on to each of them. */
  predicate ContinuedThrough(pages: seq<PageData>, n: nat, targetNum: int)
    requires n <= |pages|
  {
    n == 0 || (ContinuedThrough(pages, n - 1, targetNum) && Total(pages, n - 1) <= targetNum)
  }

  lemma {:induction false} ContinuedThroughAt(pages: seq<PageData>, n: nat, targetNum: int, k: nat)
    requires n <= |pages| && ContinuedThrough(pages, n, targetNum) && k < n
    ensures Total(pages, k) <= targetNum
  {
    if k < n - 1 {
      ContinuedThroughAt(pages, n - 1, targetNum, k);
    }
  }

  /**
   * What the page loop has done after its first `|fetched|` pages:
   * requested each page's URL, gone on past each of them only while the
   * count was at most the target, summed their counts and appended their
   * rows.
   */
  ghost predicate PagesDone(update: (string, int) -> string, baseUrl: string, targetNum: int, pages: seq<PageData>, accepts: Row -> bool,
                            file0: seq<Row>, fetched: seq<string>, total: int, file: seq<Row>)
  {
    |fetched| <= |pages|
    && fetched == PageUrls(update, baseUrl, |fetched|)
    && ContinuedThrough(pages, |fetched|, targetNum)
    && total == Total(pages, |fetched|)
    && file == file0 + PageRows(pages, |fetched|, accepts)
  }

  /** One more page: its URL rewritten from the previous one, its rows appended, its count added. */
  lemma PageStep(update: (string, int) -> string, baseUrl: string, targetNum: int, pages: seq<PageData>, accepts: Row -> bool,
                 file0: seq<Row>, fetched: seq<string>, total: int, file: seq<Row>)
    requires PagesDone(update, baseUrl, targetNum, pages, accepts, file0, fetched, total, file)
    requires |fetched| < |pages| && total <= targetNum
    ensures PagesDone(update, baseUrl, targetNum, pages, accepts, file0,
                      fetched + [update(PageUrlBy(update, baseUrl, |fetched|), |fetched| + 1)], total + pages[|fetched|].jobCount,
                      file + Accepted(pages[|fetched|].rows, accepts))
  {
    var n := |fetched|;
    var url := update(PageUrlBy(update, baseUrl, n), n + 1);
    assert PageUrlBy(update, baseUrl, n + 1) == url;
    assert PageUrls(update, baseUrl, n + 1) == fetched + [url];
    assert ContinuedThrough(pages, n + 1, targetNum);
    assert Total(pages, n + 1) == total + pages[n].jobCount;
    var more := Accepted(pages[n].rows, accepts);
    assert PageRows(pages, n + 1, accepts) == PageRows(pages, n, accepts) + more;
    assert file0 + (PageRows(pages, n, accepts) + more) == (file0 + PageRows(pages, n, accepts)) + more;
  }

  /**
   * The `while total_listingCount <= target_num` loop from page 1: each
   * page's URL is rewritten from the previous one, its rows appended and
   * its job count added, until the count exceeds the target.
   */
  method PageLoop(baseUrl: string, targetNum: int, pages: seq<PageData>, accepts: Row -> bool, file0: seq<Row>)
    returns (end: RunEnd, file: seq<Row>, total: int, ghost fetched: seq<string>)
    ensures PagesDone(UpdateFn(), baseUrl, targetNum, pages, accepts, file0, fetched, total, file)
    ensures end == Done || end == Unfinished
    ensures end == Done ==> total > targetNum
    ensures end == Unfinished ==> |fetched| == |pages| && total <= targetNum
  {
    fetched := [];
    total := 0;
    file := file0;
    var pageIndex := 1;
    var previousUrl := baseUrl;
    assert file0 + [] == file0;
    while total <= targetNum
      invariant |fetched| == pageIndex - 1
      invariant previousUrl == PageUrlBy(UpdateFn(), baseUrl, pageIndex - 1)
      invariant PagesDone(UpdateFn(), baseUrl, targetNum, pages, accepts, file0, fetched, total, file)
      decreases |pages| - |fetched|
    {
      if pageIndex - 1 == |pages| {
        // the environment offers no further page
        return Unfinished, file, total, fetched;
      }
      var newUrl := UpdateUrl(previousUrl, pageIndex);
      assert newUrl == UpdateFn()(previousUrl, pageIndex);
      var page := pages[pageIndex - 1];
      PageStep(UpdateFn(), baseUrl, targetNum, pages, accepts, file0, fetched, total, file);
      file := FileWriter(file, page.rows, accepts);
      total := total + page.jobCount;
      fetched := fetched + [newUrl];
      pageIndex := pageIndex + 1;
      previousUrl := newUrl;
    }
    end := Done;
  }

  /**
   * A run: the loaded configuration (or the error loading it raised),
   * the optional command-line overrides, the site's maximum job count,
   * the pages the loop would fetch in order, and the output file as it
   * was. Returns how it ended, the file, the number of jobs counted and,
   * as a ghost, the URLs requested.
   */
  method Run(loaded: Result<(string, int), PyError>, baseUrlArg: Option<string>, targetNumArg: Option<int>,
             maxJobs: int, pages: seq<PageData>, accepts: Row -> bool, file0: seq<Row>)
    returns (end: RunEnd, file: seq<Row>, total: int, ghost fetched: seq<string>)
    ensures loaded.Failure? ==> end == Raised(loaded.error) && file == file0 && fetched == []
    ensures loaded.Success? ==>
              var base := if baseUrlArg.Some? then baseUrlArg.value else loaded.value.0;
              var target := if targetNumArg.Some? then targetNumArg.value else loaded.value.1;
              (end == Aborted <==> target >= maxJobs)
              && (end == Aborted ==> fetched == [] && file == file0 + Accepted([Header], accepts))
              && (end != Aborted ==>
                    PagesDone(UpdateFn(), base, target, pages, accepts, file0 + Accepted([Header], accepts), fetched, total, file)
                    && (end == Done || end == Unfinished)
                    && (end == Done ==> total > target)
                    && (end == Unfinished ==> |fetched| == |pages| && total <= target))
  {
    fetched := [];
    total := 0;
    if loaded.Failure? {
      return Raised(loaded.error), file0, total, fetched;
    }
    var baseUrl, targetNum := loaded.value.0, loaded.value.1;
    if baseUrlArg.Some? {
      baseUrl := baseUrlArg.value;
    }
    if targetNumArg.Some? {
      targetNum := targetNumArg.value;
    }
    file := FileWriter(file0, [Header], accepts);
    if targetNum >= maxJobs {
      return Aborted, file, total, fetched;
    }
    end, file, total, fetched := PageLoop(baseUrl, targetNum, pages, accepts, file);
  }
}
