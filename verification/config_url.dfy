/**
 * config/get.py's `get_url`: the same URL as the scraper's builder,
 * with the title taken from the configuration itself.
 */
module ConfigUrl {
  import opened Wrappers
  import opened PyValues
  import opened ScraperConfig

  /**
   * The default title (`jobs_titles.default`) between the URL parts of
   * `url`; KeyError for a missing title or part, the title first.
   */
  function GetUrl(config: Config): (r: Result<string, PyError>)
    ensures "default" !in config.jobsTitles ==> r == Failure(KeyError("default"))
    ensures "default" in config.jobsTitles ==> r == ScraperConfig.GetUrl(config.url, config.jobsTitles["default"])
  {
    match Lookup(config.jobsTitles, "default")
    case Failure(e) => Failure(e)
    case Success(job) =>
      var url := config.url;
      if "001_base" in url && "002_keyword" in url && "003_location" in url then
        Success(url["001_base"] + job + url["002_keyword"] + job + url["003_location"])
      else if "001_base" !in url then Failure(KeyError("001_base"))
      else if "002_keyword" !in url then Failure(KeyError("002_keyword"))
      else Failure(KeyError("003_location"))
  }

  /** The default title appears twice, right after the base and right after the keyword part. */
  lemma TitleTwice(config: Config)
    requires GetUrl(config).Success?
    ensures var u, t := GetUrl(config).value, config.jobsTitles["default"];
            var b, k := config.url["001_base"], config.url["002_keyword"];
            u[|b|..|b| + |t|] == t && u[|b| + |t| + |k|..|b| + 2 * |t| + |k|] == t
  {
    GetUrlLayout(config.url, config.jobsTitles["default"]);
  }
}
