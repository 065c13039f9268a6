/**
 * scraper/config/get.py: the search URL and the output CSV path. The
 * configuration is the YAML file's content as three string dicts; the
 * clock, `pathvalidate.sanitize_filepath`, `os.path.abspath` and
 * `os.path.exists` are the environment, given as `Env`.
 */
module ScraperConfig {
  import opened Wrappers
  import opened PyValues
  import opened Text

  /** The configuration dicts the two builders read: `url`, `jobs_titles` and `output_path`. */
  datatype Config = Config(url: map<string, string>, jobsTitles: map<string, string>, outputPath: map<string, string>)

  /** A `datetime.now()` reading, down to the minute. */
  datatype DateTime = DateTime(year: nat, month: nat, day: nat, hour: nat, minute: nat)

  /** What the path builder asks of the operating system and its libraries. */
  datatype Env = Env(now: DateTime, sanitize: string -> string, absolute: string -> string, pathExists: string -> bool)

  /** `d[k]`: the value, or KeyError. */
  function Lookup(d: map<string, string>, k: string): (r: Result<string, PyError>)
    ensures r.Success? <==> k in d
    ensures r.Success? ==> r.value == d[k]
    ensures r.Failure? ==> r.error == KeyError(k)
  {
    if k in d then Success(d[k]) else Failure(KeyError(k))
  }

  /**
   * `get_url`: the base, the title, the keyword part, the title again,
   * then the location part; a missing part raises KeyError.
   */
  function GetUrl(url: map<string, string>, jobTitle: string): (r: Result<string, PyError>)
    ensures r.Success? <==> "001_base" in url && "002_keyword" in url && "003_location" in url
    ensures r.Success? ==> |r.value| == |url["001_base"]| + 2 * |jobTitle| + |url["002_keyword"]| + |url["003_location"]|
  {
    if "001_base" in url && "002_keyword" in url && "003_location" in url then
      Success(url["001_base"] + jobTitle + url["002_keyword"] + jobTitle + url["003_location"])
    else if "001_base" !in url then Failure(KeyError("001_base"))
    else if "002_keyword" !in url then Failure(KeyError("002_keyword"))
    else Failure(KeyError("003_location"))
  }

  /**
   * The title appears twice in the URL, right after the base and right
   * after the keyword part, which sit where they were given.
   */
  lemma GetUrlLayout(url: map<string, string>, jobTitle: string)
    requires GetUrl(url, jobTitle).Success?
    ensures var u, b, k, l := GetUrl(url, jobTitle).value, url["001_base"], url["002_keyword"], url["003_location"];
            var t := jobTitle;
            u[..|b|] == b
            && u[|b|..|b| + |t|] == t
            && u[|b| + |t|..|b| + |t| + |k|] == k
            && u[|b| + |t| + |k|..|b| + 2 * |t| + |k|] == t
            && u[|b| + 2 * |t| + |k|..] == l
  {
  }

  /** `os.path.join` (POSIX): an absolute second part replaces the first; otherwise one "/" between them unless the first already ends with one. */
  function Join(a: string, b: string): (r: string)
    ensures b != [] && b[0] == '/' ==> r == b
  {
    if b != [] && b[0] == '/' then b
    else if a == [] || a[|a| - 1] == '/' then a + b
    else a + "/" + b
  }

  /** `strftime("%d-%m-%Y_%H-%M")`: day, month, year, hour and minute, two digits each except the year. */
  function DateStamp(t: DateTime): string
  {
    Pad2(t.day) + "-" + Pad2(t.month) + "-" + NatToString(t.year) + "_" + Pad2(t.hour) + "-" + Pad2(t.minute)
  }

  /** A reading of the clock: a four-digit year and the usual ranges. */
  predicate ValidTime(t: DateTime)
  {
    1000 <= t.year <= 9999 && 1 <= t.month <= 12 && 1 <= t.day <= 31 && t.hour < 24 && t.minute < 60
  }

  /**
   * The stamp has sixteen characters with its separators at fixed
   * places, and each field reads back as the clock's value.
   */
  lemma DateStampFields(t: DateTime)
    requires ValidTime(t)
    ensures var s := DateStamp(t);
            |s| == 16 && s[2] == '-' && s[5] == '-' && s[10] == '_' && s[13] == '-'
            && AllDigits(s[0..2]) && DigitsValue(s[0..2]) == t.day
            && AllDigits(s[3..5]) && DigitsValue(s[3..5]) == t.month
            && AllDigits(s[6..10]) && DigitsValue(s[6..10]) == t.year
            && AllDigits(s[11..13]) && DigitsValue(s[11..13]) == t.hour
            && AllDigits(s[14..16]) && DigitsValue(s[14..16]) == t.minute
  {
    Pad2Length(t.day);
    Pad2Length(t.month);
    Pad2Length(t.hour);
    Pad2Length(t.minute);
    YearLength(t.year);
    var s := DateStamp(t);
    assert s == Pad2(t.day) + "-" + Pad2(t.month) + "-" + NatToString(t.year) + "_" + Pad2(t.hour) + "-" + Pad2(t.minute);
    assert s[0..2] == Pad2(t.day);
    assert s[3..5] == Pad2(t.month);
    assert s[6..10] == NatToString(t.year);
    assert s[11..13] == Pad2(t.hour);
    assert s[14..16] == Pad2(t.minute);
  }

  lemma Pad2Length(n: nat)
    requires n < 100
    ensures |Pad2(n)| == 2
  {
    if n >= 10 {
      assert NatToString(n) == NatToString(n / 10) + [DigitChar(n % 10)];
    }
  }

  lemma YearLength(n: nat)
    requires 1000 <= n < 10000
    ensures |NatToString(n)| == 4
  {
    var q1 := n / 10;
    var q2 := q1 / 10;
    var q3 := q2 / 10;
    assert 100 <= q1 < 1000 && 10 <= q2 < 100 && 1 <= q3 < 10;
    NatToStringStep(n);
    NatToStringStep(q1);
    NatToStringStep(q2);
  }

  lemma NatToStringStep(n: nat)
    requires n >= 10
    ensures |NatToString(n)| == |NatToString(n / 10)| + 1
  {
  }

  /** The title as it enters the file name: spaces to underscores, then sanitised. */
  function FileTitle(env: Env, jobTitle: string): string
  {
    env.sanitize(Replace(jobTitle, " ", "_"))
  }

  /** `{title}_{date}.{extension}`. */
  function FileName(env: Env, jobTitle: string, extension: string): (f: string)
    ensures EndsWith(f, "_" + DateStamp(env.now) + "." + extension)
  {
    var f := FileTitle(env, jobTitle) + "_" + DateStamp(env.now) + "." + extension;
    SuffixOf(FileTitle(env, jobTitle), "_", DateStamp(env.now), ".", extension);
    f
  }

  lemma SuffixOf(a: string, b: string, c: string, d: string, e: string)
    ensures EndsWith(a + b + c + d + e, b + c + d + e)
  {
    assert a + b + c + d + e == a + (b + c + d + e);
    EndsWithConcat(a, b + c + d + e);
  }

  lemma EndsWithConcat(x: string, y: string)
    ensures EndsWith(x + y, y)
  {
    assert (x + y)[|x|..] == y;
  }

  /** A joined path ends with its last part. */
  lemma JoinEndsWith(a: string, b: string)
    ensures EndsWith(Join(a, b), b)
  {
    if b != [] && b[0] == '/' {
      assert Join(a, b)[|Join(a, b)| - |b|..] == b;
    } else if a == [] || a[|a| - 1] == '/' {
      EndsWithConcat(a, b);
    } else {
      assert a + "/" + b == (a + "/") + b;
      EndsWithConcat(a + "/", b);
    }
  }

  /** Two plain parts are joined with one "/". */
  lemma JoinPlain(a: string, b: string)
    requires a != [] && a[|a| - 1] != '/'
    requires b == [] || b[0] != '/'
    ensures Join(a, b) == a + "/" + b
  {
  }

  lemma EndsWithTrans(x: string, y: string, z: string)
    requires EndsWith(x, y) && EndsWith(y, z)
    ensures EndsWith(x, z)
  {
    assert x[|x| - |z|..] == x[|x| - |y|..][|y| - |z|..];
  }

  /** The output path before `os.path.abspath`: the target directory joined with the file name. */
  function CsvTarget(env: Env, directoryMain: string, directoryType: string, jobTitle: string, extension: string): (p: string)
    ensures EndsWith(p, FileName(env, jobTitle, extension))
    ensures EndsWith(p, "_" + DateStamp(env.now) + "." + extension)
  {
    var p := Join(Join(directoryMain, directoryType), FileName(env, jobTitle, extension));
    JoinEndsWith(Join(directoryMain, directoryType), FileName(env, jobTitle, extension));
    EndsWithTrans(p, FileName(env, jobTitle, extension), "_" + DateStamp(env.now) + "." + extension);
    p
  }

  /** `is_possible_path`: the path exists, or sanitising leaves it unchanged. */
  predicate IsPossiblePath(env: Env, path: string)
  {
    env.pathExists(path) || path == env.sanitize(path)
  }

  /**
   * `get_path_csv`: the absolute output path when it is possible;
   * otherwise OSError naming it. A missing `output_path.main` raises
   * KeyError first.
   */
  function GetPathCsv(config: Config, env: Env, directoryType: string, jobTitle: string, extension: string): (r: Result<string, PyError>)
    ensures "main" !in config.outputPath ==> r == Failure(KeyError("main"))
    ensures "main" in config.outputPath ==>
              var path := env.absolute(CsvTarget(env, config.outputPath["main"], directoryType, jobTitle, extension));
              (r.Success? <==> IsPossiblePath(env, path))
              && (r.Success? ==> r.value == path)
              && (r.Failure? ==> r.error == OSError(path))
  {
    match Lookup(config.outputPath, "main")
    case Failure(e) => Failure(e)
    case Success(main) =>
      var path := env.absolute(CsvTarget(env, main, directoryType, jobTitle, extension));
      if IsPossiblePath(env, path) then Success(path) else Failure(OSError(path))
  }

  /** `get_path_csv` with the default title from `jobs_titles` and the default extension "csv". */
  function PathWithDefaults(config: Config, env: Env, directoryType: string): Result<string, PyError>
  {
    match Lookup(config.jobsTitles, "default")
    case Failure(e) => Failure(e)
    case Success(title) => GetPathCsv(config, env, directoryType, title, "csv")
  }

  /** `get_path_csv_raw`: the `output_path.raw` subdirectory. */
  function GetPathCsvRaw(config: Config, env: Env): (r: Result<string, PyError>)
    ensures r.Success? ==> "raw" in config.outputPath && r == PathWithDefaults(config, env, config.outputPath["raw"])
  {
    match Lookup(config.outputPath, "raw")
    case Failure(e) => Failure(e)
    case Success(raw) => PathWithDefaults(config, env, raw)
  }

  /** `get_path_csv_clean`: the `output_path.clean` subdirectory. */
  function GetPathCsvClean(config: Config, env: Env): (r: Result<string, PyError>)
    ensures r.Success? ==> "clean" in config.outputPath && r == PathWithDefaults(config, env, config.outputPath["clean"])
  {
    match Lookup(config.outputPath, "clean")
    case Failure(e) => Failure(e)
    case Success(clean) => PathWithDefaults(config, env, clean)
  }

  /**
   * The raw and the clean path differ only in the subdirectory: with
   * plain directory names, both are `main/<subdirectory>/<file name>`.
   */
  lemma RawAndCleanShareFile(env: Env, main: string, sub: string, jobTitle: string, extension: string)
    requires main != [] && main[|main| - 1] != '/'
    requires sub != [] && sub[0] != '/' && sub[|sub| - 1] != '/'
    requires FileTitle(env, jobTitle) == [] || FileTitle(env, jobTitle)[0] != '/'
    ensures CsvTarget(env, main, sub, jobTitle, extension) == main + "/" + sub + "/" + FileName(env, jobTitle, extension)
  {
    var file := FileName(env, jobTitle, extension);
    JoinPlain(main, sub);
    assert (main + "/" + sub)[|main + "/" + sub| - 1] == sub[|sub| - 1];
    assert file[0] != '/' by {
      if FileTitle(env, jobTitle) == [] {
        assert file[0] == '_';
      } else {
        assert file[0] == FileTitle(env, jobTitle)[0];
      }
    }
    JoinPlain(main + "/" + sub, file);
  }

  /** No space survives into the file title before sanitising: every one became an underscore. */
  lemma {:induction false} NoSpaceInTitle(s: string)
    ensures NoSpace(Replace(s, " ", "_"))
    decreases |s|
  {
    match Find(s, " ")
    case None =>
      NoSpaceBefore(s, |s|);
    case Some(i) =>
      NoSpaceBefore(s, i);
      NoSpaceInTitle(s[i + 1..]);
      NoSpaceJoined(s[..i], "_", Replace(s[i + 1..], " ", "_"));
  }

  predicate NoSpace(t: string)
  {
    forall k :: 0 <= k < |t| ==> t[k] != ' '
  }

  /** Before the first occurrence of " " (or anywhere, when there is none) there is no space. */
  lemma NoSpaceBefore(s: string, i: nat)
    requires i <= |s|
    requires forall k :: 0 <= k < i ==> !OccursAt(s, " ", k)
    ensures NoSpace(s[..i])
  {
    forall k | 0 <= k < i ensures s[..i][k] != ' ' {
      assert !OccursAt(s, " ", k);
      assert s[k..k + 1] == [s[k]];
    }
  }

  lemma NoSpaceJoined(a: string, b: string, c: string)
    requires NoSpace(a) && NoSpace(b) && NoSpace(c)
    ensures NoSpace(a + b + c)
  {
    forall k | 0 <= k < |a + b + c| ensures (a + b + c)[k] != ' ' {
      if k < |a| {
        assert (a + b + c)[k] == a[k];
      } else if k < |a| + |b| {
        assert (a + b + c)[k] == b[k - |a|];
      } else {
        assert (a + b + c)[k] == c[k - |a| - |b|];
      }
    }
  }
}
