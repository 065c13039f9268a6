/**
 * jobs_to_csv's `click_next_page`: the pagination control decides
 * between a click and ending the process; the two counters only feed
 * the exit message.
 */
module ClickNextPage {
  import opened Text

  /** The "next" pagination button as the page shows it: missing, disabled, or enabled (with or without an overlay intercepting a native click). */
  datatype NextControl = Absent | Disabled | Enabled(intercepted: bool)

  /** What the call does: a native click, the script-click fallback on the same button, or `sys.exit` with a message. */
  datatype NextAction = NativeClick | ScriptClick | Exit(message: string)

  const ExitHead := "Scraping terminated before reaching target number of jobs.\n"
  /** The backslash continuation keeps the next source line's twelve-space indentation. */
  const ExitIndent := "            "
  const NeededLabel := "Needed "
  const GotLabel := ", got "

  /**
   * `_exit_scraping_when_no_more_jobs`' message: the count scraped so far
   * (`jobs_counter`) follows "Needed", the target (`jobs_number`) follows "got".
   */
  function ExitMessage(jobsCounter: int, jobsNumber: int): (m: string)
    ensures ExitHead <= m
  {
    ExitHead + ExitIndent + NeededLabel + IntToString(jobsCounter) + GotLabel + IntToString(jobsNumber) + "."
  }

  /**
   * The branch taken: an enabled control is clicked (by script when the
   * native click is intercepted); a disabled or missing one ends the
   * process.
   */
  function NextPage(control: NextControl, jobsCounter: int, jobsNumber: int): (a: NextAction)
    ensures a.Exit? <==> !control.Enabled?
    ensures a.Exit? ==> a.message == ExitMessage(jobsCounter, jobsNumber)
    ensures a == ScriptClick <==> control == Enabled(true)
  {
    match control
    case Absent => Exit(ExitMessage(jobsCounter, jobsNumber))
    case Disabled => Exit(ExitMessage(jobsCounter, jobsNumber))
    case Enabled(intercepted) => if intercepted then ScriptClick else NativeClick
  }

  /**
   * Whether the call clicks or exits never depends on the counters: a
   * run with the target already met still exits on a missing control,
   * and one far from it still clicks.
   */
  lemma DecisionIgnoresCounters(control: NextControl, c1: int, n1: int, c2: int, n2: int)
    ensures NextPage(control, c1, n1).Exit? == NextPage(control, c2, n2).Exit?
    ensures !control.Enabled? || NextPage(control, c1, n1) == NextPage(control, c2, n2)
  {
  }

  /**
   * The message determines both counters: the number after "Needed" is
   * always `jobs_counter`, the number after "got" always `jobs_number`.
   */
  lemma ExitMessageReadsBack(c1: int, n1: int, c2: int, n2: int)
    requires ExitMessage(c1, n1) == ExitMessage(c2, n2)
    ensures c1 == c2 && n1 == n2
  {
    NoComma(c1);
    NoComma(c2);
    FieldsReadBack(ExitHead + ExitIndent + NeededLabel, IntToString(c1), IntToString(n1), IntToString(c2), IntToString(n2));
    IntToStringInjective(c1, c2);
    IntToStringInjective(n1, n2);
  }

  /** Two comma-free fields, a fixed head and the ", got " separator: equal messages have equal fields. */
  lemma FieldsReadBack(head: string, s1: string, s2: string, t1: string, t2: string)
    requires forall k :: 0 <= k < |s1| ==> s1[k] != ','
    requires forall k :: 0 <= k < |t1| ==> t1[k] != ','
    requires head + s1 + GotLabel + s2 + "." == head + t1 + GotLabel + t2 + "."
    ensures s1 == t1 && s2 == t2
  {
    var m1, m2 := s1 + GotLabel + s2 + ".", t1 + GotLabel + t2 + ".";
    assert head + s1 + GotLabel + s2 + "." == head + m1;
    assert head + t1 + GotLabel + t2 + "." == head + m2;
    assert m1 == (head + m1)[|head|..];
    assert m2 == (head + m2)[|head|..];
    assert m1[|s1|] == ',' && m2[|t1|] == ',';
    assert forall k :: 0 <= k < |s1| ==> m1[k] == s1[k];
    assert forall k :: 0 <= k < |t1| ==> m2[k] == t1[k];
    assert |s1| == |t1|;
    assert s1 == m1[..|s1|];
    assert t1 == m2[..|t1|];
    assert s2 + "." == m1[|s1| + |GotLabel|..];
    assert t2 + "." == m2[|t1| + |GotLabel|..];
    assert s2 == (s2 + ".")[..|s2|];
    assert t2 == (t2 + ".")[..|t2|];
  }

  lemma NoComma(i: int)
    ensures forall k :: 0 <= k < |IntToString(i)| ==> IntToString(i)[k] != ','
  {
    if i >= 0 {
      DigitsHaveNoComma(NatToString(i));
    } else {
      DigitsHaveNoComma(NatToString(-i));
      forall k | 0 <= k < |IntToString(i)| ensures IntToString(i)[k] != ',' {
        if k > 0 {
          assert IntToString(i)[k] == NatToString(-i)[k - 1];
        }
      }
    }
  }

  lemma DigitsHaveNoComma(s: string)
    requires IsDigits(s)
    ensures forall k :: 0 <= k < |s| ==> s[k] != ','
  {
  }

  lemma IntToStringInjective(a: int, b: int)
    requires IntToString(a) == IntToString(b)
    ensures a == b
  {
    if a >= 0 && b >= 0 {
      NatToStringInjective(a, b);
    } else if a < 0 && b < 0 {
      assert NatToString(-a) == IntToString(a)[1..] == IntToString(b)[1..] == NatToString(-b);
      NatToStringInjective(-a, -b);
    }
  }
}
