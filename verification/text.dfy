/**
 * The string operations of Python's `str` that the scraper relies on:
 * `strip`, `in`, `startswith`/`endswith`, `replace`, `split`, `isdigit`,
 * and `str(int)`. Strings are sequences of characters.
 */
module Text {
  import opened Wrappers

  /** The characters `str.strip()` removes (the ASCII and Latin-1 subset of Python's whitespace). */
  predicate IsSpace(c: char)
  {
    c == ' ' || c == '\t' || c == '\n' || c == '\r' || c == '\U{000B}' || c == '\U{000C}'
    || c == '\U{001C}' || c == '\U{001D}' || c == '\U{001E}' || c == '\U{001F}'
    || c == '\U{0085}' || c == '\U{00A0}'
  }

  /** A string made only of whitespace (the empty string included). */
  predicate IsBlank(s: string)
  {
    forall i :: 0 <= i < |s| ==> IsSpace(s[i])
  }

  /** `s` with its leading whitespace removed. */
  function LStrip(s: string): (r: string)
    ensures |r| <= |s|
  {
    if s != [] && IsSpace(s[0]) then LStrip(s[1..]) else s
  }

  /** `s` with its trailing whitespace removed. */
  function RStrip(s: string): (r: string)
    ensures |r| <= |s|
  {
    if s != [] && IsSpace(s[|s| - 1]) then RStrip(s[..|s| - 1]) else s
  }

  /** Python `s.strip()`. */
  function Strip(s: string): (r: string)
    ensures |r| <= |s|
  {
    RStrip(LStrip(s))
  }

  /** `LStrip` removes a whitespace prefix and nothing more. */
  lemma {:induction false} LStripSpec(s: string)
    ensures LStrip(s) == s[|s| - |LStrip(s)|..]
    ensures forall i :: 0 <= i < |s| - |LStrip(s)| ==> IsSpace(s[i])
    ensures LStrip(s) == [] || !IsSpace(LStrip(s)[0])
  {
    if s != [] && IsSpace(s[0]) {
      LStripSpec(s[1..]);
    }
  }

  /** `RStrip` removes a whitespace suffix and nothing more. */
  lemma {:induction false} RStripSpec(s: string)
    ensures RStrip(s) == s[..|RStrip(s)|]
    ensures forall i :: |RStrip(s)| <= i < |s| ==> IsSpace(s[i])
    ensures RStrip(s) == [] || !IsSpace(RStrip(s)[|RStrip(s)| - 1])
  {
    if s != [] && IsSpace(s[|s| - 1]) {
      RStripSpec(s[..|s| - 1]);
    }
  }

  /** `strip()` leaves no whitespace at either end, and only a blank string strips to "". */
  lemma StripSpec(s: string)
    ensures Strip(s) == [] || (!IsSpace(Strip(s)[0]) && !IsSpace(Strip(s)[|Strip(s)| - 1]))
    ensures Strip(s) == [] <==> IsBlank(s)
  {
    var l := LStrip(s);
    LStripSpec(s);
    RStripSpec(l);
    if l != [] {
      assert !IsBlank(s) by { assert s[|s| - |l|] == l[0]; }
    }
  }

  /** A string with no whitespace at either end strips to itself. */
  lemma StripTrimmed(s: string)
    requires s == [] || (!IsSpace(s[0]) && !IsSpace(s[|s| - 1]))
    ensures Strip(s) == s
  {
  }

  /** `strip()` is idempotent. */
  lemma StripIdempotent(s: string)
    ensures Strip(Strip(s)) == Strip(s)
  {
    StripSpec(s);
    StripTrimmed(Strip(s));
  }

  /** Python `s.startswith(p)`. */
  predicate StartsWith(s: string, p: string)
  {
    |p| <= |s| && s[..|p|] == p
  }

  /** Python `s.endswith(p)`. */
  predicate EndsWith(s: string, p: string)
  {
    |p| <= |s| && s[|s| - |p|..] == p
  }

  /** `p` occurs in `s` starting at index `i`. */
  predicate OccursAt(s: string, p: string, i: int)
  {
    0 <= i && i + |p| <= |s| && s[i..i + |p|] == p
  }

  /** The first index at or after `i` where `p` occurs in `s` (Python `s.find(p, i)`). */
  function FindFrom(s: string, p: string, i: nat): (r: Option<nat>)
    decreases |s| - i
    ensures r.Some? ==> i <= r.value && OccursAt(s, p, r.value)
    ensures r.Some? ==> forall k :: i <= k < r.value ==> !OccursAt(s, p, k)
    ensures r.None? ==> forall k :: i <= k ==> !OccursAt(s, p, k)
  {
    if i + |p| > |s| then None
    else if s[i..i + |p|] == p then Some(i)
    else FindFrom(s, p, i + 1)
  }

  /** The first index where `p` occurs in `s`. */
  function Find(s: string, p: string): Option<nat>
  {
    FindFrom(s, p, 0)
  }

  /** Python `p in s`. */
  predicate Contains(s: string, p: string)
  {
    Find(s, p).Some?
  }

  /** `Find` returns exactly the first occurrence. */
  lemma FindFirst(s: string, p: string, j: nat)
    requires OccursAt(s, p, j)
    requires forall k :: 0 <= k < j ==> !OccursAt(s, p, k)
    ensures Find(s, p) == Some(j)
  {
  }

  /** A string with no occurrence of `p` at any index does not contain it. */
  lemma NotContains(s: string, p: string)
    requires forall k :: 0 <= k ==> !OccursAt(s, p, k)
    ensures !Contains(s, p)
  {
  }

  /** Python `s.replace("", rep)`: `rep` before every character and at the end. */
  function Interleave(s: string, rep: string): (r: string)
    ensures |r| == |s| + (|s| + 1) * |rep|
  {
    if s == [] then rep else rep + [s[0]] + Interleave(s[1..], rep)
  }

  /** Python `s.replace(pat, rep)`: every non-overlapping occurrence, scanning left to right. */
  function Replace(s: string, pat: string, rep: string): string
    decreases |s|
  {
    if pat == [] then Interleave(s, rep)
    else
      match Find(s, pat)
      case None => s
      case Some(i) => s[..i] + rep + Replace(s[i + |pat|..], pat, rep)
  }

  /** Replacing the empty string by the empty string leaves any string as it was. */
  lemma {:induction false} ReplaceEmptyByEmpty(s: string)
    ensures Replace(s, [], []) == s
  {
    if s != [] {
      ReplaceEmptyByEmpty(s[1..]);
      assert [s[0]] + s[1..] == s;
    }
  }

  /** A non-empty pattern that does not occur leaves the string unchanged. */
  lemma ReplaceAbsent(s: string, pat: string, rep: string)
    requires pat != [] && !Contains(s, pat)
    ensures Replace(s, pat, rep) == s
  {
  }

  /** A pattern whose first character is not in `a` cannot start inside `a`, whatever follows. */
  lemma FirstCharAbsent(a: string, pat: string, b: string)
    requires pat != [] && pat[0] !in a
    ensures forall k :: 0 <= k < |a| ==> !OccursAt(a + pat + b, pat, k)
  {
    forall k | 0 <= k < |a| ensures !OccursAt(a + pat + b, pat, k) {
      assert (a + pat + b)[k] == a[k];
    }
  }

  /** When `pat` occurs once in `a + pat + b`, right after `a`, replace swaps that occurrence alone. */
  lemma ReplaceSingle(a: string, pat: string, b: string, rep: string)
    requires pat != []
    requires forall k :: 0 <= k < |a| ==> !OccursAt(a + pat + b, pat, k)
    requires !Contains(b, pat)
    ensures Replace(a + pat + b, pat, rep) == a + rep + b
  {
    var s := a + pat + b;
    assert OccursAt(s, pat, |a|) by {
      assert s[|a|..|a| + |pat|] == pat;
    }
    FindFirst(s, pat, |a|);
    assert s[..|a|] == a;
    assert s[|a| + |pat|..] == b;
  }

  /**
   * Python `s.split(sep)` for a non-empty separator: the pieces between
   * the non-overlapping occurrences of `sep`, scanning left to right.
   */
  function Split(s: string, sep: string): (r: seq<string>)
    requires sep != []
    decreases |s|
    ensures |r| >= 1
  {
    match Find(s, sep)
    case None => [s]
    case Some(i) => [s[..i]] + Split(s[i + |sep|..], sep)
  }

  /** A single separator with no other occurrence splits into exactly the two sides. */
  lemma SplitTwo(a: string, sep: string, b: string)
    requires sep != []
    requires forall k :: 0 <= k < |a| ==> !OccursAt(a + sep + b, sep, k)
    requires !Contains(b, sep)
    ensures Split(a + sep + b, sep) == [a, b]
  {
    var s := a + sep + b;
    assert OccursAt(s, sep, |a|) by {
      assert s[|a|..|a| + |sep|] == sep;
    }
    FindFirst(s, sep, |a|);
    assert s[..|a|] == a;
    assert s[|a| + |sep|..] == b;
  }

  predicate IsDigit(c: char)
  {
    '0' <= c <= '9'
  }

  /** Every character is a decimal digit (the empty string included). */
  predicate AllDigits(s: string)
  {
    forall i :: 0 <= i < |s| ==> IsDigit(s[i])
  }

  /** Python `s.isdigit()`, for ASCII digits: non-empty and all digits. */
  predicate IsDigits(s: string)
  {
    s != [] && AllDigits(s)
  }

  function DigitValue(c: char): nat
    requires IsDigit(c)
  {
    c as int - '0' as int
  }

  /** Python `int(s)` for a string of decimal digits. */
  function DigitsValue(s: string): nat
    requires AllDigits(s)
  {
    if s == [] then 0 else DigitsValue(s[..|s| - 1]) * 10 + DigitValue(s[|s| - 1])
  }

  /** Only the digits of `s`, in order (the `filter(str.isdigit, s)` idiom). */
  function KeepDigits(s: string): (r: string)
    ensures AllDigits(r) && |r| <= |s|
  {
    if s == [] then []
    else if IsDigit(s[0]) then [s[0]] + KeepDigits(s[1..])
    else KeepDigits(s[1..])
  }

  /** A string already made of digits keeps all of them. */
  lemma {:induction false} KeepDigitsOfDigits(s: string)
    requires AllDigits(s)
    ensures KeepDigits(s) == s
  {
    if s != [] {
      KeepDigitsOfDigits(s[1..]);
    }
  }

  /** Keeping the digits of a concatenation keeps those of each side. */
  lemma {:induction false} KeepDigitsAppend(a: string, b: string)
    ensures KeepDigits(a + b) == KeepDigits(a) + KeepDigits(b)
  {
    if a != [] {
      assert (a + b)[1..] == a[1..] + b;
      KeepDigitsAppend(a[1..], b);
    } else {
      assert a + b == b;
    }
  }

  function DigitChar(d: nat): (c: char)
    requires d < 10
    ensures IsDigit(c) && DigitValue(c) == d
  {
    ('0' as int + d) as char
  }

  /** Python `str(n)` for a natural number; `int` reads it back. */
  function NatToString(n: nat): (r: string)
    ensures IsDigits(r) && DigitsValue(r) == n
    ensures r[0] != '0' || r == "0"
  {
    if n < 10 then [DigitChar(n)]
    else
      var r := NatToString(n / 10) + [DigitChar(n % 10)];
      assert r[..|r| - 1] == NatToString(n / 10);
      r
  }

  /** Python `str(i)` for any integer. */
  function IntToString(i: int): (r: string)
    ensures r != []
    ensures i >= 0 ==> r == NatToString(i)
    ensures i < 0 ==> r == "-" + NatToString(-i)
  {
    if i < 0 then "-" + NatToString(-i) else NatToString(i)
  }

  /** `str(n)` is injective on natural numbers. */
  lemma NatToStringInjective(m: nat, n: nat)
    requires NatToString(m) == NatToString(n)
    ensures m == n
  {
  }

  /** Python `"%02d" % n` (as `strftime` pads days, months, hours and minutes). */
  function Pad2(n: nat): (r: string)
    ensures |r| >= 2 && IsDigits(r) && DigitsValue(r) == n
  {
    var d := NatToString(n);
    if n < 10 then
      var r := "0" + d;
      assert r[..|r| - 1] == "0";
      r
    else d
  }
}
