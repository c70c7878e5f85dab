/** Text primitives every converter stage is written in terms of: Python's
    whitespace test (shared by str.strip() and the regex class \s), str.strip(),
    str.split / str.join on a single separator character, substring occurrence,
    str.replace, and the decimal rendering of an index inside an f-string. */
module Text {

  datatype Option<T> = None | Some(value: T)

  /** Python's str.isspace() on one character; str.strip() and the regex
      class \s both use this set. */
  predicate IsSpace(c: char) {
    || ('\t' <= c <= '\r')                 // \t \n \x0b \x0c \r
    || ('\U{1C}' <= c <= '\U{1F}')         // file/group/record/unit separators
    || c == ' ' || c == '\U{85}' || c == '\U{A0}' || c == '\U{1680}'
    || ('\U{2000}' <= c <= '\U{200A}')
    || c == '\U{2028}' || c == '\U{2029}' || c == '\U{202F}' || c == '\U{205F}'
    || c == '\U{3000}'
  }

  predicate AllSpace(s: string) {
    forall i :: 0 <= i < |s| ==> IsSpace(s[i])
  }

  /** Neither end of the text is whitespace. */
  predicate IsTrimmed(s: string) {
    s == [] || (!IsSpace(s[0]) && !IsSpace(s[|s| - 1]))
  }

  /** str.lstrip(): drops the leading whitespace and nothing else. */
  function TrimStart(s: string): (r: string)
    ensures |r| <= |s|
    ensures r == [] <==> AllSpace(s)
    ensures r == [] || !IsSpace(r[0])
    decreases |s|
  {
    if |s| > 0 && IsSpace(s[0]) then
      assert AllSpace(s) <==> AllSpace(s[1..]) by {
        assert forall i :: 0 <= i < |s[1..]| ==> s[1..][i] == s[i + 1];
      }
      TrimStart(s[1..])
    else
      s
  }

  /** str.rstrip(): drops the trailing whitespace and nothing else. */
  function TrimEnd(s: string): (r: string)
    ensures |r| <= |s|
    ensures r == [] <==> AllSpace(s)
    ensures r == [] || !IsSpace(r[|r| - 1])
    ensures r != [] ==> r[0] == s[0]
    decreases |s|
  {
    if |s| > 0 && IsSpace(s[|s| - 1]) then
      var t := s[..|s| - 1];
      assert AllSpace(s) <==> AllSpace(t) by {
        assert forall i :: 0 <= i < |t| ==> t[i] == s[i];
      }
      TrimEnd(t)
    else
      s
  }

  /** How many whitespace characters `s` starts with. */
  function LeadingSpace(s: string): (n: nat)
    ensures n <= |s|
    decreases |s|
  {
    if |s| > 0 && IsSpace(s[0]) then 1 + LeadingSpace(s[1..]) else 0
  }

  /** str.strip(): the result is empty exactly when the text is all
      whitespace, and otherwise starts and ends with a visible character.
      `StripSlice` shows it is the text between a whitespace-only head and
      a whitespace-only tail. */
  function Strip(s: string): (r: string)
    ensures |r| <= |s|
    ensures IsTrimmed(r)
    ensures r == [] <==> AllSpace(s)
  {
    TrimEnd(TrimStart(s))
  }

  /** Strip removes whitespace from both ends and nothing else: its result
      is `s` with the `LeadingSpace(s)` whitespace characters it starts with
      and a whitespace-only tail cut off. */
  lemma StripSlice(s: string)
    ensures var i, r := LeadingSpace(s), Strip(s);
      i + |r| <= |s| && r == s[i..i + |r|] && AllSpace(s[..i]) && AllSpace(s[i + |r|..])
  {
    var a := TrimStart(s);
    var i := LeadingSpace(s);
    TrimStartCut(s);
    TrimEndCut(a);
    var j := i + |TrimEnd(a)|;
    assert a == s[i..];
    assert TrimEnd(a) == s[i..j];
    assert s[j..] == a[|TrimEnd(a)|..];
  }

  /** lstrip drops a whitespace-only head. */
  lemma {:induction false} TrimStartCut(s: string)
    ensures LeadingSpace(s) + |TrimStart(s)| == |s|
    ensures TrimStart(s) == s[LeadingSpace(s)..] && AllSpace(s[..LeadingSpace(s)])
    decreases |s|
  {
    if |s| > 0 && IsSpace(s[0]) {
      var t := s[1..];
      TrimStartCut(t);
      var k := LeadingSpace(t);
      assert s[..k + 1] == [s[0]] + t[..k];
    }
  }

  /** rstrip drops a whitespace-only tail. */
  lemma {:induction false} TrimEndCut(s: string)
    ensures TrimEnd(s) == s[..|TrimEnd(s)|] && AllSpace(s[|TrimEnd(s)|..])
    decreases |s|
  {
    if |s| > 0 && IsSpace(s[|s| - 1]) {
      var t := s[..|s| - 1];
      TrimEndCut(t);
      var k := |TrimEnd(t)|;
      assert s[k..] == t[k..] + [s[|s| - 1]];
    }
  }

  /** A text with no whitespace at either end is unchanged by strip. */
  lemma StripOfTrimmed(s: string)
    requires IsTrimmed(s)
    ensures Strip(s) == s
  {
    if s != [] {
      assert TrimStart(s) == s;
    }
  }

  /** A stripped text is its own strip. */
  lemma StripIdempotent(s: string)
    ensures Strip(Strip(s)) == Strip(s)
  {
    StripOfTrimmed(Strip(s));
  }

  lemma TrimStartSuffix(s: string)
    ensures TrimStart(s) == s[|s| - |TrimStart(s)|..]
    decreases |s|
  {
    if |s| > 0 && IsSpace(s[0]) {
      TrimStartSuffix(s[1..]);
    }
  }

  lemma TrimEndPrefix(s: string)
    ensures TrimEnd(s) == s[..|TrimEnd(s)|]
    decreases |s|
  {
    if |s| > 0 && IsSpace(s[|s| - 1]) {
      TrimEndPrefix(s[..|s| - 1]);
    }
  }

  /** Trimming keeps only characters of the text. */
  lemma StripChars(s: string)
    ensures forall c :: c in Strip(s) ==> c in s
  {
    var a := TrimStart(s);
    TrimStartSuffix(s);
    TrimEndPrefix(a);
    forall c | c in Strip(s)
      ensures c in s
    {
      var i :| 0 <= i < |Strip(s)| && Strip(s)[i] == c;
      assert c == a[i];
      assert a[i] == s[|s| - |a| + i];
    }
  }

  /** str.split(sep) with a one-character separator: never empty, and the
      pieces are exactly the separator-free runs (an empty text gives [""]). */
  function Split(s: string, sep: char): (r: seq<string>)
    ensures |r| >= 1
    ensures forall i :: 0 <= i < |r| ==> sep !in r[i]
    decreases |s|
  {
    if |s| == 0 then [""]
    else
      var rest := Split(s[1..], sep);
      if s[0] == sep then [""] + rest
      else [[s[0]] + rest[0]] + rest[1..]
  }

  /** sep.join(parts). */
  function Join(parts: seq<string>, sep: char): string
    decreases |parts|
  {
    if |parts| == 0 then ""
    else if |parts| == 1 then parts[0]
    else parts[0] + [sep] + Join(parts[1..], sep)
  }

  /** Joining the pieces of a split gives back the text. */
  lemma {:induction false} JoinSplit(s: string, sep: char)
    ensures Join(Split(s, sep), sep) == s
    decreases |s|
  {
    if |s| > 0 {
      var rest := Split(s[1..], sep);
      JoinSplit(s[1..], sep);
      if s[0] == sep {
        assert Split(s, sep) == [""] + rest;
        assert Join([""] + rest, sep) == "" + [sep] + Join(rest, sep);
        assert s == [s[0]] + s[1..];
      } else {
        var parts := [[s[0]] + rest[0]] + rest[1..];
        assert Split(s, sep) == parts;
        if |rest| == 1 {
          assert Join(parts, sep) == [s[0]] + rest[0];
        } else {
          assert parts[1..] == rest[1..];
          assert Join(rest, sep) == rest[0] + [sep] + Join(rest[1..], sep);
        }
        assert s == [s[0]] + s[1..];
      }
    }
  }

  lemma {:induction false} SplitNoSep(a: string, sep: char)
    requires sep !in a
    ensures Split(a, sep) == [a]
    decreases |a|
  {
    if |a| > 0 {
      SplitNoSep(a[1..], sep);
      assert a == [a[0]] + a[1..];
    }
  }

  lemma {:induction false} SplitAtSep(a: string, b: string, sep: char)
    requires sep !in a
    ensures Split(a + [sep] + b, sep) == [a] + Split(b, sep)
    decreases |a|
  {
    var s := a + [sep] + b;
    if |a| == 0 {
      assert s[1..] == b;
    } else {
      assert s[1..] == a[1..] + [sep] + b;
      SplitAtSep(a[1..], b, sep);
      assert a == [a[0]] + a[1..];
    }
  }

  /** Splitting a join of separator-free pieces gives back the pieces. */
  lemma {:induction false} SplitJoin(parts: seq<string>, sep: char)
    requires |parts| >= 1
    requires forall i :: 0 <= i < |parts| ==> sep !in parts[i]
    ensures Split(Join(parts, sep), sep) == parts
    decreases |parts|
  {
    if |parts| == 1 {
      SplitNoSep(parts[0], sep);
    } else {
      SplitJoin(parts[1..], sep);
      SplitAtSep(parts[0], Join(parts[1..], sep), sep);
      assert parts == [parts[0]] + parts[1..];
    }
  }

  /** The concatenation of a list of texts, ''.join(parts). */
  function Concat(parts: seq<string>): string
    decreases |parts|
  {
    if |parts| == 0 then "" else parts[0] + Concat(parts[1..])
  }

  lemma {:induction false} ConcatAppend(a: seq<string>, b: seq<string>)
    ensures Concat(a + b) == Concat(a) + Concat(b)
    decreases |a|
  {
    if |a| > 0 {
      assert (a + b)[0] == a[0];
      assert (a + b)[1..] == a[1..] + b;
      ConcatAppend(a[1..], b);
    } else {
      assert a + b == b;
    }
  }

  predicate StartsWith(s: string, prefix: string) {
    |prefix| <= |s| && s[..|prefix|] == prefix
  }

  /** The outer parts of a three-part concatenation are its prefix and suffix. */
  lemma Framed(a: string, m: string, b: string)
    ensures StartsWith(a + m + b, a)
    ensures (a + m + b)[|a + m + b| - |b|..] == b
  {
    var h := a + m + b;
    assert h[..|a|] == a;
    assert h[|h| - |b|..] == b;
  }

  /** A three-part concatenation, taken apart again. */
  lemma Parts(a: string, m: string, e: string)
    ensures var s := a + m + e;
      && StartsWith(s, a) && |s| >= |a| + |e| && s[|a|..] == m + e
      && s[|s| - |e|..] == e && s[|a|..|s| - |e|] == m
  {
    var s := a + m + e;
    assert s[..|a|] == a;
    assert s[|a|..] == m + e;
    assert s[|s| - |e|..] == e;
    assert s[|a|..|s| - |e|] == m;
  }

  predicate EndsWith(s: string, suffix: string) {
    |suffix| <= |s| && s[|s| - |suffix|..] == suffix
  }

  lemma PrefixOf(a: string, b: string)
    ensures StartsWith(a + b, a) && (a + b)[|a|..] == b
  {
    assert (a + b)[..|a|] == a;
  }

  lemma SuffixOf(a: string, b: string)
    ensures EndsWith(a + b, b) && (a + b)[..|a|] == a
  {
    assert (a + b)[|a + b| - |b|..] == b;
  }

  lemma StartsWithTrans(s: string, p: string, q: string)
    requires StartsWith(s, p) && StartsWith(p, q)
    ensures StartsWith(s, q)
  {
    assert s[..|q|] == s[..|p|][..|q|];
  }

  lemma EndsWithTrans(s: string, p: string, q: string)
    requires EndsWith(s, p) && EndsWith(p, q)
    ensures EndsWith(s, q)
  {
    assert s[|s| - |q|..] == s[|s| - |p|..][|p| - |q|..];
  }

  /** pat occurs in s starting at index q. */
  predicate OccursAt(s: string, q: int, pat: string) {
    0 <= q && q + |pat| <= |s| && s[q..q + |pat|] == pat
  }

  /** Python's `pat in s`. */
  predicate Contains(s: string, pat: string) {
    exists q | 0 <= q <= |s| - |pat| :: OccursAt(s, q, pat)
  }

  /** str.replace(pat, repl): scans left to right and replaces every
      non-overlapping occurrence, resuming after each replaced one; an empty
      pattern inserts `repl` around every character. */
  function Replace(s: string, pat: string, repl: string): string
    decreases |s|
  {
    if |pat| == 0 then
      if |s| == 0 then repl else repl + [s[0]] + Replace(s[1..], pat, repl)
    else if |s| == 0 then ""
    else if StartsWith(s, pat) then repl + Replace(s[|pat|..], pat, repl)
    else [s[0]] + Replace(s[1..], pat, repl)
  }

  /** A pattern whose first character is missing from the text does not occur. */
  lemma NotContainsFirst(s: string, pat: string)
    requires |pat| > 0 && pat[0] !in s
    ensures !Contains(s, pat)
  {
    forall q | 0 <= q <= |s| - |pat|
      ensures !OccursAt(s, q, pat)
    {
      assert s[q..q + |pat|][0] == s[q];
    }
  }

  /** Python's `pat in s` holds wherever an occurrence is exhibited. */
  lemma ContainsOfOccurs(s: string, q: int, pat: string)
    ensures OccursAt(s, q, pat) ==> Contains(s, pat)
  {
  }

  /** Where an occurrence in a concatenation can lie: inside the left part,
      inside the right part, or across the seam, covering the characters on
      both sides of it. */
  lemma OccursAppend(x: string, y: string, q: int, pat: string)
    ensures OccursAt(x + y, q, pat) && q + |pat| <= |x| ==> OccursAt(x, q, pat)
    ensures OccursAt(x + y, q, pat) && q >= |x| ==> OccursAt(y, q - |x|, pat)
    ensures OccursAt(x + y, q, pat) && q < |x| < q + |pat| ==>
      x[|x| - 1] in pat && y[0] in pat
  {
    var s := x + y;
    if OccursAt(s, q, pat) {
      if q + |pat| <= |x| {
        assert s[q..q + |pat|] == x[q..q + |pat|];
      } else if q >= |x| {
        assert s[q..q + |pat|] == y[q - |x|..q - |x| + |pat|];
      } else if q < |x| {
        assert s[q..q + |pat|][|x| - 1 - q] == x[|x| - 1];
        assert s[q..q + |pat|][|x| - q] == y[0];
      }
    }
  }

  /** An occurrence in the right part is an occurrence in the concatenation. */
  lemma OccursShift(x: string, y: string, q: int, pat: string)
    ensures OccursAt(y, q, pat) ==> OccursAt(x + y, |x| + q, pat)
  {
    if OccursAt(y, q, pat) {
      assert (x + y)[|x| + q..|x| + q + |pat|] == y[q..q + |pat|];
    }
  }

  lemma ContainsAppend(x: string, y: string, pat: string)
    ensures Contains(x, pat) ==> Contains(x + y, pat)
    ensures Contains(y, pat) ==> Contains(x + y, pat)
  {
    if Contains(x, pat) {
      var q :| 0 <= q <= |x| - |pat| && OccursAt(x, q, pat);
      assert (x + y)[q..q + |pat|] == x[q..q + |pat|];
      assert OccursAt(x + y, q, pat);
    }
    if Contains(y, pat) {
      var q :| 0 <= q <= |y| - |pat| && OccursAt(y, q, pat);
      OccursShift(x, y, q, pat);
    }
  }

  /** An occurrence at the very start is replaced, and the scan resumes after it. */
  lemma ReplaceAtStart(pat: string, rest: string, repl: string)
    requires |pat| > 0
    ensures Replace(pat + rest, pat, repl) == repl + Replace(rest, pat, repl)
  {
    var s := pat + rest;
    assert s[..|pat|] == pat;
    assert s[|pat|..] == rest;
  }

  /** Replacing a pattern that does not occur changes nothing. */
  lemma ReplaceAbsent(s: string, pat: string, repl: string)
    requires |pat| > 0 && !Contains(s, pat)
    ensures Replace(s, pat, repl) == s
  {
    ReplaceSkip(s, |s|, pat, repl);
    assert s[|s|..] == "";
    assert s[..|s|] == s;
  }

  /** Replacement leaves alone a prefix in which no occurrence starts. */
  lemma {:induction false} ReplaceSkip(s: string, n: nat, pat: string, repl: string)
    requires |pat| > 0 && n <= |s|
    requires forall q :: 0 <= q < n ==> !OccursAt(s, q, pat)
    ensures Replace(s, pat, repl) == s[..n] + Replace(s[n..], pat, repl)
    decreases n
  {
    if n > 0 {
      var t := s[1..];
      assert Replace(s, pat, repl) == [s[0]] + Replace(t, pat, repl) by {
        assert !OccursAt(s, 0, pat);
        ReplaceStep(s, pat, repl);
      }
      assert Replace(t, pat, repl) == t[..n - 1] + Replace(t[n - 1..], pat, repl) by {
        NoOccurrenceTail(s, n, pat);
        ReplaceSkip(t, n - 1, pat, repl);
      }
      assert t[n - 1..] == s[n..];
      assert s[..n] == [s[0]] + t[..n - 1];
    }
  }

  lemma NoOccurrenceTail(s: string, n: nat, pat: string)
    requires 0 < n <= |s|
    requires forall q :: 0 <= q < n ==> !OccursAt(s, q, pat)
    ensures forall q :: 0 <= q < n - 1 ==> !OccursAt(s[1..], q, pat)
  {
    forall q | 0 <= q < n - 1
      ensures !OccursAt(s[1..], q, pat)
    {
      ShiftOccurrence(s, q, pat);
    }
  }

  lemma ReplaceStep(s: string, pat: string, repl: string)
    requires |pat| > 0 && |s| > 0 && !OccursAt(s, 0, pat)
    ensures Replace(s, pat, repl) == [s[0]] + Replace(s[1..], pat, repl)
  {
  }

  lemma ShiftOccurrence(s: string, q: int, pat: string)
    requires |s| > 0
    ensures OccursAt(s[1..], q, pat) ==> OccursAt(s, q + 1, pat)
  {
    if OccursAt(s[1..], q, pat) {
      assert s[1..][q..q + |pat|] == s[q + 1..q + 1 + |pat|];
    }
  }

  predicate IsDigit(c: char) {
    '0' <= c <= '9'
  }

  predicate AllDigits(s: string) {
    forall i :: 0 <= i < |s| ==> IsDigit(s[i])
  }

  function DigitChar(d: nat): (c: char)
    requires d < 10
    ensures IsDigit(c)
  {
    "0123456789"[d]
  }

  function DigitValue(c: char): nat
    requires IsDigit(c)
  {
    (c as int) - ('0' as int)
  }

  /** The decimal text of an index, as f'{idx}' renders it. */
  function Decimal(n: nat): (r: string)
    ensures |r| >= 1 && AllDigits(r)
    decreases n
  {
    if n < 10 then [DigitChar(n)] else Decimal(n / 10) + [DigitChar(n % 10)]
  }

  function ParseDecimal(s: string): nat
    requires AllDigits(s)
    decreases |s|
  {
    if |s| == 0 then 0 else ParseDecimal(s[..|s| - 1]) * 10 + DigitValue(s[|s| - 1])
  }

  /** Reading the decimal text back gives the index. */
  lemma {:induction false} DecimalRoundTrip(n: nat)
    ensures ParseDecimal(Decimal(n)) == n
    decreases n
  {
    if n < 10 {
      assert DigitValue(DigitChar(n)) == n;
    } else {
      DecimalRoundTrip(n / 10);
      var s := Decimal(n);
      assert s[..|s| - 1] == Decimal(n / 10);
      assert DigitValue(DigitChar(n % 10)) == n % 10;
    }
  }

  /** Distinct indices render as distinct decimal texts. */
  lemma DecimalInjective(m: nat, n: nat)
    requires Decimal(m) == Decimal(n)
    ensures m == n
  {
    DecimalRoundTrip(m);
    DecimalRoundTrip(n);
  }
}
