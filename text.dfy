/** Text helpers shared by the three source files: decimal digits (Python's
    str() and int() on non-negative integers), the ", " separator used by
    str.join / str.split, str.splitlines, and the left-to-right scan that
    re.findall(r"'([^']+)'", s) performs. */
module Text {

  import opened Wrappers

  predicate IsDigit(c: char) { '0' <= c <= '9' }

  function DigitValue(c: char): nat
    requires IsDigit(c)
  {
    c as int - '0' as int
  }

  function DigitChar(d: nat): (c: char)
    requires d < 10
    ensures IsDigit(c) && DigitValue(c) == d
  {
    ('0' as int + d) as char
  }

  predicate AllDigits(s: string) { forall i :: 0 <= i < |s| ==> IsDigit(s[i]) }

  /** int(s) for a run of decimal digits */
  function ParseDigits(s: string): nat
    requires AllDigits(s)
    decreases |s|
  {
    if |s| == 0 then 0 else 10 * ParseDigits(s[..|s| - 1]) + DigitValue(s[|s| - 1])
  }

  /** str(n) for a non-negative integer; int() reads it back */
  function Show(n: nat): (s: string)
    ensures |s| > 0 && AllDigits(s)
    ensures ParseDigits(s) == n
  {
    if n < 10 then [DigitChar(n)]
    else
      var prefix := Show(n / 10);
      var s := prefix + [DigitChar(n % 10)];
      assert s[..|s| - 1] == prefix;
      s
  }

  /** Length of the longest run of digits at the start of s (a greedy \d*) */
  function DigitRun(s: string): (k: nat)
    ensures k <= |s| && AllDigits(s[..k])
    ensures k < |s| ==> !IsDigit(s[k])
  {
    if |s| == 0 || !IsDigit(s[0]) then 0
    else
      var k := 1 + DigitRun(s[1..]);
      assert s[..k] == [s[0]] + s[1..][..k - 1];
      k
  }

  lemma {:induction false} DigitRunOfDigits(d: string, rest: string)
    requires AllDigits(d)
    requires |rest| > 0 ==> !IsDigit(rest[0])
    ensures DigitRun(d + rest) == |d|
    decreases |d|
  {
    if |d| == 0 {
      assert d + rest == rest;
    } else {
      assert (d + rest)[1..] == d[1..] + rest;
      DigitRunOfDigits(d[1..], rest);
    }
  }

  /** The lengths of the two digit runs of a (\d+)-(\d+) match */
  datatype RangeMatch = RangeMatch(lowLen: nat, highLen: nat)

  /** t is exactly digits, '-', digits */
  predicate IsRangeText(t: string)
  {
    exists i :: 0 < i < |t| - 1 && AllDigits(t[..i]) && t[i] == '-' && AllDigits(t[i + 1..])
  }

  /** The regex (\d+)-(\d+) anchored at the start of t: both runs are greedy,
      so the first must be the whole leading digit run and be followed by '-' */
  function MatchRange(t: string): (m: Option<RangeMatch>)
    ensures m.Some? ==> 0 < m.value.lowLen && 0 < m.value.highLen
    ensures m.Some? ==> m.value.lowLen + 1 + m.value.highLen <= |t|
    ensures m.Some? ==> IsRangeText(t[..m.value.lowLen + 1 + m.value.highLen])
    ensures m.Some? ==> AllDigits(t[..m.value.lowLen]) && t[m.value.lowLen] == '-'
    ensures m.Some? ==> AllDigits(t[m.value.lowLen + 1..m.value.lowLen + 1 + m.value.highLen])
    ensures m.Some? && m.value.lowLen + 1 + m.value.highLen < |t| ==>
      !IsDigit(t[m.value.lowLen + 1 + m.value.highLen])
    ensures m.None? ==> forall i :: 0 < i < |t| - 1 && AllDigits(t[..i]) && t[i] == '-' ==> !IsDigit(t[i + 1])
  {
    var d1 := DigitRun(t);
    if 0 < d1 < |t| && t[d1] == '-' then
      var d2 := DigitRun(t[d1 + 1..]);
      if d2 > 0 then
        var n := d1 + 1 + d2;
        assert t[..n][..d1] == t[..d1] && t[..n][d1 + 1..] == t[d1 + 1..][..d2];
        assert t[d1 + 1..n] == t[d1 + 1..][..d2];
        Some(RangeMatch(d1, d2))
      else None
    else None
  }

  /** t begins with one or more digits, '-' and a digit: the text the
      anchored regex (\d+)-(\d+) accepts */
  predicate RangeStart(t: string)
  {
    exists i :: 0 < i < |t| - 1 && AllDigits(t[..i]) && t[i] == '-' && IsDigit(t[i + 1])
  }

  lemma MatchRangeFound(t: string)
    ensures MatchRange(t).Some? <==> RangeStart(t)
  {
    var m := MatchRange(t);
    if m.Some? {
      var i := m.value.lowLen;
      assert t[i + 1..i + 1 + m.value.highLen][0] == t[i + 1];
      assert 0 < i < |t| - 1 && AllDigits(t[..i]) && t[i] == '-' && IsDigit(t[i + 1]);
    }
  }

  /** digits '-' digits followed by a non-digit is matched in full */
  lemma MatchRangeOf(a: string, b: string, rest: string)
    requires |a| > 0 && |b| > 0 && AllDigits(a) && AllDigits(b)
    requires |rest| > 0 ==> !IsDigit(rest[0])
    ensures MatchRange(a + "-" + b + rest) == Some(RangeMatch(|a|, |b|))
  {
    var t := a + "-" + b + rest;
    assert t == a + ("-" + b + rest);
    DigitRunOfDigits(a, "-" + b + rest);
    assert t[|a| + 1..] == b + rest;
    DigitRunOfDigits(b, rest);
  }

  lemma Associative(a: string, b: string, c: string)
    ensures a + b + c == a + (b + c)
  {
  }

  // ---------------------------------------------------------------------
  // The ", " separator

  const Sep: string := ", "

  predicate SepAt(s: string, i: nat) { i + 1 < |s| && s[i] == ',' && s[i + 1] == ' ' }

  predicate HasSep(s: string) { exists i: nat | i < |s| :: SepAt(s, i) }

  /** Index of the leftmost ", " in s, or |s| when there is none */
  function SepIndex(s: string): (i: nat)
    ensures i <= |s|
    ensures i < |s| ==> SepAt(s, i)
    ensures forall j: nat :: j < i ==> !SepAt(s, j)
  {
    if |s| < 2 then |s|
    else if s[0] == ',' && s[1] == ' ' then 0
    else
      var i := 1 + SepIndex(s[1..]);
      assert forall j: nat :: 0 < j < i ==> (SepAt(s, j) <==> SepAt(s[1..], j - 1));
      i
  }

  /** s.split(", ") */
  function Split(s: string): (parts: seq<string>)
    ensures |parts| > 0
    ensures forall k :: 0 <= k < |parts| ==> !HasSep(parts[k])
    decreases |s|
  {
    var i := SepIndex(s);
    if i == |s| then [s]
    else
      var head := s[..i];
      assert forall j: nat :: SepAt(head, j) ==> SepAt(s, j);
      [head] + Split(s[i + 2..])
  }

  /** ", ".join(parts) */
  function Join(parts: seq<string>): (s: string)
    ensures |parts| == 0 ==> s == ""
    ensures |parts| > 0 ==> |parts[0]| <= |s| && s[..|parts[0]|] == parts[0]
    ensures |parts| > 1 ==> |parts[0]| + 2 <= |s| && SepAt(s, |parts[0]|)
  {
    if |parts| == 0 then ""
    else if |parts| == 1 then parts[0]
    else parts[0] + Sep + Join(parts[1..])
  }

  /** Everything Join puts before piece m: the earlier pieces, each followed
      by the separator */
  function JoinBefore(parts: seq<string>, m: nat): string
    requires m < |parts|
    decreases m
  {
    if m == 0 then "" else parts[0] + Sep + JoinBefore(parts[1..], m - 1)
  }

  /** Everything Join puts after piece m: nothing for the last piece, else
      the separator and the later pieces */
  function JoinAfter(parts: seq<string>, m: nat): (after: string)
    requires m < |parts|
    ensures |after| > 0 ==> after[0] == ','
  {
    if m == |parts| - 1 then "" else Sep + Join(parts[m + 1..])
  }

  /** Piece m of a join sits between what comes before and after it */
  lemma {:induction false} JoinAt(parts: seq<string>, m: nat)
    requires m < |parts|
    ensures Join(parts) == JoinBefore(parts, m) + parts[m] + JoinAfter(parts, m)
    decreases m
  {
    if m == 0 {
      if |parts| > 1 {
        assert parts[1..] == parts[m + 1..];
      }
      assert "" + parts[0] == parts[0];
    } else {
      var tail := parts[1..];
      JoinAt(tail, m - 1);
      assert tail[m - 1] == parts[m];
      assert JoinAfter(tail, m - 1) == JoinAfter(parts, m) by {
        if m < |parts| - 1 {
          assert tail[m..] == parts[m + 1..];
        }
      }
      var before, after := JoinBefore(tail, m - 1), JoinAfter(parts, m);
      assert Join(parts) == parts[0] + Sep + (before + parts[m] + after);
      Associative(parts[0] + Sep, before + parts[m], after);
      Associative(parts[0] + Sep, before, parts[m]);
    }
  }

  lemma SepIndexAfterPiece(x: string, rest: string)
    requires !HasSep(x)
    ensures SepIndex(x + Sep + rest) == |x|
  {
    var s := x + Sep + rest;
    assert SepAt(s, |x|);
    forall j: nat | j < |x|
      ensures !SepAt(s, j)
    {
      if j + 1 < |x| {
        assert !SepAt(x, j);
      }
    }
  }

  lemma SepIndexOfPiece(x: string)
    requires !HasSep(x)
    ensures SepIndex(x) == |x|
  {
    assert SepIndex(x) < |x| ==> SepAt(x, SepIndex(x));
  }

  /** Splitting a joined list gives the list back when no piece holds ", " */
  lemma {:induction false} SplitJoin(parts: seq<string>)
    requires |parts| > 0
    requires forall k :: 0 <= k < |parts| ==> !HasSep(parts[k])
    ensures Split(Join(parts)) == parts
  {
    if |parts| == 1 {
      SepIndexOfPiece(parts[0]);
    } else {
      var s := Join(parts);
      SepIndexAfterPiece(parts[0], Join(parts[1..]));
      assert s[..|parts[0]|] == parts[0];
      assert s[|parts[0]| + 2..] == Join(parts[1..]);
      SplitJoin(parts[1..]);
      assert parts == [parts[0]] + parts[1..];
    }
  }

  /** Joining the pieces of a split gives the string back */
  lemma {:induction false} JoinSplit(s: string)
    ensures Join(Split(s)) == s
    decreases |s|
  {
    var i := SepIndex(s);
    if i < |s| {
      JoinSplit(s[i + 2..]);
      assert s == s[..i] + Sep + s[i + 2..];
    }
  }

  // ---------------------------------------------------------------------
  // str.splitlines()

  /** The characters Python's str.splitlines treats as line boundaries */
  predicate IsLineBreak(c: char)
  {
    c == '\n' || c == '\r' || c == '\U{000B}' || c == '\U{000C}' || c == '\U{001C}' ||
    c == '\U{001D}' || c == '\U{001E}' || c == '\U{0085}' || c == '\U{2028}' || c == '\U{2029}'
  }

  predicate NoLineBreak(s: string) { forall i :: 0 <= i < |s| ==> !IsLineBreak(s[i]) }

  function BreakIndex(s: string): (i: nat)
    ensures i <= |s| && NoLineBreak(s[..i])
    ensures i < |s| ==> IsLineBreak(s[i])
  {
    if |s| == 0 || IsLineBreak(s[0]) then 0
    else
      var i := 1 + BreakIndex(s[1..]);
      assert s[..i] == [s[0]] + s[1..][..i - 1];
      i
  }

  /** s.splitlines(): "\r\n" counts as one boundary, and a final boundary
      does not start an empty last line */
  function SplitLines(s: string): (lines: seq<string>)
    ensures forall k :: 0 <= k < |lines| ==> NoLineBreak(lines[k])
    decreases |s|
  {
    if |s| == 0 then []
    else
      var i := BreakIndex(s);
      if i == |s| then [s]
      else
        var next := if s[i] == '\r' && i + 1 < |s| && s[i + 1] == '\n' then i + 2 else i + 1;
        [s[..i]] + SplitLines(s[next..])
  }

  /** "\n".join(lines) */
  function JoinLines(lines: seq<string>): string
  {
    if |lines| == 0 then ""
    else if |lines| == 1 then lines[0]
    else lines[0] + "\n" + JoinLines(lines[1..])
  }

  lemma {:induction false} BreakIndexOfLine(x: string, rest: string)
    requires NoLineBreak(x)
    requires |rest| > 0 ==> IsLineBreak(rest[0])
    ensures BreakIndex(x + rest) == |x|
    decreases |x|
  {
    if |x| > 0 {
      assert (x + rest)[1..] == x[1..] + rest;
      BreakIndexOfLine(x[1..], rest);
    } else {
      assert x + rest == rest;
    }
  }

  /** A newline-separated literal whose last line is not empty splits back
      into its lines */
  lemma {:induction false} SplitLinesJoinLines(lines: seq<string>)
    requires |lines| > 0 && |lines[|lines| - 1]| > 0
    requires forall k :: 0 <= k < |lines| ==> NoLineBreak(lines[k])
    ensures SplitLines(JoinLines(lines)) == lines
  {
    if |lines| == 1 {
      BreakIndexOfLine(lines[0], "");
      assert lines[0] + "" == lines[0];
    } else {
      var rest := JoinLines(lines[1..]);
      var s := lines[0] + "\n" + rest;
      assert s == lines[0] + ("\n" + rest);
      BreakIndexOfLine(lines[0], "\n" + rest);
      assert s[..|lines[0]|] == lines[0];
      assert s[|lines[0]| + 1..] == rest;
      SplitLinesJoinLines(lines[1..]);
      assert lines == [lines[0]] + lines[1..];
    }
  }

  // ---------------------------------------------------------------------
  // re.findall(r"'([^']+)'", s)

  predicate NoQuote(s: string) { forall i :: 0 <= i < |s| ==> s[i] != '\'' }

  /** Index of the first ' at or after `from`, or |s| */
  function NextQuote(s: string, from: nat): (j: nat)
    requires from <= |s|
    ensures from <= j <= |s|
    ensures j < |s| ==> s[j] == '\''
    ensures forall k :: from <= k < j ==> s[k] != '\''
    decreases |s| - from
  {
    if from == |s| || s[from] == '\'' then from else NextQuote(s, from + 1)
  }

  lemma {:induction false} NextQuoteAt(s: string, from: nat, j: nat)
    requires from <= j < |s| && s[j] == '\''
    requires forall k :: from <= k < j ==> s[k] != '\''
    ensures NextQuote(s, from) == j
    decreases j - from
  {
    if from < j {
      NextQuoteAt(s, from + 1, j);
    }
  }

  /** The non-overlapping matches of '([^']+)', left to right: a match starts
      at a quote whose next quote is at least two characters further on */
  function FindQuoted(s: string): (items: seq<string>)
    ensures forall k :: 0 <= k < |items| ==> |items[k]| > 0 && NoQuote(items[k])
    decreases |s|
  {
    if |s| == 0 then []
    else if s[0] == '\'' then
      var j := NextQuote(s, 1);
      if 1 < j < |s| then [s[1..j]] + FindQuoted(s[j + 1..])
      else FindQuoted(s[1..])
    else FindQuoted(s[1..])
  }

  /** Text without quotes contributes no match */
  lemma {:induction false} FindQuotedSkips(t: string, rest: string)
    requires NoQuote(t)
    ensures FindQuoted(t + rest) == FindQuoted(rest)
    decreases |t|
  {
    if |t| > 0 {
      assert (t + rest)[1..] == t[1..] + rest;
      FindQuotedSkips(t[1..], rest);
    } else {
      assert t + rest == rest;
    }
  }

  /** A quoted, quote-free, non-empty item is found, and the scan resumes
      after its closing quote */
  lemma FindQuotedItem(x: string, rest: string)
    requires |x| > 0 && NoQuote(x)
    ensures FindQuoted("'" + x + "'" + rest) == [x] + FindQuoted(rest)
  {
    var s := "'" + x + "'" + rest;
    assert forall k :: 1 <= k < |x| + 1 ==> s[k] == x[k - 1];
    NextQuoteAt(s, 1, |x| + 1);
    assert s[1..|x| + 1] == x;
    assert s[|x| + 2..] == rest;
  }

  /** A quote with no partner after it starts no match */
  lemma FindQuotedLoneQuote(rest: string)
    requires NoQuote(rest)
    ensures FindQuoted("'" + rest) == []
  {
    var s := "'" + rest;
    assert s[1..] == rest;
    FindQuotedSkips(rest, "");
    assert rest + "" == rest;
  }
}
