/** visualise.py: the display relabelling of review-bin items in the
    antecedent strings of the rules table. */
module Visualise {

  import opened Wrappers
  import opened Text
  import opened DataProcessing

  const ScorePrefix: string := "Review Score: "

  /** s begins with review_bin_, digits, '-' and a digit: what
      re.match(r'review_bin_(\d+-\d+)', s) accepts */
  predicate StartsWithBinPattern(s: string)
  {
    |s| >= |BinPrefix| && s[..|BinPrefix|] == BinPrefix && RangeStart(s[|BinPrefix|..])
  }

  /** The range the regex captures: the longest digits '-' digits right after
      review_bin_ */
  function MatchedRange(s: string): (x: string)
    requires StartsWithBinPattern(s)
    ensures IsRangeText(x)
    ensures |BinPrefix| + |x| <= |s| && s[|BinPrefix|..|BinPrefix| + |x|] == x
    ensures |BinPrefix| + |x| < |s| ==> !IsDigit(s[|BinPrefix| + |x|])
    ensures forall i :: 0 <= i < |x| ==> IsDigit(x[i]) || x[i] == '-'
  {
    var t := s[|BinPrefix|..];
    MatchRangeFound(t);
    var m := MatchRange(t).value;
    var x := t[..m.lowLen + 1 + m.highLen];
    assert forall i :: 0 <= i < |x| ==> IsDigit(x[i]) || x[i] == '-' by {
      forall i | 0 <= i < |x|
        ensures IsDigit(x[i]) || x[i] == '-'
      {
        if i < m.lowLen {
          assert t[..m.lowLen][i] == x[i];
        } else if i > m.lowLen {
          assert t[m.lowLen + 1..m.lowLen + 1 + m.highLen][i - m.lowLen - 1] == x[i];
        }
      }
    }
    x
  }

  /** reformat_review_score: a string starting with the bin pattern becomes
      "Review Score: " and the matched range, and everything after the
      range is dropped; any other string comes back unchanged */
  function Reformat(s: string): (r: string)
    ensures !StartsWithBinPattern(s) ==> r == s
    ensures StartsWithBinPattern(s) ==> r == ScorePrefix + MatchedRange(s)
  {
    if StartsWithBinPattern(s) then ScorePrefix + MatchedRange(s) else s
  }

  /** A bin item, with whatever follows its range, is relabelled to its range */
  lemma ReformatBinItem(a: string, b: string, rest: string)
    requires |a| > 0 && |b| > 0 && AllDigits(a) && AllDigits(b)
    requires |rest| > 0 ==> !IsDigit(rest[0])
    ensures Reformat(BinPrefix + (a + "-" + b) + rest) == ScorePrefix + (a + "-" + b)
  {
    var x := a + "-" + b;
    var s := BinPrefix + x + rest;
    Associative(BinPrefix, x, rest);
    assert s[..|BinPrefix|] == BinPrefix && s[|BinPrefix|..] == x + rest;
    MatchRangeOf(a, b, rest);
    assert s[|BinPrefix|..|BinPrefix| + |x|] == x;
  }

  /** The relabelled column name of bin k */
  lemma ReformatOfBinItem(k: nat)
    requires k < BinCount
    ensures Reformat(BinItem(k)) == ScorePrefix + Show(5 * k) + "-" + Show(5 * k + 5)
  {
    var a, b := Show(5 * k), Show(5 * k + 5);
    assert BinItem(k) == BinPrefix + (a + "-" + b) + "";
    ReformatBinItem(a, b, "");
  }

  /** Relabelling twice is relabelling once: the output starts with "R",
      which no bin item does */
  lemma ReformatIdempotent(s: string)
    ensures Reformat(Reformat(s)) == Reformat(s)
  {
    var r := Reformat(s);
    if StartsWithBinPattern(s) {
      assert r[0] == 'R' && BinPrefix[0] == 'r';
    }
  }

  /** A piece without ", " stays without ", " */
  lemma ReformatKeepsPiece(s: string)
    requires !HasSep(s)
    ensures !HasSep(Reformat(s))
  {
    var r := Reformat(s);
    if StartsWithBinPattern(s) {
      var x := MatchedRange(s);
      forall i | 0 <= i < |r|
        ensures r[i] != ','
      {
        if i >= |ScorePrefix| {
          assert r[i] == x[i - |ScorePrefix|];
        }
      }
    }
  }

  /** map(reformat_review_score, parts) */
  function ReformatAll(parts: seq<string>): (out: seq<string>)
    ensures |out| == |parts| && forall i :: 0 <= i < |parts| ==> out[i] == Reformat(parts[i])
  {
    seq(|parts|, i requires 0 <= i < |parts| => Reformat(parts[i]))
  }

  /** The rewrite of line 46: split on ", ", relabel each piece, join with ", ".
      The pieces keep their number and order, and each is the relabelled
      original piece. */
  function RewriteAntecedents(s: string): (r: string)
    ensures |Split(r)| == |Split(s)|
    ensures forall i :: 0 <= i < |Split(s)| ==> Split(r)[i] == Reformat(Split(s)[i])
  {
    var parts := Split(s);
    var out := ReformatAll(parts);
    forall i | 0 <= i < |out|
      ensures !HasSep(out[i])
    {
      ReformatKeepsPiece(parts[i]);
    }
    SplitJoin(out);
    Join(out)
  }

  /** A string none of whose pieces starts with a bin item is left as it is */
  lemma RewriteWithoutBins(s: string)
    requires forall i :: 0 <= i < |Split(s)| ==> !StartsWithBinPattern(Split(s)[i])
    ensures RewriteAntecedents(s) == s
  {
    var r := RewriteAntecedents(s);
    assert Split(r) == Split(s);
    JoinSplit(r);
    JoinSplit(s);
  }

  lemma RewriteIdempotent(s: string)
    ensures RewriteAntecedents(RewriteAntecedents(s)) == RewriteAntecedents(s)
  {
    var r := RewriteAntecedents(s);
    var rr := RewriteAntecedents(r);
    forall i | 0 <= i < |Split(rr)|
      ensures Split(rr)[i] == Split(r)[i]
    {
      ReformatIdempotent(Split(s)[i]);
    }
    assert Split(rr) == Split(r);
    JoinSplit(rr);
    JoinSplit(r);
  }

  /** Only antecedents_str is rewritten: the item sets, the consequent string
      and the metrics keep their values */
  function RelabelRule(rule: Rule): (out: Rule)
    ensures out.antecedents == rule.antecedents && out.consequents == rule.consequents
    ensures out.consequentsStr == rule.consequentsStr
    ensures out.support == rule.support && out.confidence == rule.confidence
    ensures out.lift == rule.lift && out.occurrences == rule.occurrences
    ensures out.antecedentsStr == RewriteAntecedents(rule.antecedentsStr)
  {
    rule.(antecedentsStr := RewriteAntecedents(rule.antecedentsStr))
  }

  /** The rules table after line 46 */
  function RelabelRules(rules: seq<Rule>): (out: seq<Rule>)
    ensures |out| == |rules| && forall i :: 0 <= i < |rules| ==> out[i] == RelabelRule(rules[i])
  {
    seq(|rules|, i requires 0 <= i < |rules| => RelabelRule(rules[i]))
  }

  /** Line 46 as the column assignment it is: every row's antecedents_str is
      replaced in place */
  method RewriteAntecedentsColumn(rules: array<Rule>)
    modifies rules
    ensures rules[..] == RelabelRules(old(rules[..]))
  {
    ghost var before := rules[..];
    ghost var after := RelabelRules(before);
    var i := 0;
    while i < rules.Length
      invariant 0 <= i <= rules.Length
      invariant rules[..i] == after[..i] && rules[i..] == before[i..]
    {
      assert rules[i] == before[i] by {
        assert rules[i..][0] == before[i..][0];
      }
      rules[i] := RelabelRule(rules[i]);
      assert rules[..i + 1] == after[..i + 1];
      i := i + 1;
    }
    assert rules[..] == rules[..rules.Length];
  }
}
