/** Properties that cross the three files: a review bin's column name, once
    relabelled for display, parses back to the bin's bounds, and every rule
    that survives post-processing carries a review range the scatter-plot
    callback can read. */
module Pipeline {

  import opened Wrappers
  import opened Text
  import opened Order
  import opened DataProcessing
  import opened Visualise
  import opened App

  /** review_bin_a-b, relabelled, parses back to (a, b) */
  lemma BinLabelRoundTrip(k: nat)
    requires k < BinCount
    ensures GetReviewScoreRange(Reformat(BinItem(k))) == Some((5 * k, 5 * k + 5))
  {
    var a, b := Show(5 * k), Show(5 * k + 5);
    ReformatOfBinItem(k);
    Associative(ScorePrefix + a, "-", b);
    Associative(ScorePrefix, a, "-" + b);
    Associative(a, "-", b);
    ScoreOfLabel(5 * k, 5 * k + 5);
  }

  /** A game's review score lies within the bounds its bin reads back as */
  lemma ScoreWithinParsedBounds(x: real, k: nat)
    requires ReviewBin(x) == Some(k)
    ensures GetReviewScoreRange(Reformat(BinItem(k))).Some?
    ensures var bounds := GetReviewScoreRange(Reformat(BinItem(k))).value;
      bounds.0 as real <= x <= bounds.1 as real
  {
    ReviewBinSpec(x, k);
    BinLabelRoundTrip(k);
  }

  /** A joined string with a relabelled bin name as one of its pieces holds a
      review range */
  lemma ScoreInJoin(parts: seq<string>, m: nat, a: nat, b: nat)
    requires m < |parts| && parts[m] == ScorePrefix + (Show(a) + "-" + Show(b))
    ensures GetReviewScoreRange(Join(parts)).Some?
  {
    JoinAt(parts, m);
    var before, after := JoinBefore(parts, m), JoinAfter(parts, m);
    var s := Join(parts);
    Associative(before, parts[m], after);
    var rest := parts[m] + after;
    assert s == before + rest;
    assert s[|before|..] == rest;
    ScoreMatchOf(a, b, after);
    assert ScoreMatch(s[|before|..]).Some?;
  }

  /** The items of an antecedent are column names of the transaction table:
      no ", " inside, and never the dropped 'appID' and 'name' columns */
  predicate ColumnItems(items: set<string>)
  {
    forall x :: x in items ==> !HasSep(x) && x != "appID" && x != "name"
  }

  /** A rule whose antecedent string was rendered from an antecedent holding a
      review-bin item parses after relabelling */
  lemma RelabelledRuleParses(rule: Rule, k: nat)
    requires k < BinCount && BinItem(k) in rule.antecedents
    requires ColumnItems(rule.antecedents)
    requires rule.antecedentsStr == RenderItems(rule.antecedents)
    ensures GetReviewScoreRange(RelabelRule(rule).antecedentsStr).Some?
  {
    var s := rule.antecedentsStr;
    var r := RelabelRule(rule).antecedentsStr;
    assert BinItem(k) in Split(s);
    var m :| 0 <= m < |Split(s)| && Split(s)[m] == BinItem(k);
    ReformatOfBinItem(k);
    Associative(ScorePrefix + Show(5 * k), "-", Show(5 * k + 5));
    Associative(ScorePrefix, Show(5 * k), "-" + Show(5 * k + 5));
    Associative(Show(5 * k), "-", Show(5 * k + 5));
    assert Split(r)[m] == ScorePrefix + (Show(5 * k) + "-" + Show(5 * k + 5));
    JoinSplit(r);
    ScoreInJoin(Split(r), m, 5 * k, 5 * k + 5);
  }

  /** A rendered mined rule with a review-table column in its antecedent
      parses after relabelling */
  lemma KeptRuleParses(mined: seq<Rule>, rule: Rule)
    requires forall i :: 0 <= i < |mined| ==> ColumnItems(mined[i].antecedents)
    requires rule in RenderRules(mined)
    requires exists x :: x in rule.antecedents && x in ReviewColumns()
    ensures GetReviewScoreRange(RelabelRule(rule).antecedentsStr).Some?
  {
    var j :| 0 <= j < |mined| && RenderRules(mined)[j] == rule;
    assert rule == AddStringColumns(mined[j]);
    var x :| x in rule.antecedents && x in ReviewColumns();
    assert x in BinItems();
    var k :| 0 <= k < BinCount && x == BinItem(k);
    RelabelledRuleParses(rule, k);
  }

  /** The table the scatter plot filters (post-processed, then relabelled)
      satisfies the precondition of filter_scatter, for mined item sets made
      of column names */
  lemma DisplayedTableParses(mined: seq<Rule>)
    requires forall i :: 0 <= i < |mined| ==> ColumnItems(mined[i].antecedents)
    ensures ScoresParse(RelabelRules(PostProcessRules(mined)))
  {
    var kept := PostProcessRules(mined);
    var out := RelabelRules(kept);
    forall i | 0 <= i < |kept|
      ensures GetReviewScoreRange(out[i].antecedentsStr).Some?
    {
      KeptRuleParses(mined, kept[i]);
    }
  }

  /** A rule whose antecedent is a single review bin reads back as that bin */
  lemma SingleBinAntecedent(rule: Rule, k: nat)
    requires k < BinCount && rule.antecedents == {BinItem(k)}
    requires rule.antecedentsStr == RenderItems(rule.antecedents)
    ensures GetReviewScoreRange(RelabelRule(rule).antecedentsStr) == Some((5 * k, 5 * k + 5))
  {
    var x := BinItem(k);
    SortedElemsUnique({x}, [x]);
    assert rule.antecedentsStr == x;
    assert !HasSep(x) by {
      BinItemHasNoSep(k);
    }
    SplitJoin([x]);
    assert Split(x) == [x];
    assert RelabelRule(rule).antecedentsStr == Join([Reformat(x)]);
    BinLabelRoundTrip(k);
  }

  lemma BinItemHasNoSep(k: nat)
    requires k < BinCount
    ensures !HasSep(BinItem(k))
  {
    var x := BinItem(k);
    var tail := x[|BinPrefix|..];
    assert forall i :: 0 <= i < |tail| ==> tail[i] != ',' by {
      var a, b := Show(5 * k), Show(5 * k + 5);
      assert tail == a + "-" + b;
      forall i | 0 <= i < |tail|
        ensures tail[i] != ','
      {
        if i < |a| {
          assert tail[i] == a[i];
        } else if i > |a| {
          assert tail[i] == b[i - |a| - 1];
        }
      }
    }
    forall i | 0 <= i < |x|
      ensures x[i] != ','
    {
      if i >= |BinPrefix| {
        assert x[i] == tail[i - |BinPrefix|];
      }
    }
  }
}
