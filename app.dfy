/** app.py: reading the review range back out of an antecedent string, and
    the filtering done by the scatter-plot callback. */
module App {

  import opened Wrappers
  import opened Text
  import opened Seqs
  import opened DataProcessing
  import opened Visualise

  // ---------------------------------------------------------------------
  // get_review_score_range

  /** 'Review Score: (\d+)-(\d+)' matched at the start of t, with both groups
      converted by int() */
  function ScoreMatch(t: string): (m: Option<(nat, nat)>)
    ensures m.Some? <==> |t| >= |ScorePrefix| && t[..|ScorePrefix|] == ScorePrefix && RangeStart(t[|ScorePrefix|..])
  {
    if |t| >= |ScorePrefix| && t[..|ScorePrefix|] == ScorePrefix then
      var u := t[|ScorePrefix|..];
      MatchRangeFound(u);
      match MatchRange(u)
      case Some(m) => Some((ParseDigits(u[..m.lowLen]), ParseDigits(u[m.lowLen + 1..m.lowLen + 1 + m.highLen])))
      case None => None
    else None
  }

  /** The pattern followed by a non-digit gives back the two numbers */
  lemma ScoreMatchOf(a: nat, b: nat, rest: string)
    requires |rest| > 0 ==> !IsDigit(rest[0])
    ensures ScoreMatch(ScorePrefix + (Show(a) + "-" + Show(b)) + rest) == Some((a, b))
  {
    var x := Show(a) + "-" + Show(b);
    var t := ScorePrefix + x + rest;
    Associative(ScorePrefix, x, rest);
    var u := x + rest;
    assert t[..|ScorePrefix|] == ScorePrefix && t[|ScorePrefix|..] == u;
    MatchRangeOf(Show(a), Show(b), rest);
    assert u[..|Show(a)|] == Show(a);
    assert u[|Show(a)| + 1..|Show(a)| + 1 + |Show(b)|] == Show(b);
  }

  /** The first position at or after `from` where the pattern matches, or
      |s| + 1 when there is none */
  function FirstScore(s: string, from: nat): (i: nat)
    requires from <= |s| + 1
    ensures from <= i <= |s| + 1
    ensures i <= |s| ==> ScoreMatch(s[i..]).Some?
    ensures forall j :: from <= j < i && j <= |s| ==> ScoreMatch(s[j..]).None?
    decreases |s| + 1 - from
  {
    if from > |s| then from
    else if ScoreMatch(s[from..]).Some? then from
    else FirstScore(s, from + 1)
  }

  lemma {:induction false} FirstScoreAt(s: string, from: nat, i: nat)
    requires from <= i <= |s| && ScoreMatch(s[i..]).Some?
    requires forall j :: from <= j < i ==> ScoreMatch(s[j..]).None?
    ensures FirstScore(s, from) == i
    decreases i - from
  {
    if from < i {
      FirstScoreAt(s, from + 1, i);
    }
  }

  /** get_review_score_range (re.search): the bounds of the leftmost
      "Review Score: a-b" anywhere in s; None stands for (None, None) */
  function GetReviewScoreRange(s: string): (bounds: Option<(nat, nat)>)
    ensures bounds.None? <==> forall i :: 0 <= i <= |s| ==> ScoreMatch(s[i..]).None?
  {
    var i := FirstScore(s, 0);
    if i <= |s| then ScoreMatch(s[i..]) else None
  }

  /** The search returns the match at the leftmost position where there is one */
  lemma LeftmostScore(s: string, i: nat)
    requires i <= |s| && ScoreMatch(s[i..]).Some?
    requires forall j :: 0 <= j < i ==> ScoreMatch(s[j..]).None?
    ensures GetReviewScoreRange(s) == ScoreMatch(s[i..])
  {
    FirstScoreAt(s, 0, i);
  }

  /** A relabelled bin name alone parses to its bounds */
  lemma ScoreOfLabel(a: nat, b: nat)
    ensures GetReviewScoreRange(ScorePrefix + (Show(a) + "-" + Show(b))) == Some((a, b))
  {
    var s := ScorePrefix + (Show(a) + "-" + Show(b));
    ScoreMatchOf(a, b, "");
    assert s + "" == s && s[0..] == s;
    LeftmostScore(s, 0);
  }

  // ---------------------------------------------------------------------
  // The filters of filter_scatter

  /** A [min, max] slider value */
  datatype Range = Range(lo: real, hi: real)

  predicate Within(x: real, r: Range)
  {
    r.lo <= x <= r.hi
  }

  /** The callback's inputs; a selection of None is the empty sequence */
  datatype Query = Query(occurrences: Range, confidence: Range, lift: Range, reviewScore: Range,
                         direction: string, themeSelection: seq<string>, genreSelection: seq<string>)

  const ThemesToGenres: string := "themes>genres"
  const GenresToThemes: string := "genres>themes"

  /** The mask of lines 96-99: inclusive bounds on the three metrics, and the
      parsed lower review bound inside the review-score slider. A string that
      does not parse is excluded here; filter_scatter requires that there is
      none. */
  predicate InRanges(r: Rule, q: Query)
    ensures InRanges(r, q) ==>
      q.occurrences.lo <= r.occurrences <= q.occurrences.hi &&
      q.confidence.lo <= r.confidence <= q.confidence.hi &&
      q.lift.lo <= r.lift <= q.lift.hi &&
      GetReviewScoreRange(r.antecedentsStr).Some?
  {
    Within(r.occurrences, q.occurrences) && Within(r.confidence, q.confidence) && Within(r.lift, q.lift) &&
    match GetReviewScoreRange(r.antecedentsStr)
    case Some(bounds) => Within(bounds.0 as real, q.reviewScore)
    case None => false
  }

  /** all(tag in items for tag in selection) */
  predicate AllIn(selection: seq<string>, items: set<string>)
  {
    forall i :: 0 <= i < |selection| ==> selection[i] in items
  }

  /** The selection masks of lines 106-107 and 110-111 */
  predicate OnOneSide(r: Rule, selection: seq<string>)
    ensures |selection| == 0 ==> OnOneSide(r, selection)
    ensures OnOneSide(r, selection) ==> forall t :: t in selection ==> t in r.antecedents + r.consequents
  {
    AllIn(selection, r.antecedents) || AllIn(selection, r.consequents)
  }

  /** filter_direction */
  predicate FilterDirection(r: Rule, direction: string, themeSelection: seq<string>, genreSelection: seq<string>,
                            themes: set<string>, genres: set<string>)
    ensures direction != ThemesToGenres && direction != GenresToThemes ==>
      FilterDirection(r, direction, themeSelection, genreSelection, themes, genres)
    ensures (direction == ThemesToGenres && |themeSelection| == 0 && |genreSelection| == 0 &&
             FilterDirection(r, direction, themeSelection, genreSelection, themes, genres)) ==>
      r.antecedents * themes != {} && r.consequents * themes == {} && r.consequents * genres != {}
  {
    if |themeSelection| == 0 && |genreSelection| == 0 then
      if direction == ThemesToGenres then
        |r.antecedents * themes| > 0 && |r.consequents * themes| == 0 && |r.consequents * genres| > 0
      else if direction == GenresToThemes then
        |r.antecedents * genres| > 0 && |r.consequents * genres| == 0 && |r.consequents * themes| > 0
      else true
    else if direction == ThemesToGenres then
      (if |themeSelection| > 0 then AllIn(themeSelection, r.antecedents) else true) &&
      (if |genreSelection| > 0 then AllIn(genreSelection, r.consequents) else true)
    else if direction == GenresToThemes then
      (if |genreSelection| > 0 then AllIn(genreSelection, r.antecedents) else true) &&
      (if |themeSelection| > 0 then AllIn(themeSelection, r.consequents) else true)
    else true
  }

  /** A rule passes every mask of the callback */
  predicate Matches(r: Rule, q: Query, themes: set<string>, genres: set<string>)
  {
    InRanges(r, q) &&
    (|q.themeSelection| == 0 || OnOneSide(r, q.themeSelection)) &&
    (|q.genreSelection| == 0 || OnOneSide(r, q.genreSelection)) &&
    FilterDirection(r, q.direction, q.themeSelection, q.genreSelection, themes, genres)
  }

  /** The rows the scatter plot shows: the rules passing every mask, in the
      table's order */
  function Displayed(rules: seq<Rule>, q: Query, themes: set<string>, genres: set<string>): (shown: seq<Rule>)
    ensures IsSubsequence(shown, rules)
    ensures forall i :: 0 <= i < |shown| ==> shown[i] in rules && Matches(shown[i], q, themes, genres)
    ensures forall i :: 0 <= i < |rules| && Matches(rules[i], q, themes, genres) ==> rules[i] in shown
    ensures forall r :: multiset(shown)[r] == if Matches(r, q, themes, genres) then multiset(rules)[r] else 0
  {
    FilterIsSubsequence(rules, r => Matches(r, q, themes, genres));
    FilterCount(rules, r => Matches(r, q, themes, genres));
    Filter(rules, r => Matches(r, q, themes, genres))
  }

  /** Every antecedent string holds a review range; otherwise the comparison
      of line 99 raises */
  predicate ScoresParse(rules: seq<Rule>)
  {
    forall i :: 0 <= i < |rules| ==> GetReviewScoreRange(rules[i].antecedentsStr).Some?
  }

  /** Lines 89-154: filtered_df narrowed by the range mask, then by each
      non-empty selection, then by the direction */
  method FilterScatter(rules: seq<Rule>, q: Query, themes: set<string>, genres: set<string>) returns (shown: seq<Rule>)
    requires ScoresParse(rules)
    ensures shown == Displayed(rules, q, themes, genres)
  {
    var ts, gs := q.themeSelection, q.genreSelection;
    var ranged := r => InRanges(r, q);
    var themed := r => InRanges(r, q) && (|ts| == 0 || OnOneSide(r, ts));
    var genred := r => InRanges(r, q) && (|ts| == 0 || OnOneSide(r, ts)) && (|gs| == 0 || OnOneSide(r, gs));
    shown := Filter(rules, ranged);
    if |ts| > 0 {
      FilterFuse(rules, ranged, r => OnOneSide(r, ts), themed);
      shown := Filter(shown, r => OnOneSide(r, ts));
    } else {
      FilterSameMask(rules, ranged, themed);
    }
    if |gs| > 0 {
      FilterFuse(rules, themed, r => OnOneSide(r, gs), genred);
      shown := Filter(shown, r => OnOneSide(r, gs));
    } else {
      FilterSameMask(rules, themed, genred);
    }
    FilterFuse(rules, genred, r => FilterDirection(r, q.direction, ts, gs, themes, genres),
               r => Matches(r, q, themes, genres));
    shown := Filter(shown, r => FilterDirection(r, q.direction, ts, gs, themes, genres));
  }

  // ---------------------------------------------------------------------
  // Properties of the displayed rows

  /** Applying the same filters to their own output changes nothing */
  lemma DisplayedIdempotent(rules: seq<Rule>, q: Query, themes: set<string>, genres: set<string>)
    ensures Displayed(Displayed(rules, q, themes, genres), q, themes, genres) == Displayed(rules, q, themes, genres)
  {
    var m := r => Matches(r, q, themes, genres);
    FilterFuse(rules, m, m, m);
  }

  predicate Narrower(inner: Range, outer: Range)
  {
    outer.lo <= inner.lo && inner.hi <= outer.hi
  }

  /** Narrowing any of the sliders, with the rest of the query unchanged, can
      only remove rows */
  lemma NarrowerShowsFewer(rules: seq<Rule>, q: Query, narrow: Query, themes: set<string>, genres: set<string>)
    requires Narrower(narrow.occurrences, q.occurrences) && Narrower(narrow.confidence, q.confidence)
    requires Narrower(narrow.lift, q.lift) && Narrower(narrow.reviewScore, q.reviewScore)
    requires narrow.direction == q.direction
    requires narrow.themeSelection == q.themeSelection && narrow.genreSelection == q.genreSelection
    ensures IsSubsequence(Displayed(rules, narrow, themes, genres), Displayed(rules, q, themes, genres))
    ensures |Displayed(rules, narrow, themes, genres)| <= |Displayed(rules, q, themes, genres)|
  {
    forall r | Matches(r, narrow, themes, genres)
      ensures Matches(r, q, themes, genres)
    {
      var b := GetReviewScoreRange(r.antecedentsStr);
      assert b.Some? && Within(b.value.0 as real, q.reviewScore);
    }
    FilterMonotone(rules, r => Matches(r, narrow, themes, genres), r => Matches(r, q, themes, genres));
  }

  /** With nothing selected and the direction left at 'all' (or any other
      value), only the range mask applies */
  lemma NoSelectionOnlyRanges(rules: seq<Rule>, q: Query, themes: set<string>, genres: set<string>)
    requires |q.themeSelection| == 0 && |q.genreSelection| == 0
    requires q.direction != ThemesToGenres && q.direction != GenresToThemes
    ensures Displayed(rules, q, themes, genres) == Filter(rules, r => InRanges(r, q))
  {
    FilterSameMask(rules, r => Matches(r, q, themes, genres), r => InRanges(r, q));
  }

  /** A query that constrains nothing (every row inside the sliders, nothing
      selected, no named direction) shows the whole table, in order */
  lemma PermissiveShowsAll(rules: seq<Rule>, q: Query, themes: set<string>, genres: set<string>)
    requires |q.themeSelection| == 0 && |q.genreSelection| == 0
    requires q.direction != ThemesToGenres && q.direction != GenresToThemes
    requires forall i :: 0 <= i < |rules| ==> InRanges(rules[i], q)
    ensures Displayed(rules, q, themes, genres) == rules
  {
    NoSelectionOnlyRanges(rules, q, themes, genres);
    FilterAll(rules, r => InRanges(r, q));
  }

  /** Every displayed rule has the three metrics within their sliders, at
      both ends inclusive, and the lower bound of its review range within the
      review slider */
  lemma DisplayedWithinSliders(rules: seq<Rule>, q: Query, themes: set<string>, genres: set<string>, i: nat)
    requires i < |Displayed(rules, q, themes, genres)|
    ensures var r := Displayed(rules, q, themes, genres)[i];
      q.occurrences.lo <= r.occurrences <= q.occurrences.hi &&
      q.confidence.lo <= r.confidence <= q.confidence.hi &&
      q.lift.lo <= r.lift <= q.lift.hi &&
      GetReviewScoreRange(r.antecedentsStr).Some? &&
      q.reviewScore.lo <= GetReviewScoreRange(r.antecedentsStr).value.0 as real <= q.reviewScore.hi
  {
    var r := Displayed(rules, q, themes, genres)[i];
    assert Matches(r, q, themes, genres);
  }

  /** Only the lower bound of a review range is compared: a range that reaches
      past the slider's maximum still passes */
  lemma UpperBoundIgnored(r: Rule, q: Query, a: nat, b: nat)
    requires GetReviewScoreRange(r.antecedentsStr) == Some((a, b))
    requires Within(r.occurrences, q.occurrences) && Within(r.confidence, q.confidence) && Within(r.lift, q.lift)
    requires Within(a as real, q.reviewScore)
    ensures InRanges(r, q)
  {
  }

  /** With a theme selection, each displayed rule holds all selected themes in
      its antecedent or all in its consequent; likewise for genres */
  lemma DisplayedHoldsSelection(rules: seq<Rule>, q: Query, themes: set<string>, genres: set<string>, i: nat)
    requires i < |Displayed(rules, q, themes, genres)|
    ensures var r := Displayed(rules, q, themes, genres)[i];
      (forall t :: t in q.themeSelection ==> t in r.antecedents) || (forall t :: t in q.themeSelection ==> t in r.consequents)
    ensures var r := Displayed(rules, q, themes, genres)[i];
      (forall g :: g in q.genreSelection ==> g in r.antecedents) || (forall g :: g in q.genreSelection ==> g in r.consequents)
  {
    var r := Displayed(rules, q, themes, genres)[i];
    assert Matches(r, q, themes, genres);
  }

  /** With a selection and 'themes>genres', the selected themes are all in the
      antecedent and the selected genres all in the consequent */
  lemma SelectedThemesLead(r: Rule, q: Query, themes: set<string>, genres: set<string>)
    requires q.direction == ThemesToGenres && (|q.themeSelection| > 0 || |q.genreSelection| > 0)
    requires FilterDirection(r, q.direction, q.themeSelection, q.genreSelection, themes, genres)
    ensures forall t :: t in q.themeSelection ==> t in r.antecedents
    ensures forall g :: g in q.genreSelection ==> g in r.consequents
  {
  }

  /** 'genres>themes' is 'themes>genres' with the two vocabularies and the two
      selections exchanged */
  lemma DirectionsSymmetric(r: Rule, themeSelection: seq<string>, genreSelection: seq<string>,
                            themes: set<string>, genres: set<string>)
    ensures FilterDirection(r, GenresToThemes, themeSelection, genreSelection, themes, genres) ==
            FilterDirection(r, ThemesToGenres, genreSelection, themeSelection, genres, themes)
  {
    assert GenresToThemes != ThemesToGenres by {
      assert GenresToThemes[0] != ThemesToGenres[0];
    }
  }

  /** A label in both vocabularies (as "Survival" is) in the consequent keeps
      a rule out of both directions when nothing is selected */
  lemma SharedLabelInConsequent(r: Rule, themes: set<string>, genres: set<string>, lab: string)
    requires lab in themes && lab in genres && lab in r.consequents
    ensures !FilterDirection(r, ThemesToGenres, [], [], themes, genres)
    ensures !FilterDirection(r, GenresToThemes, [], [], themes, genres)
  {
    assert lab in r.consequents * themes && lab in r.consequents * genres;
    assert GenresToThemes != ThemesToGenres by {
      assert GenresToThemes[0] != ThemesToGenres[0];
    }
  }
}
