/** dataProcessing.py: from the game catalogue to the post-processed rule
    table. Derived review columns, the 25-review cut, tag extraction, one-hot
    encoding, review-score binning, the transaction rows handed to the miner,
    the string rendering of rule item sets and the review gate on rules. */
module DataProcessing {

  import opened Wrappers
  import opened Text
  import opened Order
  import opened Seqs

  // ---------------------------------------------------------------------
  // Games and their derived review columns

  /** The 'tags' field as loaded: a string, a {tag: count} dict (in its
      insertion order), or anything else (a list, NaN, ...) */
  datatype TagValue = TagText(text: string) | TagCounts(counts: seq<(string, nat)>) | OtherTags

  datatype Game = Game(appId: int, name: string, positive: nat, negative: nat, tags: TagValue)

  /** df['total_reviews'] */
  function TotalReviews(g: Game): (total: nat)
    ensures total >= g.positive && total >= g.negative
    ensures g.positive > 0 ==> total > 0
  {
    g.positive + g.negative
  }

  /** df['percent_positive'] (before rounding to 3 decimals); the guard on
      positive > 0 keeps the denominator away from zero */
  function PercentPositive(positive: nat, negative: nat): (p: real)
    ensures positive == 0 ==> p == 0.0
    ensures positive > 0 ==> positive + negative > 0 && 0.0 < p <= 100.0
    ensures p == 100.0 <==> positive > 0 && negative == 0
  {
    if positive > 0 then
      var total := (positive + negative) as real;
      var share := positive as real / total;
      assert share * total == positive as real;
      assert share <= 1.0;
      assert share == 1.0 <==> negative == 0;
      share * 100.0
    else 0.0
  }

  /** A factor strictly between 0 and 1 shrinks a difference towards 0 */
  lemma ScaleTowardsZero(d: real, k: real)
    requires 0.0 < k < 1.0
    ensures d == 0.0 ==> d * k == 0.0
    ensures d > 0.0 ==> 0.0 < d * k < d
    ensures d < 0.0 ==> d < d * k < 0.0
  {
    if d > 0.0 {
      assert d * k < d * 1.0;
    } else if d < 0.0 {
      assert (-d) * k < (-d) * 1.0;
    }
  }

  /** p - (p - 0.5) * k: p moved towards 0.5, never past it */
  function PullTowardsHalf(p: real, k: real): (r: real)
    requires 0.0 < k < 1.0
    ensures p >= 0.5 ==> 0.5 <= r <= p
    ensures p < 0.5 ==> p <= r <= 0.5
    ensures r == 0.5 <==> p == 0.5
  {
    var d := p - 0.5;
    ScaleTowardsZero(d, k);
    p - d * k
  }

  /** A larger factor pulls harder: p moved by k2 >= k1 lies between 0.5
      and p moved by k1 */
  lemma LargerFactorPullsHarder(p: real, k1: real, k2: real)
    requires 0.0 < k1 <= k2 < 1.0
    ensures p >= 0.5 ==> 0.5 <= PullTowardsHalf(p, k2) <= PullTowardsHalf(p, k1)
    ensures p < 0.5 ==> PullTowardsHalf(p, k1) <= PullTowardsHalf(p, k2) <= 0.5
  {
    var d := p - 0.5;
    if d >= 0.0 {
      assert d * k1 <= d * k2;
    } else {
      assert (-d) * k1 <= (-d) * k2;
    }
  }

  /** df['log_rating']: percent_positive pulled towards 0.5 by the factor
      k = 2 ** (-log10(total_reviews + 50)), which lies strictly between 0
      and 1 and is passed in; 0 for a game without positive reviews */
  function LogRating(positive: nat, negative: nat, k: real): (r: real)
    requires 0.0 < k < 1.0
    ensures positive == 0 ==> r == 0.0
    ensures positive > 0 ==>
      var p := PercentPositive(positive, negative);
      (if p >= 0.5 then 0.5 <= r <= p else p <= r <= 0.5)
    ensures 0.0 <= r <= 100.0
  {
    if positive > 0 then PullTowardsHalf(PercentPositive(positive, negative), k) else 0.0
  }

  /** A larger factor, as fewer reviews give, rates a game closer to 0.5 */
  lemma LargerFactorRatesCloserToHalf(positive: nat, negative: nat, k1: real, k2: real)
    requires 0.0 < k1 <= k2 < 1.0 && positive > 0
    ensures var p := PercentPositive(positive, negative);
      (p >= 0.5 ==> 0.5 <= LogRating(positive, negative, k2) <= LogRating(positive, negative, k1)) &&
      (p < 0.5 ==> LogRating(positive, negative, k1) <= LogRating(positive, negative, k2) <= 0.5)
  {
    LargerFactorPullsHarder(PercentPositive(positive, negative), k1, k2);
  }

  /** df = df[df['total_reviews'] > 24] */
  function KeepReviewed(games: seq<Game>): (kept: seq<Game>)
    ensures forall i :: 0 <= i < |kept| ==> TotalReviews(kept[i]) > 24 && kept[i] in games
    ensures forall i :: 0 <= i < |games| && TotalReviews(games[i]) > 24 ==> games[i] in kept
    ensures IsSubsequence(kept, games)
    ensures forall g :: multiset(kept)[g] == if TotalReviews(g) > 24 then multiset(games)[g] else 0
  {
    FilterIsSubsequence(games, g => TotalReviews(g) > 24);
    FilterCount(games, g => TotalReviews(g) > 24);
    Filter(games, g => TotalReviews(g) > 24)
  }

  // ---------------------------------------------------------------------
  // Vocabularies

  /** addToList: text.splitlines() */
  function AddToList(text: string): (labels: seq<string>)
    ensures forall i :: 0 <= i < |labels| ==> NoLineBreak(labels[i])
  {
    SplitLines(text)
  }

  /** set(df.columns) of the genre, theme or review table: the one-hot
      columns plus the 'appID' and 'name' columns copied in first */
  function ColumnSet(labels: set<string>): (columns: set<string>)
    ensures "appID" in columns && "name" in columns && labels <= columns
    ensures forall c :: c in columns ==> c in labels || c == "appID" || c == "name"
  {
    {"appID", "name"} + labels
  }

  // ---------------------------------------------------------------------
  // Tag extraction

  /** ' replaced by \' (Python's escape inside a single-quoted repr) */
  function EscapeQuotes(k: string): string
  {
    if |k| == 0 then ""
    else (if k[0] == '\'' then "\\'" else [k[0]]) + EscapeQuotes(k[1..])
  }

  lemma {:induction false} EscapeQuotesPlain(k: string)
    requires NoQuote(k)
    ensures EscapeQuotes(k) == k
  {
    if |k| > 0 {
      EscapeQuotesPlain(k[1..]);
      assert k == [k[0]] + k[1..];
    }
  }

  /** repr() of a str key: double quotes when the key holds ' but no ",
      otherwise single quotes with ' escaped */
  function QuoteKey(k: string): (quoted: string)
    ensures |quoted| >= 2 && quoted[0] == quoted[|quoted| - 1] && (quoted[0] == '\'' || quoted[0] == '"')
    ensures quoted[0] == '"' <==> '\'' in k && '"' !in k
    ensures NoQuote(k) ==> quoted == "'" + k + "'"
  {
    assert NoQuote(k) ==> EscapeQuotes(k) == k by {
      if NoQuote(k) {
        EscapeQuotesPlain(k);
      }
    }
    if '\'' in k && '"' !in k then "\"" + k + "\"" else "'" + EscapeQuotes(k) + "'"
  }

  function Entries(counts: seq<(string, nat)>): (entries: seq<string>)
    ensures |entries| == |counts|
  {
    if |counts| == 0 then []
    else [QuoteKey(counts[0].0) + ": " + Show(counts[0].1)] + Entries(counts[1..])
  }

  /** str(tag) for a {tag: count} dict */
  function DictText(counts: seq<(string, nat)>): (text: string)
    ensures |text| >= 2 && text[0] == '{' && text[|text| - 1] == '}'
    ensures |counts| == 0 ==> text == "{}"
  {
    "{" + Join(Entries(counts)) + "}"
  }

  function Keys(counts: seq<(string, nat)>): (keys: seq<string>)
    ensures |keys| == |counts| && forall i :: 0 <= i < |counts| ==> keys[i] == counts[i].0
  {
    if |counts| == 0 then [] else [counts[0].0] + Keys(counts[1..])
  }

  predicate PlainKeys(counts: seq<(string, nat)>)
  {
    forall i :: 0 <= i < |counts| ==> |counts[i].0| > 0 && NoQuote(counts[i].0)
  }

  /** processTags together with the apply on line 349: the quoted runs of a
      string or of str(dict); anything else gives no tags */
  function ProcessTags(t: TagValue): (tags: seq<string>)
    ensures forall i :: 0 <= i < |tags| ==> |tags[i]| > 0 && NoQuote(tags[i])
    ensures t.OtherTags? ==> tags == []
  {
    match t
    case TagText(s) => FindQuoted(s)
    case TagCounts(counts) => FindQuoted(DictText(counts))
    case OtherTags => []
  }

  /** One "'key': count" entry contributes its key */
  lemma FindQuotedEntry(k: string, v: nat, rest: string)
    requires |k| > 0 && NoQuote(k)
    ensures FindQuoted(QuoteKey(k) + ": " + Show(v) + rest) == [k] + FindQuoted(rest)
  {
    EscapeQuotesPlain(k);
    var tail := ": " + Show(v);
    assert NoQuote(tail) by {
      assert forall i :: 0 <= i < |Show(v)| ==> IsDigit(Show(v)[i]);
    }
    assert QuoteKey(k) + ": " + Show(v) + rest == "'" + k + "'" + (tail + rest);
    FindQuotedItem(k, tail + rest);
    FindQuotedSkips(tail, rest);
  }

  lemma JoinEntriesCons(counts: seq<(string, nat)>)
    requires |counts| > 1
    ensures Join(Entries(counts)) + "}" ==
      QuoteKey(counts[0].0) + ": " + Show(counts[0].1) + (Sep + (Join(Entries(counts[1..])) + "}"))
  {
    var e := Entries(counts);
    var x := QuoteKey(counts[0].0) + ": " + Show(counts[0].1);
    var tail := Entries(counts[1..]);
    assert e == [x] + tail;
    assert e[1..] == tail;
    var j := Join(tail);
    assert Join(e) == x + Sep + j;
    Associative(x, Sep, j);
    Associative(x, Sep + j, "}");
    Associative(Sep, j, "}");
  }


  lemma {:induction false} FindQuotedEntries(counts: seq<(string, nat)>)
    requires PlainKeys(counts)
    ensures FindQuoted(Join(Entries(counts)) + "}") == Keys(counts)
  {
    if |counts| == 0 {
      FindQuotedSkips("}", "");
      assert "}" + "" == "}";
    } else {
      var k, v := counts[0].0, counts[0].1;
      var e := Entries(counts);
      assert e[0] == QuoteKey(k) + ": " + Show(v);
      if |counts| == 1 {
        assert Join(e) + "}" == QuoteKey(k) + ": " + Show(v) + "}";
        FindQuotedEntry(k, v, "}");
        FindQuotedSkips("}", "");
        assert "}" + "" == "}";
      } else {
        var rest := Join(Entries(counts[1..])) + "}";
        JoinEntriesCons(counts);
        FindQuotedEntry(k, v, Sep + rest);
        FindQuotedSkips(Sep, rest);
        FindQuotedEntries(counts[1..]);
      }
    }
  }

  /** For a dict whose keys are non-empty and hold no ', the extraction
      gives exactly the keys, in order */
  lemma ProcessTagsDictKeys(counts: seq<(string, nat)>)
    requires PlainKeys(counts)
    ensures ProcessTags(TagCounts(counts)) == Keys(counts)
  {
    var body := Join(Entries(counts)) + "}";
    assert DictText(counts) == "{" + body;
    FindQuotedSkips("{", body);
    FindQuotedEntries(counts);
  }

  /** str(items) for a list of str */
  function ListText(items: seq<string>): string
  {
    "[" + Join(QuoteAll(items)) + "]"
  }

  function QuoteAll(items: seq<string>): (quoted: seq<string>)
    ensures |quoted| == |items| && forall i :: 0 <= i < |items| ==> quoted[i] == QuoteKey(items[i])
  {
    seq(|items|, i requires 0 <= i < |items| => QuoteKey(items[i]))
  }

  predicate PlainItems(items: seq<string>)
  {
    forall i :: 0 <= i < |items| ==> |items[i]| > 0 && NoQuote(items[i])
  }

  lemma JoinQuotedCons(items: seq<string>)
    requires |items| > 1
    ensures Join(QuoteAll(items)) + "]" == QuoteKey(items[0]) + (Sep + (Join(QuoteAll(items[1..])) + "]"))
  {
    var q := QuoteAll(items);
    var tail := QuoteAll(items[1..]);
    assert q[1..] == tail;
    var j := Join(tail);
    assert Join(q) == QuoteKey(items[0]) + Sep + j;
    Associative(QuoteKey(items[0]), Sep, j);
    Associative(QuoteKey(items[0]), Sep + j, "]");
    Associative(Sep, j, "]");
  }

  lemma {:induction false} FindQuotedList(items: seq<string>)
    requires PlainItems(items)
    ensures FindQuoted(Join(QuoteAll(items)) + "]") == items
  {
    if |items| == 0 {
      FindQuotedSkips("]", "");
      assert "]" + "" == "]";
    } else {
      var x := items[0];
      EscapeQuotesPlain(x);
      assert QuoteKey(x) == "'" + x + "'";
      if |items| == 1 {
        assert Join(QuoteAll(items)) + "]" == "'" + x + "'" + "]";
        FindQuotedItem(x, "]");
        FindQuotedSkips("]", "");
        assert "]" + "" == "]";
      } else {
        var rest := Join(QuoteAll(items[1..])) + "]";
        JoinQuotedCons(items);
        FindQuotedItem(x, Sep + rest);
        FindQuotedSkips(Sep, rest);
        FindQuotedList(items[1..]);
        assert items == [x] + items[1..];
      }
    }
  }

  /** For the string form of a list of tags without ', the extraction gives
      the list back */
  lemma ProcessTagsListText(items: seq<string>)
    requires PlainItems(items)
    ensures ProcessTags(TagText(ListText(items))) == items
  {
    var body := Join(QuoteAll(items)) + "]";
    assert ListText(items) == "[" + body;
    FindQuotedSkips("[", body);
    FindQuotedList(items);
  }

  /** A label holding an apostrophe never comes out of processTags, whatever
      the tag value: "Beat 'em up" and "Shoot 'Em Up" are lost */
  lemma ApostropheLabelNeverExtracted(t: TagValue, lbl: string)
    requires '\'' in lbl
    ensures lbl !in ProcessTags(t)
  {
  }

  /** A dict with one key holding a single apostrophe (and no double quote),
      such as "Beat 'em up": processTags finds no tag at all, while the
      key-based extraction finds the key */
  lemma SingleApostropheKeyLost(before: string, after: string, v: nat)
    requires NoQuote(before) && NoQuote(after)
    requires '"' !in before && '"' !in after
    ensures ProcessTags(TagCounts([(before + "'" + after, v)])) == []
    ensures ExtractTags(TagCounts([(before + "'" + after, v)])) == [before + "'" + after]
  {
    var k := before + "'" + after;
    assert k[|before|] == '\'';
    assert QuoteKey(k) == "\"" + k + "\"";
    var tail := after + "\": " + Show(v) + "}";
    assert NoQuote(tail) by {
      assert forall i :: 0 <= i < |Show(v)| ==> IsDigit(Show(v)[i]);
    }
    var e := Entries([(k, v)]);
    assert e == [QuoteKey(k) + ": " + Show(v)];
    assert DictText([(k, v)]) == ("{\"" + before) + ("'" + tail);
    FindQuotedSkips("{\"" + before, "'" + tail);
    FindQuotedLoneQuote(tail);
  }

  /** The "Beat 'em up" tag (line 173) is dropped from a dict of tags */
  lemma BeatEmUpLost()
    ensures ProcessTags(TagCounts([("Beat 'em up", 3)])) == []
  {
    SingleApostropheKeyLost("Beat ", "em up", 3);
    assert "Beat " + "'" + "em up" == "Beat 'em up";
  }

  /** Tag extraction as the comment above processTags describes it: the
      keys of the dict; strings and other values as before */
  function ExtractTags(t: TagValue): (tags: seq<string>)
    ensures t.TagCounts? ==> |tags| == |t.counts| && forall i :: 0 <= i < |tags| ==> tags[i] == t.counts[i].0
    ensures !t.TagCounts? ==> tags == ProcessTags(t)
  {
    match t
    case TagCounts(counts) => Keys(counts)
    case _ => ProcessTags(t)
  }

  /** Where processTags already worked, the corrected extraction agrees */
  lemma ExtractTagsAgrees(t: TagValue)
    requires t.TagCounts? ==> PlainKeys(t.counts)
    ensures ExtractTags(t) == ProcessTags(t)
  {
    if t.TagCounts? {
      ProcessTagsDictKeys(t.counts);
    }
  }

  /** df['tags'] after line 349, as written */
  function ProcessedTagColumn(games: seq<Game>): (column: seq<seq<string>>)
    ensures |column| == |games|
    ensures forall i, j :: 0 <= i < |games| && 0 <= j < |column[i]| ==> NoQuote(column[i][j])
    ensures forall i :: 0 <= i < |games| && games[i].tags.OtherTags? ==> column[i] == []
  {
    seq(|games|, i requires 0 <= i < |games| => ProcessTags(games[i].tags))
  }

  /** The two tag columns agree wherever processTags was right */
  lemma TagColumnsAgree(games: seq<Game>)
    requires forall i :: 0 <= i < |games| && games[i].tags.TagCounts? ==> PlainKeys(games[i].tags.counts)
    ensures ProcessedTagColumn(games) == TagColumn(games)
  {
    forall i | 0 <= i < |games|
      ensures ProcessedTagColumn(games)[i] == TagColumn(games)[i]
    {
      ExtractTagsAgrees(games[i].tags);
    }
  }

  /** df['tags'] after line 349, with the corrected extraction */
  function TagColumn(games: seq<Game>): (column: seq<seq<string>>)
    ensures |column| == |games|
    ensures forall i :: 0 <= i < |games| ==> column[i] == ExtractTags(games[i].tags)
  {
    seq(|games|, i requires 0 <= i < |games| => ExtractTags(games[i].tags))
  }

  // ---------------------------------------------------------------------
  // One-hot encoding of themes and genres

  /** One boolean column per label: the entry for a game is true exactly when
      the label equals one of that game's tags */
  method EncodeColumns(tagLists: seq<seq<string>>, labels: seq<string>) returns (columns: map<string, seq<bool>>)
    ensures columns.Keys == set l | l in labels
    ensures forall l :: l in columns ==> |columns[l]| == |tagLists|
    ensures forall l, g :: l in columns && 0 <= g < |tagLists| ==>
      (columns[l][g] <==> l in tagLists[g])
  {
    columns := map[];
    var i := 0;
    while i < |labels|
      invariant 0 <= i <= |labels|
      invariant columns.Keys == set l | l in labels[..i]
      invariant forall l :: l in columns ==> |columns[l]| == |tagLists|
      invariant forall l, g :: l in columns && 0 <= g < |tagLists| ==> (columns[l][g] <==> l in tagLists[g])
    {
      var lbl := labels[i];
      columns := columns[lbl := seq(|tagLists|, g requires 0 <= g < |tagLists| => lbl in tagLists[g])];
      assert labels[..i + 1] == labels[..i] + [lbl];
      i := i + 1;
    }
    assert labels[..i] == labels;
  }

  /** oneHotEncoding: the theme columns of df_themes, then the genre columns
      of df_genres */
  method OneHotEncoding(tagLists: seq<seq<string>>, themeList: seq<string>, genreList: seq<string>)
    returns (themeColumns: map<string, seq<bool>>, genreColumns: map<string, seq<bool>>)
    ensures themeColumns.Keys == (set l | l in themeList) && genreColumns.Keys == (set l | l in genreList)
    ensures forall l, g :: l in themeColumns && 0 <= g < |tagLists| ==>
      |themeColumns[l]| == |tagLists| && (themeColumns[l][g] <==> l in tagLists[g])
    ensures forall l, g :: l in genreColumns && 0 <= g < |tagLists| ==>
      |genreColumns[l]| == |tagLists| && (genreColumns[l][g] <==> l in tagLists[g])
  {
    themeColumns := EncodeColumns(tagLists, themeList);
    genreColumns := EncodeColumns(tagLists, genreList);
  }

  // ---------------------------------------------------------------------
  // Review-score bins

  const Edges: seq<real> := [0.0, 5.0, 10.0, 15.0, 20.0, 25.0, 30.0, 35.0, 40.0, 45.0, 50.0,
                             55.0, 60.0, 65.0, 70.0, 75.0, 80.0, 85.0, 90.0, 95.0, 100.0]

  const BinLabels: seq<string> := ["0-5", "5-10", "10-15", "15-20", "20-25", "25-30", "30-35", "35-40", "40-45",
                                   "45-50", "50-55", "55-60", "60-65", "65-70", "70-75", "75-80", "80-85", "85-90",
                                   "90-95", "95-100"]

  const BinCount: nat := 20

  lemma EdgesAreMultiplesOfFive()
    ensures |Edges| == BinCount + 1 && forall i :: 0 <= i < |Edges| ==> Edges[i] == 5.0 * i as real
  {
    assert Edges == seq(21, i => 5.0 * i as real);
  }

  /** Index of the first edge, from the second on, that is at least x (what
      searchsorted does; starting at the second edge is include_lowest) */
  function FirstEdgeAtLeast(x: real, i: nat): (j: nat)
    requires 1 <= i < |Edges|
    ensures i <= j < |Edges|
    decreases |Edges| - i
  {
    if i == |Edges| - 1 || x <= Edges[i] then i else FirstEdgeAtLeast(x, i + 1)
  }

  /** pd.cut(x, bins=Edges, labels=BinLabels, right=True, include_lowest=True),
      as the index of the label; None is pandas' NaN for x outside [0, 100] */
  function ReviewBin(x: real): (bin: Option<nat>)
    ensures bin.Some? ==> bin.value < BinCount
  {
    if x < Edges[0] || x > Edges[|Edges| - 1] then None
    else Some(FirstEdgeAtLeast(x, 1) - 1)
  }

  /** Bin k covers [0, 5] when k is 0, and (5k, 5k + 5] otherwise */
  predicate InBin(x: real, k: nat)
  {
    k < BinCount &&
    if k == 0 then 0.0 <= x <= 5.0 else 5.0 * k as real < x <= 5.0 * k as real + 5.0
  }

  lemma {:induction false} FirstEdgeAtLeastSpec(x: real, i: nat)
    requires 1 <= i < |Edges| && x <= 100.0
    requires i == 1 || 5.0 * (i - 1) as real < x
    ensures var j := FirstEdgeAtLeast(x, i); (j == 1 || 5.0 * (j - 1) as real < x) && x <= 5.0 * j as real
    decreases |Edges| - i
  {
    EdgesAreMultiplesOfFive();
    if !(i == |Edges| - 1 || x <= Edges[i]) {
      FirstEdgeAtLeastSpec(x, i + 1);
    }
  }

  /** Each score in [0, 100] lies in exactly one bin, the one pd.cut picks;
      scores outside [0, 100] get none */
  lemma ReviewBinSpec(x: real, k: nat)
    ensures ReviewBin(x) == Some(k) <==> InBin(x, k)
    ensures ReviewBin(x).None? <==> x < 0.0 || x > 100.0
  {
    EdgesAreMultiplesOfFive();
    if 0.0 <= x <= 100.0 {
      FirstEdgeAtLeastSpec(x, 1);
      var b := ReviewBin(x).value;
      assert InBin(x, b);
    }
  }

  lemma ShowOneDigit(n: nat)
    requires n < 10
    ensures Show(n) == [DigitChar(n)]
  {
  }

  lemma ShowTwoDigits(n: nat)
    requires 10 <= n < 100
    ensures Show(n) == [DigitChar(n / 10), DigitChar(n % 10)]
  {
    ShowOneDigit(n / 10);
  }

  lemma TwoDigitLabel(lo: nat, hi: nat, text: string)
    requires 10 <= lo < 100 && 10 <= hi < 100
    requires text == [DigitChar(lo / 10), DigitChar(lo % 10), '-', DigitChar(hi / 10), DigitChar(hi % 10)]
    ensures text == Show(lo) + "-" + Show(hi)
  {
    ShowTwoDigits(lo);
    ShowTwoDigits(hi);
  }

  lemma BinLabelsLower(k: nat)
    requires 2 <= k < 11
    ensures BinLabels[k] == Show(5 * k) + "-" + Show(5 * k + 5)
  {
    TwoDigitLabel(5 * k, 5 * k + 5, BinLabels[k]);
  }

  lemma BinLabelsUpper(k: nat)
    requires 11 <= k < 19
    ensures BinLabels[k] == Show(5 * k) + "-" + Show(5 * k + 5)
  {
    TwoDigitLabel(5 * k, 5 * k + 5, BinLabels[k]);
  }

  lemma BinLabelsOuter(k: nat)
    requires k < 2 || k == 19
    ensures BinLabels[k] == Show(5 * k) + "-" + Show(5 * k + 5)
  {
    if k == 0 {
      ShowOneDigit(0);
      ShowOneDigit(5);
    } else if k == 1 {
      ShowOneDigit(5);
      ShowTwoDigits(10);
    } else {
      ShowTwoDigits(95);
      ShowTwoDigits(10);
      ShowOneDigit(0);
      assert Show(100) == Show(10) + [DigitChar(0)];
    }
  }

  /** The literal labels are the bin edges written as "low-high" */
  lemma BinLabelShape(k: nat)
    requires k < BinCount
    ensures BinLabels[k] == Show(5 * k) + "-" + Show(5 * k + 5)
  {
    if k < 2 || k == 19 {
      BinLabelsOuter(k);
    } else if k < 11 {
      BinLabelsLower(k);
    } else {
      BinLabelsUpper(k);
    }
  }

  const BinPrefix: string := "review_bin_"

  /** The df_reviews column of bin k (pd.get_dummies prefixes the column name) */
  function BinItem(k: nat): (item: string)
    requires k < BinCount
    ensures |item| > |BinPrefix| && item[..|BinPrefix|] == BinPrefix
    ensures item[|BinPrefix|..] == Show(5 * k) + "-" + Show(5 * k + 5)
  {
    BinLabelShape(k);
    BinPrefix + BinLabels[k]
  }

  lemma BinItemInjective(k: nat, m: nat)
    requires k < BinCount && m < BinCount && BinItem(k) == BinItem(m)
    ensures k == m
  {
    var a, b := BinItem(k)[|BinPrefix|..], BinItem(m)[|BinPrefix|..];
    var sk, sm := Show(5 * k), Show(5 * k + 5);
    MatchRangeOf(Show(5 * k), Show(5 * k + 5), "");
    MatchRangeOf(Show(5 * m), Show(5 * m + 5), "");
    assert Show(5 * k) + "-" + Show(5 * k + 5) + "" == a;
    assert Show(5 * m) + "-" + Show(5 * m + 5) + "" == b;
    assert a[..|Show(5 * k)|] == Show(5 * k);
    assert b[..|Show(5 * m)|] == Show(5 * m);
  }

  /** Every review-bin column name */
  function BinItems(): (items: set<string>)
    ensures forall k :: 0 <= k < BinCount ==> BinItem(k) in items
    ensures forall x :: x in items ==> exists k :: 0 <= k < BinCount && x == BinItem(k)
  {
    set k: nat | k < BinCount :: BinItem(k)
  }

  /** set(df_reviews.columns) */
  function ReviewColumns(): set<string>
  {
    ColumnSet(BinItems())
  }

  // ---------------------------------------------------------------------
  // Transactions

  /** The items of a game's row in df_final: its genres, its themes and its
      review bin */
  function TransactionItems(tags: seq<string>, genreList: seq<string>, themeList: seq<string>, logRating: real): (items: set<string>)
    ensures forall l :: l in tags && (l in genreList || l in themeList) ==> l in items
    ensures forall l :: l in items && l !in BinItems() ==> l in tags && (l in genreList || l in themeList)
    ensures forall k :: ReviewBin(logRating) == Some(k) ==> BinItem(k) in items
    ensures ReviewBin(logRating).None? ==> forall l :: l in items ==> l in tags
  {
    (set l | l in genreList && l in tags) + (set l | l in themeList && l in tags) +
    (match ReviewBin(logRating) case Some(k) => {BinItem(k)} case None => {})
  }

  /** A game with a score in [0, 100] carries exactly one review-bin item, the
      one for its score's bin, when no vocabulary label is a review-bin name */
  lemma OneReviewBinPerTransaction(tags: seq<string>, genreList: seq<string>, themeList: seq<string>, logRating: real, k: nat)
    requires forall l :: l in genreList || l in themeList ==> l !in BinItems()
    requires InBin(logRating, k)
    ensures TransactionItems(tags, genreList, themeList, logRating) * BinItems() == {BinItem(k)}
  {
    ReviewBinSpec(logRating, k);
  }

  /** The rows of df_final for the given games and their tag lists; the
      factor of a game with n reviews is shrink(n) */
  function Transactions(kept: seq<Game>, tagLists: seq<seq<string>>, genreList: seq<string>, themeList: seq<string>,
                        shrink: nat -> real): (table: seq<set<string>>)
    requires |tagLists| == |kept|
    requires forall n :: 0.0 < shrink(n) < 1.0
    ensures |table| == |kept|
    ensures forall i :: 0 <= i < |table| ==>
      table[i] == TransactionItems(tagLists[i], genreList, themeList,
                                   LogRating(kept[i].positive, kept[i].negative, shrink(TotalReviews(kept[i]))))
  {
    seq(|kept|, i requires 0 <= i < |kept| =>
      TransactionItems(tagLists[i], genreList, themeList,
                       LogRating(kept[i].positive, kept[i].negative, shrink(TotalReviews(kept[i])))))
  }

  /** df_final as written: one transaction per game that passes the
      25-review cut, from the tags processTags extracted */
  function TransactionTable(games: seq<Game>, genreList: seq<string>, themeList: seq<string>,
                            shrink: nat -> real): (table: seq<set<string>>)
    requires forall n :: 0.0 < shrink(n) < 1.0
    ensures |table| == |KeepReviewed(games)|
    ensures forall i :: 0 <= i < |table| ==>
      var g := KeepReviewed(games)[i];
      table[i] == TransactionItems(ProcessTags(g.tags), genreList, themeList,
                                   LogRating(g.positive, g.negative, shrink(TotalReviews(g))))
  {
    var kept := KeepReviewed(games);
    Transactions(kept, ProcessedTagColumn(kept), genreList, themeList, shrink)
  }

  /** df_final with the corrected tag extraction */
  function CorrectedTransactionTable(games: seq<Game>, genreList: seq<string>, themeList: seq<string>,
                                     shrink: nat -> real): (table: seq<set<string>>)
    requires forall n :: 0.0 < shrink(n) < 1.0
    ensures |table| == |KeepReviewed(games)|
    ensures forall i :: 0 <= i < |table| ==>
      var g := KeepReviewed(games)[i];
      table[i] == TransactionItems(ExtractTags(g.tags), genreList, themeList,
                                   LogRating(g.positive, g.negative, shrink(TotalReviews(g))))
  {
    var kept := KeepReviewed(games);
    Transactions(kept, TagColumn(kept), genreList, themeList, shrink)
  }

  /** In the table as written, a label with an apostrophe never appears
      among a game's items, whatever the game's tags */
  lemma ApostropheLabelNeverInTransactions(games: seq<Game>, genreList: seq<string>, themeList: seq<string>,
                                           shrink: nat -> real, lbl: string, i: nat)
    requires forall n :: 0.0 < shrink(n) < 1.0
    requires '\'' in lbl && i < |KeepReviewed(games)|
    ensures lbl in TransactionTable(games, genreList, themeList, shrink)[i] ==> lbl in BinItems()
  {
    ApostropheLabelNeverExtracted(KeepReviewed(games)[i].tags, lbl);
  }

  /** Where every tag dict has keys free of apostrophes, the table as written
      and the corrected one coincide */
  lemma TransactionTablesAgree(games: seq<Game>, genreList: seq<string>, themeList: seq<string>, shrink: nat -> real)
    requires forall n :: 0.0 < shrink(n) < 1.0
    requires forall i :: 0 <= i < |games| && games[i].tags.TagCounts? ==> PlainKeys(games[i].tags.counts)
    ensures TransactionTable(games, genreList, themeList, shrink) == CorrectedTransactionTable(games, genreList, themeList, shrink)
  {
    var kept := KeepReviewed(games);
    forall i | 0 <= i < |kept| && kept[i].tags.TagCounts?
      ensures PlainKeys(kept[i].tags.counts)
    {
      var j :| 0 <= j < |games| && games[j] == kept[i];
    }
    TagColumnsAgree(kept);
  }

  /** Every transaction holds exactly one review-bin item, the bin of its
      game's log rating (which always lies in [0, 100]), whatever the tag
      lists are: so in the table as written and in the corrected one */
  lemma EveryTransactionHasOneBin(kept: seq<Game>, tagLists: seq<seq<string>>, genreList: seq<string>,
                                  themeList: seq<string>, shrink: nat -> real, i: nat)
    requires |tagLists| == |kept| && forall n :: 0.0 < shrink(n) < 1.0
    requires forall l :: l in genreList || l in themeList ==> l !in BinItems()
    requires i < |kept|
    ensures var x := LogRating(kept[i].positive, kept[i].negative, shrink(TotalReviews(kept[i])));
      ReviewBin(x).Some? &&
      Transactions(kept, tagLists, genreList, themeList, shrink)[i] * BinItems() == {BinItem(ReviewBin(x).value)}
  {
    var x := LogRating(kept[i].positive, kept[i].negative, shrink(TotalReviews(kept[i])));
    ReviewBinSpec(x, 0);
    var k := ReviewBin(x).value;
    ReviewBinSpec(x, k);
    OneReviewBinPerTransaction(tagLists[i], genreList, themeList, x, k);
  }

  // ---------------------------------------------------------------------
  // Rules

  /** A row of the rules table. The mined columns (item sets, support,
      confidence, lift) come from the miner; occurrences is the column
      visualise.py derives from support; the two string columns are filled
      in by AddStringColumns. */
  datatype Rule = Rule(antecedents: set<string>, consequents: set<string>,
                       support: real, confidence: real, lift: real, occurrences: real,
                       antecedentsStr: string, consequentsStr: string)

  /** ', '.join(sorted(list(items))) */
  function RenderItems(items: set<string>): (s: string)
    ensures items != {} && (forall x :: x in items ==> !HasSep(x)) ==>
      StrictlySorted(Split(s)) && forall x :: x in Split(s) <==> x in items
    ensures items == {} ==> s == ""
  {
    SortedElemsSpec(items);
    var xs := SortedElems(items);
    assert items != {} && (forall x :: x in items ==> !HasSep(x)) ==> Split(Join(xs)) == xs by {
      if items != {} && (forall x :: x in items ==> !HasSep(x)) {
        assert forall k :: 0 <= k < |xs| ==> xs[k] in items;
        SplitJoin(xs);
      }
    }
    Join(xs)
  }

  /** The antecedents_str and consequents_str columns */
  function AddStringColumns(r: Rule): (out: Rule)
    ensures out.antecedents == r.antecedents && out.consequents == r.consequents
    ensures out.support == r.support && out.confidence == r.confidence && out.lift == r.lift
    ensures out.occurrences == r.occurrences
    ensures out.antecedentsStr == RenderItems(r.antecedents) && out.consequentsStr == RenderItems(r.consequents)
  {
    r.(antecedentsStr := RenderItems(r.antecedents), consequentsStr := RenderItems(r.consequents))
  }

  /** contains_review */
  predicate ContainsReview(r: Rule, reviews: set<string>)
    ensures ContainsReview(r, reviews) <==> exists x :: x in r.antecedents && x in reviews
  {
    assert (exists x :: x in r.antecedents && x in reviews) ==> |r.antecedents * reviews| > 0 by {
      if x :| x in r.antecedents && x in reviews {
        assert x in r.antecedents * reviews;
      }
    }
    |r.antecedents * reviews| > 0
  }

  /** rules = rules[rules.apply(contains_review, axis=1)] */
  function KeepReviewRules(rules: seq<Rule>, reviews: set<string>): (kept: seq<Rule>)
    ensures forall i :: 0 <= i < |kept| ==> kept[i] in rules && exists x :: x in kept[i].antecedents && x in reviews
    ensures forall i :: 0 <= i < |rules| && (exists x :: x in rules[i].antecedents && x in reviews) ==> rules[i] in kept
    ensures IsSubsequence(kept, rules)
    ensures forall r :: multiset(kept)[r] == if ContainsReview(r, reviews) then multiset(rules)[r] else 0
  {
    FilterIsSubsequence(rules, r => ContainsReview(r, reviews));
    FilterCount(rules, r => ContainsReview(r, reviews));
    Filter(rules, r => ContainsReview(r, reviews))
  }

  /** The rules table after lines 441-442 */
  function RenderRules(mined: seq<Rule>): (rendered: seq<Rule>)
    ensures |rendered| == |mined| && forall i :: 0 <= i < |mined| ==> rendered[i] == AddStringColumns(mined[i])
  {
    seq(|mined|, i requires 0 <= i < |mined| => AddStringColumns(mined[i]))
  }

  /** Lines 441-477: render both item sets, then keep the rules with a
      review-table column in the antecedent, in their mined order */
  function PostProcessRules(mined: seq<Rule>): (rules: seq<Rule>)
    ensures IsSubsequence(rules, RenderRules(mined))
    ensures forall i :: 0 <= i < |rules| ==> rules[i] in RenderRules(mined)
    ensures forall i :: 0 <= i < |rules| ==> exists x :: x in rules[i].antecedents && x in ReviewColumns()
    ensures forall i :: 0 <= i < |mined| && (exists x :: x in mined[i].antecedents && x in ReviewColumns()) ==>
      RenderRules(mined)[i] in rules
    ensures forall r :: multiset(rules)[r] == if ContainsReview(r, ReviewColumns()) then multiset(RenderRules(mined))[r] else 0
  {
    var rendered := RenderRules(mined);
    var reviews := ReviewColumns();
    var kept := KeepReviewRules(rendered, reviews);
    assert forall i :: 0 <= i < |mined| ==> rendered[i].antecedents == mined[i].antecedents;
    kept
  }
}
