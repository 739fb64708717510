/**
 * The logic of the search-results view: `highlightText`, which splits a
 * text around the case-insensitive occurrences of the query and marks
 * them, and the choice between the empty state and the counted list.
 */
module SearchResults {
  import opened Wrappers
  import opened JsStrings
  import TextSafety

  /** A piece of rendered text: plain, or wrapped in a highlight mark. */
  datatype Segment = Plain(text: string) | Marked(text: string)

  /** Case-insensitive literal occurrence of `query` in `text` at index `i`. */
  predicate MatchesAt(text: string, query: string, i: int) {
    0 <= i && i + |query| <= |text| && EqualsIgnoreCase(text[i..i + |query|], query)
  }

  /** A query that the pattern `(${query})` reads literally: no regular-expression metacharacter. */
  predicate IsLiteralQuery(query: string) {
    forall i :: 0 <= i < |query| ==> !TextSafety.IsRegexMeta(query[i])
  }

  /**
   * `text.split(new RegExp(`(${query})`, 'gi'))` for a literal, non-empty
   * query: scanning from `i`, with the current plain piece open since
   * `start`, each leftmost match closes the piece and is itself kept, as
   * the capturing group asks.
   */
  function SplitFrom(text: string, query: string, start: nat, i: nat): (parts: seq<string>)
    requires query != [] && start <= i <= |text|
    ensures |parts| % 2 == 1
    decreases |text| - i
  {
    if MatchesAt(text, query, i) then
      [text[start..i], text[i..i + |query|]] + SplitFrom(text, query, i + |query|, i + |query|)
    else if i == |text| then [text[start..]]
    else SplitFrom(text, query, start, i + 1)
  }

  function SplitIgnoringCase(text: string, query: string): seq<string>
    requires query != []
  {
    SplitFrom(text, query, 0, 0)
  }

  /** `highlightText(text, query)`: the pieces of the split, each marked when it equals the query ignoring case. */
  function HighlightText(text: string, query: string): (r: seq<Segment>)
    requires IsLiteralQuery(query)
    ensures query != "" ==> |r| == |SplitIgnoringCase(text, query)|
    ensures |r| % 2 == 1
    ensures forall k :: 0 <= k < |r| && r[k].Marked? ==> query != "" && EqualsIgnoreCase(r[k].text, query)
  {
    if query == "" then [Plain(text)]
    else
      var parts := SplitIgnoringCase(text, query);
      seq(|parts|, k requires 0 <= k < |parts| =>
        if EqualsIgnoreCase(parts[k], query) then Marked(parts[k]) else Plain(parts[k]))
  }

  function Concat(parts: seq<string>): string {
    if parts == [] then "" else parts[0] + Concat(parts[1..])
  }

  function SegmentTexts(segments: seq<Segment>): (r: seq<string>)
    ensures |r| == |segments|
    ensures forall k :: 0 <= k < |r| ==> r[k] == segments[k].text
  {
    seq(|segments|, k requires 0 <= k < |segments| => segments[k].text)
  }

  // ---------------------------------------------------------------
  // Properties of the split
  // ---------------------------------------------------------------

  lemma ConcatPrefix(a: string, b: string, rest: seq<string>)
    ensures Concat([a, b] + rest) == a + b + Concat(rest)
  {
    var ps := [a, b] + rest;
    assert ps[1..] == [b] + rest;
    assert ([b] + rest)[1..] == rest;
  }

  /** The pieces, put back together, are the text from `start` on. */
  lemma {:induction false} SplitFromConcat(text: string, query: string, start: nat, i: nat)
    requires query != [] && start <= i <= |text|
    ensures Concat(SplitFrom(text, query, start, i)) == text[start..]
    decreases |text| - i
  {
    if MatchesAt(text, query, i) {
      var j := i + |query|;
      SplitFromConcat(text, query, j, j);
      ConcatPrefix(text[start..i], text[i..j], SplitFrom(text, query, j, j));
      assert text[start..i] + text[i..j] + text[j..] == text[start..];
    } else if i == |text| {
      assert Concat([text[start..]]) == text[start..] + Concat([]);
    } else {
      SplitFromConcat(text, query, start, i + 1);
    }
  }

  /** No occurrence of the query starts in `text[start..i]`. */
  predicate NoMatchBetween(text: string, query: string, start: int, i: int) {
    forall j :: start <= j < i ==> !MatchesAt(text, query, j)
  }

  /** A piece of `text` in which no match starts holds no occurrence of the query. */
  lemma PieceHasNoMatch(text: string, query: string, start: nat, i: nat)
    requires query != [] && start <= i <= |text|
    requires NoMatchBetween(text, query, start, i)
    ensures forall j :: !MatchesAt(text[start..i], query, j)
  {
    var piece := text[start..i];
    forall j | MatchesAt(piece, query, j)
      ensures false
    {
      assert piece[j..j + |query|] == text[start + j..start + j + |query|] by {
        forall t | j <= t < j + |query|
          ensures piece[t] == text[start + t]
        {
        }
      }
      assert MatchesAt(text, query, start + j);
    }
  }

  /**
   * The pieces alternate: there is an odd number of them; each odd-positioned
   * piece equals the query ignoring case, and no even-positioned piece holds
   * an occurrence of it.
   */
  lemma {:induction false} SplitFromShape(text: string, query: string, start: nat, i: nat)
    requires query != [] && start <= i <= |text|
    requires NoMatchBetween(text, query, start, i)
    ensures |SplitFrom(text, query, start, i)| % 2 == 1
    ensures forall k :: 0 <= k < |SplitFrom(text, query, start, i)| && k % 2 == 1 ==>
              EqualsIgnoreCase(SplitFrom(text, query, start, i)[k], query)
    ensures forall k, j :: 0 <= k < |SplitFrom(text, query, start, i)| && k % 2 == 0 ==>
              !MatchesAt(SplitFrom(text, query, start, i)[k], query, j)
    decreases |text| - i
  {
    var parts := SplitFrom(text, query, start, i);
    if MatchesAt(text, query, i) {
      var e := i + |query|;
      SplitFromShape(text, query, e, e);
      PieceHasNoMatch(text, query, start, i);
      var rest := SplitFrom(text, query, e, e);
      assert parts == [text[start..i], text[i..e]] + rest;
      forall k | 2 <= k < |parts|
        ensures parts[k] == rest[k - 2]
      {
      }
    } else if i == |text| {
      PieceHasNoMatch(text, query, start, i);
      assert text[start..i] == text[start..];
    } else {
      SplitFromShape(text, query, start, i + 1);
    }
  }

  // ---------------------------------------------------------------
  // Properties of highlightText
  // ---------------------------------------------------------------

  /** An empty query gives the text back unchanged as a single segment. */
  lemma HighlightEmptyQuery(text: string)
    ensures HighlightText(text, "") == [Plain(text)]
  {
  }

  /** Highlighting loses and adds nothing: the segments' texts concatenate to the original text. */
  lemma HighlightPreservesText(text: string, query: string)
    requires IsLiteralQuery(query)
    ensures Concat(SegmentTexts(HighlightText(text, query))) == text
  {
    if query == "" {
      assert Concat([text]) == text + Concat([]);
    } else {
      SplitFromConcat(text, query, 0, 0);
      assert SegmentTexts(HighlightText(text, query)) == SplitIgnoringCase(text, query);
    }
  }

  /**
   * For a non-empty query the segments alternate plain, marked, plain, ...:
   * a segment is marked exactly at odd positions, a marked segment equals
   * the query ignoring case, and a plain one holds no occurrence of it.
   */
  lemma HighlightAlternates(text: string, query: string)
    requires IsLiteralQuery(query) && query != ""
    ensures |HighlightText(text, query)| % 2 == 1
    ensures forall k :: 0 <= k < |HighlightText(text, query)| ==>
              (HighlightText(text, query)[k].Marked? <==> k % 2 == 1)
    ensures forall k :: 0 <= k < |HighlightText(text, query)| && HighlightText(text, query)[k].Marked? ==>
              EqualsIgnoreCase(HighlightText(text, query)[k].text, query)
    ensures forall k, j :: 0 <= k < |HighlightText(text, query)| && HighlightText(text, query)[k].Plain? ==>
              !MatchesAt(HighlightText(text, query)[k].text, query, j)
  {
    var parts := SplitIgnoringCase(text, query);
    SplitFromShape(text, query, 0, 0);
    forall k | 0 <= k < |parts| && k % 2 == 0
      ensures !EqualsIgnoreCase(parts[k], query)
    {
      if EqualsIgnoreCase(parts[k], query) {
        assert parts[k][0..|query|] == parts[k];
        assert MatchesAt(parts[k], query, 0);
      }
    }
  }

  /** The example of the advanced-features tests: "TDD" inside "Learn TDD with examples" is marked. */
  lemma HighlightExample(text: string)
    requires text == "Learn TDD with examples"
    ensures HighlightText(text, "TDD") == [Plain("Learn "), Marked("TDD"), Plain(" with examples")]
  {
    var q := "TDD";
    assert IsLiteralQuery(q);
    ExampleSplit(text, q);
    ExamplePieces(text);
    assert !EqualsIgnoreCase("Learn ", q) && !EqualsIgnoreCase(" with examples", q);
    assert EqualsIgnoreCase("TDD", q);
  }

  lemma ExamplePieces(text: string)
    requires text == "Learn TDD with examples"
    ensures text[..6] == "Learn " && text[6..9] == "TDD" && text[9..] == " with examples"
  {
  }

  /** A position whose `t`-th character differs from the query's, ignoring case, starts no match. */
  lemma NoMatchAtOther(text: string, q: string, j: int, t: nat)
    requires 0 <= j && t < |q| && j + t < |text| && LowerChar(text[j + t]) != LowerChar(q[t])
    ensures !MatchesAt(text, q, j)
  {
    if j + |q| <= |text| {
      assert text[j..j + |q|][t] == text[j + t];
      assert Lower(text[j..j + |q|])[t] == LowerChar(text[j + t]);
    }
  }

  lemma ExampleSplit(text: string, q: string)
    requires text == "Learn TDD with examples" && q == "TDD"
    ensures SplitIgnoringCase(text, q) == [text[..6], text[6..9], text[9..]]
  {
    ExampleNoMatchBefore(text, q);
    ExampleNoMatchAfter(text, q);
    assert MatchesAt(text, q, 6) by {
      assert text[6..9] == "TDD";
    }
    TailWithoutMatch(text, q, 9, 9);
    SkipNoMatch(text, q, 0, 0, 6);
    assert text[..6] == text[0..6];
  }

  lemma ExampleNoMatchBefore(text: string, q: string)
    requires text == "Learn TDD with examples" && q == "TDD"
    ensures NoMatchBetween(text, q, 0, 6)
  {
    forall j | 0 <= j < 6 ensures !MatchesAt(text, q, j) {
      NoMatchAtOther(text, q, j, 0);
    }
  }

  lemma ExampleNoMatchAfter(text: string, q: string)
    requires text == "Learn TDD with examples" && q == "TDD"
    ensures NoMatchBetween(text, q, 9, |text| + 1)
  {
    forall j | 9 <= j <= |text| ensures !MatchesAt(text, q, j) {
      if j == 12 {
        NoMatchAtOther(text, q, j, 1);
      } else if j < |text| {
        NoMatchAtOther(text, q, j, 0);
      }
    }
  }

  /** Positions without a match are skipped over. */
  lemma {:induction false} SkipNoMatch(text: string, query: string, start: nat, i: nat, m: nat)
    requires query != [] && start <= i <= m <= |text|
    requires NoMatchBetween(text, query, i, m)
    ensures SplitFrom(text, query, start, i) == SplitFrom(text, query, start, m)
    decreases m - i
  {
    if i < m {
      SkipNoMatch(text, query, start, i + 1, m);
    }
  }

  /** With no match left, the rest of the text is one piece. */
  lemma {:induction false} TailWithoutMatch(text: string, query: string, start: nat, i: nat)
    requires query != [] && start <= i <= |text|
    requires NoMatchBetween(text, query, i, |text| + 1)
    ensures SplitFrom(text, query, start, i) == [text[start..]]
    decreases |text| - i
  {
    if i < |text| {
      TailWithoutMatch(text, query, start, i + 1);
    }
  }

  // ---------------------------------------------------------------
  // The rendered list
  // ---------------------------------------------------------------

  /** One result as the list shows it. */
  datatype ResultRow = ResultRow(title: string, url: string, snippet: string, category: Option<string>)

  datatype RenderedItem = RenderedItem(url: string, category: Option<string>, title: seq<Segment>, snippet: seq<Segment>)

  datatype ResultsView =
    | EmptyState(message: string, hint: string)
    | ResultList(countLabel: string, items: seq<RenderedItem>)

  const EmptyHint: string := "Try different keywords or check your spelling"

  /** `{results.length} result{results.length !== 1 ? 's' : ''} found`. */
  function CountLabel(count: nat): (text: string)
    ensures count == 1 ==> text == "1 result found"
    ensures count != 1 ==> text == NatToString(count) + " results found"
  {
    NatToString(count) + " result" + (if count != 1 then "s" else "") + " found"
  }

  /** A field as rendered: highlighted when `highlightQuery` is set, otherwise verbatim. */
  function RenderField(text: string, query: string, highlightQuery: bool): seq<Segment>
    requires highlightQuery ==> IsLiteralQuery(query)
  {
    if highlightQuery then HighlightText(text, query) else [Plain(text)]
  }

  function RenderItem(row: ResultRow, query: string, highlightQuery: bool): (item: RenderedItem)
    requires highlightQuery ==> IsLiteralQuery(query)
    ensures item.url == row.url
    ensures item.category.Some? <==> Truthy(row.category)
    ensures item.category.Some? ==> item.category == row.category
    ensures |item.title| >= 1 && |item.snippet| >= 1
  {
    RenderedItem(row.url, OrUndefined(row.category),
      RenderField(row.title, query, highlightQuery), RenderField(row.snippet, query, highlightQuery))
  }

  /** `SearchResults`: the empty state for no results, otherwise the count label and one item per result. */
  function RenderResults(results: seq<ResultRow>, query: string, highlightQuery: bool): (view: ResultsView)
    requires highlightQuery ==> IsLiteralQuery(query)
    ensures view.EmptyState? <==> results == []
    ensures view.ResultList? ==> view.countLabel == CountLabel(|results|) && |view.items| == |results|
  {
    if |results| == 0 then EmptyState("No results found for \"" + query + "\"", EmptyHint)
    else ResultList(CountLabel(|results|),
      seq(|results|, k requires 0 <= k < |results| => RenderItem(results[k], query, highlightQuery)))
  }

  /** The empty state names the query; the label reads "result" for one result and "results" otherwise. */
  lemma RenderResultsShape(results: seq<ResultRow>, query: string, highlightQuery: bool)
    requires highlightQuery ==> IsLiteralQuery(query)
    ensures results == [] <==> RenderResults(results, query, highlightQuery).EmptyState?
    ensures results == [] ==> Contains(RenderResults(results, query, highlightQuery).message, query)
    ensures results != [] ==> |RenderResults(results, query, highlightQuery).items| == |results|
    ensures results != [] ==> forall k :: 0 <= k < |results| ==>
              RenderResults(results, query, highlightQuery).items[k] == RenderItem(results[k], query, highlightQuery)
    ensures |results| == 1 ==> RenderResults(results, query, highlightQuery).countLabel == "1 result found"
    ensures |results| > 1 ==> RenderResults(results, query, highlightQuery).countLabel
                              == NatToString(|results|) + " results found"
  {
    if results == [] {
      var msg := "No results found for \"" + query + "\"";
      var prefix := "No results found for \"";
      assert msg[|prefix|..][..|query|] == query;
      ContainsIff(msg, query);
      assert OccursAt(msg, query, |prefix|);
    }
  }

  /** Without highlighting, title and snippet pass through verbatim; with it, their text is kept. */
  lemma RenderItemFields(row: ResultRow, query: string, highlightQuery: bool)
    requires highlightQuery ==> IsLiteralQuery(query)
    ensures !highlightQuery ==> (RenderItem(row, query, highlightQuery).title == [Plain(row.title)]
                                 && RenderItem(row, query, highlightQuery).snippet == [Plain(row.snippet)])
    ensures Concat(SegmentTexts(RenderItem(row, query, highlightQuery).title)) == row.title
    ensures Concat(SegmentTexts(RenderItem(row, query, highlightQuery).snippet)) == row.snippet
  {
    if highlightQuery {
      HighlightPreservesText(row.title, query);
      HighlightPreservesText(row.snippet, query);
    } else {
      assert Concat([row.title]) == row.title + Concat([]);
      assert Concat([row.snippet]) == row.snippet + Concat([]);
    }
  }
}
