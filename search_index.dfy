/**
 * The client-side search index: a replaceable list of documents, a
 * two-tier fuzzy scorer, and ranked queries over the current list.
 * Scores are exact rationals.
 */
module SearchIndex {
  import opened Wrappers
  import opened JsStrings

  datatype SearchDocument = SearchDocument(
    title: string,
    url: string,
    snippet: Option<string>,
    content: Option<string>,
    category: Option<string>)

  datatype SearchResult = SearchResult(title: string, url: string, snippet: string, score: real)

  /** The relevance threshold a combined score must exceed. */
  const Threshold: real := 0.3

  /** The number of content characters a snippet keeps. */
  const SnippetLength: nat := 150

  function Doc(title: string, url: string, content: string, category: string): SearchDocument {
    SearchDocument(title, url, None, Some(content), Some(category))
  }

  /** The built-in documents, in declaration order. */
  const DefaultDocuments: seq<SearchDocument> := [
    Doc("Getting Started", "/docs/quick-start",
      "Learn how to get started with Everything Claude Code. Installation and setup guide.", "Quick Start"),
    Doc("Commands Overview", "/docs/core-concepts/commands",
      "All available slash commands in ECC. Plan, TDD, E2E, Code Review, and more.", "Core Concepts"),
    Doc("TDD Guide", "/docs/tutorials/tdd-masterclass",
      "Test-Driven Development masterclass. Red, green, refactor cycle explained.", "Tutorials"),
    Doc("Agents", "/docs/core-concepts/agents",
      "Understanding agents in ECC. Planner, TDD guide, E2E runner, and custom agents.", "Core Concepts"),
    Doc("Hooks", "/docs/core-concepts/hooks",
      "Automation hooks for pre and post tool execution. Custom workflow automation.", "Core Concepts")
  ]

  // ---------------------------------------------------------------
  // Scoring
  // ---------------------------------------------------------------

  /** How many characters of `query`, counted with repetition, occur somewhere in `text`. */
  function PresentCount(text: string, query: string): (n: nat)
    ensures n <= |query|
  {
    if query == [] then 0
    else PresentCount(text, query[..|query| - 1]) + (if query[|query| - 1] in text then 1 else 0)
  }

  /** The score `fuzzyMatch(text, query)` returns; it always lies between 0 and 1. */
  function FuzzyScore(text: string, query: string): (r: real)
    ensures 0.0 <= r <= 1.0
  {
    var lowerText, lowerQuery := Lower(text), Lower(query);
    if Contains(lowerText, lowerQuery) then 1.0
    else
      var n := PresentCount(lowerText, lowerQuery);
      DivAtMostOne(n as real, |lowerQuery| as real);
      n as real / |lowerQuery| as real
  }

  lemma DivAtMostOne(n: real, d: real)
    requires 0.0 <= n <= d && d > 0.0
    ensures 0.0 <= n / d <= 1.0
  {
  }

  /** `fuzzyMatch`: 1 for a case-insensitive substring, otherwise the share of query characters found in the text. */
  method FuzzyMatch(text: string, query: string) returns (score: real)
    ensures score == FuzzyScore(text, query)
  {
    var lowerText := Lower(text);
    var lowerQuery := Lower(query);
    if Contains(lowerText, lowerQuery) {
      return 1.0;
    }
    var matchCount := 0;
    for i := 0 to |lowerQuery|
      invariant matchCount == PresentCount(lowerText, lowerQuery[..i])
    {
      assert lowerQuery[..i + 1][..i] == lowerQuery[..i];
      if lowerQuery[i] in lowerText {
        matchCount := matchCount + 1;
      }
    }
    assert lowerQuery[..|lowerQuery|] == lowerQuery;
    score := matchCount as real / |lowerQuery| as real;
  }

  /** A case-insensitive substring scores 1; the empty query is a substring of every text. */
  lemma FuzzySubstring(text: string, query: string)
    requires Contains(Lower(text), Lower(query))
    ensures FuzzyScore(text, query) == 1.0
  {
  }

  /** The empty query scores 1 before any division. */
  lemma FuzzyEmptyQuery(text: string)
    ensures FuzzyScore(text, "") == 1.0
  {
    assert StartsWith(Lower(text), Lower(""));
  }

  /** Without a substring match the score is the share of query positions whose character occurs in the text. */
  lemma FuzzyRatio(text: string, query: string)
    requires !Contains(Lower(text), Lower(query))
    ensures query != []
    ensures FuzzyScore(text, query)
            == |set i | 0 <= i < |query| && LowerChar(query[i]) in Lower(text)| as real / |query| as real
  {
    var lowerText, lowerQuery := Lower(text), Lower(query);
    if query == [] {
      assert StartsWith(lowerText, lowerQuery);
    }
    PresentCountPositions(lowerText, lowerQuery);
    assert (set i | 0 <= i < |lowerQuery| && lowerQuery[i] in lowerText)
        == (set i | 0 <= i < |query| && LowerChar(query[i]) in lowerText);
  }

  /** PresentCount counts the query positions whose character occurs in the text. */
  lemma {:induction false} PresentCountPositions(text: string, query: string)
    ensures PresentCount(text, query) == |set i | 0 <= i < |query| && query[i] in text|
  {
    if query != [] {
      var n := |query| - 1;
      var init := query[..n];
      PresentCountPositions(text, init);
      var before := set i | 0 <= i < n && init[i] in text;
      var after := set i | 0 <= i < |query| && query[i] in text;
      if query[n] in text {
        assert after == before + {n};
      } else {
        assert after == before;
      }
    }
  }

  /** Characters are not consumed: "ba" scores 1 against "ab" though it is no substring of it. */
  lemma FuzzyFullWithoutSubstring()
    ensures !Contains("ab", "ba") && FuzzyScore("ab", "ba") == 1.0
  {
    assert Lower("ab") == "ab" && Lower("ba") == "ba";
    assert "ab"[..2] == "ab" && "ab"[0] != "ba"[0];
    assert !StartsWith("ab", "ba");
    assert "ab"[1..] == "b" && !StartsWith("b", "ba") && "b"[1..] == [];
    assert "ba"[..1] == "b";
    assert PresentCount("ab", "ba") == 2 by {
      assert PresentCount("ab", "b") == 1 by {
        assert "b"[..0] == [];
      }
    }
  }

  // ---------------------------------------------------------------
  // Queries
  // ---------------------------------------------------------------

  /** The combined score of a document: title weighted twice, then divided by the sum of the weights. */
  function CombinedScore(doc: SearchDocument, query: string): (r: real)
    ensures 0.0 <= r <= 1.0
  {
    var titleScore := FuzzyScore(doc.title, query) * 2.0;
    var contentScore := FuzzyScore(doc.content.GetOr(""), query);
    (titleScore + contentScore) / 3.0
  }

  /** A title containing the query clears two thirds on its own; content containing it clears one third. */
  lemma ExactMatchScore(doc: SearchDocument, query: string)
    ensures FuzzyScore(doc.title, query) == 1.0 ==> CombinedScore(doc, query) >= 2.0 / 3.0
    ensures FuzzyScore(doc.content.GetOr(""), query) == 1.0 ==> CombinedScore(doc, query) >= 1.0 / 3.0
  {
  }

  /**
   * `doc.content?.slice(0, 150) + '...' || ''`: the `+` binds tighter than `||`,
   * so the ellipsis is always appended and absent content prints as "undefined".
   */
  function Snippet(content: Option<string>): (r: string)
    ensures content.Some? && |content.value| <= SnippetLength ==> r == content.value + "..."
    ensures content.Some? && |content.value| > SnippetLength ==>
              |r| == SnippetLength + 3 && StartsWith(content.value, r[..SnippetLength])
    ensures content.None? ==> r == "undefined..."
    ensures |r| >= 3 && r[|r| - 3..] == "..."
  {
    match content
    case Some(c) => c[..if |c| < SnippetLength then |c| else SnippetLength] + "..."
    case None => "undefined" + "..."
  }

  function ResultFor(doc: SearchDocument, query: string): SearchResult {
    SearchResult(doc.title, doc.url, Snippet(doc.content), CombinedScore(doc, query))
  }

  /** The results the loop of `searchDocuments` pushes, in index order, before sorting. */
  function Candidates(docs: seq<SearchDocument>, query: string): (rs: seq<SearchResult>)
    ensures |rs| <= |docs|
    ensures forall r :: r in rs ==> r.score > Threshold
  {
    if docs == [] then []
    else Candidates(docs[..|docs| - 1], query) + Kept(docs[|docs| - 1], query)
  }

  /** What the loop pushes for one document: its result when the combined score exceeds the threshold. */
  function Kept(d: SearchDocument, query: string): seq<SearchResult> {
    if CombinedScore(d, query) > Threshold then [ResultFor(d, query)] else []
  }

  predicate SortedByScore(rs: seq<SearchResult>) {
    forall i, j :: 0 <= i < j < |rs| ==> rs[i].score >= rs[j].score
  }

  /** Inserts `r` after every result that scores at least as high, keeping the order of equal scores. */
  function InsertByScore(sorted: seq<SearchResult>, r: SearchResult): (res: seq<SearchResult>)
    ensures |res| == |sorted| + 1 && r in res
  {
    if sorted == [] then [r]
    else if sorted[|sorted| - 1].score >= r.score then sorted + [r]
    else InsertByScore(sorted[..|sorted| - 1], r) + [sorted[|sorted| - 1]]
  }

  /** Insertion adds exactly the one result. */
  lemma {:induction false} InsertByScorePermutes(sorted: seq<SearchResult>, r: SearchResult)
    ensures multiset(InsertByScore(sorted, r)) == multiset(sorted) + multiset{r}
  {
    if sorted != [] && sorted[|sorted| - 1].score < r.score {
      var init, last := sorted[..|sorted| - 1], sorted[|sorted| - 1];
      assert sorted == init + [last];
      InsertByScorePermutes(init, r);
    }
  }

  /** Insertion keeps a ranking ranked. */
  lemma {:induction false} InsertByScoreSorted(sorted: seq<SearchResult>, r: SearchResult)
    requires SortedByScore(sorted)
    ensures SortedByScore(InsertByScore(sorted, r))
  {
    if sorted != [] && sorted[|sorted| - 1].score < r.score {
      var init, last := sorted[..|sorted| - 1], sorted[|sorted| - 1];
      InsertByScoreSorted(init, r);
      var rest := InsertByScore(init, r);
      InsertByScorePermutes(init, r);
      forall x | x in rest
        ensures x.score >= last.score
      {
        assert x in multiset(rest);
        if x != r {
          assert x in multiset(init);
          var i :| 0 <= i < |init| && init[i] == x;
          assert sorted[i] == x;
        }
      }
      AppendLowest(rest, last);
    }
  }

  /** The results of `rs` that score exactly `v`, in their order in `rs`. */
  function ScoreFilter(rs: seq<SearchResult>, v: real): (tied: seq<SearchResult>)
    ensures |tied| <= |rs|
    ensures forall k :: 0 <= k < |tied| ==> tied[k].score == v
  {
    if rs == [] then []
    else ScoreFilter(rs[..|rs| - 1], v) + (if rs[|rs| - 1].score == v then [rs[|rs| - 1]] else [])
  }

  /** Insertion is stable: `r` lands after every result with the same score, and ties otherwise keep their order. */
  lemma {:induction false} InsertByScoreStable(sorted: seq<SearchResult>, r: SearchResult, v: real)
    ensures ScoreFilter(InsertByScore(sorted, r), v) == ScoreFilter(sorted, v) + (if r.score == v then [r] else [])
  {
    if sorted == [] {
      assert ScoreFilter([r], v) == ScoreFilter([], v) + (if r.score == v then [r] else []) by {
        assert [r][..0] == [];
      }
    } else if sorted[|sorted| - 1].score >= r.score {
      assert (sorted + [r])[..|sorted|] == sorted;
    } else {
      var init, last := sorted[..|sorted| - 1], sorted[|sorted| - 1];
      InsertByScoreStable(init, r, v);
      var rest := InsertByScore(init, r);
      assert (rest + [last])[..|rest|] == rest;
    }
  }

  lemma AppendLowest(rest: seq<SearchResult>, last: SearchResult)
    requires SortedByScore(rest)
    requires forall x :: x in rest ==> x.score >= last.score
    ensures SortedByScore(rest + [last])
  {
    var out := rest + [last];
    forall i, j | 0 <= i < j < |out|
      ensures out[i].score >= out[j].score
    {
      if j < |rest| {
        assert out[i] == rest[i] && out[j] == rest[j];
      } else {
        assert out[i] in rest;
      }
    }
  }

  /** `results.sort((a, b) => b.score - a.score)`: a stable sort by descending score. */
  method SortByScore(rs: seq<SearchResult>) returns (sorted: seq<SearchResult>)
    ensures SortedByScore(sorted)
    ensures multiset(sorted) == multiset(rs)
    ensures forall v :: ScoreFilter(sorted, v) == ScoreFilter(rs, v)
  {
    sorted := [];
    for i := 0 to |rs|
      invariant SortedByScore(sorted)
      invariant multiset(sorted) == multiset(rs[..i])
      invariant forall v :: ScoreFilter(sorted, v) == ScoreFilter(rs[..i], v)
    {
      assert rs[..i + 1] == rs[..i] + [rs[i]];
      assert rs[..i + 1][..i] == rs[..i];
      InsertByScoreSorted(sorted, rs[i]);
      InsertByScorePermutes(sorted, rs[i]);
      forall v
        ensures ScoreFilter(InsertByScore(sorted, rs[i]), v) == ScoreFilter(rs[..i + 1], v)
      {
        InsertByScoreStable(sorted, rs[i], v);
      }
      sorted := InsertByScore(sorted, rs[i]);
    }
    assert rs[..|rs|] == rs;
  }

  /** The body of the loop of `searchDocuments`: the two fuzzy scores combined. */
  method ScoreDocument(doc: SearchDocument, query: string) returns (combinedScore: real)
    ensures combinedScore == CombinedScore(doc, query)
  {
    var titleScore := FuzzyMatch(doc.title, query);
    titleScore := titleScore * 2.0;
    var contentScore := FuzzyMatch(doc.content.GetOr(""), query);
    combinedScore := (titleScore + contentScore) / 3.0;
  }

  /** What one iteration pushes, in terms of the score it computed. */
  lemma KeptByScore(doc: SearchDocument, query: string, combinedScore: real)
    requires combinedScore == CombinedScore(doc, query)
    ensures Kept(doc, query)
            == if combinedScore > Threshold then [SearchResult(doc.title, doc.url, Snippet(doc.content), combinedScore)] else []
  {
  }

  lemma CandidatesStep(docs: seq<SearchDocument>, k: nat, query: string)
    requires k < |docs|
    ensures Candidates(docs[..k + 1], query) == Candidates(docs[..k], query) + Kept(docs[k], query)
  {
    assert docs[..k + 1][..k] == docs[..k];
  }

  /** A query that `!query.trim()` rejects: empty or only whitespace. */
  predicate IsBlank(query: string) {
    Trim(query) == []
  }

  /** The module-level index, as an object owned by whoever composes the search feature. */
  class Index {
    var documents: seq<SearchDocument>

    /** The index before any rebuild holds the built-in documents. */
    constructor ()
      ensures documents == DefaultDocuments
    {
      documents := DefaultDocuments;
    }

    /** `buildSearchIndex(documents?)`: a given list replaces the index; either way a copy of the index is returned. */
    method BuildSearchIndex(replacement: Option<seq<SearchDocument>>) returns (copy: seq<SearchDocument>)
      modifies this
      ensures documents == (if replacement.Some? then replacement.value else old(documents))
      ensures copy == documents
    {
      if replacement.Some? {
        documents := replacement.value;
      }
      copy := documents;
    }

    /** `getAllDocuments()`. */
    method GetAllDocuments() returns (docs: seq<SearchDocument>)
      ensures docs == documents
    {
      docs := documents;
    }

    /**
     * `searchDocuments(query)`: nothing for a blank query; otherwise every
     * document whose combined score exceeds the threshold, as a result,
     * ranked by descending score.
     */
    method SearchDocuments(query: string) returns (results: seq<SearchResult>)
      ensures IsBlank(query) ==> results == []
      ensures !IsBlank(query) ==> (SortedByScore(results)
                                   && multiset(results) == multiset(Candidates(documents, query)))
      ensures !IsBlank(query) ==> forall v :: ScoreFilter(results, v) == ScoreFilter(Candidates(documents, query), v)
    {
      if Trim(query) == [] {
        return [];
      }
      var pushed: seq<SearchResult> := [];
      var docs := documents;
      for k := 0 to |docs|
        invariant pushed == Candidates(docs[..k], query)
      {
        var doc := docs[k];
        var combinedScore := ScoreDocument(doc, query);
        KeptByScore(doc, query, combinedScore);
        if combinedScore > Threshold {
          pushed := pushed + [SearchResult(doc.title, doc.url, Snippet(doc.content), combinedScore)];
        }
        CandidatesStep(docs, k, query);
      }
      assert pushed == Candidates(documents, query) by {
        assert docs[..|docs|] == docs;
      }
      results := SortByScore(pushed);
    }
  }

  // ---------------------------------------------------------------
  // Properties of a query's results
  // ---------------------------------------------------------------

  /** Each candidate is the result of an indexed document that scored above the threshold. */
  lemma {:induction false} CandidateOrigin(docs: seq<SearchDocument>, query: string, r: SearchResult)
    requires r in Candidates(docs, query)
    ensures exists d :: d in docs && r == ResultFor(d, query) && CombinedScore(d, query) > Threshold
  {
    var init := docs[..|docs| - 1];
    var d := docs[|docs| - 1];
    if r in Candidates(init, query) {
      CandidateOrigin(init, query, r);
      var e :| e in init && r == ResultFor(e, query) && CombinedScore(e, query) > Threshold;
      assert e in docs;
    } else {
      assert r == ResultFor(d, query) && CombinedScore(d, query) > Threshold;
    }
  }

  /** Every indexed document that scores above the threshold has its result among the candidates. */
  lemma {:induction false} CandidateComplete(docs: seq<SearchDocument>, query: string, d: SearchDocument)
    requires d in docs && CombinedScore(d, query) > Threshold
    ensures ResultFor(d, query) in Candidates(docs, query)
  {
    var init := docs[..|docs| - 1];
    if d != docs[|docs| - 1] {
      assert docs == init + [docs[|docs| - 1]];
      assert d in init;
      CandidateComplete(init, query, d);
    }
  }

  /**
   * What a non-blank query returns: each result copies the title and url of
   * an indexed document, carries that document's combined score, which
   * exceeds 0.3, and there are at most as many results as documents.
   */
  lemma ResultsSound(docs: seq<SearchDocument>, query: string, results: seq<SearchResult>)
    requires multiset(results) == multiset(Candidates(docs, query))
    ensures |results| <= |docs|
    ensures forall r :: r in results ==> (r.score > Threshold
              && exists d :: d in docs && r.title == d.title && r.url == d.url
                   && r.snippet == Snippet(d.content)
                   && r.score == (FuzzyScore(d.title, query) * 2.0 + FuzzyScore(d.content.GetOr(""), query)) / 3.0)
  {
    assert |results| == |multiset(results)| == |Candidates(docs, query)|;
    forall r | r in results
      ensures r.score > Threshold
      ensures exists d :: d in docs && r.title == d.title && r.url == d.url
                   && r.snippet == Snippet(d.content)
                   && r.score == (FuzzyScore(d.title, query) * 2.0 + FuzzyScore(d.content.GetOr(""), query)) / 3.0
    {
      assert r in multiset(results);
      CandidateOrigin(docs, query, r);
    }
  }

  /** A document whose title or content contains the query, ignoring case, scores at least 1/3. */
  lemma SubstringScoresAboveThreshold(d: SearchDocument, query: string)
    requires Contains(Lower(d.title), Lower(query)) || Contains(Lower(d.content.GetOr("")), Lower(query))
    ensures CombinedScore(d, query) >= 1.0 / 3.0 > Threshold
  {
  }

  /** Any indexed document containing a non-blank query, ignoring case, is returned. */
  lemma SubstringIsFound(docs: seq<SearchDocument>, query: string, results: seq<SearchResult>, d: SearchDocument)
    requires multiset(results) == multiset(Candidates(docs, query))
    requires d in docs
    requires Contains(Lower(d.title), Lower(query)) || Contains(Lower(d.content.GetOr("")), Lower(query))
    ensures ResultFor(d, query) in results
    ensures exists r :: r in results && r.title == d.title && r.url == d.url
  {
    SubstringScoresAboveThreshold(d, query);
    CandidateComplete(docs, query, d);
    assert ResultFor(d, query) in multiset(results);
  }

  /** A client of the index: the five built-in documents come first; a rebuild replaces them wholesale. */
  method IndexScenario() {
    var index := new Index();
    var all := index.GetAllDocuments();
    assert |all| == 5 && all[0].title == "Getting Started" && all[4].url == "/docs/core-concepts/hooks";
    var custom := [Doc("Getting Started", "/gs", "Learn how to get started with setup.", "Guide")];
    var copy := index.BuildSearchIndex(Some(custom));
    assert copy == custom;
    var kept := index.BuildSearchIndex(None);
    assert kept == custom;
    var blank := index.SearchDocuments(" \t");
    TrimBlankExample();
    assert blank == [];
  }

  lemma TrimBlankExample()
    ensures Trim(" \t") == []
  {
    TrimEmptyIff(" \t");
  }
}
