/** The similarity-driven retrieval of app/db.py over the rows of the
    `knowledge` table: the single best answer (`search_knowledge`), the top-k
    context for the language model (`get_top_context`), the relatedness gate
    (`is_vke_related`), the list-request test (`is_list_request`) and the
    ranked help links (`generate_help_link`). Each takes the rows as read
    from the store; scores come from an opaque `Scorer`. */
module AppRetrieval {
  import opened Wrappers
  import opened Text
  import opened Ranking
  import opened Sorting

  /** A row of the `knowledge` table; a NULL column is None. */
  datatype Row = Row(title: string, content: string, url: Option<string>,
                     embedding: Option<Embedding>, lastUpdated: nat)

  /** The score of every row against the query; None for a row whose vector
      is NULL, which every retrieval mode skips. */
  function Scores(rows: seq<Row>, q: string, score: Scorer): seq<Option<real>>
  {
    seq(|rows|, i requires 0 <= i < |rows| =>
      if rows[i].embedding.Some? then Some(score(q, rows[i].embedding.value)) else None)
  }

  // ---------------------------------------------------------------------
  // search_knowledge

  /** The reply of `search_knowledge` when nothing scores above the gate. */
  const NotFound: string := "Я не нашёл подходящего ответа."

  /** The gate of `search_knowledge`. */
  const AnswerThreshold: real := 0.5

  /** The answer built from a row's content: its first 700 characters and an
      ellipsis. */
  function Excerpt(content: string): (e: string)
    ensures 3 <= |e| <= 703 && e[|e| - 3..] == "..."
    ensures |e| - 3 <= |content| && e[..|e| - 3] == content[..|e| - 3]
  {
    SlicePrefix(content, 700) + "..."
  }

  /** An excerpt never reads as the "not found" reply. */
  lemma ExcerptIsNotNotFound(content: string)
    ensures Excerpt(content) != NotFound
  {
    var e := Excerpt(content);
    assert e[|e| - 2] == '.';
    assert NotFound[|NotFound| - 2] == 'а';
  }

  /** `search_knowledge`: a running maximum with a strict `>` that starts at
      -1, then the 0.5 gate. The reply is an excerpt exactly when some row
      with a vector scores above 0.5, and it is then the excerpt of the first
      row that attains the highest score. */
  method SearchKnowledge(rows: seq<Row>, q: string, score: Scorer) returns (answer: string)
    ensures answer != NotFound <==> SomeAbove(Scores(rows, q, score), AnswerThreshold)
    ensures answer != NotFound ==>
      exists i :: IsFirstArgmax(Scores(rows, q, score), i) && answer == Excerpt(rows[i].content)
  {
    ghost var s := Scores(rows, q, score);
    var bestScore: real := -1.0;
    var bestAnswer: Option<string> := None;
    ghost var best := -1;
    var i := 0;
    while i < |rows|
      invariant 0 <= i <= |rows|
      invariant best == -1 ==> bestScore == -1.0 && bestAnswer == None
      invariant best == -1 ==> forall j :: 0 <= j < i && s[j].Some? ==> s[j].value <= -1.0
      invariant best != -1 ==> 0 <= best < i && s[best].Some? && bestScore == s[best].value
      invariant best != -1 ==> bestAnswer == Some(Excerpt(rows[best].content))
      invariant forall j :: 0 <= j < i && s[j].Some? ==> s[j].value <= bestScore
      invariant best != -1 ==> forall j :: 0 <= j < best && s[j].Some? ==> s[j].value < bestScore
    {
      var row := rows[i];
      if row.embedding.Some? {
        var similarity := score(q, row.embedding.value);
        if similarity > bestScore {
          bestScore := similarity;
          bestAnswer := Some(Excerpt(row.content));
          best := i;
        }
      }
      i := i + 1;
    }
    if bestScore > AnswerThreshold {
      answer := bestAnswer.value;
      assert IsFirstArgmax(s, best);
      ExcerptIsNotNotFound(rows[best].content);
    } else {
      answer := NotFound;
    }
  }

  // ---------------------------------------------------------------------
  // get_top_context

  /** One `(score, title, content)` tuple that `get_top_context` sorts. */
  datatype Passage = Passage(score: real, title: string, content: string)

  /** Python's `>=` on those tuples: by score, then by title, then by
      content. */
  predicate PassageGeq(a: Passage, b: Passage)
  {
    || a.score > b.score
    || (a.score == b.score &&
         ((a.title != b.title && LexLeq(b.title, a.title))
          || (a.title == b.title && LexLeq(b.content, a.content))))
  }

  /** The tuple order is total and transitive, so sorting by it is defined. */
  lemma PassageOrderTotal()
    ensures TotalPreorder(PassageGeq)
  {
    forall a: Passage, b: Passage
      ensures PassageGeq(a, b) || PassageGeq(b, a)
    {
      LexLeqTotal(a.title, b.title);
      LexLeqTotal(a.content, b.content);
    }
    forall a: Passage, b: Passage, c: Passage | PassageGeq(a, b) && PassageGeq(b, c)
      ensures PassageGeq(a, c)
    {
      if LexLeq(c.title, b.title) && LexLeq(b.title, a.title) { LexLeqTransitive(c.title, b.title, a.title); }
      if LexLeq(a.title, b.title) && LexLeq(b.title, a.title) { LexLeqAntisymmetric(a.title, b.title); }
      if LexLeq(c.title, b.title) && LexLeq(b.title, c.title) { LexLeqAntisymmetric(c.title, b.title); }
      if LexLeq(c.content, b.content) && LexLeq(b.content, a.content) { LexLeqTransitive(c.content, b.content, a.content); }
    }
  }

  /** The `scored` list of `get_top_context`: one tuple per row with a
      vector, in row order. */
  function ScoredPassages(rows: seq<Row>, q: string, score: Scorer): (ps: seq<Passage>)
    ensures |ps| <= |rows|
  {
    if rows == [] then []
    else
      var last := rows[|rows| - 1];
      ScoredPassages(rows[..|rows| - 1], q, score)
        + (if last.embedding.Some? then [Passage(score(q, last.embedding.value), last.title, last.content)] else [])
  }

  /** `sorted(scored, reverse=True)[:k]`. */
  function TopPassages(rows: seq<Row>, q: string, score: Scorer, k: int): seq<Passage>
  {
    SlicePrefix(SortDesc(ScoredPassages(rows, q, score), PassageGeq), k)
  }

  /** `f"{title}:\n{content}"` for each passage. */
  function PassageTexts(ps: seq<Passage>): seq<string>
  {
    seq(|ps|, i requires 0 <= i < |ps| => ps[i].title + ":\n" + ps[i].content)
  }

  /** The context string `get_top_context` returns. */
  function TopContextText(rows: seq<Row>, q: string, score: Scorer, k: int): string
  {
    Join(PassageTexts(TopPassages(rows, q, score, k)), "\n\n")
  }

  /** `get_top_context`: collect the scored tuples, sort them, keep `k`, join. */
  method GetTopContext(rows: seq<Row>, q: string, score: Scorer, k: int) returns (context: string)
    ensures context == TopContextText(rows, q, score, k)
  {
    var scored: seq<Passage> := [];
    var i := 0;
    while i < |rows|
      invariant 0 <= i <= |rows|
      invariant scored == ScoredPassages(rows[..i], q, score)
    {
      var row := rows[i];
      if row.embedding.Some? {
        scored := scored + [Passage(score(q, row.embedding.value), row.title, row.content)];
      }
      assert rows[..i + 1][..i] == rows[..i];
      i := i + 1;
    }
    assert rows[..i] == rows;
    var top := SlicePrefix(SortDesc(scored, PassageGeq), k);
    context := Join(PassageTexts(top), "\n\n");
  }

  /** Passage `p` is the tuple built from row `i`, which has a vector. */
  ghost predicate PassageOfRow(rows: seq<Row>, q: string, score: Scorer, i: int, p: Passage)
  {
    && 0 <= i < |rows| && rows[i].embedding.Some?
    && p == Passage(score(q, rows[i].embedding.value), rows[i].title, rows[i].content)
  }

  lemma {:induction false} ScoredPassagesFromRows(rows: seq<Row>, q: string, score: Scorer)
    ensures forall p :: p in ScoredPassages(rows, q, score) ==> exists i :: PassageOfRow(rows, q, score, i, p)
  {
    if rows != [] {
      var init := rows[..|rows| - 1];
      ScoredPassagesFromRows(init, q, score);
      forall p | p in ScoredPassages(init, q, score)
        ensures exists i :: PassageOfRow(rows, q, score, i, p)
      {
        var i :| PassageOfRow(init, q, score, i, p);
        assert PassageOfRow(rows, q, score, i, p);
      }
      assert rows[|rows| - 1].embedding.Some? ==>
        PassageOfRow(rows, q, score, |rows| - 1, ScoredPassages(rows, q, score)[|ScoredPassages(rows, q, score)| - 1]);
    }
  }

  lemma {:induction false} ScoredPassagesNone(rows: seq<Row>, q: string, score: Scorer)
    requires forall i :: 0 <= i < |rows| ==> rows[i].embedding.None?
    ensures ScoredPassages(rows, q, score) == []
  {
    if rows != [] {
      ScoredPassagesNone(rows[..|rows| - 1], q, score);
    }
  }

  /** At most `k` passages are kept, and exactly `k` when that many rows
      have a vector. */
  lemma TopPassagesCount(rows: seq<Row>, q: string, score: Scorer, k: int)
    requires 0 <= k
    ensures |TopPassages(rows, q, score, k)| ==
      if k < |ScoredPassages(rows, q, score)| then k else |ScoredPassages(rows, q, score)|
  {
    SortDescPermutation(ScoredPassages(rows, q, score), PassageGeq);
    assert |SortDesc(ScoredPassages(rows, q, score), PassageGeq)| == |ScoredPassages(rows, q, score)| by {
      var m := multiset(ScoredPassages(rows, q, score));
      assert |multiset(SortDesc(ScoredPassages(rows, q, score), PassageGeq))| == |m|;
    }
  }

  /** Every kept passage is the title and content of a stored row with a
      vector, with that row's score. */
  lemma TopPassagesFromRows(rows: seq<Row>, q: string, score: Scorer, k: int)
    ensures forall p :: p in TopPassages(rows, q, score, k) ==> exists i :: PassageOfRow(rows, q, score, i, p)
  {
    var scored := ScoredPassages(rows, q, score);
    SortDescPermutation(scored, PassageGeq);
    ScoredPassagesFromRows(rows, q, score);
    forall p | p in TopPassages(rows, q, score, k)
      ensures p in scored
    {
      assert p in multiset(SortDesc(scored, PassageGeq));
    }
  }

  /** The kept passages are in non-increasing order of score (and of the
      whole tuple). */
  lemma TopPassagesSorted(rows: seq<Row>, q: string, score: Scorer, k: int)
    ensures SortedDesc(TopPassages(rows, q, score, k), PassageGeq)
    ensures forall i, j :: 0 <= i < j < |TopPassages(rows, q, score, k)| ==>
      TopPassages(rows, q, score, k)[i].score >= TopPassages(rows, q, score, k)[j].score
  {
    PassageOrderTotal();
    SortDescSorted(ScoredPassages(rows, q, score), PassageGeq);
  }

  /** No passage left out ranks above a kept one: the kept ones are the top. */
  lemma TopPassagesAreBest(rows: seq<Row>, q: string, score: Scorer, k: int)
    ensures forall x, y ::
      (x in multiset(ScoredPassages(rows, q, score)) - multiset(TopPassages(rows, q, score, k))
       && y in TopPassages(rows, q, score, k)) ==> PassageGeq(y, x)
  {
    var scored := ScoredPassages(rows, q, score);
    var sorted := SortDesc(scored, PassageGeq);
    var top := TopPassages(rows, q, score, k);
    PassagesSorted(scored);
    SortDescPermutation(scored, PassageGeq);
    assert top == sorted[..|top|];
    assert sorted == top + sorted[|top|..];
    assert multiset(scored) - multiset(top) == multiset(sorted[|top|..]);
    SortedCutDominates(sorted, |top|, PassageGeq);
  }

  lemma PassagesSorted(scored: seq<Passage>)
    ensures SortedDesc(SortDesc(scored, PassageGeq), PassageGeq)
  {
    PassageOrderTotal();
    SortDescSorted(scored, PassageGeq);
  }

  /** With no row carrying a vector (an empty store in particular) the
      context is the empty string. */
  lemma TopContextEmpty(rows: seq<Row>, q: string, score: Scorer, k: int)
    requires forall i :: 0 <= i < |rows| ==> rows[i].embedding.None?
    ensures TopContextText(rows, q, score, k) == ""
  {
    ScoredPassagesNone(rows, q, score);
  }

  // ---------------------------------------------------------------------
  // is_vke_related

  /** The default threshold of `is_vke_related`. */
  const RelatedThreshold: real := 0.4

  /** `is_vke_related`: an existence check that stops at the first row with
      a vector scoring above the threshold. */
  method IsVkeRelated(rows: seq<Row>, q: string, score: Scorer, threshold: real) returns (related: bool)
    ensures related <==> SomeAbove(Scores(rows, q, score), threshold)
  {
    ghost var s := Scores(rows, q, score);
    var i := 0;
    while i < |rows|
      invariant 0 <= i <= |rows|
      invariant forall j :: 0 <= j < i && s[j].Some? ==> s[j].value <= threshold
    {
      var row := rows[i];
      if row.embedding.Some? && score(q, row.embedding.value) > threshold {
        assert s[i].Some? && s[i].value > threshold;
        return true;
      }
      i := i + 1;
    }
    return false;
  }

  // ---------------------------------------------------------------------
  // is_list_request

  /** The enumeration triggers of `is_list_request`. */
  const ListTriggers: seq<string> := ["какие", "перечисли", "список", "доступны", "есть ли проекты"]

  /** `is_list_request`: the lower-cased question contains one of the
      triggers. */
  function IsListRequest(question: string): (b: bool)
    ensures b <==> exists i :: 0 <= i < |ListTriggers| && Contains(Lower(question), ListTriggers[i])
  {
    ContainsAny(Lower(question), ListTriggers)
  }

  /** The test does not depend on letter case. */
  lemma IsListRequestIgnoresCase(question: string)
    ensures IsListRequest(Lower(question)) == IsListRequest(question)
  {
    LowerIdempotent(question);
  }

  // ---------------------------------------------------------------------
  // generate_help_link

  /** `SITE_URL` of app/config.py: the fallback link. */
  const SiteUrl: string := "https://education.vk.company/"

  /** The default threshold of `generate_help_link`. */
  const LinkThreshold: real := 0.5

  /** One `(score, url)` pair of `relevant_links`. */
  datatype Link = Link(score: real, url: string)

  /** `key=lambda x: x[0]`: links compare by score alone. */
  predicate LinkGeq(a: Link, b: Link)
  {
    a.score >= b.score
  }

  lemma LinkOrderTotal()
    ensures TotalPreorder(LinkGeq)
  {
  }

  /** Row `i` has a vector and a URL and scores at or above the threshold. */
  predicate Qualifies(rows: seq<Row>, q: string, score: Scorer, threshold: real, i: int)
  {
    && 0 <= i < |rows| && rows[i].embedding.Some? && rows[i].url.Some?
    && score(q, rows[i].embedding.value) >= threshold
  }

  /** The `relevant_links` list: a pair for each qualifying row, in row order. */
  function RelevantLinks(rows: seq<Row>, q: string, score: Scorer, threshold: real): (ls: seq<Link>)
    ensures |ls| <= |rows|
  {
    if rows == [] then []
    else
      var last := rows[|rows| - 1];
      RelevantLinks(rows[..|rows| - 1], q, score, threshold)
        + (if Qualifies(rows, q, score, threshold, |rows| - 1)
           then [Link(score(q, last.embedding.value), last.url.value)] else [])
  }

  /** `relevant_links` after the stable sort by score, cut to `top_k`. */
  function TopLinks(rows: seq<Row>, q: string, score: Scorer, topK: int, threshold: real): seq<Link>
  {
    SlicePrefix(SortDesc(RelevantLinks(rows, q, score, threshold), LinkGeq), topK)
  }

  function Urls(ls: seq<Link>): seq<string>
  {
    seq(|ls|, i requires 0 <= i < |ls| => ls[i].url)
  }

  /** The string `generate_help_link` returns. */
  function HelpLinkText(rows: seq<Row>, q: string, score: Scorer, topK: int, threshold: real): string
  {
    var urls := Urls(TopLinks(rows, q, score, topK, threshold));
    if urls == [] then SiteUrl else Join(urls, "\n")
  }

  /** `generate_help_link`: collect the qualifying links, sort, keep
      `top_k`, join them or fall back to the site URL. */
  method GenerateHelpLink(rows: seq<Row>, q: string, score: Scorer, topK: int, threshold: real)
    returns (links: string)
    ensures links == HelpLinkText(rows, q, score, topK, threshold)
  {
    var relevant: seq<Link> := [];
    var i := 0;
    while i < |rows|
      invariant 0 <= i <= |rows|
      invariant relevant == RelevantLinks(rows[..i], q, score, threshold)
    {
      var row := rows[i];
      assert rows[..i + 1][..i] == rows[..i] && rows[..i + 1][i] == row;
      if row.embedding.Some? && row.url.Some? {
        var s := score(q, row.embedding.value);
        if s >= threshold {
          relevant := relevant + [Link(s, row.url.value)];
        }
      }
      assert Qualifies(rows[..i + 1], q, score, threshold, i) == Qualifies(rows, q, score, threshold, i);
      i := i + 1;
    }
    assert rows[..i] == rows;
    var top := SlicePrefix(SortDesc(relevant, LinkGeq), topK);
    var urls := Urls(top);
    if urls == [] {
      links := SiteUrl;
    } else {
      links := Join(urls, "\n");
    }
  }

  /** Link `l` is the URL and score of qualifying row `i`. */
  ghost predicate LinkOfRow(rows: seq<Row>, q: string, score: Scorer, threshold: real, i: int, l: Link)
  {
    Qualifies(rows, q, score, threshold, i) && l == Link(score(q, rows[i].embedding.value), rows[i].url.value)
  }

  lemma {:induction false} RelevantLinksFromRows(rows: seq<Row>, q: string, score: Scorer, threshold: real)
    ensures forall l :: l in RelevantLinks(rows, q, score, threshold) ==> exists i :: LinkOfRow(rows, q, score, threshold, i, l)
  {
    if rows != [] {
      var init := rows[..|rows| - 1];
      RelevantLinksFromRows(init, q, score, threshold);
      forall l | l in RelevantLinks(init, q, score, threshold)
        ensures exists i :: LinkOfRow(rows, q, score, threshold, i, l)
      {
        var i :| LinkOfRow(init, q, score, threshold, i, l);
        assert LinkOfRow(rows, q, score, threshold, i, l);
      }
      var n := |rows| - 1;
      if Qualifies(rows, q, score, threshold, n) {
        assert LinkOfRow(rows, q, score, threshold, n, Link(score(q, rows[n].embedding.value), rows[n].url.value));
      }
    }
  }

  /** Some row qualifies exactly when `relevant_links` is non-empty. */
  lemma {:induction false} RelevantLinksNonEmpty(rows: seq<Row>, q: string, score: Scorer, threshold: real)
    ensures RelevantLinks(rows, q, score, threshold) != [] <==> exists i :: Qualifies(rows, q, score, threshold, i)
  {
    if rows != [] {
      var init := rows[..|rows| - 1];
      RelevantLinksNonEmpty(init, q, score, threshold);
      forall i | Qualifies(init, q, score, threshold, i)
        ensures Qualifies(rows, q, score, threshold, i)
      {
      }
      forall i | Qualifies(rows, q, score, threshold, i) && i < |rows| - 1
        ensures Qualifies(init, q, score, threshold, i)
      {
      }
    }
  }

  /** At most `top_k` links, each the URL of a stored row with a vector
      that scores at or above the threshold, carrying that row's score. */
  lemma TopLinksFromRows(rows: seq<Row>, q: string, score: Scorer, topK: int, threshold: real)
    ensures 0 <= topK ==> |TopLinks(rows, q, score, topK, threshold)| <= topK
    ensures forall l :: l in TopLinks(rows, q, score, topK, threshold) ==>
      exists i :: LinkOfRow(rows, q, score, threshold, i, l)
  {
    var relevant := RelevantLinks(rows, q, score, threshold);
    SortDescPermutation(relevant, LinkGeq);
    RelevantLinksFromRows(rows, q, score, threshold);
    forall l | l in TopLinks(rows, q, score, topK, threshold)
      ensures l in relevant
    {
      assert l in multiset(SortDesc(relevant, LinkGeq));
    }
  }

  /** The links come in non-increasing order of score, and links with equal
      scores keep the order of their rows (the sort is stable). */
  lemma TopLinksOrder(rows: seq<Row>, q: string, score: Scorer, topK: int, threshold: real, y: Link)
    ensures forall i, j :: 0 <= i < j < |TopLinks(rows, q, score, topK, threshold)| ==>
      TopLinks(rows, q, score, topK, threshold)[i].score >= TopLinks(rows, q, score, topK, threshold)[j].score
    ensures TiesOf(SortDesc(RelevantLinks(rows, q, score, threshold), LinkGeq), y, LinkGeq)
            == TiesOf(RelevantLinks(rows, q, score, threshold), y, LinkGeq)
  {
    LinkOrderTotal();
    SortDescSorted(RelevantLinks(rows, q, score, threshold), LinkGeq);
    SortDescStable(RelevantLinks(rows, q, score, threshold), y, LinkGeq);
  }

  /** With `top_k` positive, the reply is the site URL when no row
      qualifies, and otherwise the newline-joined URLs of the top links. */
  lemma HelpLinkFallback(rows: seq<Row>, q: string, score: Scorer, topK: int, threshold: real)
    requires 0 < topK
    ensures (forall i :: !Qualifies(rows, q, score, threshold, i)) ==>
      HelpLinkText(rows, q, score, topK, threshold) == SiteUrl
    ensures (exists i :: Qualifies(rows, q, score, threshold, i)) ==>
      TopLinks(rows, q, score, topK, threshold) != [] &&
      HelpLinkText(rows, q, score, topK, threshold) == Join(Urls(TopLinks(rows, q, score, topK, threshold)), "\n")
  {
    var relevant := RelevantLinks(rows, q, score, threshold);
    RelevantLinksNonEmpty(rows, q, score, threshold);
    SortDescPermutation(relevant, LinkGeq);
    assert |SortDesc(relevant, LinkGeq)| == |relevant| by {
      assert |multiset(SortDesc(relevant, LinkGeq))| == |multiset(relevant)|;
    }
  }
}
