/** The older knowledge base in the repository's root db.py: rows without a
    URL, a best answer with no gate (`search_knowledge`), the whole table as
    one context truncated to 7000 characters (`get_all_context_text`), the
    crawl (`fetch_page_data`, `fetch_site_data`) over fetched pages, the
    row-by-row `save_to_db` and the same four-day `update_if_needed`. */
module RootDb {
  import opened Wrappers
  import opened Text
  import opened Ranking
  import opened Freshness
  import opened Storage

  /** A row of this variant's `knowledge` table. The vector is a byte buffer
      in the source; an empty buffer is as false as a NULL one. */
  datatype RootRow = RootRow(title: string, content: string, embedding: Option<Embedding>, lastUpdated: nat)

  /** The site the crawler starts from. */
  const SiteUrl: string := "https://education.vk.company/"

  /** The reply when no row is scored above -1. */
  const NotFound: string := "Я не нашёл подходящего ответа."

  /** Longest content excerpt of an answer. */
  const AnswerContentLength: nat := 500

  /** Longest context handed to the language model. */
  const ContextLimit: nat := 7000

  /** `if content_embedding:` — a vector that is present and not empty. */
  predicate HasVector(row: RootRow)
  {
    row.embedding.Some? && row.embedding.value != []
  }

  /** The score of every row with a vector; None for the others. */
  function RootScores(rows: seq<RootRow>, q: string, score: Scorer): seq<Option<real>>
  {
    seq(|rows|, i requires 0 <= i < |rows| =>
      if HasVector(rows[i]) then Some(score(q, rows[i].embedding.value)) else None)
  }

  /** `f"Title: {title}\nContent: {content[:500]}..."`. */
  function Answer(row: RootRow): (a: string)
    ensures |a| >= 3 && a[|a| - 3..] == "..."
  {
    "Title: " + row.title + "\nContent: " + SlicePrefix(row.content, AnswerContentLength) + "..."
  }

  /** An answer never reads as the "not found" reply. */
  lemma AnswerIsNotNotFound(row: RootRow)
    ensures Answer(row) != NotFound
  {
    var a := Answer(row);
    assert a[|a| - 2] == '.';
    assert NotFound[|NotFound| - 2] == 'а';
  }

  /** `search_knowledge`: the running maximum with a strict `>` from -1 and no
      gate. The reply is an answer exactly when some row with a vector scores
      above -1, and it is then the answer of the first row that attains the
      highest score. */
  method SearchKnowledge(rows: seq<RootRow>, q: string, score: Scorer) returns (reply: string)
    ensures reply != NotFound <==> SomeAbove(RootScores(rows, q, score), -1.0)
    ensures reply != NotFound ==>
      exists i :: IsFirstArgmax(RootScores(rows, q, score), i) && reply == Answer(rows[i])
  {
    ghost var s := RootScores(rows, q, score);
    var bestScore: real := -1.0;
    var bestAnswer: Option<string> := None;
    ghost var best := -1;
    var i := 0;
    while i < |rows|
      invariant 0 <= i <= |rows|
      invariant best == -1 <==> bestAnswer == None
      invariant best == -1 ==> bestScore == -1.0
      invariant best != -1 ==> 0 <= best < i && s[best].Some? && bestScore == s[best].value > -1.0
      invariant best != -1 ==> bestAnswer == Some(Answer(rows[best]))
      invariant forall j :: 0 <= j < i && s[j].Some? ==> s[j].value <= bestScore
      invariant best != -1 ==> forall j :: 0 <= j < best && s[j].Some? ==> s[j].value < bestScore
    {
      var row := rows[i];
      assert s[i] == if HasVector(row) then Some(score(q, row.embedding.value)) else None;
      if row.embedding.Some? && row.embedding.value != [] {
        var similarity := score(q, row.embedding.value);
        if similarity > bestScore {
          bestScore := similarity;
          bestAnswer := Some(Answer(row));
          best := i;
        }
      }
      i := i + 1;
    }
    if bestAnswer.Some? {
      reply := bestAnswer.value;
      assert IsFirstArgmax(s, best);
      AnswerIsNotNotFound(rows[best]);
    } else {
      reply := NotFound;
    }
  }

  /** `f"{title}:\n{content}\n\n"`: one row's share of the context. */
  function ContextEntry(row: RootRow): string
  {
    row.title + ":\n" + row.content + "\n\n"
  }

  /** The entries of all rows, in order, before truncation. */
  function FullContext(rows: seq<RootRow>): string
  {
    if rows == [] then [] else FullContext(rows[..|rows| - 1]) + ContextEntry(rows[|rows| - 1])
  }

  /** `get_all_context_text`: the entries appended with `+=`, then `[:7000]`. */
  method GetAllContextText(rows: seq<RootRow>) returns (context: string)
    ensures context == SlicePrefix(FullContext(rows), ContextLimit)
  {
    context := "";
    var i := 0;
    while i < |rows|
      invariant 0 <= i <= |rows|
      invariant context == FullContext(rows[..i])
    {
      assert rows[..i + 1][..i] == rows[..i];
      context := context + (rows[i].title + ":\n" + rows[i].content + "\n\n");
      i := i + 1;
    }
    assert rows[..i] == rows;
    context := SlicePrefix(context, ContextLimit);
  }

  /** The truncated context is at most 7000 characters, a prefix of the full
      one, and all of it when that is short enough. */
  lemma ContextTruncation(rows: seq<RootRow>)
    ensures |SlicePrefix(FullContext(rows), ContextLimit)| <= ContextLimit
    ensures SlicePrefix(FullContext(rows), ContextLimit) == FullContext(rows)[..|SlicePrefix(FullContext(rows), ContextLimit)|]
    ensures |FullContext(rows)| <= ContextLimit <==> SlicePrefix(FullContext(rows), ContextLimit) == FullContext(rows)
  {
  }

  /** Where row `i`'s entry starts in the full context. */
  function EntryOffset(rows: seq<RootRow>, i: int): nat
    requires 0 <= i <= |rows|
  {
    |FullContext(rows[..i])|
  }

  /** The full context holds every row's entry, in row order. */
  lemma {:induction false} FullContextHoldsEntries(rows: seq<RootRow>, i: int)
    requires 0 <= i < |rows|
    ensures EntryOffset(rows, i) + |ContextEntry(rows[i])| <= |FullContext(rows)|
    ensures FullContext(rows)[EntryOffset(rows, i)..EntryOffset(rows, i) + |ContextEntry(rows[i])|] == ContextEntry(rows[i])
  {
    var init := rows[..|rows| - 1];
    if i == |rows| - 1 {
      assert rows[..i] == init;
    } else {
      FullContextHoldsEntries(init, i);
      assert init[..i] == rows[..i];
      var off := EntryOffset(rows, i);
      var e := ContextEntry(rows[i]);
      assert FullContext(rows)[off..off + |e|] == FullContext(init)[off..off + |e|];
    }
  }

  /** A row whose entry ends within the first 7000 characters appears whole
      in the truncated context. */
  lemma EntryKept(rows: seq<RootRow>, i: int)
    requires 0 <= i < |rows| && EntryOffset(rows, i) + |ContextEntry(rows[i])| <= ContextLimit
    ensures var c := SlicePrefix(FullContext(rows), ContextLimit);
      && EntryOffset(rows, i) + |ContextEntry(rows[i])| <= |c|
      && c[EntryOffset(rows, i)..EntryOffset(rows, i) + |ContextEntry(rows[i])|] == ContextEntry(rows[i])
  {
    FullContextHoldsEntries(rows, i);
    var full := FullContext(rows);
    var c := SlicePrefix(full, ContextLimit);
    var off, e := EntryOffset(rows, i), ContextEntry(rows[i]);
    assert c[off..off + |e|] == full[off..off + |e|];
  }

  // ---------------------------------------------------------------------
  // The crawl

  /** A `<section>`: the text of its first h2/h3/h4 heading, None when it has
      none, and the text of the whole section. */
  datatype Section = Section(heading: Option<string>, text: string)

  /** A fetched page: the `href` of each `<a>` that has one, and its
      sections, in document order. */
  datatype Page = Page(hrefs: seq<string>, sections: seq<Section>)

  /** One `(title, content, content_embedding)` tuple of `fetch_page_data`. */
  datatype Parsed = Parsed(title: string, content: string, embedding: Embedding)

  /** `safe_encode`: the vector's bytes, or None when encoding fails. */
  type SafeEncoder = string -> Option<Embedding>

  /** The section rule: a heading, non-empty text and a non-empty vector. */
  predicate KeepsSection(s: Section, encode: SafeEncoder)
  {
    s.heading.Some? && s.text != [] && encode(s.text).Some? && encode(s.text).value != []
  }

  function SectionTuple(s: Section, encode: SafeEncoder): Parsed
    requires KeepsSection(s, encode)
  {
    Parsed(Strip(s.heading.value), s.text, encode(s.text).value)
  }

  /** The tuples `fetch_page_data` yields for `sections`. */
  function PageRows(sections: seq<Section>, encode: SafeEncoder): seq<Parsed>
  {
    if sections == [] then []
    else
      var s := sections[|sections| - 1];
      PageRows(sections[..|sections| - 1], encode)
      + (if KeepsSection(s, encode) then [SectionTuple(s, encode)] else [])
  }

  /** `fetch_page_data` on a fetched page. */
  method FetchPageData(page: Page, encode: SafeEncoder) returns (parsed: seq<Parsed>)
    ensures parsed == PageRows(page.sections, encode)
  {
    parsed := [];
    var i := 0;
    while i < |page.sections|
      invariant 0 <= i <= |page.sections|
      invariant parsed == PageRows(page.sections[..i], encode)
    {
      var section := page.sections[i];
      assert page.sections[..i + 1][..i] == page.sections[..i];
      if section.heading.Some? {
        var title := Strip(section.heading.value);
        var content := section.text;
        if content != [] {
          var embedding := encode(content);
          if embedding.Some? && embedding.value != [] {
            parsed := parsed + [Parsed(title, content, embedding.value)];
          }
        }
      }
      i := i + 1;
    }
    assert page.sections[..i] == page.sections;
  }

  /** The section rule, both ways: a section yields a tuple exactly when it
      has a heading, non-empty text and a non-empty vector. */
  lemma {:induction false} PageRowsRule(sections: seq<Section>, encode: SafeEncoder)
    ensures forall r :: r in PageRows(sections, encode) ==>
      exists s :: s in sections && KeepsSection(s, encode) && r == SectionTuple(s, encode)
    ensures forall s :: s in sections && KeepsSection(s, encode) ==>
      SectionTuple(s, encode) in PageRows(sections, encode)
    ensures forall r :: r in PageRows(sections, encode) ==> r.content != [] && r.embedding != []
  {
    if sections != [] {
      var init, last := sections[..|sections| - 1], sections[|sections| - 1];
      PageRowsRule(init, encode);
      assert sections == init + [last];
    }
  }

  /** The link rule: an href starting with "#" is joined onto the site URL
      (by `join`, Python's `urljoin`); the result is internal when it starts
      with the site URL. */
  function ResolveHref(href: string, join: (string, string) -> string): string
  {
    if StartsWith(href, "#") then join(SiteUrl, href) else href
  }

  /** The set of internal links of a page's hrefs. */
  function InternalLinks(hrefs: seq<string>, join: (string, string) -> string): (links: set<string>)
    ensures forall l :: l in links <==>
      (exists i :: 0 <= i < |hrefs| && ResolveHref(hrefs[i], join) == l) && StartsWith(l, SiteUrl)
  {
    if hrefs == [] then {}
    else
      var l := ResolveHref(hrefs[|hrefs| - 1], join);
      var rest := InternalLinks(hrefs[..|hrefs| - 1], join);
      assert forall i :: 0 <= i < |hrefs| - 1 ==> hrefs[..|hrefs| - 1][i] == hrefs[i];
      rest + (if StartsWith(l, SiteUrl) then {l} else {})
  }

  /** The link loop of `fetch_site_data`. */
  method CollectInternalLinks(hrefs: seq<string>, join: (string, string) -> string) returns (links: set<string>)
    ensures links == InternalLinks(hrefs, join)
  {
    links := {};
    var i := 0;
    while i < |hrefs|
      invariant 0 <= i <= |hrefs|
      invariant links == InternalLinks(hrefs[..i], join)
    {
      assert hrefs[..i + 1][..i] == hrefs[..i];
      var href := hrefs[i];
      if StartsWith(href, "#") {
        href := join(SiteUrl, href);
      }
      if StartsWith(href, SiteUrl) {
        links := links + {href};
      }
      i := i + 1;
    }
    assert hrefs[..i] == hrefs;
  }

  /** A fetcher: the page at a URL, None when `requests.get` raises. */
  type Fetcher = string -> Option<Page>

  /** The tuples of the pages at `urls`, in that order; None when one of
      them cannot be fetched. */
  function CrawlPages(urls: seq<string>, fetch: Fetcher, encode: SafeEncoder): (data: Option<seq<Parsed>>)
    ensures data.None? <==> exists i :: 0 <= i < |urls| && fetch(urls[i]).None?
  {
    if urls == [] then Some([])
    else
      var rest := CrawlPages(urls[..|urls| - 1], fetch, encode);
      var last := fetch(urls[|urls| - 1]);
      assert forall i :: 0 <= i < |urls| - 1 ==> urls[..|urls| - 1][i] == urls[i];
      if rest.None? || last.None? then None
      else Some(rest.value + PageRows(last.value.sections, encode))
  }

  /** Crawling one more page appends that page's tuples. */
  lemma CrawlStep(urls: seq<string>, url: string, fetch: Fetcher, encode: SafeEncoder, acc: seq<Parsed>)
    requires CrawlPages(urls, fetch, encode) == Some(acc) && fetch(url).Some?
    ensures CrawlPages(urls + [url], fetch, encode) == Some(acc + PageRows(fetch(url).value.sections, encode))
  {
    assert (urls + [url])[..|urls|] == urls;
  }

  /** `urls` lists the elements of `links`, each once. */
  ghost predicate Enumerates(urls: seq<string>, links: set<string>)
  {
    && (forall i, j :: 0 <= i < j < |urls| ==> urls[i] != urls[j])
    && (forall l :: l in links <==> l in urls)
  }

  /** The loop of `fetch_site_data` over the set of internal links, after
      the pages `done` have given `acc`: the links are visited in any order
      and a page that cannot be fetched makes the crawl fail. */
  method CrawlLinks(links: set<string>, done: seq<string>, fetch: Fetcher, encode: SafeEncoder, acc: seq<Parsed>)
    returns (data: Option<seq<Parsed>>)
    requires CrawlPages(done, fetch, encode) == Some(acc)
    ensures data.None? <==> exists l :: l in links && fetch(l).None?
    ensures data.Some? ==> exists order :: Enumerates(order, links) && data == CrawlPages(done + order, fetch, encode)
  {
    var parsedData := acc;
    ghost var visited: seq<string> := [];
    var remaining := links;
    assert done + visited == done;
    while remaining != {}
      invariant remaining <= links
      invariant forall l :: l in links <==> l in visited || l in remaining
      invariant forall l :: l in visited ==> l !in remaining
      invariant forall i, j :: 0 <= i < j < |visited| ==> visited[i] != visited[j]
      invariant forall i :: 0 <= i < |visited| ==> fetch(visited[i]).Some?
      invariant CrawlPages(done + visited, fetch, encode) == Some(parsedData)
      decreases |remaining|
    {
      var link :| link in remaining;
      var page := fetch(link);
      if page.None? {
        return None;
      }
      var more := FetchPageData(page.value, encode);
      CrawlStep(done + visited, link, fetch, encode, parsedData);
      assert done + (visited + [link]) == done + visited + [link];
      parsedData := parsedData + more;
      visited := visited + [link];
      remaining := remaining - {link};
    }
    data := Some(parsedData);
    assert Enumerates(visited, links);
  }

  /** `fetch_site_data`: the links of the site's page, then that page's
      tuples, then those of every internal link in the set's iteration
      order (any order). A page that cannot be fetched makes the whole
      crawl fail (None), as the exception out of `requests.get` does; the
      site URL, when it links to itself, is parsed twice. */
  method FetchSiteData(fetch: Fetcher, join: (string, string) -> string, encode: SafeEncoder)
    returns (data: Option<seq<Parsed>>)
    ensures fetch(SiteUrl).None? ==> data.None?
    ensures fetch(SiteUrl).Some? ==>
      (data.None? <==> exists l :: l in InternalLinks(fetch(SiteUrl).value.hrefs, join) && fetch(l).None?)
    ensures data.Some? ==>
      exists order :: Enumerates(order, InternalLinks(fetch(SiteUrl).value.hrefs, join))
        && data == CrawlPages([SiteUrl] + order, fetch, encode)
  {
    var home := fetch(SiteUrl);
    if home.None? {
      return None;
    }
    var links := CollectInternalLinks(home.value.hrefs, join);
    var parsedData := FetchPageData(home.value, encode);
    CrawlStep([], SiteUrl, fetch, encode, []);
    assert [] + [SiteUrl] == [SiteUrl];
    assert [] + parsedData == parsedData;
    data := CrawlLinks(links, [SiteUrl], fetch, encode, parsedData);
  }

  /** The rows `save_to_db` inserts: each tuple with the one timestamp `now`. */
  function RootStamped(data: seq<Parsed>, now: nat): (rows: seq<RootRow>)
    ensures |rows| == |data|
    ensures forall i :: 0 <= i < |data| ==>
      && rows[i].title == data[i].title && rows[i].content == data[i].content
      && rows[i].embedding == Some(data[i].embedding) && rows[i].lastUpdated == now
  {
    if data == [] then []
    else
      var last := data[|data| - 1];
      RootStamped(data[..|data| - 1], now) + [RootRow(last.title, last.content, Some(last.embedding), now)]
  }

  /** `save_to_db`: empty the knowledge table, insert the tuples one by one
      with the time of the save, and record that time under `last_updated`. */
  method SaveToDb(store: Store<RootRow>, data: seq<Parsed>, now: nat)
    modifies store
    ensures store.rows == RootStamped(data, now)
    ensures store.meta == old(store.meta)[LastUpdatedKey := FormatTimestamp(now)]
  {
    store.DeleteAll();
    var i := 0;
    while i < |data|
      invariant 0 <= i <= |data|
      invariant store.rows == RootStamped(data[..i], now)
      invariant store.meta == old(store.meta)
    {
      assert data[..i + 1][..i] == data[..i];
      var item := data[i];
      store.Insert(RootRow(item.title, item.content, Some(item.embedding), now));
      i := i + 1;
    }
    assert data[..i] == data;
    store.SetMetaValue(LastUpdatedKey, FormatTimestamp(now));
  }

  /** How `update_if_needed` ends; `BadTimestamp` and `CrawlFailed` are the
      exceptions that propagate to its caller. */
  datatype Outcome = Refreshed | NotNeeded | BadTimestamp | CrawlFailed

  /** `update_if_needed` at time `now`; `crawl` is what `fetch_site_data`
      returns and `savedAt` the clock reading taken inside `save_to_db`. */
  method UpdateIfNeeded(store: Store<RootRow>, now: nat, crawl: Option<seq<Parsed>>, savedAt: nat)
    returns (outcome: Outcome)
    modifies store
    ensures var decision := Decide(old(store.MetaValue(LastUpdatedKey)), now);
      && (outcome == Refreshed <==> decision == Refresh && crawl.Some?)
      && (outcome == NotNeeded <==> decision == UpToDate)
      && (outcome == BadTimestamp <==> decision == Unreadable)
      && (outcome == CrawlFailed <==> decision == Refresh && crawl.None?)
    ensures outcome == Refreshed ==>
      && store.rows == RootStamped(crawl.value, savedAt)
      && store.meta == old(store.meta)[LastUpdatedKey := FormatTimestamp(savedAt)]
    ensures outcome != Refreshed ==> store.rows == old(store.rows) && store.meta == old(store.meta)
  {
    var lastUpdated := store.MetaValue(LastUpdatedKey);
    match Decide(lastUpdated, now)
    case Unreadable =>
      return BadTimestamp;
    case UpToDate =>
      return NotNeeded;
    case Refresh =>
      if crawl.None? {
        return CrawlFailed;
      }
      SaveToDb(store, crawl.value, savedAt);
      return Refreshed;
  }

  /** Every row of a refreshed store has a vector, so each one takes part in
      the search: the refreshed rows are exactly the ones `search_knowledge`
      scores. */
  lemma RefreshedRowsAreScored(data: seq<Parsed>, now: nat, q: string, score: Scorer)
    requires forall i :: 0 <= i < |data| ==> data[i].embedding != []
    ensures forall i :: 0 <= i < |data| ==>
      RootScores(RootStamped(data, now), q, score)[i] == Some(score(q, data[i].embedding))
  {
  }
}
