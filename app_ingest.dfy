/** Ingestion in app/db.py: the block rules of `fetch_page_data` over a
    rendered page, `save_to_db`, which replaces the knowledge table and stamps
    it, and `update_if_needed`, which refreshes a stale store. Rendering,
    HTML traversal and the sentence encoder are inputs: a page arrives as the
    texts of its card blocks and its sections, and `encode` stands for the
    encoder. */
module AppIngest {
  import opened Wrappers
  import opened Text
  import opened Ranking
  import opened Freshness
  import opened Storage
  import opened AppRetrieval

  /** A `<section>`: the text of its first h2/h3/h4 heading, None when it has
      none, and the text of the whole section. */
  datatype Section = Section(heading: Option<string>, text: string)

  /** A rendered page: the text of each `div` whose class mentions "card",
      then its sections, in document order. */
  datatype Page = Page(cards: seq<string>, sections: seq<Section>)

  /** One `(title, content, url, embedding)` tuple of `fetch_page_data`. */
  datatype Parsed = Parsed(title: string, content: string, url: string, embedding: Embedding)

  /** The sentence encoder: text to vector. */
  type Encoder = string -> Embedding

  /** A card needs at least this many words. */
  const MinCardWords: nat := 5

  /** A card's title is its first 40 characters, stripped. */
  const CardTitleLength: nat := 40

  /** The card rule: non-empty text of at least five words. */
  predicate KeepsCard(content: string)
  {
    content != [] && WordCount(content) >= MinCardWords
  }

  function CardTitle(content: string): (title: string)
    ensures |title| <= CardTitleLength
  {
    Strip(SlicePrefix(content, CardTitleLength))
  }

  /** The tuples the card loop appends for `cards`. */
  function CardRows(cards: seq<string>, url: string, encode: Encoder): seq<Parsed>
  {
    if cards == [] then []
    else
      var content := cards[|cards| - 1];
      CardRows(cards[..|cards| - 1], url, encode)
      + (if KeepsCard(content) then [Parsed(CardTitle(content), content, url, encode(content))] else [])
  }

  /** The tuples the section loop appends for `sections`: one per section
      with a heading, titled by the stripped heading. */
  function SectionRows(sections: seq<Section>, url: string, encode: Encoder): seq<Parsed>
  {
    if sections == [] then []
    else
      var s := sections[|sections| - 1];
      SectionRows(sections[..|sections| - 1], url, encode)
      + (if s.heading.Some? then [Parsed(Strip(s.heading.value), s.text, url, encode(s.text))] else [])
  }

  /** `fetch_page_data` on a rendered page: the card tuples, then the
      section tuples. */
  method FetchPageData(url: string, page: Page, encode: Encoder) returns (parsed: seq<Parsed>)
    ensures parsed == CardRows(page.cards, url, encode) + SectionRows(page.sections, url, encode)
  {
    parsed := [];
    var i := 0;
    while i < |page.cards|
      invariant 0 <= i <= |page.cards|
      invariant parsed == CardRows(page.cards[..i], url, encode)
    {
      var content := page.cards[i];
      assert page.cards[..i + 1][..i] == page.cards[..i];
      if content != [] && WordCount(content) >= MinCardWords {
        var title := Strip(SlicePrefix(content, CardTitleLength));
        parsed := parsed + [Parsed(title, content, url, encode(content))];
      }
      i := i + 1;
    }
    assert page.cards[..i] == page.cards;
    ghost var cardRows := parsed;
    var j := 0;
    while j < |page.sections|
      invariant 0 <= j <= |page.sections|
      invariant parsed == cardRows + SectionRows(page.sections[..j], url, encode)
    {
      var section := page.sections[j];
      assert page.sections[..j + 1][..j] == page.sections[..j];
      if section.heading.Some? {
        var title := Strip(section.heading.value);
        parsed := parsed + [Parsed(title, section.text, url, encode(section.text))];
      }
      j := j + 1;
    }
    assert page.sections[..j] == page.sections;
  }

  /** The card rule, both ways: every card tuple comes from a card that has
      at least five words, titled by its first 40 characters and carrying
      the page URL and the card's vector; and every such card yields one. */
  lemma {:induction false} CardRowsRule(cards: seq<string>, url: string, encode: Encoder)
    ensures forall r :: r in CardRows(cards, url, encode) ==>
      && r.content in cards && KeepsCard(r.content) && WordCount(r.content) >= 5
      && r.title == CardTitle(r.content) && |r.title| <= 40
      && r.url == url && r.embedding == encode(r.content)
    ensures forall c :: c in cards && KeepsCard(c) ==>
      exists r :: r in CardRows(cards, url, encode) && r.content == c
  {
    if cards != [] {
      var init, last := cards[..|cards| - 1], cards[|cards| - 1];
      CardRowsRule(init, url, encode);
      assert cards == init + [last];
      if KeepsCard(last) {
        var r := Parsed(CardTitle(last), last, url, encode(last));
        assert r in CardRows(cards, url, encode);
      }
    }
  }

  /** The section rule, both ways: a section yields a tuple exactly when it
      has a heading, titled by the stripped heading, with the section text
      as content even when that text is empty. */
  lemma {:induction false} SectionRowsRule(sections: seq<Section>, url: string, encode: Encoder)
    ensures forall r :: r in SectionRows(sections, url, encode) ==>
      exists s :: s in sections && s.heading.Some? && r == Parsed(Strip(s.heading.value), s.text, url, encode(s.text))
    ensures forall s :: s in sections && s.heading.Some? ==>
      Parsed(Strip(s.heading.value), s.text, url, encode(s.text)) in SectionRows(sections, url, encode)
    ensures |SectionRows(sections, url, encode)| <= |sections|
  {
    if sections != [] {
      var init, last := sections[..|sections| - 1], sections[|sections| - 1];
      SectionRowsRule(init, url, encode);
      assert sections == init + [last];
    }
  }

  /** The rows `save_to_db` inserts: each tuple with the one timestamp `now`. */
  function Stamped(data: seq<Parsed>, now: nat): seq<Row>
  {
    seq(|data|, i requires 0 <= i < |data| =>
      Row(data[i].title, data[i].content, Some(data[i].url), Some(data[i].embedding), now))
  }

  /** The tuple a saved row was made from. */
  function Unstamp(row: Row): Parsed
    requires row.url.Some? && row.embedding.Some?
  {
    Parsed(row.title, row.content, row.url.value, row.embedding.value)
  }

  /** Saving loses nothing: reading the saved rows back gives `data`, in
      order, and every row carries the same timestamp. */
  lemma StampedRoundTrip(data: seq<Parsed>, now: nat)
    ensures |Stamped(data, now)| == |data|
    ensures forall i :: 0 <= i < |data| ==>
      && Stamped(data, now)[i].url.Some? && Stamped(data, now)[i].embedding.Some?
      && Unstamp(Stamped(data, now)[i]) == data[i]
      && Stamped(data, now)[i].lastUpdated == now
  {
  }

  /** `save_to_db`: empty the knowledge table, insert `data` stamped with the
      time of the save, and record that time under `last_updated`. */
  method SaveToDb(store: Store<Row>, data: seq<Parsed>, now: nat)
    modifies store
    ensures store.rows == Stamped(data, now)
    ensures store.meta == old(store.meta)[LastUpdatedKey := FormatTimestamp(now)]
  {
    store.DeleteAll();
    store.InsertMany(Stamped(data, now));
    store.SetMetaValue(LastUpdatedKey, FormatTimestamp(now));
  }

  /** How `update_if_needed` ends. `BadTimestamp` is the `ValueError` of a
      stored value it cannot parse and `CrawlFailed` an exception out of
      `fetch_site_data`; both propagate to the caller. */
  datatype Outcome = Refreshed | NotNeeded | BadTimestamp | CrawlFailed

  /** `update_if_needed` at time `now`. `crawl` is what `fetch_site_data`
      would return (None when it raises) and `savedAt` the clock reading
      taken inside `save_to_db`. */
  method UpdateIfNeeded(store: Store<Row>, now: nat, crawl: Option<seq<Parsed>>, savedAt: nat)
    returns (outcome: Outcome)
    modifies store
    ensures var decision := Decide(old(store.MetaValue(LastUpdatedKey)), now);
      && (outcome == Refreshed <==> decision == Refresh && crawl.Some?)
      && (outcome == NotNeeded <==> decision == UpToDate)
      && (outcome == BadTimestamp <==> decision == Unreadable)
      && (outcome == CrawlFailed <==> decision == Refresh && crawl.None?)
    ensures outcome == Refreshed ==>
      && store.rows == Stamped(crawl.value, savedAt)
      && store.meta == old(store.meta)[LastUpdatedKey := FormatTimestamp(savedAt)]
    ensures outcome != Refreshed ==> store.rows == old(store.rows) && store.meta == old(store.meta)
  {
    var lastUpdated := store.MetaValue(LastUpdatedKey);
    match Decide(lastUpdated, now)
    case Unreadable =>
      return BadTimestamp;
    case UpToDate =>
      return NotNeeded;
    case Refresh =>
      if crawl.None? {
        return CrawlFailed;
      }
      SaveToDb(store, crawl.value, savedAt);
      return Refreshed;
  }

  /** A refresh followed by a check less than four days later does nothing:
      the stamp that `save_to_db` writes reads back as up to date. */
  lemma RefreshThenUpToDate(meta: map<string, string>, savedAt: nat, now: nat)
    requires now - savedAt <= RefreshInterval
    ensures Decide(Some(meta[LastUpdatedKey := FormatTimestamp(savedAt)][LastUpdatedKey]), now) == UpToDate
  {
    FreshAfterSave(savedAt, now);
  }
}
