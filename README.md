# VK Education chat-bot: retrieval and routing, modelled in Dafny

This project models the decision logic of the VK Education chat-bot:

- the knowledge store and the retrieval functions of `app/db.py`:
  - the single best answer;
  - the top-k context;
  - the relatedness test;
  - the help links;
  - the audience project lister;
  - the card and section rules of page ingestion;
  - saving and the four-day freshness rule;
- the message routing of `VkBot.handle_message` in `app/app.py`;
- the older variant of the store in the root `db.py`:
  - its search without a threshold;
  - its whole-store context cut to 7000 characters;
  - its section filter;
  - its internal-link crawl;
  - its row-by-row save.

The similarity of a query to a stored vector is an opaque function `score` (`Ranking.Scorer`). So are the other foreign parts:
- the sentence encoder;
- the spelling corrector;
- the toxicity classifier;
- the language model;
- page fetching;
- `urljoin`.

Each of these is a parameter. A row without a vector is never scored.

Modules, one per file:

- `Wrappers`: the `Option` type.
- `Text`: the Python string operations the source uses:
  - `strip`, `lower`, `in` on strings, `startswith`;
  - slicing, `split(". ")[0]`, `split()`, `join`;
  - string ordering.
- `Sorting`: Python's stable descending sort, as an insertion sort over a total preorder. It carries:
  - proofs that it permutes;
  - proofs that it orders;
  - proofs that it keeps the order of ties;
  - a proof that the first n elements dominate the rest.
- `Ranking`: scores, "some score above t", and the first argmax.
- `Freshness`: the `last_updated` test shared by both variants of `update_if_needed`.
- `Storage`: the knowledge table and the `meta` table, as a class `Store` that the save operations update in place.
- `AppRetrieval`: `search_knowledge`, `get_top_context`, `is_vke_related`, `is_list_request` and `generate_help_link` of `app/db.py`.
- `AppLister`: `list_projects_for_audience` of `app/db.py`.
- `AppIngest`: the card and section rules of `fetch_page_data`, plus `save_to_db` and `update_if_needed` of `app/db.py`.
- `RootDb`: the root `db.py`.
- `Bot`: `handle_message` as a class `VkBot`. It keeps the store, the services and the log of sent messages. Its reply is specified by the pure function `AnswerTo` / `Respond` / `Outgoing`.

Where the code and its description disagree, the model follows the code:
- `app/db.py:288` looks up the `/students` path whatever the audience keyword. The model does the same, so every audience lists pages under `/students`.
- The card rule and the section rule of `app/db.py` differ. A section with a heading is kept even when its text is empty. The model keeps it too.
- In the root `db.py`, a section needs a heading, non-empty text and a non-empty vector.

## Model

| member | source | states |
|---|---|---|
| AppRetrieval.SearchKnowledge | app/db.py:83-96 | The reply is not the "not found" sentence iff some row with a vector scores strictly above 0.5. Otherwise it is the 700-character excerpt plus "..." of the first row attaining the maximum score. |
| AppRetrieval.Excerpt | app/db.py:94 | An excerpt is at most 703 characters. It ends in "...", and what comes before is a prefix of the content. |
| AppRetrieval.ExcerptIsNotNotFound | app/db.py:94-96 | No excerpt equals the "not found" sentence, so the sentinel unambiguously means "no answer". |
| AppRetrieval.GetTopContext | app/db.py:107-116 | The loop builds the scored rows and the joined text of the top k passages, as the specification function gives them. |
| AppRetrieval.TopPassagesCount | app/db.py:115 | For k ≥ 0, exactly min(k, number of rows with a vector) passages are kept. |
| AppRetrieval.TopPassagesFromRows | app/db.py:108-113 | Every kept passage is (score, title, content) of a stored row that has a vector. |
| AppRetrieval.TopPassagesSorted | app/db.py:115 | The kept passages are in non-increasing score order, under the full tuple order. |
| AppRetrieval.TopPassagesAreBest | app/db.py:115 | Every kept passage is at least as large as every passage left out. |
| AppRetrieval.PassageOrderTotal | app/db.py:115 | The (score, title, content) tuple order that `sorted` uses is a total preorder. |
| AppRetrieval.TopContextEmpty | app/db.py:107-116 | A store whose rows have no vectors gives the empty context. |
| AppRetrieval.ScoredPassagesFromRows | app/db.py:108-113 | Every scored passage comes from a row with a vector. |
| AppRetrieval.IsVkeRelated | app/db.py:127-134 | The answer is true iff some row with a vector scores strictly above the threshold. With no such row, including an empty store, it is false. |
| AppRetrieval.IsListRequest | app/db.py:137-139 | True iff the lowercased question contains one of the five triggers. |
| AppRetrieval.IsListRequestIgnoresCase | app/db.py:139 | Lowercasing the question first changes nothing. |
| AppRetrieval.GenerateHelpLink | app/db.py:150-168 | The loop and the sort compute the help-link text of the specification function. |
| AppRetrieval.RelevantLinksNonEmpty | app/db.py:152-159 | Some link is relevant iff some row has a URL and a vector scoring at least the threshold. |
| AppRetrieval.RelevantLinksFromRows | app/db.py:152-159 | Every relevant link is (score, url) of a qualifying row. |
| AppRetrieval.TopLinksFromRows | app/db.py:161-163 | At most `top_k` links are returned, each from a row with a URL and a vector scoring at least the threshold. |
| AppRetrieval.TopLinksOrder | app/db.py:161 | The links are in non-increasing score order. The sort keeps links of equal score in row order (it is stable). |
| AppRetrieval.LinkOrderTotal | app/db.py:161 | Helper fact about the fixed order definition: ordering by score alone is a total preorder, which the sorting lemmas need. |
| AppRetrieval.HelpLinkFallback | app/db.py:163-168 | The text is exactly the site URL when no row qualifies. Otherwise it is the kept URLs joined by newlines. |
| AppLister.ListProjectsForAudience | app/db.py:271-328 | A row without a URL makes the call fail (None). Otherwise the reply is the listing text of the selected rows. |
| AppLister.FilterRow | app/db.py:295-316 | A row passes the URL and keyword filters iff its URL contains the `/students` path and, for a keyword other than "студент", its lowercased title contains a domain keyword. A passing row yields its summary. |
| AppLister.NextProject | app/db.py:295-319 | A row is added iff it is a candidate and its title is unseen. What is added is its (stripped title, summary, url). |
| AppLister.SummaryBounds | app/db.py:316 | A summary has at most 160 characters and never contains ". ". |
| AppLister.ListedRowsAreCandidates | app/db.py:295-319 | Every listed row has a URL containing `/students`, passes the keyword test and has a non-empty summary. |
| AppLister.ListedRowsAreFirst | app/db.py:317-318 | Each listed row is the first candidate with its title. |
| AppLister.ListedRowsOrderedDistinct | app/db.py:317-319 | The listed rows keep row order and have pairwise distinct titles. |
| AppLister.ListedRowsComplete | app/db.py:317-319 | Every candidate's title is listed. |
| AppLister.ListingNotFound | app/db.py:321-328 | The "not found" message is returned iff no row is a candidate. Otherwise the reply starts with the bullet "- ". |
| AppLister.ListedRowsEmptyIff | app/db.py:321 | Nothing is listed iff no row is a candidate. |
| AppLister.RelevantPathIsStudents | app/db.py:278-288 | Helper fact about the fixed lookup table: the path the lister uses is `/students`, whatever the keyword. |
| AppLister.StudentsAdmitAll | app/db.py:299-300 | For a keyword that lowercases to "студент", a row with a URL is a candidate iff its URL contains `/students` and its summary is non-empty. |
| AppLister.FormatProjects | app/db.py:324-326 | The loop formats each project as "- title\n  summary...\n  🔗 url". |
| AppLister.FirstBullet | app/db.py:326 | Every formatted entry starts with "- ". |
| AppLister.PicksStep | app/db.py:317-319 | One step of the selection loop extends the selection by the row exactly when it is a candidate with an unseen title. |
| AppLister.PicksNoneIff | app/db.py:317-321 | The selection is empty iff no remaining row is a candidate with an unseen title. |
| AppIngest.FetchPageData | app/db.py:177-192 | The two loops produce the card tuples, then the section tuples, in page order. |
| AppIngest.CardRowsRule | app/db.py:177-182 | A card yields a tuple iff its text is non-empty and has at least five words. The tuple's title is the stripped first 40 characters, and the tuple carries the page URL and the card's vector. |
| AppIngest.SectionRowsRule | app/db.py:184-190 | A section yields a tuple iff it has an h2/h3/h4 heading. The tuple's title is the stripped heading, and it yields even when its text is empty. |
| AppIngest.CardTitle | app/db.py:180 | A card title has at most 40 characters. |
| AppIngest.StampedRoundTrip | app/db.py:230-233 | The saved rows give back `data`, in order, and each carries the same timestamp. |
| AppIngest.SaveToDb | app/db.py:220-238 | Afterwards the table is `data` stamped with `now`, and meta has `last_updated` set to `now` with every other key unchanged. |
| AppIngest.UpdateIfNeeded | app/db.py:258-268 | A refresh happens iff the stored value is absent or empty, or is more than four days old. It saves the crawl, or fails if the crawl fails. An unparsable value raises. In every other case the store is unchanged. |
| AppIngest.RefreshThenUpToDate | app/db.py:238 | Right after a save, a check within four days finds the store up to date. |
| Freshness.DecideRefresh | app/db.py:261-263 | The refresh test holds iff the value is absent, empty or older than 345600 seconds (strictly). |
| Freshness.ParseFormat | app/db.py:238 | A written timestamp reads back as itself. |
| Freshness.FreshAfterSave | db.py:157-159 | A store stamped at t is refreshed at `now` iff now − t exceeds four days. |
| Freshness.StaleStaysStale | db.py:157-159 | Once stale, a store stays stale at every later time. |
| Freshness.FormatTimestamp | app/db.py:238 | A written timestamp is a non-empty string of digits. |
| Freshness.ParseTimestamp | app/db.py:261 | A value parses iff it is a non-empty string of digits. |
| Storage.Store.constructor | app/db.py:40 | A new store has no rows and no meta entries. |
| Storage.Store.DeleteAll | app/db.py:223 | Afterwards there are no rows and meta is unchanged. |
| Storage.Store.Insert | db.py:119-125 | The row is appended and nothing else changes. |
| Storage.Store.InsertMany | app/db.py:225-234 | The batch is appended in order and nothing else changes. |
| Storage.Store.SetMetaValue | app/db.py:241-246 | The key is set to the value (insert or replace). Rows and every other key are unchanged. |
| Storage.Store.MetaValue | app/db.py:249-255 | The result is the stored value if the key is present, and None otherwise. |
| Sorting.SortDescPermutation | app/db.py:115 | Sorting permutes its input. |
| Sorting.SortDescSorted | app/db.py:115 | Under a total preorder, the sorted output is non-increasing. |
| Sorting.SortDescStable | app/db.py:161 | Elements that tie keep their input order, as in Python's stable sort. |
| Sorting.SortedCutDominates | app/db.py:163 | In a sorted sequence, each of the first n elements is at least each element after them. |
| Ranking.FirstArgmaxUnique | app/db.py:92-94 | The first row attaining the maximum is unique. |
| Text.StripTrims | app/app.py:59 | `strip()` removes exactly the leading and trailing whitespace, and leaves empty only all-whitespace text. |
| Text.LowerIdempotent | app/app.py:59 | Lowercasing twice is lowercasing once. |
| Text.BeforeFirstAbsent | app/db.py:316 | The text before the first separator does not contain the separator. |
| Text.WordCount | app/db.py:179 | The word count is zero iff the text is all whitespace. |
| Text.LexLeqTotal | app/db.py:115 | String order is total. |
| Text.LexLeqTransitive | app/db.py:115 | String order is transitive. |
| Text.LexLeqAntisymmetric | app/db.py:115 | String order is antisymmetric. |
| RootDb.SearchKnowledge | db.py:194-211 | The reply is the "not found" sentence iff no row has a vector scoring above −1. Otherwise it is "Title: …\nContent: " + 500 characters + "..." of the first row attaining the maximum. |
| RootDb.Answer | db.py:208 | An answer ends in "...". |
| RootDb.AnswerIsNotNotFound | db.py:208-211 | No answer equals the "not found" sentence. |
| RootDb.GetAllContextText | db.py:222-226 | The loop yields the first 7000 characters of the concatenated "title:\ncontent\n\n" entries. |
| RootDb.ContextTruncation | db.py:226 | The context has at most 7000 characters and is a prefix of the full text. It equals the full text iff that text is short enough. |
| RootDb.FullContextHoldsEntries | db.py:223-224 | Each row's entry sits in the full text at its offset. |
| RootDb.EntryKept | db.py:223-226 | Each entry that ends within the first 7000 characters appears intact in the context. |
| RootDb.FetchPageData | db.py:63-81 | The loop keeps the sections of the specification function, in order. |
| RootDb.PageRowsRule | db.py:63-73 | A section is kept iff it has a heading, non-empty text and a vector. Its tuple is (stripped heading, text, vector). |
| RootDb.InternalLinks | db.py:91-98 | A link is internal iff it is some href, joined to the site URL when it starts with "#", and it starts with the site URL. |
| RootDb.CollectInternalLinks | db.py:91-98 | The loop collects exactly the internal links. |
| RootDb.CrawlPages | db.py:101-106 | Crawling fails iff fetching some page fails. |
| RootDb.CrawlStep | db.py:106 | Crawling one more page appends that page's tuples. |
| RootDb.CrawlLinks | db.py:104-106 | The loop over the link set fails iff some link fails. Otherwise its data is the crawl of some enumeration of the set. |
| RootDb.FetchSiteData | db.py:84-108 | A failing root page fails the whole crawl. Otherwise the crawl fails iff some internal link fails, and its data is the root page's tuples followed by those of the links, in some order of the set. |
| RootDb.RootStamped | db.py:118-125 | Each stored row is its tuple stamped with `now`. |
| RootDb.SaveToDb | db.py:111-131 | The table becomes `data` stamped with `now`, and `last_updated` is set to `now`. |
| RootDb.UpdateIfNeeded | db.py:153-164 | This is the same refresh rule as the app variant, with the same effects on the store. |
| RootDb.RefreshedRowsAreScored | db.py:118-125 | Every saved row has a vector, so search scores every one of them. |
| Bot.VkBot.constructor | app/app.py:28-44 | A new bot has sent nothing. |
| Bot.VkBot.SendMessage | app/app.py:46-53 | The message is appended to the sent log. |
| Bot.VkBot.HandleMessage | app/app.py:55-159 | Handling an event sends exactly the messages of the specification function `Outgoing`. |
| Bot.VkBot.Answer | app/app.py:73-156 | The reply after the early returns is `AnswerTo` of the corrected text. |
| Bot.VkBot.PickAudience | app/app.py:95-105 | The loop picks the first audience word, in the fixed order, that occurs in the text. |
| Bot.VkBot.BuildContext | app/app.py:111-116 | The context computed is the one of the specification function. |
| Bot.VkBot.AskModel | app/app.py:119-154 | The model call, the link gate and the fallback give the reply of the specification function. |
| Bot.FirstMatch | app/app.py:96-105 | The first match is None iff no word occurs. Otherwise it is a word that occurs, with no earlier word occurring. |
| Bot.StartCommandFirst | app/app.py:63-67 | "/start" or "начать" gets the greeting, whatever the store and the services. |
| Bot.EmptyTextPrompt | app/app.py:69-71 | An all-whitespace message gets the prompt. |
| Bot.ToxicStops | app/app.py:76-81 | A toxic corrected text gets only the warning, whatever the store and the other services. |
| Bot.ListRequestSkipsModel | app/app.py:95-108 | A list request naming an audience gets the lister's answer for the first audience word. The reply does not depend on the language model. |
| Bot.FirstMatchIsFirst | app/app.py:96-105 | The word at the first occurring position is the first match. |
| Bot.ModelAskedOtherwise | app/app.py:95-156 | When no early return or listing applies, the reply is the model's reply to the request for the corrected text. |
| Bot.RequestFlags | app/app.py:83-92 | `is_binary` holds iff one of the five yes/no triggers occurs. `is_list` is `is_list_request`. `external` holds iff no row with a vector scores above 0.4. |
| Bot.ContextEmptyIffExternal | app/app.py:111-116 | The context is empty iff the question is external. Otherwise it starts with the intro text and "\n\n". |
| Bot.LinksAppendedIff | app/app.py:136-150 | The answer is extended iff the question is not external and the lowercased answer contains one of the six keywords. It is then followed by the link header and the help links. |
| Bot.ModelFailureApology | app/app.py:152-154 | A failing model call gives the fixed apology. |
| Bot.ExternalNoLinks | app/app.py:111-112 | An external question gets no context and no links. |
| Bot.AtMostOneMessage | app/app.py:55-159 | At most one message is sent per event, and it goes to the sender. |

## Left out

- Floating point: scores are mathematical reals given by an opaque function. `cosine_similarity`, `model.similarity` and float32 buffers are not part of this model.
- The sentence encoder, the spelling corrector, the toxicity classifier and the language model are function parameters. Their internals (app/text_utils.py, app/ai_gigachat.py) are not part of this model.
- Rendering, HTTP and HTML parsing (Playwright, `requests`, BeautifulSoup) are left out. A page arrives as the texts of its cards and sections and its hrefs. `urljoin` is a parameter.
- `fetch_site_data` of `app/db.py` (link cleaning, root removal, per-link exception handling) is not part of this model. Only the root `db.py` crawl is modelled.
- sqlite connections, `init_db` and the table schema are replaced by the in-memory `Store`.
- `datetime.now` and `fromisoformat`: times are whole seconds, stored as decimal digits. The clock readings are parameters.
- `lower()` maps only the ASCII capitals, the Latin-1 capitals U+00C0–U+00DE (except U+00D7) and the Cyrillic capitals U+0400–U+042F. Other characters that Python lowercases, such as Latin Extended and Greek capitals, are left unchanged.
- `strip()` and `split()` use exactly Python's `str.isspace` set of whitespace characters (`Text.IsSpace`), so nothing is left out there.
- The branch at app/db.py:289-290 can never run, since the `/students` path is not empty, and it is not modelled.
- The root `search_knowledge` branch for a missing query embedding (db.py:186-187) is not modelled, since the encoder is total here.
- `safe_encode` (db.py:41-53) is an encoder parameter that may return None.
- `check_data_in_db`, the root `app.py`, `app/config.py`, the VK long poll and `run` are I/O glue and are left out.
- Bot.VkBot.constructor: only the empty log of sent messages is modelled. The VK session set-up and the start-up `init_db()` / `update_if_needed()` at app/app.py:39-40 are not; `AppIngest.UpdateIfNeeded` models that refresh on its own.
- Exceptions: only those that change what is sent or stored are modelled. They are:
  - a row without a URL in the lister;
  - an event without `from_id` or `text`, a `KeyError` that app/app.py:158-159 swallows, so nothing is sent (`Bot.Outgoing`);
  - a failing model call;
  - a failing crawl;
  - an unreadable timestamp.

  Any other exception inside `handle_message` is not modelled.
- RootDb.FetchSiteData: the root page is fetched twice in the source, once for its links and once for its sections. The model assumes both fetches return the same page.
- RootDb.CrawlLinks: the iteration order of a Python set is not known. The contract promises some enumeration of the set rather than a specific one.
- Storage.Store: the `SELECT`s at app/db.py:79, 103, 123, 146 and 274 have no `ORDER BY`. The model assumes rows come back in insertion order, as SQLite's rowid table scan returns them. The first-argmax tie-break, the stable order of equal-scored links and the lister's keep-the-first-title rule all depend on that order.
