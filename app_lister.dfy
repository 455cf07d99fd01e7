/** `list_projects_for_audience` of app/db.py: the rows under the audience's
    URL path, filtered by a title keyword unless the audience is students,
    de-duplicated by title, each formatted as a bullet with a one-sentence
    summary and its link. */
module AppLister {
  import opened Wrappers
  import opened Text
  import opened AppRetrieval

  /** The audience-to-path table of `list_projects_for_audience`. */
  const AudiencePages: map<string, string> := map[
    "школьник" := "/students",
    "студент" := "/students",
    "специалист" := "/professionals",
    "преподаватель" := "/teachers",
    "учащийся" := "/students",
    "выпускник" := "/students",
    "абитуриент" := "/students"
  ]

  /** The audience whose path the lookup uses, whatever keyword was given. */
  const DefaultAudience: string := "студент"

  /** The path that admits every row without a title keyword. */
  const StudentsPath: string := "/students"

  /** Title words that mark a programme. */
  const DomainKeywords: seq<string> := ["проект", "курс", "школа", "программа", "стажировка", "академия", "трек"]

  /** The reply when no row survives the filters. */
  const NoProjectsMessage: string := "Не удалось найти проекты по заданной категории."

  /** The longest summary kept. */
  const SummaryLength: nat := 160

  /** One `(title, summary, url)` triple of `projects`. */
  datatype Project = Project(title: string, summary: string, url: string)

  /** Every row has a URL (a NULL URL makes the substring test raise). */
  predicate AllUrls(rows: seq<Row>)
  {
    forall i :: 0 <= i < |rows| ==> rows[i].url.Some?
  }

  /** `content.strip().split(". ")[0][:160].strip()`: the first sentence,
      cut to 160 characters. */
  function Summary(content: string): string
  {
    Strip(SlicePrefix(BeforeFirst(Strip(content), ". "), SummaryLength))
  }

  /** A summary is at most 160 characters long and holds no ". ". */
  lemma SummaryBounds(content: string)
    ensures |Summary(content)| <= SummaryLength
    ensures !Contains(Summary(content), ". ")
  {
    var sentence := BeforeFirst(Strip(content), ". ");
    BeforeFirstAbsent(Strip(content), ". ");
    var cut := SlicePrefix(sentence, SummaryLength);
    NotContainedInSlice(sentence, ". ", 0, |cut|);
    StripKeepsAbsent(cut, ". ");
  }

  /** Whether the row (whose URL is under the path) passes the audience
      filter: for the keyword "студент" every row under /students passes,
      otherwise the lower-cased title must contain a domain keyword. */
  predicate Admits(keyword: string, row: Row)
    requires row.url.Some?
  {
    || (Contains(row.url.value, StudentsPath) && Lower(keyword) == DefaultAudience)
    || ContainsAny(Lower(row.title), DomainKeywords)
  }

  /** The row would be listed if its title were new: its URL contains the
      looked-up path (always /students), it passes the audience filter and
      its summary is not empty. */
  predicate Candidate(keyword: string, row: Row)
  {
    && row.url.Some?
    && Contains(row.url.value, AudiencePages[DefaultAudience])
    && Admits(keyword, row)
    && Summary(row.content) != []
  }

  /** Which rows are candidates, and their titles. */
  function CandidateFlags(rows: seq<Row>, keyword: string): (flags: seq<bool>)
    ensures |flags| == |rows|
  {
    if rows == [] then []
    else CandidateFlags(rows[..|rows| - 1], keyword) + [Candidate(keyword, rows[|rows| - 1])]
  }

  /** The flag of row `j` says whether it is a candidate. */
  lemma {:induction false} CandidateFlagAt(rows: seq<Row>, keyword: string, j: int)
    requires 0 <= j < |rows|
    ensures CandidateFlags(rows, keyword)[j] == Candidate(keyword, rows[j])
  {
    if j < |rows| - 1 {
      CandidateFlagAt(rows[..|rows| - 1], keyword, j);
    }
  }

  function Titles(rows: seq<Row>): (titles: seq<string>)
    ensures |titles| == |rows|
  {
    seq(|rows|, j requires 0 <= j < |rows| => rows[j].title)
  }

  /** The indices, from `i` on, of the first flagged entry of each key not in
      `seen`: the de-duplication by title with its `seen` set. */
  function Picks(flags: seq<bool>, keys: seq<string>, i: nat, seen: set<string>): (p: seq<nat>)
    requires |flags| == |keys| && i <= |keys|
    ensures forall a :: 0 <= a < |p| ==> i <= p[a] < |keys|
    decreases |keys| - i
  {
    if i == |keys| then []
    else if flags[i] && keys[i] !in seen
    then [i] + Picks(flags, keys, i + 1, seen + {keys[i]})
    else Picks(flags, keys, i + 1, seen)
  }

  /** The indices of the rows that are listed. */
  function ListedRows(rows: seq<Row>, keyword: string): seq<nat>
  {
    Picks(CandidateFlags(rows, keyword), Titles(rows), 0, {})
  }

  function ProjectOf(row: Row): Project
    requires row.url.Some?
  {
    Project(Strip(row.title), Summary(row.content), row.url.value)
  }

  /** `f"- {title}\n  {summary}...\n  🔗 {url}"`. */
  function FormatProject(p: Project): string
  {
    "- " + p.title + "\n  " + p.summary + "...\n  \U{1F517} " + p.url
  }

  function ProjectsOf(rows: seq<Row>, picks: seq<nat>): seq<Project>
    requires forall a :: 0 <= a < |picks| ==> picks[a] < |rows| && rows[picks[a]].url.Some?
  {
    seq(|picks|, a requires 0 <= a < |picks| => ProjectOf(rows[picks[a]]))
  }

  function FormatAll(projects: seq<Project>): seq<string>
  {
    seq(|projects|, a requires 0 <= a < |projects| => FormatProject(projects[a]))
  }

  /** The reply of `list_projects_for_audience` on a table whose rows all have a URL. */
  function ListingText(rows: seq<Row>, keyword: string): string
  {
    var picks := ListedRows(rows, keyword);
    ListedRowsAreCandidates(rows, keyword);
    if picks == [] then NoProjectsMessage else Join(FormatAll(ProjectsOf(rows, picks)), "\n\n")
  }

  /** The filters of the loop body of `list_projects_for_audience` for one
      row: the URL must contain the looked-up path and the row must pass the
      audience filter; the row's summary is returned when it does. */
  method FilterRow(row: Row, keyword: string, relevantUrl: string) returns (summary: Option<string>)
    requires row.url.Some? && relevantUrl == AudiencePages[DefaultAudience]
    ensures summary.Some? <==> Contains(row.url.value, relevantUrl) && Admits(keyword, row)
    ensures summary.Some? ==> summary.value == Summary(row.content)
    ensures summary.Some? && summary.value != [] <==> Candidate(keyword, row)
  {
    var url := row.url.value;
    if !Contains(url, relevantUrl) {
      return None;
    }
    if !(Contains(url, StudentsPath) && Lower(keyword) == DefaultAudience)
       && !ContainsAny(Lower(row.title), DomainKeywords) {
      return None;
    }
    return Some(Summary(row.content));
  }

  /** `list_projects_for_audience`. None stands for the `TypeError` that a
      row with a NULL URL raises in the substring test. */
  method ListProjectsForAudience(rows: seq<Row>, keyword: string) returns (reply: Option<string>)
    ensures reply.None? <==> !AllUrls(rows)
    ensures reply.Some? ==> reply.value == ListingText(rows, keyword)
  {
    var relevantUrl := AudiencePages[DefaultAudience];
    var projects: seq<Project> := [];
    var seenTitles: set<string> := {};
    ghost var picks: seq<nat> := [];
    ghost var flags, titles, all := CandidateFlags(rows, keyword), Titles(rows), RowProjects(rows);
    var i := 0;
    while i < |rows|
      invariant 0 <= i <= |rows|
      invariant forall j :: 0 <= j < i ==> rows[j].url.Some?
      invariant forall a :: 0 <= a < |picks| ==> picks[a] < i && rows[picks[a]].url.Some?
      invariant picks + Picks(flags, titles, i, seenTitles) == ListedRows(rows, keyword)
      invariant |projects| == |picks|
      invariant forall a :: 0 <= a < |picks| ==> projects[a] == all[picks[a]]
    {
      var row := rows[i];
      if row.url.None? {
        return None;
      }
      PicksStep(flags, titles, i, seenTitles, picks);
      var added := NextProject(rows, i, keyword, relevantUrl, seenTitles);
      if added.Some? {
        seenTitles := seenTitles + {row.title};
        projects := projects + [added.value];
        picks := picks + [i];
      }
      i := i + 1;
    }
    assert picks == ListedRows(rows, keyword);
    ProjectsFromRows(rows, picks, projects);
    if projects == [] {
      return Some(NoProjectsMessage);
    }
    var formatted := FormatProjects(projects);
    reply := Some(Join(formatted, "\n\n"));
  }

  /** One pass of the row loop on row `i` (which has a URL): the project it
      adds, if it is a candidate whose title has not been seen. */
  method NextProject(rows: seq<Row>, i: int, keyword: string, relevantUrl: string, seenTitles: set<string>)
    returns (added: Option<Project>)
    requires 0 <= i < |rows| && rows[i].url.Some? && relevantUrl == AudiencePages[DefaultAudience]
    ensures added.Some? <==> CandidateFlags(rows, keyword)[i] && Titles(rows)[i] !in seenTitles
    ensures added.Some? ==> added.value == RowProjects(rows)[i]
  {
    var row := rows[i];
    CandidateFlagAt(rows, keyword, i);
    RowProjectsAt(rows);
    var summary := FilterRow(row, keyword, relevantUrl);
    if summary.Some? {
      if row.title !in seenTitles && summary.value != [] {
        return Some(Project(Strip(row.title), summary.value, row.url.value));
      }
    }
    return None;
  }

  /** The project of every row, a placeholder for a row without a URL. */
  ghost function RowProjects(rows: seq<Row>): (ps: seq<Project>)
    ensures |ps| == |rows|
  {
    if rows == [] then []
    else
      var last := rows[|rows| - 1];
      RowProjects(rows[..|rows| - 1]) + [if last.url.Some? then ProjectOf(last) else Project([], [], [])]
  }

  lemma {:induction false} RowProjectsAt(rows: seq<Row>)
    ensures forall j :: 0 <= j < |rows| && rows[j].url.Some? ==> RowProjects(rows)[j] == ProjectOf(rows[j])
  {
    if rows != [] {
      RowProjectsAt(rows[..|rows| - 1]);
    }
  }

  lemma ProjectsFromRows(rows: seq<Row>, picks: seq<nat>, projects: seq<Project>)
    requires forall a :: 0 <= a < |picks| ==> picks[a] < |rows| && rows[picks[a]].url.Some?
    requires |projects| == |picks|
    requires forall a :: 0 <= a < |picks| ==> projects[a] == RowProjects(rows)[picks[a]]
    ensures ProjectsOf(rows, picks) == projects
  {
    RowProjectsAt(rows);
  }

  /** The formatting loop at the end of `list_projects_for_audience`: one
      bullet per project, in order. */
  method FormatProjects(projects: seq<Project>) returns (formatted: seq<string>)
    ensures formatted == FormatAll(projects)
  {
    formatted := [];
    var k := 0;
    while k < |projects|
      invariant 0 <= k <= |projects|
      invariant formatted == FormatAll(projects[..k])
    {
      formatted := formatted + [FormatProject(projects[k])];
      k := k + 1;
    }
    assert projects[..k] == projects;
  }

  /** Every listed row is a candidate. */
  lemma ListedRowsAreCandidates(rows: seq<Row>, keyword: string)
    ensures forall a :: 0 <= a < |ListedRows(rows, keyword)| ==>
      ListedRows(rows, keyword)[a] < |rows| && Candidate(keyword, rows[ListedRows(rows, keyword)[a]])
  {
    var picks := ListedRows(rows, keyword);
    PicksFlagged(CandidateFlags(rows, keyword), Titles(rows), 0, {});
    forall a | 0 <= a < |picks|
      ensures Candidate(keyword, rows[picks[a]])
    {
      CandidateFlagAt(rows, keyword, picks[a]);
    }
  }

  lemma {:induction false} PicksFlagged(flags: seq<bool>, keys: seq<string>, i: nat, seen: set<string>)
    requires |flags| == |keys| && i <= |keys|
    ensures forall a :: 0 <= a < |Picks(flags, keys, i, seen)| ==> flags[Picks(flags, keys, i, seen)[a]]
    decreases |keys| - i
  {
    if i < |keys| {
      if flags[i] && keys[i] !in seen {
        PicksFlagged(flags, keys, i + 1, seen + {keys[i]});
      } else {
        PicksFlagged(flags, keys, i + 1, seen);
      }
    }
  }

  /** Unfolding `Picks` at `i`, behind the picks made before. */
  lemma PicksStep(flags: seq<bool>, keys: seq<string>, i: nat, seen: set<string>, before: seq<nat>)
    requires |flags| == |keys| && i < |keys|
    ensures flags[i] && keys[i] !in seen ==>
      before + Picks(flags, keys, i, seen) == (before + [i]) + Picks(flags, keys, i + 1, seen + {keys[i]})
    ensures !(flags[i] && keys[i] !in seen) ==>
      before + Picks(flags, keys, i, seen) == before + Picks(flags, keys, i + 1, seen)
  {
  }

  /** The picks lie in `[i, |keys|)`, increase strictly, are flagged, have
      keys outside `seen`, and carry pairwise different keys. */
  lemma {:induction false} PicksInRange(flags: seq<bool>, keys: seq<string>, i: nat, seen: set<string>)
    requires |flags| == |keys| && i <= |keys|
    ensures forall a :: 0 <= a < |Picks(flags, keys, i, seen)| ==>
      var p := Picks(flags, keys, i, seen)[a];
      flags[p] && keys[p] !in seen
    ensures forall a, b :: 0 <= a < b < |Picks(flags, keys, i, seen)| ==>
      Picks(flags, keys, i, seen)[a] < Picks(flags, keys, i, seen)[b]
      && keys[Picks(flags, keys, i, seen)[a]] != keys[Picks(flags, keys, i, seen)[b]]
    decreases |keys| - i
  {
    if i < |keys| {
      if flags[i] && keys[i] !in seen {
        PicksInRange(flags, keys, i + 1, seen + {keys[i]});
      } else {
        PicksInRange(flags, keys, i + 1, seen);
      }
    }
  }

  /** Every flagged entry from `i` on whose key is not in `seen` is picked,
      itself or by an earlier entry with the same key. */
  lemma {:induction false} PicksComplete(flags: seq<bool>, keys: seq<string>, i: nat, seen: set<string>, j: int)
    requires |flags| == |keys| && i <= j < |keys|
    requires flags[j] && keys[j] !in seen
    ensures exists a ::
      && 0 <= a < |Picks(flags, keys, i, seen)|
      && Picks(flags, keys, i, seen)[a] <= j
      && keys[Picks(flags, keys, i, seen)[a]] == keys[j]
    decreases |keys| - i
  {
    var p := Picks(flags, keys, i, seen);
    if flags[i] && keys[i] !in seen {
      if keys[i] == keys[j] {
        assert p[0] == i;
      } else {
        PicksComplete(flags, keys, i + 1, seen + {keys[i]}, j);
        var rest := Picks(flags, keys, i + 1, seen + {keys[i]});
        var a :| 0 <= a < |rest| && rest[a] <= j && keys[rest[a]] == keys[j];
        assert p[a + 1] == rest[a];
      }
    } else {
      PicksComplete(flags, keys, i + 1, seen, j);
    }
  }

  /** A picked entry is the first flagged one with its key. */
  lemma {:induction false} PicksEarliest(flags: seq<bool>, keys: seq<string>, i: nat, seen: set<string>, a: int, j: int)
    requires |flags| == |keys| && i <= |keys|
    requires 0 <= a < |Picks(flags, keys, i, seen)|
    requires i <= j < Picks(flags, keys, i, seen)[a] && flags[j]
    ensures keys[j] != keys[Picks(flags, keys, i, seen)[a]]
    decreases |keys| - i
  {
    var p := Picks(flags, keys, i, seen);
    PicksInRange(flags, keys, i, seen);
    if flags[i] && keys[i] !in seen {
      var rest := Picks(flags, keys, i + 1, seen + {keys[i]});
      if a > 0 {
        assert p[a] == rest[a - 1];
        PicksInRange(flags, keys, i + 1, seen + {keys[i]});
        if j > i {
          PicksEarliest(flags, keys, i + 1, seen + {keys[i]}, a - 1, j);
        }
      }
    } else {
      var rest := Picks(flags, keys, i + 1, seen);
      if j > i {
        PicksEarliest(flags, keys, i + 1, seen, a, j);
      }
    }
  }

  /** A listed row is a candidate whose URL contains /students, whatever
      the keyword, and it is the first candidate with its title. */
  lemma ListedRowsAreFirst(rows: seq<Row>, keyword: string)
    ensures forall a :: 0 <= a < |ListedRows(rows, keyword)| ==>
      var p := ListedRows(rows, keyword)[a];
      && p < |rows| && Candidate(keyword, rows[p]) && Contains(rows[p].url.value, StudentsPath)
      && forall j :: 0 <= j < p && Candidate(keyword, rows[j]) ==> rows[j].title != rows[p].title
  {
    var flags, titles := CandidateFlags(rows, keyword), Titles(rows);
    var picks := ListedRows(rows, keyword);
    ListedRowsAreCandidates(rows, keyword);
    RelevantPathIsStudents();
    forall a, j | 0 <= a < |picks| && 0 <= j < picks[a] && Candidate(keyword, rows[j])
      ensures rows[j].title != rows[picks[a]].title
    {
      CandidateFlagAt(rows, keyword, j);
      PicksEarliest(flags, titles, 0, {}, a, j);
    }
  }

  /** The listed rows come in row order and carry different titles. */
  lemma ListedRowsOrderedDistinct(rows: seq<Row>, keyword: string)
    ensures forall a, b :: 0 <= a < b < |ListedRows(rows, keyword)| ==>
      ListedRows(rows, keyword)[a] < ListedRows(rows, keyword)[b]
      && rows[ListedRows(rows, keyword)[a]].title != rows[ListedRows(rows, keyword)[b]].title
  {
    PicksInRange(CandidateFlags(rows, keyword), Titles(rows), 0, {});
  }

  /** No candidate is lost: the title of every candidate row is listed. */
  lemma ListedRowsComplete(rows: seq<Row>, keyword: string, j: int)
    requires 0 <= j < |rows| && Candidate(keyword, rows[j])
    ensures exists a :: 0 <= a < |ListedRows(rows, keyword)| && rows[ListedRows(rows, keyword)[a]].title == rows[j].title
  {
    var flags, titles := CandidateFlags(rows, keyword), Titles(rows);
    var picks := ListedRows(rows, keyword);
    CandidateFlagAt(rows, keyword, j);
    PicksComplete(flags, titles, 0, {}, j);
    var a :| 0 <= a < |picks| && picks[a] <= j && titles[picks[a]] == titles[j];
  }

  /** The lookup for the listing always yields /students. */
  lemma RelevantPathIsStudents()
    ensures AudiencePages[DefaultAudience] == StudentsPath
  {
  }

  /** For the keyword "студент" (in any case) every row under /students with
      a non-empty summary is a candidate, whatever its title. */
  lemma StudentsAdmitAll(rows: seq<Row>, keyword: string, j: int)
    requires 0 <= j < |rows| && Lower(keyword) == DefaultAudience
    ensures Candidate(keyword, rows[j]) <==>
      rows[j].url.Some? && Contains(rows[j].url.value, StudentsPath) && Summary(rows[j].content) != []
  {
  }

  /** Nothing is listed exactly when no row is a candidate; then the reply
      is the "not found" message, otherwise a list of bullets. */
  lemma ListingNotFound(rows: seq<Row>, keyword: string)
    ensures ListedRows(rows, keyword) == [] <==> forall j :: 0 <= j < |rows| ==> !Candidate(keyword, rows[j])
    ensures ListedRows(rows, keyword) == [] ==> ListingText(rows, keyword) == NoProjectsMessage
    ensures ListedRows(rows, keyword) != [] ==> StartsWith(ListingText(rows, keyword), "- ")
  {
    ListedRowsEmptyIff(rows, keyword);
    if ListedRows(rows, keyword) != [] {
      ListingBullets(rows, keyword);
    }
  }

  lemma ListedRowsEmptyIff(rows: seq<Row>, keyword: string)
    ensures ListedRows(rows, keyword) == [] <==> forall j :: 0 <= j < |rows| ==> !Candidate(keyword, rows[j])
  {
    var flags := CandidateFlags(rows, keyword);
    PicksNoneIff(flags, Titles(rows), 0, {});
    forall j | 0 <= j < |rows|
      ensures flags[j] == Candidate(keyword, rows[j])
    {
      CandidateFlagAt(rows, keyword, j);
    }
  }

  lemma ListingBullets(rows: seq<Row>, keyword: string)
    requires ListedRows(rows, keyword) != []
    ensures StartsWith(ListingText(rows, keyword), "- ")
  {
    var picks := ListedRows(rows, keyword);
    ListedRowsAreCandidates(rows, keyword);
    var projects := ProjectsOf(rows, picks);
    FirstBullet(projects);
    JoinStartsWith(FormatAll(projects), "\n\n", "- ");
  }

  /** Every formatted project starts with "- ". */
  lemma FirstBullet(projects: seq<Project>)
    requires projects != []
    ensures StartsWith(FormatAll(projects)[0], "- ")
  {
    assert FormatAll(projects)[0] == FormatProject(projects[0]);
  }

  /** No entry is picked exactly when no entry from `i` on is flagged with a
      key outside `seen`. */
  lemma {:induction false} PicksNoneIff(flags: seq<bool>, keys: seq<string>, i: nat, seen: set<string>)
    requires |flags| == |keys| && i <= |keys|
    ensures Picks(flags, keys, i, seen) == [] <==> forall j :: i <= j < |keys| ==> !(flags[j] && keys[j] !in seen)
    decreases |keys| - i
  {
    if i < |keys| && !(flags[i] && keys[i] !in seen) {
      PicksNoneIff(flags, keys, i + 1, seen);
    }
  }
}
