/** The search pipeline of `src/main.py`: `ConsoleParser.results`,
    `prepare_results_from_domain` and `prepare_download`.

    The HTML parser is a parameter `soup` from page text to the structured
    document; the network outcome is a `Transport`; the file-system test
    `path.isfile` is a parameter `isFile`; `urljoin` is a parameter `join`.
 */
module Search {

  import opened Errors
  import opened Text
  import Http
  import Myrient
  import opened Listing

  const NoGameCubeParser := "name 'MyrientGamecubeParser' is not defined"
  const UnsupportedPrefix := "Unsupported console: "
  const FailurePrefix := "Failure to obtain response content. Status Code: "

  /** The comprehension's condition: the normalised query is a substring of
      the normalised title. */
  predicate TitleMatches(row: Row, query: string) {
    Title(row).Ok? && Contains(Normalize(Title(row).value), Normalize(query))
  }

  /** The comprehension at the end of `results`: rows are kept in order when
      their title contains the query; the first row without a title raises. */
  function FilterByTitle(rows: seq<Row>, query: string): (r: Result<seq<Row>>)
    ensures r.Err? <==> exists i :: 0 <= i < |rows| && Title(rows[i]).Err?
    ensures r.Err? ==>
      exists i :: 0 <= i < |rows| && Title(rows[i]) == Err(r.error)
        && forall j :: 0 <= j < i ==> Title(rows[j]).Ok?
    ensures r.Ok? ==> |r.value| <= |rows|
    ensures r.Ok? ==> forall row :: row in r.value <==> row in rows && TitleMatches(row, query)
  {
    if |rows| == 0 then Ok([])
    else
      var _ :- Title(rows[0]);
      var rest := FilterByTitle(rows[1..], query);
      if rest.Err? then
        TitleErrorShift(rows, rest.error);
        Err(rest.error)
      else
        var kept := (if TitleMatches(rows[0], query) then [rows[0]] else []) + rest.value;
        KeptShift(rows, query, rest.value);
        Ok(kept)
  }

  /** The first untitled row of `rows[1..]` is the first of `rows` when
      `rows[0]` has a title. */
  lemma TitleErrorShift(rows: seq<Row>, e: Error)
    requires |rows| > 0 && Title(rows[0]).Ok?
    requires exists i ::
      0 <= i < |rows[1..]| && Title(rows[1..][i]) == Err(e)
      && forall j :: 0 <= j < i ==> Title(rows[1..][j]).Ok?
    ensures exists i ::
      0 <= i < |rows| && Title(rows[i]) == Err(e)
      && forall j :: 0 <= j < i ==> Title(rows[j]).Ok?
  {
    var i :| 0 <= i < |rows[1..]| && Title(rows[1..][i]) == Err(e)
      && forall j :: 0 <= j < i ==> Title(rows[1..][j]).Ok?;
    assert Title(rows[i + 1]) == Err(e);
    forall j | 0 <= j < i + 1
      ensures Title(rows[j]).Ok?
    {
      if j > 0 {
        assert rows[j] == rows[1..][j - 1];
      }
    }
  }

  /** Consing a row in front keeps the filter's membership statement, and
      an all-titled tail stays all-titled. */
  lemma KeptShift(rows: seq<Row>, query: string, rest: seq<Row>)
    requires |rows| > 0 && Title(rows[0]).Ok?
    requires !exists i :: 0 <= i < |rows[1..]| && Title(rows[1..][i]).Err?
    requires forall row :: row in rest <==> row in rows[1..] && TitleMatches(row, query)
    requires |rest| <= |rows[1..]|
    ensures !exists i :: 0 <= i < |rows| && Title(rows[i]).Err?
    ensures forall row ::
      row in (if TitleMatches(rows[0], query) then [rows[0]] else []) + rest
      <==> row in rows && TitleMatches(row, query)
    ensures |(if TitleMatches(rows[0], query) then [rows[0]] else []) + rest| <= |rows|
  {
    assert rows == [rows[0]] + rows[1..];
    forall i | 0 <= i < |rows|
      ensures Title(rows[i]).Ok?
    {
      if i > 0 {
        assert rows[i] == rows[1..][i - 1];
      }
    }
  }

  /** The empty query is part of every title, so it keeps every row. */
  lemma EmptyQueryKeepsAll(rows: seq<Row>)
    requires AllTitled(rows)
    ensures FilterByTitle(rows, "") == Ok(rows)
  {
    NormalizeEmpty();
    forall i | 0 <= i < |rows|
      ensures MatchesQuery("")(rows[i])
    {
      ContainsEmpty(Normalize(Title(rows[i]).value));
    }
    FilterByTitleIsKeepWhere(rows, "");
    KeepWhereAll(rows, MatchesQuery(""));
  }

  /** Filtering a filtered list by the same query changes nothing. */
  lemma {:induction false} FilterByTitleIdempotent(rows: seq<Row>, query: string)
    requires FilterByTitle(rows, query).Ok?
    ensures FilterByTitle(FilterByTitle(rows, query).value, query) == FilterByTitle(rows, query)
    decreases |rows|
  {
    if |rows| > 0 {
      FilterByTitleIdempotent(rows[1..], query);
      var kept := FilterByTitle(rows, query).value;
      var rest := FilterByTitle(rows[1..], query).value;
      if TitleMatches(rows[0], query) {
        assert kept == [rows[0]] + rest;
        assert kept[1..] == rest;
      } else {
        assert kept == rest;
      }
    }
  }

  /** Every row of `rows` has a title. */
  predicate AllTitled(rows: seq<Row>) {
    forall i :: 0 <= i < |rows| ==> Title(rows[i]).Ok?
  }

  /** The comprehension's condition as a value. */
  function MatchesQuery(query: string): Row -> bool {
    row => TitleMatches(row, query)
  }

  /** The rows of `rows` satisfying `keep`, in order: the reference the
      comprehension is compared with once every row has a title. */
  function KeepWhere(rows: seq<Row>, keep: Row -> bool): seq<Row> {
    if |rows| == 0 then []
    else (if keep(rows[0]) then [rows[0]] else []) + KeepWhere(rows[1..], keep)
  }

  lemma {:induction false} FilterByTitleIsKeepWhere(rows: seq<Row>, query: string)
    requires AllTitled(rows)
    ensures FilterByTitle(rows, query) == Ok(KeepWhere(rows, MatchesQuery(query)))
    decreases |rows|
  {
    if |rows| > 0 {
      assert AllTitled(rows[1..]) by {
        assert forall i :: 0 <= i < |rows[1..]| ==> rows[1..][i] == rows[i + 1];
      }
      FilterByTitleIsKeepWhere(rows[1..], query);
      assert MatchesQuery(query)(rows[0]) == TitleMatches(rows[0], query);
    }
  }

  lemma {:induction false} KeepWhereAll(rows: seq<Row>, keep: Row -> bool)
    requires forall i :: 0 <= i < |rows| ==> keep(rows[i])
    ensures KeepWhere(rows, keep) == rows
    decreases |rows|
  {
    if |rows| > 0 {
      assert forall i :: 0 <= i < |rows[1..]| ==> rows[1..][i] == rows[i + 1];
      KeepWhereAll(rows[1..], keep);
      assert rows == [rows[0]] + rows[1..];
    }
  }

  lemma {:induction false} KeepWhereAppend(a: seq<Row>, b: seq<Row>, keep: Row -> bool)
    ensures KeepWhere(a + b, keep) == KeepWhere(a, keep) + KeepWhere(b, keep)
    decreases |a|
  {
    if |a| == 0 {
      assert a + b == b;
    } else {
      var head := if keep(a[0]) then [a[0]] else [];
      assert (a + b)[0] == a[0];
      assert (a + b)[1..] == a[1..] + b;
      assert KeepWhere(a + b, keep) == head + KeepWhere(a[1..] + b, keep);
      KeepWhereAppend(a[1..], b, keep);
      assert head + (KeepWhere(a[1..], keep) + KeepWhere(b, keep))
          == (head + KeepWhere(a[1..], keep)) + KeepWhere(b, keep);
    }
  }

  /** Filtering distributes over concatenation of row lists. */
  lemma FilterByTitleAppend(a: seq<Row>, b: seq<Row>, query: string)
    requires AllTitled(a) && AllTitled(b)
    ensures FilterByTitle(a, query).Ok? && FilterByTitle(b, query).Ok?
    ensures FilterByTitle(a + b, query) == Ok(FilterByTitle(a, query).value + FilterByTitle(b, query).value)
  {
    assert AllTitled(a + b) by {
      assert forall i :: 0 <= i < |a| ==> (a + b)[i] == a[i];
      assert forall i :: |a| <= i < |a + b| ==> (a + b)[i] == b[i - |a|];
    }
    FilterByTitleIsKeepWhere(a, query);
    FilterByTitleIsKeepWhere(b, query);
    FilterByTitleIsKeepWhere(a + b, query);
    KeepWhereAppend(a, b, MatchesQuery(query));
  }

  /** The parsed rows are exactly the table rows after the first two. */
  lemma DataRowsOf(doc: Document)
    requires doc.listTable.Some?
    ensures ParseContent(doc).Ok?
    ensures forall row :: row in ParseContent(doc).value <==>
      exists i :: 2 <= i < |doc.listTable.value.rows| && doc.listTable.value.rows[i] == row
  {
    var rows := ParseContent(doc).value;
    var all := doc.listTable.value.rows;
    forall row | row in rows
      ensures exists i :: 2 <= i < |all| && all[i] == row
    {
      var k :| 0 <= k < |rows| && rows[k] == row;
      assert all[k + 2] == row;
    }
    forall row | exists i :: 2 <= i < |all| && all[i] == row
      ensures row in rows
    {
      var i :| 2 <= i < |all| && all[i] == row;
      assert rows[i - 2] == row;
    }
  }

  /** The message `results` raises for the unknown console. */
  lemma UnsupportedUnknownMessage()
    ensures UnsupportedPrefix + Myrient.Display(Myrient.Unknown) == "Unsupported console: MyrientConsole.unknown"
  {
  }

  /** `ConsoleParser(console, content, domain, query).results`, given the
      parse `soup` of the page text. */
  function Results(console: Myrient.MyrientConsole, content: Http.ContentResponse, query: string,
                   soup: string -> Document): (r: Result<seq<Row>>)
    ensures console == Myrient.Unknown ==>
      r == Err(RuntimeError("Unsupported console: MyrientConsole.unknown"))
    ensures console == Myrient.GameCube ==> r == Err(NameError(NoGameCubeParser))
    ensures console == Myrient.PlayStation3 && soup(content.content).listTable.None? ==>
      r == Err(RuntimeError(NoTable))
    ensures r.Ok? ==> console == Myrient.PlayStation3 && soup(content.content).listTable.Some?
    ensures r.Ok? ==> forall row :: row in r.value <==>
      (exists i :: 2 <= i < |soup(content.content).listTable.value.rows|
        && soup(content.content).listTable.value.rows[i] == row)
      && TitleMatches(row, query)
    ensures r.Ok? ==>
      r.value == KeepWhere(ParseContent(soup(content.content)).value, MatchesQuery(query))
    ensures console == Myrient.PlayStation3 && soup(content.content).listTable.Some? ==>
      r == FilterByTitle(ParseContent(soup(content.content)).value, query)
  {
    match console
    case PlayStation3 =>
      var rows :- ParseContent(soup(content.content));
      DataRowsOf(soup(content.content));
      var filtered := FilterByTitle(rows, query);
      if filtered.Ok? then
        FilterByTitleIsKeepWhere(rows, query);
        filtered
      else filtered
    case GameCube => Err(NameError(NoGameCubeParser))
    case Unknown =>
      UnsupportedUnknownMessage();
      Err(RuntimeError(UnsupportedPrefix + Myrient.Display(console)))
  }

  /** A PlayStation 3 listing whose data rows all carry titles gives, for the
      empty query, every data row. */
  lemma ResultsEmptyQuery(content: Http.ContentResponse, soup: string -> Document,
                          header: Row, navigation: Row, data: seq<Row>)
    requires soup(content.content) == Document(Some(Table([header, navigation] + data)))
    requires AllTitled(data)
    ensures Results(Myrient.PlayStation3, content, "", soup) == Ok(data)
  {
    ParseContentDropsHeaderAndNavigation(header, navigation, data);
    EmptyQueryKeepsAll(data);
  }

  function FailureMessage(response: Http.ContentResponse): string {
    FailurePrefix + IntToString(response.statusCode) + ", Message: " + response.content
  }

  /** `prepare_results_from_domain(domain, query, console)` when the GET of
      `domain` had outcome `t`. */
  function PrepareResultsFromDomain(domain: string, query: string, console: Myrient.MyrientConsole,
                                    t: Http.Transport, soup: string -> Document): (r: Result<seq<Row>>)
    ensures Http.IsFailure(Http.FetchUrlContent(domain, t)) ==>
      r == Err(RuntimeError(FailureMessage(Http.FetchUrlContent(domain, t))))
    ensures Http.IsSuccess(Http.FetchUrlContent(domain, t)) ==>
      r == Results(console, Http.FetchUrlContent(domain, t), query, soup)
  {
    var response := Http.FetchUrlContent(domain, t);
    if Http.IsFailure(response) then Err(RuntimeError(FailureMessage(response)))
    else Results(console, response, query, soup)
  }

  /** A failed fetch is reported before the page is parsed, so the parser
      cannot influence the outcome. */
  lemma FailureSkipsParser(domain: string, query: string, console: Myrient.MyrientConsole,
                           t: Http.Transport, soup1: string -> Document, soup2: string -> Document)
    requires Http.IsFailure(Http.FetchUrlContent(domain, t))
    ensures PrepareResultsFromDomain(domain, query, console, t, soup1)
      == PrepareResultsFromDomain(domain, query, console, t, soup2)
    ensures PrepareResultsFromDomain(domain, query, console, t, soup1).Err?
  {
  }

  /** A request that raised without a response always ends in the failure
      error; an error status the failure list does not hold, such as 404,
      reaches the parser with the error page as content. */
  lemma PrepareResultsStatuses(domain: string, query: string, console: Myrient.MyrientConsole,
                               k: Http.ExceptionClass, text: string, soup: string -> Document)
    ensures PrepareResultsFromDomain(domain, query, console, Http.Raised(k, None), soup).Err?
    ensures PrepareResultsFromDomain(domain, query, console, Http.Received(Http.Response(404, text)), soup)
      == Results(console, Http.ContentResponse(domain, 404, text), query, soup)
  {
    Http.FetchWithoutResponseIsFailure(domain, k);
  }

  // ---------------------------------------------------------------------
  // prepare_download

  /** `os.path.join(a, b)` on POSIX: an absolute `b` replaces `a`, otherwise
      a separator is inserted unless `a` is empty or already ends with one. */
  function PathJoin(a: string, b: string): (r: string)
    ensures |b| > 0 && b[0] == '/' ==> r == b
    ensures (|b| == 0 || b[0] != '/') ==> a <= r && |b| <= |r| && r[|r| - |b|..] == b
    ensures (|b| == 0 || b[0] != '/') && (|a| == 0 || a[|a| - 1] == '/') ==> r == a + b
    ensures (|b| == 0 || b[0] != '/') && |a| > 0 && a[|a| - 1] != '/' ==> r == a + "/" + b
  {
    if |b| > 0 && b[0] == '/' then b
    else if |a| == 0 || a[|a| - 1] == '/' then a + b
    else a + "/" + b
  }

  /** `path.join(a, b, c)` */
  function PathJoin3(a: string, b: string, c: string): string {
    PathJoin(PathJoin(a, b), c)
  }

  /** An empty save directory leaves the path relative to the working
      directory; a non-empty one is its prefix, followed by a separator
      unless it already ends with one. */
  lemma PathJoinSavePath(savePath: string, dir: string, name: string)
    requires |dir| > 0 && dir[0] != '/' && dir[|dir| - 1] != '/'
    requires |name| > 0 && name[0] != '/'
    ensures savePath == "" ==> PathJoin3(savePath, dir, name) == dir + "/" + name
    ensures savePath != "" && savePath[|savePath| - 1] == '/' ==>
      PathJoin3(savePath, dir, name) == savePath + dir + "/" + name
    ensures savePath != "" && savePath[|savePath| - 1] != '/' ==>
      PathJoin3(savePath, dir, name) == savePath + "/" + dir + "/" + name
  {
    if savePath == "" {
      assert PathJoin(savePath, dir) == dir;
    }
  }

  /** What `prepare_download` did: nothing because the file exists, or the
      `download` it issued. The source discards that response and returns
      `None`, so a failed download goes unreported; the model keeps the
      response so that this can be stated. */
  datatype DownloadStep = AlreadyPresent(filePath: string) | Downloaded(response: Http.ContentResponse)

  /** `prepare_download(domain, console, link, fileName)` with `SAVE_PATH`
      equal to `savePath`, the file-system test `isFile`, `urljoin` given as
      `join`, and the GET outcome `t`. */
  function PrepareDownload(domain: string, console: string, link: string, fileName: string,
                           savePath: string, isFile: string -> bool,
                           join: (string, string) -> string, t: Http.Transport): (r: Result<DownloadStep>)
    ensures r.Err? <==> Myrient.FromString(console).Err?
    ensures r.Err? ==> r.error == Myrient.FromString(console).error
    ensures r.Ok? ==>
      var filePath := PathJoin3(savePath, Myrient.Value(Myrient.FromString(console).value), fileName);
      if isFile(filePath) then r.value == AlreadyPresent(filePath)
      else r.value == Downloaded(Http.Download(join(domain, link), filePath, t))
  {
    var c :- Myrient.FromString(console);
    var filePath := PathJoin3(savePath, Myrient.Value(c), fileName);
    if isFile(filePath) then Ok(AlreadyPresent(filePath))
    else Ok(Downloaded(Http.Download(join(domain, link), filePath, t)))
  }

  /** An existing file is never downloaded again, whatever the network does. */
  lemma PrepareDownloadSkipsExisting(domain: string, console: string, link: string, fileName: string,
                                     savePath: string, isFile: string -> bool,
                                     join: (string, string) -> string,
                                     t1: Http.Transport, t2: Http.Transport)
    requires Myrient.FromString(console).Ok?
    requires isFile(PathJoin3(savePath, Myrient.Value(Myrient.FromString(console).value), fileName))
    ensures PrepareDownload(domain, console, link, fileName, savePath, isFile, join, t1)
      == PrepareDownload(domain, console, link, fileName, savePath, isFile, join, t2)
    ensures PrepareDownload(domain, console, link, fileName, savePath, isFile, join, t1).value.AlreadyPresent?
  {
  }
}
