/**
 * The hybrid query path: the report formatter without partial blocks, the packed report titles and
 * their unpacking when search results are normalised, the `abfs://` path split, and the hybrid
 * answer with its refusal when no context is found.
 */
module GraphRagQuery {
  import opened Wrappers
  import opened Text
  import opened ReportContext

  // ---------------------------------------------------------------- the report formatter

  /**
   * `_format_context`: the blocks of the first six ranked reports, each added while the running total
   * stays within `maxChars`; the first block that does not fit ends the loop and nothing of it is kept.
   */
  method FormatContext(reports: seq<Report>, maxChars: int) returns (text: string)
    ensures text == FormattedReports(reports, maxChars, false)
  {
    if reports == [] {
      return "";
    }
    var top := FirstReports(RankOrder(reports));
    var chunks := KeepWithinBudget(top, maxChars, false);
    text := Strip(Join(chunks, "\n"));
  }

  /** Without partial blocks the kept chunks are whole leading blocks, and they fill at most `maxChars`. */
  lemma WholeBlocksOnly(blocks: seq<string>, maxChars: int)
    ensures var k := FitCount(blocks, maxChars);
      && BudgetedChunks(blocks, maxChars, false) == blocks[..k]
      && (maxChars >= 0 ==> TotalLength(blocks[..k]) <= maxChars)
  {
    BudgetedChunksShape(blocks, maxChars, false);
    FitCountFirstOverflow(blocks, maxChars);
    var k := FitCount(blocks, maxChars);
    if k == 0 {
      assert blocks[..k] == [];
    }
  }

  // ---------------------------------------------------------------- packed titles

  /** The separator of a packed title. */
  const Sep := "<sep>"

  lemma SepBorderFree()
    ensures BorderFree(Sep)
  {
    forall k | 0 < k < |Sep|
      ensures Sep[..k] != Sep[|Sep| - k..]
    {
      assert Sep[..k][0] == '<';
      assert Sep[|Sep| - k..][0] == Sep[|Sep| - k] != '<';
    }
  }

  /** The title `global_query` stores for a community report: `index<sep>community<sep>title`. */
  function PackTitle(indexName: string, community: string, title: string): string {
    indexName + Sep + community + Sep + title
  }

  /** A row of the community-report table; the values count only where the table has that column. */
  datatype TableRow = TableRow(community: string, title: string, content: string)

  datatype ReportTable = ReportTable(hasCommunity: bool, hasTitle: bool, rows: seq<TableRow>)

  /**
   * The title column rewritten to packed titles when the table has both a `community` and a `title`
   * column; otherwise the table is left as it is.
   */
  function PackTitles(indexName: string, table: ReportTable): (r: ReportTable)
    ensures r.hasCommunity == table.hasCommunity && r.hasTitle == table.hasTitle
    ensures |r.rows| == |table.rows|
    ensures forall k :: 0 <= k < |r.rows| ==>
      && r.rows[k].community == table.rows[k].community
      && r.rows[k].content == table.rows[k].content
      && r.rows[k].title == (if table.hasCommunity && table.hasTitle
                             then PackTitle(indexName, table.rows[k].community, table.rows[k].title)
                             else table.rows[k].title)
  {
    if table.hasCommunity && table.hasTitle then
      table.(rows := seq(|table.rows|, k requires 0 <= k < |table.rows| =>
        table.rows[k].(title := PackTitle(indexName, table.rows[k].community, table.rows[k].title))))
    else table
  }

  /** The three fields read back from a title. */
  datatype TitleParts = TitleParts(indexName: string, indexId: string, title: string)

  /**
   * The pieces of `title_raw.split("<sep>")`: the first is the index name (the configured name is
   * used only for an empty split, which never happens), the second the index id or `unknown`, the
   * third the title or else the whole raw title.
   */
  function UnpackTitle(titleRaw: string, configuredName: string): TitleParts {
    var parts := Split(titleRaw, Sep);
    TitleParts(
      if |parts| > 0 then parts[0] else configuredName,
      if |parts| > 1 then parts[1] else "unknown",
      if |parts| > 2 then parts[2] else titleRaw)
  }

  /** The unpacked index name is always the start of the raw title. */
  lemma UnpackTitlePrefix(titleRaw: string, configuredName: string)
    ensures StartsWith(titleRaw, UnpackTitle(titleRaw, configuredName).indexName)
  {
    JoinStartsWithFirst(Split(titleRaw, Sep), Sep);
  }

  /** Unpacking a packed title returns its three parts when none of them holds the separator. */
  lemma UnpackPackTitle(indexName: string, community: string, title: string, configuredName: string)
    requires !Contains(indexName, Sep) && !Contains(community, Sep) && !Contains(title, Sep)
    ensures UnpackTitle(PackTitle(indexName, community, title), configuredName)
      == TitleParts(indexName, community, title)
  {
    SepBorderFree();
    var parts := [indexName, community, title];
    assert Join(parts, Sep) == PackTitle(indexName, community, title) by {
      assert parts[1..] == [community, title];
      JoinTwo(community, title, Sep);
    }
    SplitJoin(parts, Sep);
  }

  /** A title that was never packed is read back as its own index name and title, with id `unknown`. */
  lemma UnpackPlainTitle(titleRaw: string, configuredName: string)
    requires !Contains(titleRaw, Sep)
    ensures UnpackTitle(titleRaw, configuredName) == TitleParts(titleRaw, "unknown", titleRaw)
  {
    SplitWhole(titleRaw, Sep);
  }

  // ---------------------------------------------------------------- normalised search results

  /** A report row of the search result, as a table row or a dictionary; `None` is a missing key. */
  datatype SearchRow = SearchRow(title: Option<string>, content: Option<string>, rank: Rank)

  /** The `reports` entry of the search's context data. */
  datatype ReportsValue =
    | Frame(rows: seq<SearchRow>)   // a DataFrame
    | Records(rows: seq<SearchRow>) // a list of dictionaries
    | Missing                       // absent, or of any other type

  function RowsOf(value: ReportsValue): seq<SearchRow> {
    match value
    case Frame(rows) => rows
    case Records(rows) => rows
    case Missing => []
  }

  /** The rank `float(row.get("rank", 0))` gives, for a rank that converts. */
  function RankValue(rank: Rank): int {
    match rank
    case Numeric(v) => v
    case _ => 0
  }

  /**
   * One normalised report: the title unpacked, the content or "", and the rank as a number, 0 for a
   * missing one.
   */
  function ReportOf(row: SearchRow, configuredName: string): Report {
    var parts := UnpackTitle(row.title.GetOr(""), configuredName);
    Report(Some(parts.indexName), Some(parts.indexId), Some(parts.title), Some(row.content.GetOr("")),
           Numeric(RankValue(row.rank)))
  }

  /** The text of the first rank that does not convert; it raises out of the normalisation loop. */
  function FirstMalformed(rows: seq<SearchRow>): (r: Option<string>)
    ensures r.None? <==> forall k :: 0 <= k < |rows| ==> !rows[k].rank.Malformed?
    decreases |rows|
  {
    if rows == [] then None
    else if rows[0].rank.Malformed? then Some(rows[0].rank.text)
    else
      var r := FirstMalformed(rows[1..]);
      assert forall k :: 0 < k < |rows| ==> rows[k] == rows[1..][k - 1];
      r
  }

  lemma {:induction false} FirstMalformedSnoc(rows: seq<SearchRow>, i: nat)
    requires i < |rows| && FirstMalformed(rows[..i]).None?
    ensures FirstMalformed(rows[..i + 1])
      == (if rows[i].rank.Malformed? then Some(rows[i].rank.text) else None)
    decreases i
  {
    var next := rows[..i + 1];
    if i > 0 {
      assert next[1..] == rows[1..][..i];
      assert rows[..i][1..] == rows[1..][..i - 1];
      assert !rows[0].rank.Malformed?;
      FirstMalformedSnoc(rows[1..], i - 1);
    }
  }

  /** A malformed rank found after a clean prefix is the first one of all the rows. */
  lemma {:induction false} FirstMalformedFound(rows: seq<SearchRow>, n: nat)
    requires n <= |rows| && FirstMalformed(rows[..n]).Some?
    ensures FirstMalformed(rows) == FirstMalformed(rows[..n])
    decreases n
  {
    var prefix := rows[..n];
    assert prefix[0] == rows[0];
    if !rows[0].rank.Malformed? {
      assert prefix[1..] == rows[1..][..n - 1];
      FirstMalformedFound(rows[1..], n - 1);
    }
  }

  /** One report per row, in order. */
  function ReportsOf(rows: seq<SearchRow>, configuredName: string): seq<Report>
    decreases |rows|
  {
    if rows == [] then [] else [ReportOf(rows[0], configuredName)] + ReportsOf(rows[1..], configuredName)
  }

  /** Normalising keeps the number and the order of the rows. */
  lemma {:induction false} ReportsOfRows(rows: seq<SearchRow>, configuredName: string)
    ensures |ReportsOf(rows, configuredName)| == |rows|
    ensures forall k :: 0 <= k < |rows| ==> ReportsOf(rows, configuredName)[k] == ReportOf(rows[k], configuredName)
    decreases |rows|
  {
    if rows != [] {
      ReportsOfRows(rows[1..], configuredName);
      assert forall k :: 0 < k < |rows| ==> rows[k] == rows[1..][k - 1];
    }
  }

  lemma {:induction false} ReportsOfSnoc(rows: seq<SearchRow>, i: nat, configuredName: string)
    requires i < |rows|
    ensures ReportsOf(rows[..i + 1], configuredName) == ReportsOf(rows[..i], configuredName) + [ReportOf(rows[i], configuredName)]
    decreases i
  {
    var next := rows[..i + 1];
    if i > 0 {
      assert next[1..] == rows[1..][..i];
      assert rows[..i][1..] == rows[1..][..i - 1];
      ReportsOfSnoc(rows[1..], i - 1, configuredName);
    } else {
      assert next[1..] == [];
    }
  }

  /**
   * The reports `global_query` returns: one per row of the report value, in order, none when there is
   * no report value; the first rank that does not convert aborts the call instead.
   */
  function Normalized(value: ReportsValue, configuredName: string): (r: Result<seq<Report>, string>)
    ensures r.Err? <==> exists k :: 0 <= k < |RowsOf(value)| && RowsOf(value)[k].rank.Malformed?
    ensures r.Ok? ==> r.value == ReportsOf(RowsOf(value), configuredName)
  {
    var rows := RowsOf(value);
    match FirstMalformed(rows)
    case Some(t) => Err(t)
    case None => Ok(ReportsOf(rows, configuredName))
  }

  /**
   * The normalisation loop of `global_query`: every row of a DataFrame or a list of records becomes
   * a report, in order; a malformed rank raises out of the loop.
   */
  method NormalizeReports(value: ReportsValue, configuredName: string) returns (r: Result<seq<Report>, string>)
    ensures r == Normalized(value, configuredName)
  {
    var rows := RowsOf(value);
    var processed: seq<Report> := [];
    for i := 0 to |rows|
      invariant FirstMalformed(rows[..i]).None?
      invariant processed == ReportsOf(rows[..i], configuredName)
    {
      FirstMalformedSnoc(rows, i);
      if rows[i].rank.Malformed? {
        FirstMalformedFound(rows, i + 1);
        return Err(rows[i].rank.text);
      }
      ReportsOfSnoc(rows, i, configuredName);
      processed := processed + [ReportOf(rows[i], configuredName)];
    }
    assert rows[..|rows|] == rows;
    r := Ok(processed);
  }

  /** A row whose title was packed from parts without the separator normalises back to those parts. */
  lemma ReadBackPacked(indexName: string, community: string, title: string, content: string, rank: int,
                       configuredName: string)
    requires !Contains(indexName, Sep) && !Contains(community, Sep) && !Contains(title, Sep)
    ensures ReportOf(SearchRow(Some(PackTitle(indexName, community, title)), Some(content), Numeric(rank)), configuredName)
      == Report(Some(indexName), Some(community), Some(title), Some(content), Numeric(rank))
  {
    UnpackPackTitle(indexName, community, title, configuredName);
  }

  /**
   * A packed report table read back through the search result: each row's index name, community and
   * title return, when none of them holds the separator.
   */
  lemma PackedTitlesReadBack(indexName: string, table: ReportTable, k: nat, rank: int)
    requires table.hasCommunity && table.hasTitle && k < |table.rows|
    requires !Contains(indexName, Sep)
    requires !Contains(table.rows[k].community, Sep) && !Contains(table.rows[k].title, Sep)
    ensures var row := PackTitles(indexName, table).rows[k];
      ReportOf(SearchRow(Some(row.title), Some(row.content), Numeric(rank)), indexName)
        == Report(Some(indexName), Some(table.rows[k].community), Some(table.rows[k].title),
                  Some(table.rows[k].content), Numeric(rank))
  {
    var given := table.rows[k];
    ReadBackPacked(indexName, given.community, given.title, given.content, rank, indexName);
  }

  /**
   * The shape of the query test's fixture: a frame whose titles were all packed, from parts without
   * the separator, normalises to as many reports, in order, each with its index name, community id
   * and title read back.
   */
  lemma PackedFrameReadBack(rows: seq<SearchRow>, indexName: string, communities: seq<string>, titles: seq<string>)
    requires |communities| == |rows| && |titles| == |rows| && !Contains(indexName, Sep)
    requires forall k :: 0 <= k < |rows| ==>
      && !rows[k].rank.Malformed?
      && !Contains(communities[k], Sep) && !Contains(titles[k], Sep)
      && rows[k].title == Some(PackTitle(indexName, communities[k], titles[k]))
    ensures var r := Normalized(Frame(rows), indexName);
      && r.Ok? && |r.value| == |rows|
      && forall k :: 0 <= k < |rows| ==>
           && r.value[k].indexName == Some(indexName)
           && r.value[k].indexId == Some(communities[k])
           && r.value[k].title == Some(titles[k])
  {
    ReportsOfRows(rows, indexName);
    forall k | 0 <= k < |rows|
      ensures ReportOf(rows[k], indexName).indexName == Some(indexName)
      ensures ReportOf(rows[k], indexName).indexId == Some(communities[k])
      ensures ReportOf(rows[k], indexName).title == Some(titles[k])
    {
      UnpackPackTitle(indexName, communities[k], titles[k], indexName);
    }
  }

  // ---------------------------------------------------------------- abfs paths

  datatype BlobLocation = BlobLocation(container: string, blob: string)

  /**
   * `_read_parquet_from_blob`'s path split: the first `abfs://` removed, then the container up to the
   * first `/` and the blob after it; a path without `/` raises.
   */
  function ParseAbfs(path: string): (r: Result<BlobLocation, string>)
    ensures r.Ok? ==> RemoveFirst(path, "abfs://") == r.value.container + "/" + r.value.blob
    ensures r.Ok? ==> '/' !in r.value.container
    ensures r.Err? <==> '/' !in RemoveFirst(path, "abfs://")
  {
    var rest := RemoveFirst(path, "abfs://");
    FindCharAbsent(rest, '/');
    match Find(rest, "/")
    case None => Err("Invalid abfs path: " + path)
    case Some(i) =>
      FindCharSplits(rest, '/');
      FindCharFirst(rest, '/');
      Ok(BlobLocation(rest[..i], rest[i + 1..]))
  }

  /** The parquet path of one table in a deployment's `-grdata` container. */
  function TablePath(prefix: string, indexName: string, table: string): string {
    "abfs://" + prefix + "-" + indexName + "-grdata/" + table
  }

  const EntityTable := "output/create_final_nodes.parquet"
  const CommunityReportTable := "output/create_final_community_reports.parquet"

  /** The tables' paths parse back to their container and blob when prefix and name hold no `/`. */
  lemma TablePathParses(prefix: string, indexName: string, table: string)
    requires '/' !in prefix && '/' !in indexName
    ensures ParseAbfs(TablePath(prefix, indexName, table))
      == Ok(BlobLocation(prefix + "-" + indexName + "-grdata", table))
  {
    var container := prefix + "-" + indexName + "-grdata";
    var rest := container + "/" + table;
    assert TablePath(prefix, indexName, table) == "abfs://" + rest;
    assert ("abfs://" + rest)[..7] == "abfs://";
    assert RemoveFirst("abfs://" + rest, "abfs://") == rest by {
      assert Find("abfs://" + rest, "abfs://") == Some(0);
      assert ("abfs://" + rest)[7..] == rest;
    }
    assert '/' !in container;
    FindAtBoundary(container, "/", table);
  }

  /** A path with no `/` after the scheme is refused. */
  lemma ContainerOnlyRefused(container: string)
    requires '/' !in container
    ensures ParseAbfs("abfs://" + container).Err?
  {
    assert ("abfs://" + container)[..7] == "abfs://";
    assert RemoveFirst("abfs://" + container, "abfs://") == container by {
      assert Find("abfs://" + container, "abfs://") == Some(0);
      assert ("abfs://" + container)[7..] == container;
    }
  }

  // ---------------------------------------------------------------- the hybrid answer

  const Refusal := "I cannot find that in the uploaded document."

  /** Budgets of the hybrid query. */
  const HybridReportChars := 10000
  const HybridRawChars := 20000

  /** The user message of the hybrid answer. */
  function HybridUserMessage(context: string, query: string): string {
    "CONTEXT\n" + context + "\n\nQUESTION\n" + query
  }

  /** The hybrid query ends in an error, in the fixed refusal, or in the message given to the model. */
  datatype HybridAnswer = Failed(error: string) | Refused(answer: string) | Ask(userMessage: string)

  /**
   * `hybrid_query` in local mode: the search's report value (an error when the search itself failed),
   * the uploaded files and the question are inputs; the model call is left to the caller.
   */
  method HybridQuery(query: string, configuredName: string, search: Result<ReportsValue, string>,
                     files: seq<UploadedFile>) returns (answer: HybridAnswer)
    ensures search.Err? ==> answer == Failed(search.error)
    ensures search.Ok? && Normalized(search.value, configuredName).Err? ==>
      answer == Failed(Normalized(search.value, configuredName).error)
    ensures search.Ok? && Normalized(search.value, configuredName).Ok? ==>
      var reports := Normalized(search.value, configuredName).value;
      var reportsBlock := FormattedReports(reports, HybridReportChars, false);
      var rawText := CombinedText(files, HybridRawChars);
      var context := AssembleContext(reportsBlock, rawText);
      && (IsBlank(reportsBlock) && IsBlank(rawText) ==> answer == Refused(Refusal))
      && (!(IsBlank(reportsBlock) && IsBlank(rawText)) ==> answer == Ask(HybridUserMessage(context, query)))
  {
    match search {
      case Err(e) =>
        return Failed(e);
      case Ok(value) =>
        var normalized := NormalizeReports(value, configuredName);
        match normalized {
          case Err(e) =>
            return Failed(e);
          case Ok(reports) =>
            var rawText := LoadUploadedText(files, HybridRawChars);
            var reportsBlock := FormatContext(reports, HybridReportChars);
            var context := AssembleContext(reportsBlock, rawText);
            AssembleContextBlank(reportsBlock, rawText);
            StripFacts(context);
            if Strip(context) == "" {
              return Refused(Refusal);
            }
            return Ask(HybridUserMessage(context, query));
        }
    }
  }
}
