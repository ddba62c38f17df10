/**
 * What the streaming chat path and the hybrid query path share: the community-report record,
 * the rank order, the rendered report blocks under a character budget, the combiner of raw
 * uploaded text, and the labelled two-part context built from both.
 */
module ReportContext {
  import opened Wrappers
  import opened Text

  // ---------------------------------------------------------------- reports

  /** The `rank` entry of a report. */
  datatype Rank =
    | NoRank                 // no "rank" key: sorts as 0 and renders as ""
    | Numeric(value: int)    // a rank `float(...)` accepts, as an opaque ordering key
    | Malformed(text: string) // a rank `float(...)` rejects with an exception

  /** A community report as a dictionary; a `None` field is a missing key. */
  datatype Report = Report(
    indexName: Option<string>,
    indexId: Option<string>,
    title: Option<string>,
    content: Option<string>,
    rank: Rank)

  /** At most this many reports are rendered or cited. */
  const MaxReports: nat := 6
  /** A cut block is kept only when more than this many characters of budget remain. */
  const PartialHeadroom: int := 200

  // ---------------------------------------------------------------- rank order

  /** The sort key `float(r.get("rank", 0))`; consulted only when no rank is malformed. */
  function SortKey(r: Report): int {
    match r.rank
    case Numeric(v) => v
    case _ => 0
  }

  predicate HasMalformedRank(rs: seq<Report>) {
    exists k :: 0 <= k < |rs| && rs[k].rank.Malformed?
  }

  predicate SortedDesc(rs: seq<Report>) {
    forall i, j :: 0 <= i < j < |rs| ==> SortKey(rs[i]) >= SortKey(rs[j])
  }

  /** The reports whose key is `v`, in their order in `rs`. */
  function WithKey(rs: seq<Report>, v: int): seq<Report>
    decreases |rs|
  {
    if rs == [] then []
    else (if SortKey(rs[0]) == v then [rs[0]] else []) + WithKey(rs[1..], v)
  }

  /** Puts `r` before the first element of `sorted` whose key is not greater than its own. */
  function Insert(r: Report, sorted: seq<Report>): seq<Report>
    decreases |sorted|
  {
    if sorted == [] || SortKey(r) >= SortKey(sorted[0]) then [r] + sorted
    else [sorted[0]] + Insert(r, sorted[1..])
  }

  predicate AllAtMost(rs: seq<Report>, bound: int) {
    forall k :: 0 <= k < |rs| ==> SortKey(rs[k]) <= bound
  }

  lemma SortedCons(x: Report, rs: seq<Report>)
    requires SortedDesc(rs) && AllAtMost(rs, SortKey(x))
    ensures SortedDesc([x] + rs)
  {
    forall i, j | 0 <= i < j < |rs| + 1
      ensures SortKey(([x] + rs)[i]) >= SortKey(([x] + rs)[j])
    {
      assert ([x] + rs)[j] == rs[j - 1];
      if i > 0 {
        assert ([x] + rs)[i] == rs[i - 1];
      }
    }
  }

  lemma {:induction false} InsertAtMost(r: Report, t: seq<Report>, bound: int)
    requires AllAtMost(t, bound) && SortKey(r) <= bound
    ensures AllAtMost(Insert(r, t), bound)
    decreases |t|
  {
    if t != [] && SortKey(r) < SortKey(t[0]) {
      InsertAtMost(r, t[1..], bound);
      var u := Insert(r, t[1..]);
      assert forall k :: 0 < k < |u| + 1 ==> ([t[0]] + u)[k] == u[k - 1];
    } else {
      assert forall k :: 0 < k < |t| + 1 ==> ([r] + t)[k] == t[k - 1];
    }
  }

  lemma {:induction false} InsertSorted(r: Report, t: seq<Report>)
    requires SortedDesc(t)
    ensures SortedDesc(Insert(r, t))
    decreases |t|
  {
    if t == [] || SortKey(r) >= SortKey(t[0]) {
      SortedCons(r, t);
    } else {
      var tail := t[1..];
      InsertSorted(r, tail);
      assert forall k :: 0 <= k < |tail| ==> tail[k] == t[k + 1];
      InsertAtMost(r, tail, SortKey(t[0]));
      SortedCons(t[0], Insert(r, tail));
    }
  }

  lemma {:induction false} InsertMultiset(r: Report, t: seq<Report>)
    ensures multiset(Insert(r, t)) == multiset{r} + multiset(t)
    decreases |t|
  {
    if t != [] && SortKey(r) < SortKey(t[0]) {
      InsertMultiset(r, t[1..]);
      assert t == [t[0]] + t[1..];
    }
  }

  lemma WithKeyCons(x: Report, u: seq<Report>, v: int)
    ensures SortKey(x) == v ==> WithKey([x] + u, v) == [x] + WithKey(u, v)
    ensures SortKey(x) != v ==> WithKey([x] + u, v) == WithKey(u, v)
  {
    assert ([x] + u)[0] == x && ([x] + u)[1..] == u;
  }

  lemma {:induction false} InsertWithKey(r: Report, t: seq<Report>, v: int)
    ensures SortKey(r) == v ==> WithKey(Insert(r, t), v) == [r] + WithKey(t, v)
    ensures SortKey(r) != v ==> WithKey(Insert(r, t), v) == WithKey(t, v)
    decreases |t|
  {
    if t == [] || SortKey(r) >= SortKey(t[0]) {
      WithKeyCons(r, t, v);
    } else {
      var u := Insert(r, t[1..]);
      assert Insert(r, t) == [t[0]] + u;
      assert t == [t[0]] + t[1..];
      InsertWithKey(r, t[1..], v);
      WithKeyCons(t[0], u, v);
      WithKeyCons(t[0], t[1..], v);
      if SortKey(r) == v {
        // `t[0]` has a higher key, so it is not among the reports of key `v`
        assert WithKey(Insert(r, t), v) == WithKey(u, v);
      }
    }
  }

  /** Python's `sorted(rs, key=rank, reverse=True)`: stable, so equal keys keep their input order. */
  function SortByRankDesc(rs: seq<Report>): seq<Report>
    decreases |rs|
  {
    if rs == [] then [] else Insert(rs[0], SortByRankDesc(rs[1..]))
  }

  lemma {:induction false} SortByRankDescSorted(rs: seq<Report>)
    ensures SortedDesc(SortByRankDesc(rs))
    decreases |rs|
  {
    if rs != [] {
      SortByRankDescSorted(rs[1..]);
      InsertSorted(rs[0], SortByRankDesc(rs[1..]));
    }
  }

  lemma {:induction false} SortByRankDescPermutes(rs: seq<Report>)
    ensures multiset(SortByRankDesc(rs)) == multiset(rs)
    decreases |rs|
  {
    if rs != [] {
      SortByRankDescPermutes(rs[1..]);
      InsertMultiset(rs[0], SortByRankDesc(rs[1..]));
      assert rs == [rs[0]] + rs[1..];
    }
  }

  lemma {:induction false} SortByRankDescStable(rs: seq<Report>, v: int)
    ensures WithKey(SortByRankDesc(rs), v) == WithKey(rs, v)
    decreases |rs|
  {
    if rs != [] {
      SortByRankDescStable(rs[1..], v);
      InsertWithKey(rs[0], SortByRankDesc(rs[1..]), v);
      WithKeyCons(rs[0], rs[1..], v);
      assert rs == [rs[0]] + rs[1..];
    }
  }

  /** The sort is descending, a permutation, and stable: the reports of each key keep their input order. */
  lemma SortByRankDescFacts(rs: seq<Report>)
    ensures SortedDesc(SortByRankDesc(rs))
    ensures multiset(SortByRankDesc(rs)) == multiset(rs)
    ensures forall v :: WithKey(SortByRankDesc(rs), v) == WithKey(rs, v)
  {
    SortByRankDescSorted(rs);
    SortByRankDescPermutes(rs);
    forall v
      ensures WithKey(SortByRankDesc(rs), v) == WithKey(rs, v)
    {
      SortByRankDescStable(rs, v);
    }
  }

  /**
   * The order the formatters walk: descending by rank, a missing rank counting as 0, ties in input
   * order; if any rank fails to convert, the whole list keeps its input order.
   */
  function RankOrder(rs: seq<Report>): seq<Report> {
    if HasMalformedRank(rs) then rs else SortByRankDesc(rs)
  }

  lemma RankOrderFacts(rs: seq<Report>)
    ensures HasMalformedRank(rs) ==> RankOrder(rs) == rs
    ensures !HasMalformedRank(rs) ==>
      var r := RankOrder(rs);
      SortedDesc(r) && multiset(r) == multiset(rs) && forall v :: WithKey(r, v) == WithKey(rs, v)
  {
    SortByRankDescFacts(rs);
  }

  // ---------------------------------------------------------------- rendering

  /** How `{rank}` renders `r.get("rank", "")`. */
  function RankText(rank: Rank): string {
    match rank
    case NoRank => ""
    case Numeric(v) => IntToString(v)
    case Malformed(t) => t
  }

  /** The block `[Report i] Title: t | Id: d | Rank: k` + newline + stripped content + newline. */
  function RenderBlock(ordinal: nat, r: Report): string {
    "[Report " + NatToString(ordinal) + "] Title: " + r.title.GetOr("report")
      + " | Id: " + r.indexId.GetOr("unknown") + " | Rank: " + RankText(r.rank) + "\n"
      + Strip(r.content.GetOr("")) + "\n"
  }

  /** `rs[:6]`. */
  function FirstReports(rs: seq<Report>): (r: seq<Report>)
    ensures |r| <= MaxReports && |r| <= |rs| && r == rs[..|r|]
    ensures |rs| >= MaxReports ==> |r| == MaxReports
    ensures |rs| <= MaxReports ==> r == rs
  {
    if |rs| <= MaxReports then rs else rs[..MaxReports]
  }

  /** The blocks of `rs`, numbered from 1. */
  function RenderBlocks(rs: seq<Report>): (blocks: seq<string>)
    ensures |blocks| == |rs|
  {
    seq(|rs|, k requires 0 <= k < |rs| => RenderBlock(k + 1, rs[k]))
  }

  // ---------------------------------------------------------------- budget

  /** How many leading blocks fit whole, one after another, into `room` characters. */
  function FitCount(blocks: seq<string>, room: int): (k: nat)
    ensures k <= |blocks|
    decreases |blocks|
  {
    if blocks == [] || |blocks[0]| > room then 0
    else 1 + FitCount(blocks[1..], room - |blocks[0]|)
  }

  lemma TotalLengthSnoc(blocks: seq<string>, i: nat)
    requires i < |blocks|
    ensures TotalLength(blocks[..i + 1]) == TotalLength(blocks[..i]) + |blocks[i]|
  {
    assert blocks[..i + 1] == blocks[..i] + [blocks[i]];
    TotalLengthAppend(blocks[..i], [blocks[i]]);
  }

  /** The blocks that fit fill at most `room`, and the next block is the first that overflows it. */
  lemma {:induction false} FitCountFirstOverflow(blocks: seq<string>, room: int)
    ensures var k := FitCount(blocks, room);
      && (k > 0 ==> TotalLength(blocks[..k]) <= room)
      && (k < |blocks| ==> TotalLength(blocks[..k + 1]) > room)
    decreases |blocks|
  {
    if blocks != [] {
      if |blocks[0]| <= room {
        var tail := blocks[1..];
        var k := FitCount(blocks, room);
        FitCountFirstOverflow(tail, room - |blocks[0]|);
        assert blocks[..k][1..] == tail[..k - 1];
        if k < |blocks| {
          assert blocks[..k + 1][1..] == tail[..k];
        }
      } else {
        assert blocks[..1][1..] == [];
      }
    }
  }

  /** While the loop is within the blocks that fit, the next block fits exactly if it is one of them. */
  lemma {:induction false} FitCountStep(blocks: seq<string>, room: int, i: nat)
    requires i < |blocks| && i <= FitCount(blocks, room)
    ensures i < FitCount(blocks, room) <==> TotalLength(blocks[..i]) + |blocks[i]| <= room
    decreases i
  {
    if i > 0 {
      var tail := blocks[1..];
      FitCountStep(tail, room - |blocks[0]|, i - 1);
      assert blocks[..i][1..] == tail[..i - 1];
    }
  }

  /**
   * The chunks a formatter keeps from `blocks` under `maxChars`: the blocks that fit whole, in order;
   * then, when `partial`, the first block that does not fit, cut to the remaining budget and ended
   * by a newline, if more than `PartialHeadroom` characters remain. No later block is looked at.
   */
  function BudgetedChunks(blocks: seq<string>, maxChars: int, partial: bool): seq<string> {
    var k := FitCount(blocks, maxChars);
    var remaining := maxChars - TotalLength(blocks[..k]);
    FitCountFirstOverflow(blocks, maxChars);
    if partial && k < |blocks| && remaining > PartialHeadroom then
      TotalLengthSnoc(blocks, k);
      blocks[..k] + [blocks[k][..remaining] + "\n"]
    else
      blocks[..k]
  }

  /**
   * The kept chunks are the blocks that fit, in order, and at most one cut of the next block; the
   * cut is taken only with `partial` and more than `PartialHeadroom` characters left, and it ends by
   * a newline. Their total overshoots `maxChars` by at most that newline.
   */
  lemma BudgetedChunksShape(blocks: seq<string>, maxChars: int, partial: bool)
    ensures var k := FitCount(blocks, maxChars);
      var chunks := BudgetedChunks(blocks, maxChars, partial);
      && k <= |chunks| <= k + 1 && |chunks| <= |blocks|
      && chunks[..k] == blocks[..k]
      && (|chunks| == k + 1 <==> partial && k < |blocks| && maxChars - TotalLength(blocks[..k]) > PartialHeadroom)
      && (|chunks| == k + 1 ==>
            && 1 <= |chunks[k]| <= |blocks[k]|
            && |chunks[k]| == maxChars - TotalLength(blocks[..k]) + 1
            && chunks[k] == blocks[k][..|chunks[k]| - 1] + "\n")
      && (maxChars >= 0 ==> TotalLength(chunks) <= maxChars + (|chunks| - k))
  {
    var k := FitCount(blocks, maxChars);
    var remaining := maxChars - TotalLength(blocks[..k]);
    FitCountFirstOverflow(blocks, maxChars);
    if partial && k < |blocks| && remaining > PartialHeadroom {
      TotalLengthSnoc(blocks, k);
      var cut := blocks[k][..remaining] + "\n";
      TotalLengthAppend(blocks[..k], [cut]);
      assert (blocks[..k] + [cut])[..k] == blocks[..k];
    }
  }

  /** One more block that fits extends the kept prefix. */
  lemma BudgetStep(blocks: seq<string>, i: nat)
    requires i < |blocks|
    ensures blocks[..i + 1] == blocks[..i] + [blocks[i]]
    ensures TotalLength(blocks[..i + 1]) == TotalLength(blocks[..i]) + |blocks[i]|
  {
    TotalLengthSnoc(blocks, i);
  }

  /** At the first block that does not fit, the kept chunks are the blocks before it and perhaps its cut. */
  lemma BudgetAtOverflow(blocks: seq<string>, maxChars: int, partial: bool, i: nat)
    requires i < |blocks| && i == FitCount(blocks, maxChars)
    requires TotalLength(blocks[..i]) + |blocks[i]| > maxChars
    ensures var remaining := maxChars - TotalLength(blocks[..i]);
      BudgetedChunks(blocks, maxChars, partial) ==
        blocks[..i] + (if partial && remaining > PartialHeadroom then [blocks[i][..remaining] + "\n"] else [])
  {
    var remaining := maxChars - TotalLength(blocks[..i]);
    if !(partial && remaining > PartialHeadroom) {
      assert blocks[..i] + [] == blocks[..i];
    }
  }

  /** The kept blocks of a prefix that reaches past the fitting blocks are the kept blocks of the whole list. */
  lemma {:induction false} FitCountPrefix(blocks: seq<string>, room: int, n: nat)
    requires FitCount(blocks, room) < n <= |blocks|
    ensures FitCount(blocks[..n], room) == FitCount(blocks, room)
    decreases |blocks|
  {
    var front := blocks[..n];
    assert front[0] == blocks[0];
    if |blocks[0]| <= room {
      assert front[1..] == blocks[1..][..n - 1];
      FitCountPrefix(blocks[1..], room - |blocks[0]|, n - 1);
    }
  }

  /**
   * No block after the first one that overflows is ever looked at: cutting the list right after it,
   * or anywhere later, keeps the same chunks.
   */
  lemma BudgetIgnoresLater(blocks: seq<string>, maxChars: int, partial: bool, n: nat)
    requires FitCount(blocks, maxChars) < n <= |blocks|
    ensures BudgetedChunks(blocks[..n], maxChars, partial) == BudgetedChunks(blocks, maxChars, partial)
  {
    var k := FitCount(blocks, maxChars);
    FitCountPrefix(blocks, maxChars, n);
    var front := blocks[..n];
    assert front[..k] == blocks[..k];
    assert front[k] == blocks[k];
  }

  /** When every block fits, all are kept. */
  lemma BudgetAllFit(blocks: seq<string>, maxChars: int, partial: bool)
    requires FitCount(blocks, maxChars) == |blocks|
    ensures BudgetedChunks(blocks, maxChars, partial) == blocks
  {
    assert blocks[..|blocks|] == blocks;
  }

  /**
   * The loop both formatters run over the ranked reports: render each block, keep it while the running
   * total stays within `maxChars`, and at the first block that does not fit add its cut (only with
   * `partial`, and only when more than `PartialHeadroom` characters remain) and stop.
   */
  method KeepWithinBudget(top: seq<Report>, maxChars: int, partial: bool) returns (chunks: seq<string>)
    ensures chunks == BudgetedChunks(RenderBlocks(top), maxChars, partial)
  {
    ghost var blocks := RenderBlocks(top);
    chunks := [];
    var total := 0;
    var i := 0;
    while i < |top|
      invariant 0 <= i <= |top| && i <= FitCount(blocks, maxChars)
      invariant chunks == blocks[..i] && total == TotalLength(blocks[..i])
    {
      var block := RenderBlock(i + 1, top[i]);
      assert block == blocks[i];
      FitCountStep(blocks, maxChars, i);
      if total + |block| > maxChars {
        var remaining := maxChars - total;
        var cut := if partial && remaining > PartialHeadroom then [block[..remaining] + "\n"] else [];
        chunks := chunks + cut;
        assert chunks == BudgetedChunks(blocks, maxChars, partial) by {
          BudgetAtOverflow(blocks, maxChars, partial, i);
        }
        return;
      }
      chunks := chunks + [block];
      total := total + |block|;
      BudgetStep(blocks, i);
      i := i + 1;
    }
    BudgetAllFit(blocks, maxChars, partial);
  }

  /** The text a formatter returns: the kept chunks joined by newlines and stripped. */
  function FormattedReports(reports: seq<Report>, maxChars: int, partial: bool): (text: string)
    ensures reports == [] ==> text == ""
    ensures maxChars >= 0 ==> |text| <= maxChars + (if partial then MaxReports else MaxReports - 1)
  {
    var blocks := RenderBlocks(FirstReports(RankOrder(reports)));
    var chunks := BudgetedChunks(blocks, maxChars, partial);
    BudgetedChunksShape(blocks, maxChars, partial);
    ChunksTextBound(chunks, maxChars, FitCount(blocks, maxChars), partial);
    Strip(Join(chunks, "\n"))
  }

  /** The arithmetic behind the formatter's bound, over any chunks shaped as `BudgetedChunks` returns them. */
  lemma ChunksTextBound(chunks: seq<string>, maxChars: int, k: nat, partial: bool)
    requires k <= |chunks| <= k + 1 && |chunks| <= MaxReports
    requires |chunks| == k + 1 ==> partial
    requires maxChars >= 0 ==> TotalLength(chunks) <= maxChars + (|chunks| - k)
    ensures chunks == [] ==> Join(chunks, "\n") == ""
    ensures maxChars >= 0 ==>
      |Join(chunks, "\n")| <= maxChars + (if partial then MaxReports else MaxReports - 1)
  {
    if chunks != [] {
      JoinLength(chunks, "\n");
    }
  }

  /** A lower-ranked report is rendered after a higher-ranked one. */
  lemma HigherRankFirst(low: Report, high: Report)
    requires low.rank == Numeric(2) && high.rank == Numeric(9)
    ensures RankOrder([low, high]) == [high, low]
  {
    assert !HasMalformedRank([low, high]);
    assert [low, high][1..] == [high] && [high][1..] == [];
    assert SortByRankDesc([high]) == Insert(high, []) == [high];
    assert Insert(low, [high]) == [high] + Insert(low, []) == [high, low];
  }

  /** One 500-character block under a budget of 300: cut to 300 characters with partials, dropped without. */
  lemma OversizedSingleBlock(block: string)
    requires |block| == 500
    ensures BudgetedChunks([block], 300, true) == [block[..300] + "\n"]
    ensures BudgetedChunks([block], 300, false) == []
  {
    assert FitCount([block], 300) == 0;
    assert [block][..0] == [];
  }

  // ---------------------------------------------------------------- raw uploaded text

  /** An uploaded file; `content` is `None` when opening or reading it raised. */
  datatype UploadedFile = UploadedFile(name: string, content: Option<string>)

  /** `name.lower().endswith((".txt", ".md"))`. */
  predicate IsTextFile(name: string) {
    var n := Lower(name);
    EndsWith(n, ".txt") || EndsWith(n, ".md")
  }

  /** The section one file adds: `FILE: name`, then its content, each ended by a newline. */
  function FileSection(name: string, content: string): (section: string)
    ensures StartsWith(section, "FILE: ")
  {
    StartsWithAppend("FILE: ", name + "\n" + content + "\n");
    "FILE: " + (name + "\n" + content + "\n")
  }

  /** What one file adds to the combined text: its section, if it is a readable, non-blank text file. */
  function Contribution(f: UploadedFile): Option<string> {
    if IsTextFile(f.name) && f.content.Some? && Strip(f.content.value) != "" then
      Some(FileSection(f.name, f.content.value))
    else None
  }

  function Contributions(files: seq<UploadedFile>): seq<string>
    decreases |files|
  {
    if files == [] then []
    else (match Contribution(files[0]) case Some(t) => [t] case None => []) + Contributions(files[1..])
  }

  lemma ContributionsOne(f: UploadedFile)
    ensures Contributions([f]) == (match Contribution(f) case Some(t) => [t] case None => [])
  {
    assert [f][1..] == [];
  }

  lemma {:induction false} ContributionsAppend(a: seq<UploadedFile>, b: seq<UploadedFile>)
    ensures Contributions(a + b) == Contributions(a) + Contributions(b)
    decreases |a|
  {
    if a == [] {
      assert a + b == b;
    } else {
      assert (a + b)[0] == a[0];
      assert (a + b)[1..] == a[1..] + b;
      ContributionsAppend(a[1..], b);
    }
  }

  /** No file contributes exactly when there are no contributions; otherwise the first is a section. */
  lemma {:induction false} ContributionsEmpty(files: seq<UploadedFile>)
    ensures Contributions(files) == [] <==> forall k :: 0 <= k < |files| ==> Contribution(files[k]).None?
    ensures Contributions(files) != [] ==> StartsWith(Contributions(files)[0], "FILE: ")
    decreases |files|
  {
    if files != [] {
      ContributionsEmpty(files[1..]);
      assert forall k :: 1 <= k < |files| ==> files[1..][k - 1] == files[k];
    }
  }

  /** The texts joined by newlines, stripped, cut to `maxChars`. */
  function CombineTexts(texts: seq<string>, maxChars: int): (text: string)
    ensures maxChars >= 0 ==> |text| <= maxChars
    ensures maxChars > 0 && texts != [] && StartsWith(texts[0], "FILE: ") ==> text != ""
  {
    var joined := Join(texts, "\n");
    if texts != [] then
      JoinStartsWithFirst(texts, "\n");
      if StartsWith(texts[0], "FILE: ") then
        assert texts[0][..6][0] == 'F';
        assert joined[..|texts[0]|][0] == texts[0][0];
        StripFacts(joined);
        Take(Strip(joined), maxChars)
      else
        Take(Strip(joined), maxChars)
    else
      Take(Strip(joined), maxChars)
  }

  /**
   * The combined raw text of the uploaded files; for a positive budget it is empty exactly when no
   * file contributes.
   */
  function CombinedText(files: seq<UploadedFile>, maxChars: int): (text: string)
    ensures maxChars >= 0 ==> |text| <= maxChars
    ensures maxChars > 0 ==> (text == "" <==> forall k :: 0 <= k < |files| ==> Contribution(files[k]).None?)
  {
    ContributionsEmpty(files);
    CombineTexts(Contributions(files), maxChars)
  }

  /** A file that could not be read changes nothing. */
  lemma UnreadableFileSkipped(before: seq<UploadedFile>, f: UploadedFile, after: seq<UploadedFile>, maxChars: int)
    requires f.content.None?
    ensures CombinedText(before + [f] + after, maxChars) == CombinedText(before + after, maxChars)
  {
    var same := Contributions(before + after);
    assert Contributions(before + [f] + after) == same by {
      assert Contribution(f) == None;
      ContributionsOne(f);
      ContributionsAppend(before + [f], after);
      ContributionsAppend(before, [f]);
      ContributionsAppend(before, after);
    }
    assert CombinedText(before + [f] + after, maxChars) == CombineTexts(same, maxChars);
  }

  /**
   * `_load_local_uploaded_text` over the files of the collection's directory: appends each
   * file's section in turn, then joins, strips and cuts.
   */
  method LoadUploadedText(files: seq<UploadedFile>, maxChars: int) returns (text: string)
    ensures text == CombinedText(files, maxChars)
  {
    var texts: seq<string> := [];
    for i := 0 to |files|
      invariant texts == Contributions(files[..i])
    {
      var f := files[i];
      ghost var before := texts;
      if IsTextFile(f.name) {
        match f.content {
          case None =>
          case Some(content) =>
            if Strip(content) != "" {
              texts := texts + [FileSection(f.name, content)];
            }
        }
      }
      ContributionsOne(f);
      assert texts == before + Contributions([f]);
      assert files[..i + 1] == files[..i] + [f];
      ContributionsAppend(files[..i], [f]);
    }
    assert files[..|files|] == files;
    var combined := Strip(Join(texts, "\n"));
    text := if combined != "" then Take(combined, maxChars) else "";
  }

  // ---------------------------------------------------------------- the two-part context

  const ReportsLabel := "--- COMMUNITY REPORTS ---\n"
  const RawLabel := "--- RAW DOCUMENT CONTENT ---\n"

  /** A labelled part is never blank: its label starts with a visible character. */
  lemma LabelledNotBlank(tag: string, text: string)
    requires tag != [] && !IsSpace(tag[0])
    ensures !IsBlank(tag + text)
  {
    assert (tag + text)[0] == tag[0];
  }

  lemma NotBlankExtended(a: string, b: string)
    requires !IsBlank(a)
    ensures !IsBlank(a + b)
  {
    var k :| 0 <= k < |a| && !IsSpace(a[k]);
    assert (a + b)[k] == a[k];
  }

  /**
   * The labelled context: the report part, then the raw part, each present only when its text is not
   * blank, separated by a blank line.
   */
  function AssembleContext(reportsBlock: string, rawText: string): (ctx: string)
    ensures !IsBlank(reportsBlock) && !IsBlank(rawText) ==>
      ctx == ReportsLabel + reportsBlock + "\n\n" + (RawLabel + rawText)
    ensures !IsBlank(reportsBlock) && IsBlank(rawText) ==> ctx == ReportsLabel + reportsBlock
    ensures IsBlank(reportsBlock) && !IsBlank(rawText) ==> ctx == RawLabel + rawText
    ensures IsBlank(reportsBlock) && IsBlank(rawText) ==> ctx == ""
  {
    var first := ReportsLabel + reportsBlock;
    var second := RawLabel + rawText;
    var parts := (if Strip(reportsBlock) != "" then [first] else [])
      + (if Strip(rawText) != "" then [second] else []);
    StripFacts(reportsBlock);
    StripFacts(rawText);
    if !IsBlank(reportsBlock) && !IsBlank(rawText) then
      assert parts == [first, second];
      JoinTwo(first, second, "\n\n");
      Join(parts, "\n\n")
    else
      assert parts == [] || parts == [first] || parts == [second];
      Join(parts, "\n\n")
  }

  /** The context is blank exactly when both parts are, and then it is empty. */
  lemma AssembleContextBlank(reportsBlock: string, rawText: string)
    ensures IsBlank(AssembleContext(reportsBlock, rawText)) <==> IsBlank(reportsBlock) && IsBlank(rawText)
    ensures IsBlank(AssembleContext(reportsBlock, rawText)) ==> AssembleContext(reportsBlock, rawText) == ""
  {
    var first := ReportsLabel + reportsBlock;
    if !IsBlank(reportsBlock) {
      LabelledNotBlank(ReportsLabel, reportsBlock);
      NotBlankExtended(first, "\n\n");
      NotBlankExtended(first + "\n\n", RawLabel + rawText);
    } else if !IsBlank(rawText) {
      LabelledNotBlank(RawLabel, rawText);
    }
  }

  /** The report part, when present, opens the context; the raw part, when present, closes it. */
  lemma AssembleContextParts(reportsBlock: string, rawText: string)
    ensures !IsBlank(reportsBlock) ==> StartsWith(AssembleContext(reportsBlock, rawText), ReportsLabel + reportsBlock)
    ensures !IsBlank(rawText) ==> EndsWith(AssembleContext(reportsBlock, rawText), RawLabel + rawText)
  {
    var first := ReportsLabel + reportsBlock;
    var second := RawLabel + rawText;
    if !IsBlank(reportsBlock) && !IsBlank(rawText) {
      StartsWithAppend3(first, "\n\n", second);
      EndsWithAppend(first + "\n\n", second);
    } else if !IsBlank(reportsBlock) {
      StartsWithAppend(first, "");
      assert first + "" == first;
    } else if !IsBlank(rawText) {
      EndsWithAppend("", second);
      assert "" + second == second;
    }
  }
}
