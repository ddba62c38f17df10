/**
 * The local streaming chat path: the question taken from the conversation, the ranked report
 * formatter, the event stream relayed from the chat-completions service with a Sources chunk and a
 * single terminator appended, the assembled request, and the image name of a citation.
 */
module ChatService {
  import opened Wrappers
  import opened Text
  import opened ReportContext

  // ---------------------------------------------------------------- the question

  /** The `content` entry of a chat message. */
  datatype MessageContent =
    | NoContent               // no "content" key: reads as ""
    | TextContent(text: string)
    | OtherContent            // present but not a string (a list of parts, say)

  datatype Message = Message(role: Option<string>, content: MessageContent)

  /** The question a message offers: its string content, if it is a user message. */
  function UserText(m: Message): Option<string> {
    if m.role != Some("user") then None
    else
      match m.content
      case NoContent => Some("")
      case TextContent(t) => Some(t)
      case OtherContent => None
  }

  /** The text of the last message that offers a question, or "" if none does. */
  function LastUserTextOf(messages: seq<Message>): string
    decreases |messages|
  {
    if messages == [] then ""
    else
      match UserText(messages[|messages| - 1])
      case Some(t) => t
      case None => LastUserTextOf(messages[..|messages| - 1])
  }

  /**
   * The question is the text of the last message offering one, later user messages whose content is
   * not a string being passed over; it is "" when no message offers one.
   */
  lemma {:induction false} LastUserTextIsLast(messages: seq<Message>)
    ensures (forall k :: 0 <= k < |messages| ==> UserText(messages[k]).None?) ==> LastUserTextOf(messages) == ""
    ensures forall j ::
      (0 <= j < |messages| && UserText(messages[j]).Some? &&
       forall k :: j < k < |messages| ==> UserText(messages[k]).None?)
      ==> LastUserTextOf(messages) == UserText(messages[j]).value
    decreases |messages|
  {
    if messages != [] {
      var n := |messages| - 1;
      var front := messages[..n];
      LastUserTextIsLast(front);
      assert forall k :: 0 <= k < n ==> front[k] == messages[k];
    }
  }

  /** `_safe_get_last_user_text`: scans the conversation from its end. */
  method LastUserText(messages: seq<Message>) returns (text: string)
    ensures text == LastUserTextOf(messages)
  {
    var i := |messages|;
    assert messages[..i] == messages;
    while i > 0
      invariant 0 <= i <= |messages|
      invariant LastUserTextOf(messages[..i]) == LastUserTextOf(messages)
    {
      i := i - 1;
      var m := messages[i];
      assert messages[..i + 1][..i] == messages[..i];
      assert messages[..i + 1][i] == m;
      if m.role == Some("user") {
        match m.content {
          case NoContent =>
            return "";
          case TextContent(t) =>
            return t;
          case OtherContent =>
        }
      }
    }
    return "";
  }

  // ---------------------------------------------------------------- the report formatter

  /**
   * `_format_graphrag_context`: the blocks of the first six ranked reports, each added while the
   * running total stays within `maxChars`; at the first block that does not fit, a cut of it is added
   * when more than 200 characters remain, and the loop stops.
   */
  method FormatGraphRagContext(reports: seq<Report>, maxChars: int) returns (text: string)
    ensures text == FormattedReports(reports, maxChars, true)
  {
    if reports == [] {
      return "";
    }
    var top := FirstReports(RankOrder(reports));
    var chunks := KeepWithinBudget(top, maxChars, true);
    text := Strip(Join(chunks, "\n"));
  }

  // ---------------------------------------------------------------- JSON strings

  function HexDigit(d: nat): char
    requires d < 16
  {
    if d < 10 then ('0' as int + d) as char else ('a' as int + d - 10) as char
  }

  /** Four lower-case hexadecimal digits. */
  function Hex4(n: nat): string
    requires n < 0x10000
  {
    [HexDigit(n / 0x1000), HexDigit(n / 0x100 % 16), HexDigit(n / 0x10 % 16), HexDigit(n % 16)]
  }

  predicate PrintableAscii(s: string) {
    forall k :: 0 <= k < |s| ==> ' ' <= s[k] <= '~'
  }

  /**
   * One character as `json.dumps` writes it with ASCII output: quote and backslash escaped, the
   * usual control escapes, other characters outside space..tilde as `\uXXXX`, astral ones as a
   * surrogate pair.
   */
  function EscapeChar(c: char): (r: string)
    ensures PrintableAscii(r) && r != []
  {
    if c == '"' then "\\\""
    else if c == '\\' then "\\\\"
    else if c == '\n' then "\\n"
    else if c == '\r' then "\\r"
    else if c == '\t' then "\\t"
    else if c == '\U{8}' then "\\b"
    else if c == '\U{C}' then "\\f"
    else if ' ' <= c <= '~' then [c]
    else if c as int < 0x10000 then "\\u" + Hex4(c as int)
    else
      var n := c as int - 0x10000;
      "\\u" + Hex4(0xD800 + n / 0x400) + "\\u" + Hex4(0xDC00 + n % 0x400)
  }

  function Escaped(s: string): (r: string)
    ensures PrintableAscii(r) && |r| >= |s|
    decreases |s|
  {
    if s == [] then [] else EscapeChar(s[0]) + Escaped(s[1..])
  }

  /** `json.dumps` of a string. */
  function JsonString(s: string): (r: string)
    ensures PrintableAscii(r) && |r| >= |s| + 2
    ensures r[0] == '"' && r[|r| - 1] == '"'
  {
    "\"" + Escaped(s) + "\""
  }

  /** `json.dumps({'choices': [{'delta': {'content': text}}]})`. */
  function DeltaJson(text: string): (r: string)
    ensures r != [] && r[0] == '{'
  {
    "{\"choices\": [{\"delta\": {\"content\": " + JsonString(text) + "}}]}"
  }

  // ---------------------------------------------------------------- chunks of the event stream

  datatype Chunk =
    | Raw(payload: string)    // a payload sent as it is
    | Delta(content: string)  // a content delta this service writes itself
    | Done                    // the terminator

  /** The bytes of one server-sent event. */
  function Wire(c: Chunk): string {
    match c
    case Raw(p) => "data: " + p + "\n\n"
    case Delta(t) => "data: " + DeltaJson(t) + "\n\n"
    case Done => "data: [DONE]\n\n"
  }

  /** Only the terminator is sent as the terminator's event, as long as no raw payload is `[DONE]`. */
  lemma WireDoneUnique(c: Chunk)
    requires c.Raw? ==> c.payload != "[DONE]"
    ensures Wire(c) == Wire(Done) <==> c == Done
  {
    match c {
      case Raw(p) =>
        var w, d := Wire(c), Wire(Done);
        assert w[6..|w| - 2] == p;
        assert d[6..|d| - 2] == "[DONE]";
      case Delta(t) =>
        assert Wire(c)[6] == '{';
        assert Wire(Done)[6] == '[';
      case Done =>
    }
  }

  // ---------------------------------------------------------------- the upstream stream

  /** The literal chunk sent when no key is configured (written by hand, not by `json.dumps`). */
  const MissingKeyPayload := "{\"choices\":[{\"delta\":{\"content\":\"OPENAI_API_KEY is missing\"}}]}"

  /** The body of a non-200 reply: JSON, already dumped again, or plain text. */
  datatype ErrorBody = JsonBody(dumped: string) | TextBody(text: string)

  function DumpErrorBody(b: ErrorBody): string {
    match b
    case JsonBody(d) => d
    case TextBody(t) => "{\"error\": " + JsonString(t) + "}"
  }

  /** What the chat-completions request does. */
  datatype Upstream =
    | ConnectFailed(reason: string)                       // the request raised
    | HttpError(body: ErrorBody)                          // a status other than 200
    | Streamed(lines: seq<string>, fault: Option<string>) // the lines read; then, perhaps, a raised error

  /** The payload a streamed line carries: a non-empty line that, stripped, starts with `data: `. */
  function LinePayload(rawLine: string): Option<string> {
    if rawLine == "" then None
    else
      var line := Strip(rawLine);
      if !StartsWith(line, "data: ") then None else Some(Strip(line[6..]))
  }

  predicate IsDoneLine(rawLine: string) {
    LinePayload(rawLine) == Some("[DONE]")
  }

  predicate ReachesDone(lines: seq<string>) {
    exists k :: 0 <= k < |lines| && IsDoneLine(lines[k])
  }

  /** The chunks forwarded from `lines`: each payload in order, up to the first `[DONE]`. */
  function Forwarded(lines: seq<string>): (r: seq<Chunk>)
    ensures forall k :: 0 <= k < |r| ==> r[k].Raw? && r[k].payload != "[DONE]"
    ensures |r| <= |lines|
    decreases |lines|
  {
    if lines == [] then []
    else
      match LinePayload(lines[0])
      case None => Forwarded(lines[1..])
      case Some(p) => if p == "[DONE]" then [] else [Raw(p)] + Forwarded(lines[1..])
  }

  /** What one line adds after lines that have not reached `[DONE]`. */
  function LineChunks(rawLine: string): seq<Chunk> {
    match LinePayload(rawLine)
    case None => []
    case Some(p) => if p == "[DONE]" then [] else [Raw(p)]
  }

  /** Forwarding distributes over lines that stop short of `[DONE]`. */
  lemma {:induction false} ForwardedAppend(a: seq<string>, b: seq<string>)
    requires !ReachesDone(a)
    ensures Forwarded(a + b) == Forwarded(a) + Forwarded(b)
    decreases |a|
  {
    if a == [] {
      assert a + b == b;
    } else {
      assert (a + b)[0] == a[0];
      assert (a + b)[1..] == a[1..] + b;
      assert !IsDoneLine(a[0]);
      assert forall k :: 0 <= k < |a[1..]| ==> a[1..][k] == a[k + 1];
      ForwardedAppend(a[1..], b);
    }
  }

  /** Nothing after the first `[DONE]` is forwarded. */
  lemma ForwardedStopsAtDone(a: seq<string>, doneLine: string, rest: seq<string>)
    requires !ReachesDone(a) && IsDoneLine(doneLine)
    ensures Forwarded(a + [doneLine] + rest) == Forwarded(a)
  {
    ForwardedAppend(a, [doneLine] + rest);
    assert a + [doneLine] + rest == a + ([doneLine] + rest);
    assert ([doneLine] + rest)[0] == doneLine;
  }

  lemma ForwardedSnoc(a: seq<string>, rawLine: string)
    requires !ReachesDone(a)
    ensures Forwarded(a + [rawLine]) == Forwarded(a) + LineChunks(rawLine)
    ensures ReachesDone(a + [rawLine]) <==> IsDoneLine(rawLine)
  {
    ForwardedAppend(a, [rawLine]);
    assert [rawLine][1..] == [];
    assert (a + [rawLine])[|a|] == rawLine;
    assert forall k :: 0 <= k < |a| ==> (a + [rawLine])[k] == a[k];
  }

  predicate KeyMissing(apiKey: Option<string>) {
    apiKey.None? || apiKey.value == ""
  }

  /**
   * The chunks `_openai_stream_sse` yields: one chunk when the key is missing, the request raises or
   * the status is not 200; otherwise the forwarded payloads, then one error chunk if reading raised
   * before a `[DONE]` line. None of them is the terminator.
   */
  function UpstreamChunks(apiKey: Option<string>, upstream: Upstream): (r: seq<Chunk>)
    ensures Done !in r
    ensures forall k :: 0 <= k < |r| ==> r[k].Raw? ==> r[k].payload != "[DONE]"
    ensures KeyMissing(apiKey) ==> r == [Raw(MissingKeyPayload)]
    ensures !KeyMissing(apiKey) && upstream.ConnectFailed? ==> r == [Delta("OpenAI stream failed: " + upstream.reason)]
    ensures !KeyMissing(apiKey) && upstream.HttpError? ==> r == [Delta("OpenAI error: " + DumpErrorBody(upstream.body))]
    ensures !KeyMissing(apiKey) && upstream.Streamed? && (upstream.fault.None? || ReachesDone(upstream.lines)) ==>
      r == Forwarded(upstream.lines)
    ensures !KeyMissing(apiKey) && upstream.Streamed? && upstream.fault.Some? && !ReachesDone(upstream.lines) ==>
      && |r| == |Forwarded(upstream.lines)| + 1
      && r[..|r| - 1] == Forwarded(upstream.lines)
      && r[|r| - 1] == Delta("OpenAI stream failed: " + upstream.fault.value)
  {
    if KeyMissing(apiKey) then [Raw(MissingKeyPayload)]
    else
      match upstream
      case ConnectFailed(e) => [Delta("OpenAI stream failed: " + e)]
      case HttpError(b) => [Delta("OpenAI error: " + DumpErrorBody(b))]
      case Streamed(lines, fault) =>
        var forwarded := Forwarded(lines);
        var tail := if fault.Some? && !ReachesDone(lines) then [Delta("OpenAI stream failed: " + fault.value)] else [];
        assert (forwarded + tail)[..|forwarded|] == forwarded;
        assert tail == [] ==> forwarded + tail == forwarded;
        forwarded + tail
  }

  lemma LinesAround(lines: seq<string>, i: nat)
    requires i < |lines|
    ensures lines == lines[..i] + [lines[i]] + lines[i + 1..]
  {
    assert lines[i..] == [lines[i]] + lines[i + 1..];
    assert lines == lines[..i] + lines[i..];
  }

  /** At a `[DONE]` line of the relay loop the forwarding is over: the later lines add nothing. */
  lemma RelayStepDone(lines: seq<string>, i: nat)
    requires i < |lines| && !ReachesDone(lines[..i]) && IsDoneLine(lines[i])
    ensures Forwarded(lines) == Forwarded(lines[..i]) && ReachesDone(lines)
  {
    LinesAround(lines, i);
    ForwardedStopsAtDone(lines[..i], lines[i], lines[i + 1..]);
  }

  /** Any other line of the relay loop adds its own chunks. */
  lemma RelayStepOther(lines: seq<string>, i: nat)
    requires i < |lines| && !ReachesDone(lines[..i]) && !IsDoneLine(lines[i])
    ensures !ReachesDone(lines[..i + 1]) && Forwarded(lines[..i + 1]) == Forwarded(lines[..i]) + LineChunks(lines[i])
  {
    assert lines[..i + 1] == lines[..i] + [lines[i]];
    ForwardedSnoc(lines[..i], lines[i]);
  }

  /**
   * The line loop of `_openai_stream_sse`: skips blank and non-`data: ` lines, stops at the first
   * `[DONE]` payload, relays every other payload. `stopped` tells whether it met `[DONE]`.
   */
  method RelayLines(lines: seq<string>) returns (chunks: seq<Chunk>, stopped: bool)
    ensures chunks == Forwarded(lines)
    ensures stopped == ReachesDone(lines)
  {
    chunks := [];
    var i := 0;
    while i < |lines|
      invariant 0 <= i <= |lines|
      invariant !ReachesDone(lines[..i])
      invariant chunks == Forwarded(lines[..i])
    {
      var rawLine := lines[i];
      if IsDoneLine(rawLine) {
        RelayStepDone(lines, i);
      } else {
        RelayStepOther(lines, i);
      }
      i := i + 1;
      if rawLine == "" {
        continue;
      }
      var line := Strip(rawLine);
      if !StartsWith(line, "data: ") {
        continue;
      }
      var data := Strip(line[6..]);
      if data == "[DONE]" {
        return chunks, true;
      }
      chunks := chunks + [Raw(data)];
    }
    assert lines[..i] == lines;
    stopped := false;
  }

  /** `_openai_stream_sse`: the missing-key chunk, an error chunk, or the relayed lines. */
  method OpenAiStream(apiKey: Option<string>, upstream: Upstream) returns (chunks: seq<Chunk>)
    ensures chunks == UpstreamChunks(apiKey, upstream)
  {
    if apiKey.None? || apiKey.value == "" {
      return [Raw(MissingKeyPayload)];
    }
    match upstream {
      case ConnectFailed(e) =>
        chunks := [Delta("OpenAI stream failed: " + e)];
      case HttpError(b) =>
        chunks := [Delta("OpenAI error: " + DumpErrorBody(b))];
      case Streamed(lines, fault) =>
        var stopped;
        chunks, stopped := RelayLines(lines);
        if fault.Some? && !stopped {
          chunks := chunks + [Delta("OpenAI stream failed: " + fault.value)];
        }
    }
  }

  // ---------------------------------------------------------------- sources and the terminator

  /** The stripped, non-blank titles of `rs`, in order, repeats kept. */
  function Titles(rs: seq<Report>): (titles: seq<string>)
    ensures |titles| <= |rs|
    decreases |rs|
  {
    if rs == [] then []
    else
      var t := Strip(rs[0].title.GetOr(""));
      (if t != "" then [t] else []) + Titles(rs[1..])
  }

  /** Every cited title is non-empty and already stripped. */
  lemma {:induction false} TitlesStripped(rs: seq<Report>)
    ensures forall k :: 0 <= k < |Titles(rs)| ==> Titles(rs)[k] != [] && Strip(Titles(rs)[k]) == Titles(rs)[k]
    decreases |rs|
  {
    if rs != [] {
      var t := Strip(rs[0].title.GetOr(""));
      StripIdempotent(rs[0].title.GetOr(""));
      TitlesStripped(rs[1..]);
      var head := if t != "" then [t] else [];
      assert Titles(rs) == head + Titles(rs[1..]);
      forall k | 0 <= k < |Titles(rs)|
        ensures Titles(rs)[k] != [] && Strip(Titles(rs)[k]) == Titles(rs)[k]
      {
        if k >= |head| {
          assert Titles(rs)[k] == Titles(rs[1..])[k - |head|];
        }
      }
    }
  }

  lemma {:induction false} TitlesAppend(a: seq<Report>, b: seq<Report>)
    ensures Titles(a + b) == Titles(a) + Titles(b)
    decreases |a|
  {
    if a == [] {
      assert a + b == b;
    } else {
      assert (a + b)[0] == a[0];
      assert (a + b)[1..] == a[1..] + b;
      TitlesAppend(a[1..], b);
    }
  }

  lemma TitlesSnoc(rs: seq<Report>, i: nat)
    requires i < |rs|
    ensures var t := Strip(rs[i].title.GetOr(""));
      Titles(rs[..i + 1]) == Titles(rs[..i]) + (if t != "" then [t] else [])
  {
    assert rs[..i + 1] == rs[..i] + [rs[i]];
    TitlesAppend(rs[..i], [rs[i]]);
    assert [rs[i]][1..] == [];
  }

  /** The titles cited: those of the first six reports as given, not as ranked. */
  function SourceTitles(reports: seq<Report>): (titles: seq<string>)
    ensures |titles| <= MaxReports
  {
    Titles(FirstReports(reports))
  }

  /** `i. t` for each title, numbered from 1. */
  function Numbered(titles: seq<string>): (lines: seq<string>)
    ensures |lines| == |titles|
    ensures forall k :: 0 <= k < |titles| ==> lines[k] == NatToString(k + 1) + ". " + titles[k]
  {
    seq(|titles|, k requires 0 <= k < |titles| => NatToString(k + 1) + ". " + titles[k])
  }

  /** The Sources text: a heading after a blank line, one numbered line per title, a closing newline. */
  function SourcesText(titles: seq<string>): string {
    "\n\nSources\n" + Join(Numbered(titles), "\n") + "\n"
  }

  /** The numbered lines of the Sources text read back one per title, for titles without newlines. */
  lemma SourcesLines(titles: seq<string>)
    requires titles != []
    requires forall k :: 0 <= k < |titles| ==> '\n' !in titles[k]
    ensures Split(Join(Numbered(titles), "\n"), "\n") == Numbered(titles)
  {
    var lines := Numbered(titles);
    forall k | 0 <= k < |lines|
      ensures !Contains(lines[k], "\n")
    {
      var digits := NatToString(k + 1);
      assert lines[k] == digits + ". " + titles[k];
      assert '\n' !in digits + ". " by {
        assert forall m :: 0 <= m < |digits| ==> '0' <= digits[m] <= '9';
      }
      NotContainsFirstAbsent(lines[k], "\n");
    }
    SplitJoin(lines, "\n");
  }

  /** The Sources chunk, present exactly when some title is cited. */
  function SourcesChunks(reports: seq<Report>): (r: seq<Chunk>)
    ensures |r| <= 1 && Done !in r
    ensures r != [] <==> SourceTitles(reports) != []
  {
    var titles := SourceTitles(reports);
    if titles == [] then [] else [Delta(SourcesText(titles))]
  }

  /** `_append_sources_stream`'s output: the base chunks, the Sources chunk if any, the terminator. */
  function WithSources(base: seq<Chunk>, reports: seq<Report>): seq<Chunk> {
    base + SourcesChunks(reports) + [Done]
  }

  /**
   * `_append_sources_stream`: collects the titles of the first six reports as given, relays every
   * base chunk, then adds the Sources chunk when there are titles, then the terminator.
   */
  method AppendSources(base: seq<Chunk>, reports: seq<Report>) returns (out: seq<Chunk>)
    ensures out == WithSources(base, reports)
  {
    var top := FirstReports(reports);
    var titles: seq<string> := [];
    for i := 0 to |top|
      invariant titles == Titles(top[..i])
    {
      var t := Strip(top[i].title.GetOr(""));
      if t != "" {
        titles := titles + [t];
      }
      TitlesSnoc(top, i);
    }
    assert top[..|top|] == top;
    out := [];
    for i := 0 to |base|
      invariant out == base[..i]
    {
      assert base[..i + 1] == base[..i] + [base[i]];
      out := out + [base[i]];
    }
    assert base[..|base|] == base;
    if titles != [] {
      out := out + [Delta(SourcesText(titles))];
    }
    out := out + [Done];
  }

  /**
   * The relayed stream keeps every base chunk in front, in order, ends with the terminator, and holds
   * it exactly once when the base holds none.
   */
  lemma WithSourcesShape(base: seq<Chunk>, reports: seq<Report>)
    requires Done !in base
    ensures var out := WithSources(base, reports);
      && out[..|base|] == base
      && out[|out| - 1] == Done
      && multiset(out)[Done] == 1
      && |out| == |base| + 1 + (if SourceTitles(reports) != [] then 1 else 0)
  {
    var out := WithSources(base, reports);
    var extra := SourcesChunks(reports);
    assert out[..|base|] == base;
    assert multiset(out) == multiset(base) + multiset(extra) + multiset{Done};
    assert multiset(base)[Done] == 0;
    assert multiset(extra)[Done] == 0;
  }

  /** In the whole chat stream, only the last event is the terminator's. */
  lemma ChatStreamEndsOnce(apiKey: Option<string>, upstream: Upstream, reports: seq<Report>)
    ensures var out := WithSources(UpstreamChunks(apiKey, upstream), reports);
      && out[|out| - 1] == Done
      && multiset(out)[Done] == 1
      && forall k :: 0 <= k < |out| - 1 ==> Wire(out[k]) != Wire(Done)
  {
    var base := UpstreamChunks(apiKey, upstream);
    var out := WithSources(base, reports);
    WithSourcesShape(base, reports);
    forall k | 0 <= k < |out| - 1
      ensures Wire(out[k]) != Wire(Done)
    {
      if k < |base| {
        assert out[k] == base[k];
        WireDoneUnique(base[k]);
      } else {
        assert out[k] in SourcesChunks(reports);
        WireDoneUnique(out[k]);
      }
    }
  }

  /** The cited titles follow the input order even when ranking reorders the reports. */
  lemma SourcesIgnoreRank(low: Report, high: Report)
    requires low.rank == Numeric(2) && high.rank == Numeric(9)
    requires low.title == Some("A") && high.title == Some("B")
    ensures RankOrder([low, high]) == [high, low]
    ensures SourceTitles([low, high]) == ["A", "B"]
  {
    HigherRankFirst(low, high);
    StripUnpadded("A");
    StripUnpadded("B");
    assert FirstReports([low, high]) == [low, high];
    assert [low, high][1..] == [high] && [high][1..] == [];
    assert Titles([high]) == ["B"] + Titles([]);
    assert Titles([low, high]) == ["A"] + Titles([high]);
  }

  // ---------------------------------------------------------------- the chat request

  /** What the per-collection index manager decides for the caller. */
  datatype Access = NameTooLong(message: string) | Denied | Granted

  datatype ChatResponse =
    | Rejected(status: int, error: string)
    | EventStream(userMessage: string, chunks: seq<Chunk>)

  const Instructions := "Answer using ONLY CONTEXT. If the user asks for an exact quote, quote exact sentences from CONTEXT."

  /** The user message sent to the model: the context, the question, the instructions. */
  function ChatUserMessage(context: string, question: string): string {
    "CONTEXT\n" + context + "\n\nQUESTION\n" + question + "\n\nINSTRUCTIONS\n" + Instructions
  }

  /** Budgets of the local chat path. */
  const ChatReportChars := 10000
  const ChatRawChars := 20000

  /**
   * `chat_with_data` in local mode. The directory listing, the global search (`None` when it raised
   * or returned no dictionary), the key and the upstream behaviour are inputs.
   */
  method ChatWithData(messages: seq<Message>, indexName: Option<string>, access: Access,
                      files: seq<UploadedFile>, search: Option<seq<Report>>,
                      apiKey: Option<string>, upstream: Upstream) returns (resp: ChatResponse)
    ensures messages == [] || indexName.None? || indexName.value == "" ==>
      resp == Rejected(400, "Messages and index name are required")
    ensures messages != [] && indexName.Some? && indexName.value != "" ==>
      match access
      case NameTooLong(msg) => resp == Rejected(400, msg)
      case Denied => resp == Rejected(403, "Unauthorized access")
      case Granted =>
        var reports := search.GetOr([]);
        var context := AssembleContext(FormattedReports(reports, ChatReportChars, true), CombinedText(files, ChatRawChars));
        resp == EventStream(ChatUserMessage(context, LastUserTextOf(messages)),
                            WithSources(UpstreamChunks(apiKey, upstream), reports))
    ensures resp.EventStream? ==>
      resp.chunks[|resp.chunks| - 1] == Done && multiset(resp.chunks)[Done] == 1
  {
    if messages == [] || indexName.None? || indexName.value == "" {
      return Rejected(400, "Messages and index name are required");
    }
    match access {
      case NameTooLong(msg) =>
        return Rejected(400, msg);
      case Denied =>
        return Rejected(403, "Unauthorized access");
      case Granted =>
    }
    var question := LastUserText(messages);
    var rawText := LoadUploadedText(files, ChatRawChars);
    var reports: seq<Report> := [];
    match search {
      case None =>
      case Some(found) =>
        reports := found;
    }
    var reportsBlock := FormatGraphRagContext(reports, ChatReportChars);
    var context := AssembleContext(reportsBlock, rawText);
    var base := OpenAiStream(apiKey, upstream);
    var chunks := AppendSources(base, reports);
    ChatStreamEndsOnce(apiKey, upstream, reports);
    resp := EventStream(ChatUserMessage(context, question), chunks);
  }

  // ---------------------------------------------------------------- citation images

  datatype CitationImage = CitationImage(baseName: string, page: string, imageName: string)

  /**
   * The image `process_citation` fetches for a citation's file path: none for an empty path;
   * otherwise the base before the first `___`, and the page from the second piece up to its first
   * dot with every `Page` removed, or page 1 when there is no second piece.
   */
  function CitationImageFor(filepath: string): (r: Option<CitationImage>)
    ensures r.None? <==> filepath == ""
    ensures r.Some? ==> r.value.baseName == Before(filepath, "___")
    ensures r.Some? && !Contains(filepath, "___") ==> r.value.page == "1"
    ensures r.Some? && Contains(filepath, "___") ==>
      r.value.page == RemoveAll(Before(Before(filepath[|r.value.baseName| + 3..], "___"), "."), "Page")
    ensures r.Some? ==> r.value.imageName == r.value.baseName + "___Page" + r.value.page + ".png"
  {
    if filepath == "" then None
    else
      var parts := Split(filepath, "___");
      SplitPieces(filepath, "___");
      var page :=
        if |parts| > 1 then
          SplitPieces(parts[1], ".");
          RemoveAll(Split(parts[1], ".")[0], "Page")
        else "1";
      Some(CitationImage(parts[0], page, parts[0] + "___Page" + page + ".png"))
  }

  /**
   * The base of a citation is the path up to its first `___`: a prefix holding no `___`, followed
   * by `___` unless it is the whole path.
   */
  lemma CitationBaseFirst(filepath: string)
    requires filepath != ""
    ensures var b := CitationImageFor(filepath).value.baseName;
      && !Contains(b, "___")
      && (b == filepath <==> !Contains(filepath, "___"))
      && (b != filepath ==> StartsWith(filepath, b + "___") && forall j: nat :: j < |b| ==> !OccursAt(filepath, "___", j))
  {
    var b := CitationImageFor(filepath).value.baseName;
    BeforeFacts(filepath, "___");
    if b != filepath {
      assert filepath[|b|..|b| + 3] == "___";
      assert filepath[..|b| + 3] == b + "___";
    }
  }

  /** A path without `___` is its own base, on page 1. */
  lemma CitationWithoutPage(filepath: string)
    requires filepath != "" && !Contains(filepath, "___")
    ensures CitationImageFor(filepath) == Some(CitationImage(filepath, "1", filepath + "___Page" + "1" + ".png"))
  {
    SplitWhole(filepath, "___");
  }

  /** Removing `Page` from `Page` followed by digits leaves the digits. */
  lemma RemovePageMarker(page: string)
    requires IsDigits(page)
    ensures RemoveAll("Page" + page, "Page") == page
  {
    var s := "Page" + page;
    assert s[..4] == "Page" && s[4..] == page;
    assert 'P' !in page by {
      assert forall m :: 0 <= m < |page| ==> '0' <= page[m] <= '9';
    }
    NotContainsFirstAbsent(page, "Page");
    RemoveAllAbsent(page, "Page");
  }

  /** In `base + "___" + rest`, the first `___` is the one after `base` when `base` holds none and does not end in `_`. */
  lemma FirstMarkerAfterBase(base: string, rest: string)
    requires !Contains(base, "___") && (base == "" || base[|base| - 1] != '_')
    ensures Find(base + "___" + rest, "___") == Some(|base|)
  {
    var name := base + "___" + rest;
    assert name[|base|..|base| + 3] == "___";
    forall j: nat | j < |base|
      ensures !OccursAt(name, "___", j)
    {
      if j + 3 <= |base| {
        assert name[j..j + 3] == base[j..j + 3];
        assert !OccursAt(base, "___", j);
      } else if j + 3 <= |name| {
        assert name[j..j + 3][|base| - 1 - j] == base[|base| - 1];
      }
    }
    FindFirstAt(name, "___", |base|);
  }

  /** The piece after the marker of an image name: `Page` and the digits, then the extension. */
  lemma PagePiece(page: string)
    requires IsDigits(page)
    ensures var front := "Page" + page;
      && Before(front + ".png", "___") == front + ".png"
      && Before(front + ".png", ".") == front
  {
    var front := "Page" + page;
    var rest := front + ".png";
    assert '_' !in rest && '.' !in front by {
      assert forall m :: 0 <= m < |page| ==> '0' <= page[m] <= '9';
      assert forall m :: 0 <= m < |front| ==> front[m] in "Page0123456789";
    }
    NotContainsFirstAbsent(rest, "___");
    forall j: nat | j < |front|
      ensures !OccursAt(rest, ".", j)
    {
      OccursAtChar(rest, '.', j);
    }
    OccursAtChar(rest, '.', |front|);
    FindFirstAt(rest, ".", |front|);
  }

  /** An image name derived from a base and a numeric page derives itself again. */
  lemma CitationOfImageName(base: string, page: string)
    requires !Contains(base, "___") && (base == "" || base[|base| - 1] != '_')
    requires page != [] && IsDigits(page)
    ensures var name := base + "___Page" + page + ".png";
      CitationImageFor(name) == Some(CitationImage(base, page, name))
  {
    var rest := "Page" + page + ".png";
    var name := base + "___Page" + page + ".png";
    assert name == base + "___" + rest;
    assert Contains(name, "___") && Before(name, "___") == base by {
      FirstMarkerAfterBase(base, rest);
    }
    assert RemoveAll(Before(Before(name[|base| + 3..], "___"), "."), "Page") == page by {
      assert name[|base| + 3..] == rest;
      PagePiece(page);
      RemovePageMarker(page);
    }
    CitationOfParts(name, base, page);
  }

  lemma CitationOfParts(name: string, base: string, page: string)
    requires name == base + "___Page" + page + ".png"
    requires Contains(name, "___") && Before(name, "___") == base
    requires RemoveAll(Before(Before(name[|base| + 3..], "___"), "."), "Page") == page
    ensures CitationImageFor(name) == Some(CitationImage(base, page, name))
  {
    var c := CitationImageFor(name);
    assert c.Some? && c.value.baseName == base && c.value.page == page;
  }
}
