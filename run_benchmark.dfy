/**
 * The benchmark runner's checks: the shape validator of the question file, the legacy list of
 * plain questions normalised into entries with ids `q01`, `q02`, ..., the phrase scoring of an
 * answer, the restriction setting, the answer preview and the retrieval hit.
 */
module Benchmark {
  import opened Wrappers
  import opened Text
  import opened ReportContext
  import opened GraphRagQuery

  // ---------------------------------------------------------------- the question file

  /** A parsed JSON value; a number keeps only what the validator looks at (that it is no string). */
  datatype Json =
    | JNull
    | JBool(b: bool)
    | JNum(n: int)
    | JStr(s: string)
    | JArr(items: seq<Json>)
    | JObj(fields: map<string, Json>)

  /** The index of the first item that is not a string, if any. */
  function FirstNonString(items: seq<Json>): (r: Option<nat>)
    ensures r.None? <==> forall k :: 0 <= k < |items| ==> items[k].JStr?
    ensures r.Some? ==> (r.value < |items| && !items[r.value].JStr?
      && forall k :: 0 <= k < r.value ==> items[k].JStr?)
    decreases |items|
  {
    if items == [] then None
    else if !items[0].JStr? then Some(0)
    else
      var rest := FirstNonString(items[1..]);
      assert forall k :: 0 < k < |items| ==> items[k] == items[1..][k - 1];
      if rest.None? then None else Some(rest.value + 1)
  }

  /** What a valid entry is: an object with a non-blank string question, a string id if any, and a
   *  list of strings as expected phrases if any. */
  predicate ValidEntry(item: Json) {
    && item.JObj?
    && "question" in item.fields && item.fields["question"].JStr? && !IsBlank(item.fields["question"].s)
    && ("id" in item.fields ==> item.fields["id"].JStr?)
    && ("expected_contains" in item.fields ==>
          && item.fields["expected_contains"].JArr?
          && forall k :: 0 <= k < |item.fields["expected_contains"].items| ==>
               item.fields["expected_contains"].items[k].JStr?)
  }

  function EntryPrefix(i: nat): string {
    "entry " + NatToString(i)
  }

  /** The check of entry `i`, in the validator's order; the message of the first failure. */
  function EntryError(i: nat, item: Json): Option<string> {
    if !item.JObj? then Some(EntryPrefix(i) + " must be an object")
    else
      var f := item.fields;
      if !("question" in f && f["question"].JStr? && Strip(f["question"].s) != "") then
        Some(EntryPrefix(i) + " missing valid question")
      else if "id" in f && !f["id"].JStr? then Some(EntryPrefix(i) + " id must be a string")
      else if "expected_contains" in f && !f["expected_contains"].JArr? then
        Some(EntryPrefix(i) + " expected_contains must be a list")
      else if "expected_contains" in f then
        match FirstNonString(f["expected_contains"].items)
        case Some(j) => Some(EntryPrefix(i) + " expected_contains item " + NatToString(j) + " must be a string")
        case None => None
      else None
  }

  lemma EntryErrorValid(i: nat, item: Json)
    ensures EntryError(i, item).None? <==> ValidEntry(item)
  {
    if item.JObj? && "question" in item.fields && item.fields["question"].JStr? {
      StripFacts(item.fields["question"].s);
    }
  }

  /** The entries from `i` on, checked in order; the first failure's message. */
  function ValidateEntries(items: seq<Json>, i: nat): Option<string>
    requires i <= |items|
    decreases |items| - i
  {
    if i == |items| then None
    else
      match EntryError(i, items[i])
      case Some(e) => Some(e)
      case None => ValidateEntries(items, i + 1)
  }

  /** `validate_questions`: `None` when it returns, the message of the `ValueError` it raises otherwise. */
  function ValidateQuestions(data: Json): Option<string> {
    if !data.JArr? then Some("benchmark_questions json must be a list")
    else ValidateEntries(data.items, 0)
  }

  lemma {:induction false} ValidateEntriesValid(items: seq<Json>, i: nat)
    requires i <= |items|
    ensures ValidateEntries(items, i).None? <==> forall k :: i <= k < |items| ==> ValidEntry(items[k])
    decreases |items| - i
  {
    if i < |items| {
      EntryErrorValid(i, items[i]);
      ValidateEntriesValid(items, i + 1);
    }
  }

  /** A failure names the first entry that is not valid; every entry before it is. */
  lemma {:induction false} ValidateEntriesFirstError(items: seq<Json>, i: nat)
    requires i <= |items| && ValidateEntries(items, i).Some?
    ensures exists k :: (i <= k < |items|
      && (forall m :: i <= m < k ==> ValidEntry(items[m]))
      && EntryError(k, items[k]) == ValidateEntries(items, i))
    decreases |items| - i
  {
    EntryErrorValid(i, items[i]);
    if EntryError(i, items[i]).None? {
      ValidateEntriesFirstError(items, i + 1);
      var k :| i + 1 <= k < |items|
        && (forall m :: i + 1 <= m < k ==> ValidEntry(items[m]))
        && EntryError(k, items[k]) == ValidateEntries(items, i + 1);
      assert forall m :: i <= m < k ==> ValidEntry(items[m]);
    }
  }

  /** The validator accepts exactly a list of valid entries. */
  lemma ValidateQuestionsValid(data: Json)
    ensures ValidateQuestions(data).None? <==>
      data.JArr? && forall k :: 0 <= k < |data.items| ==> ValidEntry(data.items[k])
  {
    if data.JArr? {
      ValidateEntriesValid(data.items, 0);
    }
  }

  // ---------------------------------------------------------------- the legacy format

  /** `f"{i:02d}"`: at least two digits, zero-padded. */
  function ZeroPad2(i: nat): (r: string)
    ensures |r| >= 2 && IsDigits(r)
  {
    if i < 10 then "0" + NatToString(i) else NatToString(i)
  }

  lemma {:induction false} DigitsValueLeadingZero(s: string)
    requires IsDigits(s)
    ensures IsDigits("0" + s) && DigitsValue("0" + s) == DigitsValue(s)
    decreases |s|
  {
    if s != [] {
      var z := "0" + s;
      assert z[..|z| - 1] == "0" + s[..|s| - 1];
      DigitsValueLeadingZero(s[..|s| - 1]);
    }
  }

  /** The padded numeral reads back as the number. */
  lemma ZeroPad2RoundTrip(i: nat)
    ensures DigitsValue(ZeroPad2(i)) == i
  {
    DigitsRoundTrip(i);
    if i < 10 {
      DigitsValueLeadingZero(NatToString(i));
    }
  }

  function QuestionId(i: nat): string {
    "q" + ZeroPad2(i)
  }

  /** Different positions get different ids. */
  lemma QuestionIdInjective(i: nat, j: nat)
    requires i != j
    ensures QuestionId(i) != QuestionId(j)
  {
    ZeroPad2RoundTrip(i);
    ZeroPad2RoundTrip(j);
    assert QuestionId(i)[1..] == ZeroPad2(i);
    assert QuestionId(j)[1..] == ZeroPad2(j);
  }

  predicate IsLegacy(data: Json) {
    data.JArr? && forall k :: 0 <= k < |data.items| ==> data.items[k].JStr?
  }

  /** The entry a plain question at 1-based position `i` becomes. */
  function LegacyEntry(i: nat, question: string): Json {
    JObj(map["id" := JStr(QuestionId(i)), "question" := JStr(question), "expected_contains" := JArr([])])
  }

  function LegacyEntries(items: seq<Json>): (r: seq<Json>)
    requires forall k :: 0 <= k < |items| ==> items[k].JStr?
    ensures |r| == |items|
    ensures forall k :: 0 <= k < |items| ==> r[k] == LegacyEntry(k + 1, items[k].s)
  {
    seq(|items|, k requires 0 <= k < |items| => LegacyEntry(k + 1, items[k].s))
  }

  /** The normalised legacy list is valid exactly when no question is blank. */
  lemma LegacyEntriesValid(items: seq<Json>)
    requires forall k :: 0 <= k < |items| ==> items[k].JStr?
    ensures ValidateQuestions(JArr(LegacyEntries(items))).None? <==>
      forall k :: 0 <= k < |items| ==> !IsBlank(items[k].s)
  {
    var r := LegacyEntries(items);
    ValidateQuestionsValid(JArr(r));
    forall k | 0 <= k < |items|
      ensures ValidEntry(r[k]) <==> !IsBlank(items[k].s)
    {
      var f := r[k].fields;
      assert f["question"] == JStr(items[k].s);
      assert f["id"] == JStr(QuestionId(k + 1));
      assert f["expected_contains"] == JArr([]);
    }
  }

  /** Legacy ids follow the positions, so no two entries share one. */
  lemma LegacyIdsDistinct(items: seq<Json>, a: nat, b: nat)
    requires forall k :: 0 <= k < |items| ==> items[k].JStr?
    requires a < b < |items|
    ensures LegacyEntries(items)[a].fields["id"] != LegacyEntries(items)[b].fields["id"]
  {
    QuestionIdInjective(a + 1, b + 1);
  }

  /** What `load_questions` returns for the parsed file: a legacy list normalised, then validated. */
  function LoadedQuestions(data: Json): (r: Result<Json, string>)
    ensures r.Ok? ==> r.value.JArr? && forall k :: 0 <= k < |r.value.items| ==> ValidEntry(r.value.items[k])
    ensures r.Ok? && !IsLegacy(data) ==> r.value == data
    ensures IsLegacy(data) ==> (r.Ok? <==> forall k :: 0 <= k < |data.items| ==> !IsBlank(data.items[k].s))
    ensures IsLegacy(data) && r.Ok? ==> r.value == JArr(LegacyEntries(data.items))
    ensures !IsLegacy(data) ==>
      (r.Ok? <==> data.JArr? && forall k :: 0 <= k < |data.items| ==> ValidEntry(data.items[k]))
  {
    var d :=
      if IsLegacy(data) then
        LegacyEntriesValid(data.items);
        JArr(LegacyEntries(data.items))
      else data;
    ValidateQuestionsValid(d);
    match ValidateQuestions(d)
    case Some(e) => Err(e)
    case None => Ok(d)
  }

  /**
   * `load_questions` after the file is read and parsed: a list of plain questions is rebuilt, one
   * entry per question, before the whole value is validated.
   */
  method LoadQuestions(data: Json) returns (r: Result<Json, string>)
    ensures r == LoadedQuestions(data)
  {
    var d := data;
    if IsLegacy(data) {
      var normalized: seq<Json> := [];
      for i := 0 to |data.items|
        invariant |normalized| == i
        invariant forall k :: 0 <= k < i ==> normalized[k] == LegacyEntry(k + 1, data.items[k].s)
      {
        normalized := normalized + [LegacyEntry(i + 1, data.items[i].s)];
      }
      assert normalized == LegacyEntries(data.items);
      d := JArr(normalized);
    }
    match ValidateQuestions(d) {
      case Some(e) =>
        return Err(e);
      case None =>
        return Ok(d);
    }
  }

  // ---------------------------------------------------------------- scoring

  /** Every expected phrase, lower-cased, occurs in the lower-cased answer. */
  predicate AllPhrasesIn(answer: string, expected: seq<string>) {
    forall k :: 0 <= k < |expected| ==> Contains(Lower(answer), Lower(expected[k]))
  }

  /**
   * `score_expected_contains`: no score without expected phrases; otherwise whether every phrase
   * occurs, scanning until the first that is missing.
   */
  method ScoreExpectedContains(answer: string, expected: seq<string>) returns (r: Option<bool>)
    ensures expected == [] <==> r.None?
    ensures r.Some? ==> (r.value <==> AllPhrasesIn(answer, expected))
  {
    if expected == [] {
      return None;
    }
    var a := Lower(answer);
    var ok := true;
    var i := 0;
    while i < |expected|
      invariant 0 <= i <= |expected| && ok
      invariant forall k :: 0 <= k < i ==> Contains(a, Lower(expected[k]))
    {
      if !Contains(a, Lower(expected[i])) {
        ok := false;
        break;
      }
      i := i + 1;
    }
    return Some(ok);
  }

  /** An empty phrase always matches. */
  lemma EmptyPhraseMatches(answer: string)
    ensures AllPhrasesIn(answer, [""])
  {
    assert Lower("") == "";
    assert OccursAt(Lower(answer), "", 0);
  }

  // ---------------------------------------------------------------- the run settings

  /** `BENCHMARK_IS_RESTRICTED`, lower-cased and stripped, is `1`, `true` or `yes`; unset means `false`. */
  function ResolveIsRestricted(setting: Option<string>): bool {
    var v := Strip(Lower(setting.GetOr("false")));
    v == "1" || v == "true" || v == "yes"
  }

  /** Whitespace around the setting does not matter. */
  lemma ResolveIsRestrictedPadded(a: string, v: string, b: string)
    requires IsBlank(a) && IsBlank(b)
    ensures ResolveIsRestricted(Some(a + v + b)) == ResolveIsRestricted(Some(v))
  {
    LowerAppend(a + v, b);
    LowerAppend(a, v);
    LowerKeepsBlank(a);
    LowerKeepsBlank(b);
    StripPadded(a, Lower(v), b);
  }

  /** The accepted spellings, the default, and one that is refused. */
  lemma ResolveIsRestrictedExamples()
    ensures ResolveIsRestricted(Some("YES")) && ResolveIsRestricted(Some("1"))
    ensures !ResolveIsRestricted(None) && !ResolveIsRestricted(Some("on"))
  {
    assert Lower("YES") == "yes";
    StripUnpadded("yes");
    assert Lower("1") == "1";
    StripUnpadded("1");
    assert Lower("false") == "false";
    StripUnpadded("false");
    assert Lower("on") == "on";
    StripUnpadded("on");
  }

  // ---------------------------------------------------------------- results

  const PreviewChars := 300

  /** The answer preview: the answer itself up to 300 characters, else its first 300 and ` ...`. */
  function AnswerPreview(answer: string): (r: string)
    ensures |r| <= PreviewChars + 4
    ensures |answer| <= PreviewChars ==> r == answer
    ensures |answer| > PreviewChars ==>
      StartsWith(r, answer[..PreviewChars]) && EndsWith(r, " ...") && |r| == PreviewChars + 4
  {
    if |answer| > PreviewChars then answer[..PreviewChars] + " ..." else answer
  }

  /** A question's retrieval counts as a hit when the returned context lists some report. */
  function RetrievalHit(reports: seq<Report>): bool {
    |reports| > 0
  }

  /** For a normalised search result, a hit means the search returned some report row. */
  lemma HitIffRows(value: ReportsValue, configuredName: string)
    requires Normalized(value, configuredName).Ok?
    ensures RetrievalHit(Normalized(value, configuredName).value) <==> |RowsOf(value)| > 0
  {
    ReportsOfRows(RowsOf(value), configuredName);
  }
}
