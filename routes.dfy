/**
 * The local-mode collection routes: the switch that restricts changing operations, the knowledge-base
 * folders the routes create, fill and delete, and the per-collection indexing status map with its
 * start guard, its background outcome and its reads.
 */
module Routes {
  import opened Wrappers
  import opened Text

  // ---------------------------------------------------------------- the restriction switch

  /** `RESTRICT_OPERATIONS`, lower-cased, must be exactly `true`; unset means `false`. */
  function AreOperationsRestricted(setting: Option<string>): (r: bool)
    ensures setting.None? ==> !r
    ensures r <==> (setting.Some? && |setting.value| == 4 &&
      forall k :: 0 <= k < 4 ==> setting.value[k] == "true"[k] || setting.value[k] == "TRUE"[k])
  {
    var v := setting.GetOr("false");
    assert Lower(v) == "true" <==> |v| == 4 && forall k :: 0 <= k < 4 ==> LowerChar(v[k]) == "true"[k];
    Lower(v) == "true"
  }

  /** Any capitalisation of `true` restricts, but surrounding whitespace does not: nothing is stripped. */
  lemma RestrictionSpelling()
    ensures AreOperationsRestricted(Some("TRUE")) && AreOperationsRestricted(Some("True"))
    ensures !AreOperationsRestricted(Some(" true")) && !AreOperationsRestricted(Some("1"))
  {
    assert Lower("TRUE") == "true";
    assert Lower("True") == "true";
    assert Lower(" true")[0] == ' ';
    assert |Lower("1")| == 1;
  }

  // ---------------------------------------------------------------- statuses

  /** The status dictionary of one collection, and the `not_started` reply for an absent one. */
  datatype IndexStatus =
    | NotStarted
    | InProgress(progress: int)
    | Completed(progress: int)
    | Failed(error: string)

  /** What `_check_index_status` reports: the stored entry, or `not_started`. */
  function StatusOf(statuses: map<string, IndexStatus>, name: string): (s: IndexStatus)
    ensures name !in statuses ==> s == NotStarted
    ensures name in statuses ==> s == statuses[name]
  {
    if name in statuses then statuses[name] else NotStarted
  }

  predicate IsInProgress(statuses: map<string, IndexStatus>, name: string) {
    name in statuses && statuses[name].InProgress?
  }

  /** A file name indexing accepts: `.txt`, `.md` or `.pdf` in any capitalisation. */
  predicate IsIndexable(filename: string) {
    var n := Lower(filename);
    EndsWith(n, ".txt") || EndsWith(n, ".md") || EndsWith(n, ".pdf")
  }

  predicate HasIndexableFile(files: seq<string>) {
    exists k :: 0 <= k < |files| && IsIndexable(files[k])
  }

  // ---------------------------------------------------------------- the start guard

  /** The outcome of a start request. */
  datatype StartResult =
    | AlreadyRunning  // 400 "Indexing already in progress"
    | NoFiles         // 400 "No text files found in knowledgebase."
    | ListingFailed   // the folder is missing: listing it raises, after the entry was set
    | Started         // 202, the background job runs

  datatype StartStep = StartStep(result: StartResult, statuses: map<string, IndexStatus>)

  /**
   * `_index_files` in local mode, on the folder listing (`None` when the folder does not exist). A
   * running job rejects the start; otherwise the entry becomes in progress at 0 before the folder is
   * listed; with no indexable file the entry is removed again.
   */
  function StartIndexing(statuses: map<string, IndexStatus>, name: string, listing: Option<seq<string>>): StartStep {
    if IsInProgress(statuses, name) then StartStep(AlreadyRunning, statuses)
    else
      var marked := statuses[name := InProgress(0)];
      match listing
      case None => StartStep(ListingFailed, marked)
      case Some(files) =>
        if HasIndexableFile(files) then StartStep(Started, marked)
        else StartStep(NoFiles, marked - {name})
  }

  /** A start on a running collection is rejected and changes nothing. */
  lemma StartWhileRunning(statuses: map<string, IndexStatus>, name: string, listing: Option<seq<string>>)
    requires IsInProgress(statuses, name)
    ensures StartIndexing(statuses, name, listing) == StartStep(AlreadyRunning, statuses)
  {
  }

  /** Only a running job blocks a start: a completed, failed or absent entry restarts at progress 0. */
  lemma StartAfterOutcome(statuses: map<string, IndexStatus>, name: string, files: seq<string>)
    requires !IsInProgress(statuses, name) && HasIndexableFile(files)
    ensures var step := StartIndexing(statuses, name, Some(files));
      step.result == Started && StatusOf(step.statuses, name) == InProgress(0)
  {
  }

  /** A start without indexable files forgets the collection's entry, whatever it was before. */
  lemma StartWithoutFiles(statuses: map<string, IndexStatus>, name: string, files: seq<string>)
    requires !IsInProgress(statuses, name) && !HasIndexableFile(files)
    ensures var step := StartIndexing(statuses, name, Some(files));
      step.result == NoFiles && StatusOf(step.statuses, name) == NotStarted
  {
  }

  /** A start on a missing folder leaves the entry in progress, so every later start is rejected. */
  lemma StartOnMissingFolder(statuses: map<string, IndexStatus>, name: string, later: Option<seq<string>>)
    requires !IsInProgress(statuses, name)
    ensures var step := StartIndexing(statuses, name, None);
      && step.result == ListingFailed
      && StatusOf(step.statuses, name) == InProgress(0)
      && StartIndexing(step.statuses, name, later).result == AlreadyRunning
  {
  }

  /** A start touches no other collection's entry. */
  lemma StartKeepsOthers(statuses: map<string, IndexStatus>, name: string, listing: Option<seq<string>>, other: string)
    requires other != name
    ensures StatusOf(StartIndexing(statuses, name, listing).statuses, other) == StatusOf(statuses, other)
  {
  }

  // ---------------------------------------------------------------- files

  /** The folder's file names after writing `filename` into it (an existing file is overwritten). */
  function WithFile(files: seq<string>, filename: string): (r: seq<string>)
    ensures filename in r
    ensures forall f :: f in files ==> f in r
    ensures forall f :: f in r ==> f in files || f == filename
  {
    if filename in files then files else files + [filename]
  }

  /** An uploaded text, Markdown or PDF file makes the folder indexable. */
  lemma UploadMakesIndexable(files: seq<string>, filename: string)
    requires IsIndexable(filename)
    ensures HasIndexableFile(WithFile(files, filename))
  {
    var r := WithFile(files, filename);
    var k :| 0 <= k < |r| && r[k] == filename;
  }

  /** The page count an upload reports: the PDF's when it could be read, otherwise 0. */
  function UploadPages(filename: string, pdfPages: Option<nat>): (pages: nat)
    ensures !EndsWith(Lower(filename), ".pdf") ==> pages == 0
    ensures EndsWith(Lower(filename), ".pdf") ==> pages == pdfPages.GetOr(0)
  {
    if EndsWith(Lower(filename), ".pdf") then pdfPages.GetOr(0) else 0
  }

  // ---------------------------------------------------------------- replies

  datatype Body =
    | ErrorBody(error: string)
    | MessageBody(message: string)
    | IndexCreated(index: string)
    | FileUploaded(pages: nat)
    | IndexingInitiated
    | StatusBody(status: IndexStatus)
    | ServerError // an exception the route does not catch

  datatype Reply = Reply(code: int, body: Body)

  const NotAllowed := Reply(403, ErrorBody("Operation not allowed"))
  const IndexNotFound := Reply(404, ErrorBody("Index not found"))

  /** The reply of a start request; a failed listing escapes as a server error. */
  function StartReply(result: StartResult): Reply {
    match result
    case AlreadyRunning => Reply(400, ErrorBody("Indexing already in progress"))
    case NoFiles => Reply(400, ErrorBody("No text files found in knowledgebase."))
    case ListingFailed => Reply(500, ServerError)
    case Started => Reply(202, IndexingInitiated)
  }

  /** The uploaded file, when the request carries one. */
  datatype Upload = Upload(filename: string, pdfPages: Option<nat>)

  // ---------------------------------------------------------------- the configurator

  /**
   * The route configurator in local mode: the restriction switch read once at construction, the
   * knowledge-base folders with their file names, and the indexing status of each collection.
   */
  class RouteConfigurator {
    const operationsRestricted: bool
    var folders: map<string, seq<string>>
    var statuses: map<string, IndexStatus>

    /** No stored entry reads as `not_started`: that reply is only the default for a missing entry. */
    predicate Valid()
      reads this
    {
      forall name :: name in statuses ==> !statuses[name].NotStarted?
    }

    constructor(restrictSetting: Option<string>, existing: map<string, seq<string>>)
      ensures Valid()
      ensures operationsRestricted == AreOperationsRestricted(restrictSetting)
      ensures folders == existing && statuses == map[]
    {
      operationsRestricted := AreOperationsRestricted(restrictSetting);
      folders := existing;
      statuses := map[];
    }

    function Listing(name: string): Option<seq<string>>
      reads this
    {
      if name in folders then Some(folders[name]) else None
    }

    /** `_index_files`: the start guard over the folder as it is now. The route is not restricted. */
    method IndexFiles(name: string) returns (reply: Reply)
      requires Valid()
      modifies this
      ensures Valid()
      ensures var step := StartIndexing(old(statuses), name, old(Listing(name)));
        statuses == step.statuses && reply == StartReply(step.result)
      ensures folders == old(folders)
    {
      if name in statuses && statuses[name].InProgress? {
        return Reply(400, ErrorBody("Indexing already in progress"));
      }
      statuses := statuses[name := InProgress(0)];
      if name !in folders {
        return StartReply(ListingFailed);
      }
      var files := folders[name];
      var hasFiles := false;
      for i := 0 to |files|
        invariant hasFiles <==> exists k :: 0 <= k < i && IsIndexable(files[k])
      {
        if IsIndexable(files[i]) {
          hasFiles := true;
        }
      }
      if !hasFiles {
        statuses := statuses - {name};
        return Reply(400, ErrorBody("No text files found in knowledgebase."));
      }
      reply := Reply(202, IndexingInitiated);
    }

    /** The background job succeeded. */
    method CompleteIndexing(name: string)
      requires Valid()
      modifies this
      ensures Valid()
      ensures statuses == old(statuses)[name := Completed(100)] && folders == old(folders)
    {
      statuses := statuses[name := Completed(100)];
    }

    /** The background job raised `error`; the entry keeps no progress. */
    method FailIndexing(name: string, error: string)
      requires Valid()
      modifies this
      ensures Valid()
      ensures statuses == old(statuses)[name := Failed(error)] && folders == old(folders)
    {
      statuses := statuses[name := Failed(error)];
    }

    /** `_check_index_status`: the entry, or `not_started`; nothing changes. */
    method CheckIndexStatus(name: string) returns (reply: Reply)
      requires Valid()
      ensures reply == Reply(200, StatusBody(StatusOf(statuses, name)))
      ensures reply.body.status.NotStarted? <==> name !in statuses
    {
      var status := NotStarted;
      if name in statuses {
        status := statuses[name];
      }
      reply := Reply(200, StatusBody(status));
    }

    /** `_create_index`: a folder for the name, kept as it is when it exists. */
    method CreateIndex(name: Option<string>) returns (reply: Reply)
      modifies this
      ensures operationsRestricted ==> reply == NotAllowed && folders == old(folders)
      ensures !operationsRestricted && (name.None? || name.value == "") ==>
        reply == Reply(400, ErrorBody("Index name required")) && folders == old(folders)
      ensures !operationsRestricted && name.Some? && name.value != "" ==>
        && reply == Reply(201, IndexCreated(name.value))
        && folders == old(folders)[name.value := if name.value in old(folders) then old(folders)[name.value] else []]
      ensures statuses == old(statuses)
    {
      if operationsRestricted {
        return NotAllowed;
      }
      if name.None? || name.value == "" {
        return Reply(400, ErrorBody("Index name required"));
      }
      if name.value !in folders {
        folders := folders[name.value := []];
      }
      reply := Reply(201, IndexCreated(name.value));
    }

    /** `_remove_index`: the folder and the collection's status entry are deleted. */
    method RemoveIndex(name: string) returns (reply: Reply)
      requires Valid()
      modifies this
      ensures Valid()
      ensures operationsRestricted ==> reply == NotAllowed && unchanged(this)
      ensures !operationsRestricted && name !in old(folders) ==> reply == IndexNotFound && unchanged(this)
      ensures !operationsRestricted && name in old(folders) ==>
        && reply == Reply(200, MessageBody("Index deleted"))
        && folders == old(folders) - {name}
        && statuses == old(statuses) - {name}
    {
      if operationsRestricted {
        return NotAllowed;
      }
      if name !in folders {
        return IndexNotFound;
      }
      folders := folders - {name};
      statuses := statuses - {name};
      reply := Reply(200, MessageBody("Index deleted"));
    }

    /** `_upload_file`: the file is written into an existing folder. */
    method UploadFile(name: string, upload: Option<Upload>) returns (reply: Reply)
      modifies this
      ensures operationsRestricted ==> reply == NotAllowed && folders == old(folders)
      ensures !operationsRestricted && upload.None? ==> reply == Reply(400, ErrorBody("No file")) && folders == old(folders)
      ensures !operationsRestricted && upload.Some? && name !in old(folders) ==>
        reply == IndexNotFound && folders == old(folders)
      ensures !operationsRestricted && upload.Some? && name in old(folders) ==>
        && reply == Reply(201, FileUploaded(UploadPages(upload.value.filename, upload.value.pdfPages)))
        && folders == old(folders)[name := WithFile(old(folders)[name], upload.value.filename)]
      ensures statuses == old(statuses)
    {
      if operationsRestricted {
        return NotAllowed;
      }
      if upload.None? {
        return Reply(400, ErrorBody("No file"));
      }
      var pages := UploadPages(upload.value.filename, upload.value.pdfPages);
      if name !in folders {
        return IndexNotFound;
      }
      folders := folders[name := WithFile(folders[name], upload.value.filename)];
      reply := Reply(201, FileUploaded(pages));
    }
  }
}
