/**
 * The artifact stage of the mirror engine. Every durable change it makes is recorded in a ghost
 * trace, and the trace is a run of the protocol; so wherever a call is cut off, what it leaves
 * behind is a world of such a run.
 */
module MirrorEngine {
  import opened Results
  import opened MirrorProtocol
  import opened MirrorSafety

  const MAX_ATTEMPTS := 3

  /** What becomes of the body of a response: it ends, the connection breaks, or another error is raised. */
  datatype Ending = Complete | Broken | Aborted

  /** One attempt as the client sees it; an answer with a status below 400 carries a body in chunks. */
  datatype Response = Unreachable | Cancelled | Answer(status: nat, chunks: seq<Content>, ending: Ending)

  datatype Attempt = Fetched(bytes: nat) | Retry | ClientError | Raised

  datatype Download = Success(bytes: nat) | Failure | Unfinished

  function Concat(chunks: seq<Content>): Content {
    if chunks == [] then [] else Concat(chunks[..|chunks| - 1]) + chunks[|chunks| - 1]
  }

  /** When an attempt succeeds, is retried, is given up at once, or is cut short. */
  function Judge(sha: Digest, e: Entry, response: Response): Attempt {
    match response
    case Unreachable => Retry
    case Cancelled => Raised
    case Answer(status, chunks, ending) =>
      if status == 429 || status >= 500 then Retry
      else if status >= 400 then ClientError
      else if ending.Aborted? then Raised
      else if ending.Complete? && Acceptable(sha, e, Concat(chunks)) then Fetched(|Concat(chunks)|)
      else Retry
  }

  /** The outcome of the attempts from a given one on: the first that is not retried decides. */
  function Verdict(sha: Digest, e: Entry, server: (string, nat) -> Response, attempt: nat): Download
    requires attempt <= MAX_ATTEMPTS
    decreases MAX_ATTEMPTS - attempt
  {
    if attempt == MAX_ATTEMPTS then Failure
    else
      match Judge(sha, e, server(e.path, attempt))
      case Fetched(bytes) => Success(bytes)
      case ClientError => Failure
      case Raised => Unfinished
      case Retry => Verdict(sha, e, server, attempt + 1)
  }

  /** The phase after k of its entries have been committed. */
  function DoneUpTo(ph: Phase, k: nat): Phase {
    match ph
    case Creating(todo, base, _) => Creating(todo, base, k)
    case Recording(oks, fails, base, _) => Recording(oks, fails, base, k)
    case Marking(fails, base, _) => Marking(fails, base, k)
    case _ => ph
  }

  /** The phase commits update u to the rows of the given entries, k of them done. */
  predicate Commits(ph: Phase, u: Update, base: Rows, es: seq<Entry>, k: nat) {
    match u
    case Create => ph == Creating(es, base, k)
    case Verify => ph.Recording? && ph == Recording(es, ph.fails, base, k)
    case Fail => ph == Marking(es, base, k)
  }

  function CommitEvent(u: Update): Event {
    match u
    case Create => CommitCreated
    case Verify => CommitVerified
    case Fail => CommitFailed
  }

  class Engine {
    const sha256: Digest
    var rows: Rows
    var disk: Disk
    var filesDownloaded: nat
    var filesSkipped: nat
    var filesFailed: nat
    var bytesTransferred: nat
    ghost var phase: Phase
    ghost var trace: seq<World>

    /** A session starts from whatever rows and files earlier sessions left. */
    constructor (sha256: Digest, rows: Rows, disk: Disk)
      ensures Valid() && phase.Idle? && trace == [World(rows, disk, Idle)]
      ensures this.sha256 == sha256 && this.rows == rows && this.disk == disk
      ensures filesDownloaded == filesSkipped == filesFailed == bytesTransferred == 0
    {
      this.sha256, this.rows, this.disk := sha256, rows, disk;
      filesDownloaded, filesSkipped, filesFailed, bytesTransferred := 0, 0, 0, 0;
      phase, trace := Idle, [World(rows, disk, Idle)];
    }

    ghost predicate Valid()
      reads this
    {
      trace != [] && Run(sha256, trace) && trace[|trace| - 1] == World(rows, disk, phase)
    }

    /** Record the durable change just made as a step of the protocol. */
    ghost method Record(ev: Event)
      requires trace != [] && Run(sha256, trace)
      requires Enabled(sha256, trace[|trace| - 1], ev)
      requires rows == Apply(sha256, trace[|trace| - 1], ev).rows
      requires disk == Apply(sha256, trace[|trace| - 1], ev).disk
      modifies `phase, `trace
      ensures Valid() && phase == Apply(sha256, old(trace[|trace| - 1]), ev).phase
      ensures old(trace) <= trace
    {
      var w := trace[|trace| - 1];
      phase := Apply(sha256, w, ev).phase;
      assert Step(sha256, w, Apply(sha256, w, ev));
      trace := trace + [World(rows, disk, phase)];
    }

    // ----- rows, in batches of at most 500 per commit -----

    /** The loop shared by batch creation, batch verification and batch failure marking. */
    method CommitInBatches(u: Update, entries: seq<Entry>)
      requires Valid() && Commits(phase, u, rows, entries, 0)
      modifies `rows, `phase, `trace
      ensures Valid() && old(trace) <= trace
      ensures rows == UpdateAll(u, old(rows), entries) && phase == DoneUpTo(old(phase), |entries|)
    {
      ghost var base, done := rows, 0;
      var session, batchCount := rows, 0;
      UpdateNone(u, base, entries);
      hide Run, UpdateAll, UpdateOne;
      for i := 0 to |entries|
        invariant Valid() && old(trace) <= trace
        invariant batchCount == i - done < BATCH_SIZE
        invariant session == UpdateAll(u, base, entries[..i])
        invariant rows == UpdateAll(u, base, entries[..done])
        invariant phase == DoneUpTo(old(phase), done)
      {
        UpdateAllOne(u, base, entries, i);
        session := UpdateOne(u, session, entries[i]);
        batchCount := batchCount + 1;
        if batchCount >= BATCH_SIZE {
          rows := session;
          Record(CommitEvent(u));
          batchCount, done := 0, i + 1;
        }
      }
      assert entries[..|entries|] == entries;
      if batchCount > 0 {
        rows := session;
        Record(CommitEvent(u));
      }
    }

    // ----- downloads -----

    ghost predicate Working(i: nat, e: Entry)
      reads this
    {
      Valid() && ActiveTask(World(rows, disk, phase), i) && phase.todo[i] == e
    }

    /** Stream the body to the partial file, hashing on the way. */
    method Stream(ghost i: nat, e: Entry, chunks: seq<Content>) returns (bytesWritten: nat, content: Content)
      requires Working(i, e)
      modifies `disk, `phase, `trace
      ensures Working(i, e) && phase == old(phase) && old(trace) <= trace
      ensures disk == old(disk)[PartOf(e.path) := content]
      ensures content == Concat(chunks) && bytesWritten == |content|
    {
      hide Run, PartOf;
      content, bytesWritten := [], 0;
      disk := disk[PartOf(e.path) := []];
      Record(WritePart(i, []));
      for k := 0 to |chunks|
        invariant Working(i, e) && phase == old(phase) && old(trace) <= trace
        invariant content == Concat(chunks[..k]) && bytesWritten == |content|
        invariant disk == old(disk)[PartOf(e.path) := content]
      {
        assert chunks[..k + 1][..k] == chunks[..k];
        content := content + chunks[k];
        disk := disk[PartOf(e.path) := content];
        Record(WritePart(i, content));
        bytesWritten := bytesWritten + |chunks[k]|;
      }
      assert chunks[..|chunks|] == chunks;
    }

    method RemovePart(ghost i: nat, e: Entry)
      requires Working(i, e)
      modifies `disk, `phase, `trace
      ensures Working(i, e) && phase == old(phase) && old(trace) <= trace
      ensures disk == old(disk) - {PartOf(e.path)}
    {
      if PartOf(e.path) in disk {
        disk := disk - {PartOf(e.path)};
        Record(UnlinkPart(i));
      }
    }

    /** The file system after an attempt; only a fetched file changes anything but the partial file. */
    ghost predicate AttemptEffect(before: Disk, after: Disk, e: Entry, response: Response, r: Attempt) {
      match r
      case Fetched(bytes) =>
        && response.Answer? && response.status < 400 && response.ending.Complete?
        && Acceptable(sha256, e, Concat(response.chunks)) && bytes == |Concat(response.chunks)|
        && after == (before - {PartOf(e.path)})[e.path := Concat(response.chunks)]
      case Raised => after - {PartOf(e.path)} == before - {PartOf(e.path)}
      case _ => after == before - {PartOf(e.path)}
    }

    method AttemptDownload(ghost i: nat, e: Entry, response: Response) returns (r: Attempt)
      requires Working(i, e)
      modifies `disk, `phase, `trace
      ensures Valid() && old(trace) <= trace
      ensures r == Judge(sha256, e, response) && AttemptEffect(old(disk), disk, e, response, r)
      ensures !r.Fetched? ==> phase == old(phase)
      ensures r.Fetched? ==> phase == Fetching(old(phase.todo), old(phase.status)[i := Succeeded])
    {
      hide Run, Concat, PartOf;
      RemovePart(i, e);
      match response
      case Unreachable =>
        return Retry;
      case Cancelled =>
        return Raised;
      case Answer(status, chunks, ending) =>
        if status == 429 || status >= 500 {
          return Retry;
        } else if status >= 400 {
          return ClientError;
        }
        var bytesWritten, content := Stream(i, e, chunks);
        if ending.Aborted? {
          return Raised;
        }
        if ending.Broken? || (e.size != 0 && bytesWritten != e.size)
           || (e.sha256 != "" && sha256(content) != e.sha256) {
          RemovePart(i, e);
          return Retry;
        }
        disk := (disk - {PartOf(e.path)})[e.path := disk[PartOf(e.path)]];
        Record(Replace(i));
        return Fetched(bytesWritten);
    }

    /** Up to three attempts; the disk changes only by the fetched file, unless the call is cut short. */
    method DownloadFile(ghost i: nat, e: Entry, server: (string, nat) -> Response) returns (d: Download)
      requires Working(i, e)
      modifies `disk, `phase, `trace
      ensures Valid() && old(trace) <= trace && d == Verdict(sha256, e, server, 0)
      ensures d.Success? ==>
                && phase == Fetching(old(phase.todo), old(phase.status)[i := Succeeded])
                && exists c :: Acceptable(sha256, e, c) && d.bytes == |c|
                               && disk == (old(disk) - {PartOf(e.path)})[e.path := c]
      ensures d.Failure? ==> phase == old(phase) && disk == old(disk) - {PartOf(e.path)}
      ensures d.Unfinished? ==> phase == old(phase) && disk - {PartOf(e.path)} == old(disk) - {PartOf(e.path)}
    {
      ghost var cleaned := disk - {PartOf(e.path)};
      for attempt := 0 to MAX_ATTEMPTS
        invariant Working(i, e) && phase == old(phase) && old(trace) <= trace
        invariant disk == old(disk) || disk == cleaned
        invariant attempt > 0 ==> disk == cleaned
        invariant Verdict(sha256, e, server, 0) == Verdict(sha256, e, server, attempt)
      {
        var r := AttemptDownload(i, e, server(e.path, attempt));
        match r
        case Fetched(bytes) => return Success(bytes);
        case ClientError => return Failure;
        case Raised => return Unfinished;
        case Retry =>
      }
      return Failure;
    }

    /** Download a batch, one task at a time; a raised error abandons the rest of the batch. */
    method DownloadBatch(todo: seq<Entry>, server: (string, nat) -> Response)
      returns (results: seq<Download>, completed: bool)
      requires Valid() && phase == Fetching(todo, seq(|todo|, _ => Active))
      modifies `disk, `phase, `trace
      ensures Valid() && old(trace) <= trace
      ensures completed <==> forall e :: e in todo ==> !Verdict(sha256, e, server, 0).Unfinished?
      ensures completed ==>
                && results == Verdicts(sha256, todo, server)
                && phase == Fetching(todo, Statuses(results))
    {
      hide Verdict, Verdicts, Statuses, Run;
      results := [];
      var n := |todo|;
      NoVerdicts(sha256, todo, server);
      for i := 0 to n
        invariant Valid() && old(trace) <= trace
        invariant results == Verdicts(sha256, todo[..i], server)
        invariant forall k :: 0 <= k < i ==> !Verdict(sha256, todo[k], server, 0).Unfinished?
        invariant phase.Fetching? && phase.todo == todo && |phase.status| == n
        invariant phase.status[..i] == Statuses(results)
        invariant forall k :: i <= k < n ==> phase.status[k] == Active
      {
        ghost var before := phase.status;
        var d := DownloadFile(i, todo[i], server);
        if d.Unfinished? {
          assert todo[i] in todo;
          return results, false;
        }
        if d.Failure? {
          Record(GiveUp(i));
        }
        StatusesSnoc(results, d);
        VerdictsSnoc(sha256, todo, server, i);
        results := results + [d];
        assert phase.status[..i + 1] == before[..i] + [if d.Success? then Succeeded else GaveUp];
      }
      assert todo[..n] == todo && phase.status[..n] == phase.status;
      completed := true;
    }

    // ----- deciding what to download -----

    method DeduplicateEntries(entries: seq<Entry>) returns (unique: seq<Entry>)
      ensures unique == Dedup(entries)
    {
      var seen: set<string> := {};
      unique := [];
      for i := 0 to |entries|
        invariant seen == Paths(entries[..i]) && unique == Dedup(entries[..i])
      {
        assert entries[..i + 1][..i] == entries[..i];
        assert entries[..i + 1] == entries[..i] + [entries[i]];
        if entries[i].path !in seen {
          seen := seen + {entries[i].path};
          unique := unique + [entries[i]];
        }
      }
      assert entries[..|entries|] == entries;
    }

    /** Digests of the listed files that the database says are cached. */
    method GetArtifactChecksums(entries: seq<Entry>) returns (checksums: map<string, string>)
      ensures forall e :: e in entries ==>
                (e.path in checksums <==> e.path in rows && Cached(rows[e.path]))
      ensures forall p :: p in checksums ==> p in rows && checksums[p] == rows[p].sha256
    {
      checksums := map[];
      for i := 0 to |entries|
        invariant forall k :: 0 <= k < i ==>
                    (entries[k].path in checksums <==> entries[k].path in rows && Cached(rows[entries[k].path]))
        invariant forall p :: p in checksums ==> p in rows && Cached(rows[p]) && checksums[p] == rows[p].sha256
      {
        var p := entries[i].path;
        if p in rows && Cached(rows[p]) {
          checksums := checksums[p := rows[p].sha256];
        }
      }
    }

    method ComputeSyncDecisions(entries: seq<Entry>, checksums: map<string, string>) returns (decisions: seq<Decision>)
      ensures |decisions| == |entries|
      ensures forall i :: 0 <= i < |entries| ==>
                decisions[i].entry == entries[i]
                && (decisions[i].action.Skip? <==>
                      entries[i].path in checksums && checksums[entries[i].path] == entries[i].sha256)
    {
      decisions := [];
      for i := 0 to |entries|
        invariant |decisions| == i
        invariant forall k :: 0 <= k < i ==>
                    decisions[k].entry == entries[k]
                    && (decisions[k].action.Skip? <==>
                          entries[k].path in checksums && checksums[entries[k].path] == entries[k].sha256)
      {
        var e := entries[i];
        if e.path !in checksums {
          decisions := decisions + [Decision(e, Fetch, "file not cached")];
        } else if checksums[e.path] == e.sha256 {
          decisions := decisions + [Decision(e, Skip, "checksum matches")];
        } else {
          decisions := decisions + [Decision(e, Fetch, "checksum differs")];
        }
      }
    }

    // ----- the artifact stage -----

    /** Sort the results into successes and failures and count them. */
    method CountResults(todo: seq<Entry>, results: seq<Download>) returns (succeeded: seq<Entry>, failed: seq<Entry>)
      requires |results| == |todo|
      modifies `filesDownloaded, `filesFailed, `bytesTransferred
      ensures succeeded == Select(todo, Statuses(results), Succeeded)
      ensures failed == Select(todo, Statuses(results), GaveUp)
      ensures filesDownloaded == old(filesDownloaded) + |succeeded| && filesFailed == old(filesFailed) + |failed|
      ensures bytesTransferred == old(bytesTransferred) + TotalBytes(results)
    {
      ghost var status := Statuses(results);
      succeeded, failed := [], [];
      for i := 0 to |todo|
        invariant succeeded == Select(todo[..i], status[..i], Succeeded)
        invariant failed == Select(todo[..i], status[..i], GaveUp)
        invariant filesDownloaded == old(filesDownloaded) + |succeeded| && filesFailed == old(filesFailed) + |failed|
        invariant bytesTransferred == old(bytesTransferred) + TotalBytes(results[..i])
      {
        assert todo[..i + 1][..i] == todo[..i] && status[..i + 1][..i] == status[..i];
        assert results[..i + 1][..i] == results[..i];
        if results[i].Success? {
          succeeded := succeeded + [todo[i]];
          filesDownloaded := filesDownloaded + 1;
          bytesTransferred := bytesTransferred + results[i].bytes;
        } else {
          failed := failed + [todo[i]];
          filesFailed := filesFailed + 1;
        }
      }
      assert todo[..|todo|] == todo && status[..|todo|] == status && results[..|results|] == results;
    }

    method ProcessArtifactResults(todo: seq<Entry>, results: seq<Download>)
      requires Valid() && |results| == |todo| && phase == Fetching(todo, Statuses(results))
      modifies `rows, `phase, `trace, `filesDownloaded, `filesFailed, `bytesTransferred
      ensures Valid() && phase.Idle? && old(trace) <= trace
      ensures rows == RowsAfter(old(rows), todo, results)
      ensures filesDownloaded == old(filesDownloaded) + |Select(todo, Statuses(results), Succeeded)|
      ensures filesFailed == old(filesFailed) + |Select(todo, Statuses(results), GaveUp)|
      ensures bytesTransferred == old(bytesTransferred) + TotalBytes(results)
    {
      hide Run, UpdateAll, Select, TotalBytes;
      var succeeded, failed := CountResults(todo, results);
      Record(StartRecording);
      CommitInBatches(Verify, succeeded);
      Record(StartMarking);
      CommitInBatches(Fail, failed);
      Record(Finish);
    }

    method StageArtifacts(entries: seq<Entry>, server: (string, nat) -> Response) returns (completed: bool)
      requires Valid() && phase.Idle?
      modifies this
      ensures Valid() && phase.Idle? && old(trace) <= trace
      ensures var todo := ToDownload(old(rows), Dedup(entries));
              completed <==> forall e :: e in todo ==> !Verdict(sha256, e, server, 0).Unfinished?
      ensures completed ==>
                var todo := ToDownload(old(rows), Dedup(entries));
                rows == StagedRows(old(rows), todo, Verdicts(sha256, todo, server))
      ensures completed ==>
                filesDownloaded + filesSkipped + filesFailed
                == old(filesDownloaded) + old(filesSkipped) + old(filesFailed) + |Paths(entries)|
      ensures completed && filesFailed == old(filesFailed) ==> ToDownload(rows, Dedup(entries)) == []
      ensures ToDownload(old(rows), Dedup(entries)) == [] ==>
                completed && rows == old(rows) && disk == old(disk) && trace == old(trace)
                && filesDownloaded == old(filesDownloaded) && filesFailed == old(filesFailed)
    {
      hide Run, UpdateAll, Select, ToDownload, Verdict, StagedRows, Skipped, DistinctPaths;
      hide Dedup, Paths, Wanted, Verdicts, Statuses;
      DedupCounts(rows, entries);
      if entries == [] {
        NothingListed(rows);
        NothingStaged(rows, Verdicts(sha256, [], server));
        return true;
      }
      var unique := DeduplicateEntries(entries);
      var checksums := GetArtifactChecksums(unique);
      var decisions := ComputeSyncDecisions(unique, checksums);
      DecisionsSkip(rows, unique, checksums, decisions);
      WantedIsToDownload(rows, unique, decisions);
      var todo := Wanted(decisions);
      filesSkipped := filesSkipped + (|decisions| - |todo|);
      if todo == [] {
        NothingStaged(rows, Verdicts(sha256, todo, server));
        return true;
      }
      Record(Begin(entries));
      completed := DownloadAndRecord(todo, server);
      if completed && filesFailed == old(filesFailed) {
        NothingLeft(old(rows), unique, todo, Verdicts(sha256, todo, server));
      }
    }

    /** The second half of the artifact stage: queue the batch, download it and record the outcome. */
    method DownloadAndRecord(todo: seq<Entry>, server: (string, nat) -> Response) returns (completed: bool)
      requires Valid() && phase == Creating(todo, rows, 0)
      modifies `rows, `disk, `phase, `trace, `filesDownloaded, `filesFailed, `bytesTransferred
      ensures Valid() && phase.Idle? && old(trace) <= trace
      ensures completed <==> forall e :: e in todo ==> !Verdict(sha256, e, server, 0).Unfinished?
      ensures completed ==>
                var results := Verdicts(sha256, todo, server);
                && rows == StagedRows(old(rows), todo, results)
                && filesDownloaded + filesFailed == old(filesDownloaded) + old(filesFailed) + |todo|
                && filesFailed == old(filesFailed) + |Select(todo, Statuses(results), GaveUp)|
                && bytesTransferred == old(bytesTransferred) + TotalBytes(results)
    {
      hide Run, UpdateAll, Select, Verdict, TotalBytes;
      CommitInBatches(Create, todo);
      Record(StartFetching);
      var results;
      results, completed := DownloadBatch(todo, server);
      if !completed {
        Record(Crash);
        return false;
      }
      SelectCount(todo, Statuses(results));
      ProcessArtifactResults(todo, results);
    }

    // ----- the other steps on rows and files -----

    /** Re-queue the downloads a previous session left behind. */
    method ResumeInterruptedDownloads()
      requires Valid() && phase.Idle?
      modifies `rows, `phase, `trace
      ensures Valid() && phase.Idle? && old(trace) <= trace
      ensures rows == map p | p in old(rows) :: ResumeRow(old(rows)[p])
    {
      rows := map p | p in rows :: ResumeRow(rows[p]);
      Record(Resume);
    }

    /** Two bulk updates in one transaction; a download put back to QUEUED must not go on to DISCOVERED. */
    method RollbackCancellationState()
      requires Valid() && phase.Idle?
      modifies `rows, `phase, `trace
      ensures Valid() && phase.Idle? && old(trace) <= trace
      ensures rows == map p | p in old(rows) :: RollbackRow(old(rows)[p])
    {
      var session := map p | p in rows :: if rows[p].state.Queued? then rows[p].(state := Discovered) else rows[p];
      session := map p | p in session :: if session[p].state.Downloading? then session[p].(state := Queued) else session[p];
      rows := session;
      Record(Rollback);
    }

    /** Mark a file as indexed, whatever its state; a missing row is ignored. Between syncs it is a step of
        the protocol. */
    method MarkIndexed(path: string)
      requires Valid()
      modifies `rows, `phase, `trace
      ensures phase == old(phase) && old(trace) <= trace && (phase.Idle? ==> Valid())
      ensures rows == if path in old(rows) then old(rows)[path := old(rows)[path].(state := Indexed)] else old(rows)
    {
      if path in rows {
        rows := rows[path := rows[path].(state := Indexed)];
        if phase.Idle? {
          Record(Index(path));
        }
      }
    }

    /** Remove every file no cached row refers to, except partial downloads and files that cannot be removed. */
    method CleanCache(locked: set<string>)
      requires Valid() && phase.Idle?
      modifies `disk, `phase, `trace
      ensures Valid() && phase.Idle? && old(trace) <= trace
      ensures disk == map p | p in old(disk) && (Referenced(rows, p) || HasPartSuffix(p) || p in locked) :: old(disk)[p]
    {
      hide Run, HasPartSuffix, Cached;
      var referenced := set p | p in rows && Cached(rows[p]) && rows[p].localPath.Some? :: rows[p].localPath.value;
      var unreferenced := set p | p in disk && !HasPartSuffix(p) && p !in referenced;
      var left := unreferenced;
      while left != {}
        invariant Valid() && phase.Idle? && old(trace) <= trace && left <= unreferenced
        invariant disk == old(disk) - (unreferenced - left - locked)
      {
        var p :| p in left;
        if p !in locked {
          disk := disk - {p};
          Record(Remove(p));
        }
        left := left - {p};
      }
    }
  }

  datatype Action = Fetch | Skip

  datatype Decision = Decision(entry: Entry, action: Action, reason: string)

  function Wanted(decisions: seq<Decision>): seq<Entry> {
    if decisions == [] then []
    else
      var n := |decisions| - 1;
      Wanted(decisions[..n]) + if decisions[n].action.Fetch? then [decisions[n].entry] else []
  }

  lemma {:induction false} WantedIsToDownload(rows: Rows, es: seq<Entry>, ds: seq<Decision>)
    requires |ds| == |es|
    requires forall i :: 0 <= i < |es| ==> ds[i].entry == es[i] && (ds[i].action.Skip? <==> Skipped(rows, es[i]))
    ensures Wanted(ds) == ToDownload(rows, es)
  {
    if es != [] {
      WantedIsToDownload(rows, es[..|es| - 1], ds[..|es| - 1]);
    }
  }

  function TotalBytes(ds: seq<Download>): nat {
    if ds == [] then 0
    else TotalBytes(ds[..|ds| - 1]) + if ds[|ds| - 1].Success? then ds[|ds| - 1].bytes else 0
  }

  /** Rows after recording the outcomes of a batch. */
  function RowsAfter(rows: Rows, todo: seq<Entry>, ds: seq<Download>): Rows
    requires |ds| == |todo|
  {
    UpdateAll(Fail, UpdateAll(Verify, rows, Select(todo, Statuses(ds), Succeeded)),
              Select(todo, Statuses(ds), GaveUp))
  }

  function StagedRows(rows: Rows, todo: seq<Entry>, ds: seq<Download>): Rows
    requires |ds| == |todo|
  {
    RowsAfter(UpdateAll(Create, rows, todo), todo, ds)
  }

  lemma DecisionsSkip(rows: Rows, es: seq<Entry>, checksums: map<string, string>, ds: seq<Decision>)
    requires forall e :: e in es ==> (e.path in checksums <==> e.path in rows && Cached(rows[e.path]))
    requires forall p :: p in checksums ==> p in rows && checksums[p] == rows[p].sha256
    requires |ds| == |es|
    requires forall i :: 0 <= i < |es| ==>
               (ds[i].action.Skip? <==> es[i].path in checksums && checksums[es[i].path] == es[i].sha256)
    ensures forall i :: 0 <= i < |es| ==> (ds[i].action.Skip? <==> Skipped(rows, es[i]))
  {
    forall i | 0 <= i < |es|
      ensures ds[i].action.Skip? <==> Skipped(rows, es[i])
    {
      assert es[i] in es;
    }
  }

  lemma NothingListed(rows: Rows)
    ensures Dedup([]) == [] && ToDownload(rows, Dedup([])) == []
  {
  }

  lemma DedupCounts(rows: Rows, entries: seq<Entry>)
    ensures DistinctPaths(Dedup(entries)) && |Dedup(entries)| == |Paths(entries)|
    ensures |ToDownload(rows, Dedup(entries))| <= |Dedup(entries)|
  {
    DedupIsDistinct(entries);
    DistinctCount(Dedup(entries));
    ToDownloadSelects(rows, Dedup(entries));
  }

  lemma NothingStaged(rows: Rows, ds: seq<Download>)
    requires ds == []
    ensures StagedRows(rows, [], ds) == rows
  {
  }

  lemma {:induction false} DistinctCount(es: seq<Entry>)
    requires DistinctPaths(es)
    ensures |Paths(es)| == |es|
  {
    if es != [] {
      var init, last := es[..|es| - 1], es[|es| - 1];
      DistinctCount(init);
      assert es == init + [last];
      assert Paths(es) == Paths(init) + {last.path};
    }
  }

  lemma {:induction false} SelectCount(todo: seq<Entry>, status: seq<TaskStatus>)
    requires |status| == |todo| && forall i :: 0 <= i < |status| ==> !status[i].Active?
    ensures |Select(todo, status, Succeeded)| + |Select(todo, status, GaveUp)| == |todo|
  {
    if todo != [] {
      SelectCount(todo[..|todo| - 1], status[..|todo| - 1]);
    }
  }

  /** A file that was just downloaded and recorded is skipped from then on. */
  lemma DownloadedIsSkipped(rows: Rows, todo: seq<Entry>, e: Entry)
    requires DistinctPaths(todo) && e in todo
    ensures Skipped(UpdateAll(Verify, UpdateAll(Create, rows, todo), todo), e)
  {
    var i :| 0 <= i < |todo| && todo[i] == e;
    var created := UpdateAll(Create, rows, todo);
    hide UpdateAll, DistinctPaths;
    UpdateAllAt(Create, rows, todo, i);
    UpdateAllAt(Verify, created, todo, i);
  }

  lemma SkippedStaysSkipped(rows: Rows, todo: seq<Entry>, e: Entry)
    requires Skipped(rows, e) && e.path !in Paths(todo)
    ensures Skipped(UpdateAll(Verify, UpdateAll(Create, rows, todo), todo), e)
  {
    hide UpdateAll;
    UpdateAllFrame(Create, rows, todo);
    UpdateAllFrame(Verify, UpdateAll(Create, rows, todo), todo);
  }

  lemma {:induction false} AllSucceeded(todo: seq<Entry>, status: seq<TaskStatus>)
    requires |status| == |todo| && forall i :: 0 <= i < |status| ==> !status[i].Active?
    requires Select(todo, status, GaveUp) == []
    ensures Select(todo, status, Succeeded) == todo
  {
    if todo != [] {
      var n := |todo| - 1;
      assert Select(todo[..n], status[..n], GaveUp) == [];
      AllSucceeded(todo[..n], status[..n]);
      assert todo == todo[..n] + [todo[n]];
    }
  }

  /** After a stage in which every download succeeded there is nothing left to download. */
  lemma NothingLeft(rows: Rows, es: seq<Entry>, todo: seq<Entry>, ds: seq<Download>)
    requires DistinctPaths(es) && todo == ToDownload(rows, es) && |ds| == |todo|
    requires Select(todo, Statuses(ds), GaveUp) == []
    ensures ToDownload(StagedRows(rows, todo, ds), es) == []
  {
    AllSucceeded(todo, Statuses(ds));
    var after := UpdateAll(Verify, UpdateAll(Create, rows, todo), todo);
    assert StagedRows(rows, todo, ds) == after;
    hide *;
    ToDownloadSelects(rows, es);
    forall e | e in es
      ensures Skipped(after, e)
    {
      if e in todo {
        ToDownloadKeepsDistinct(rows, es);
        DownloadedIsSkipped(rows, todo, e);
      } else {
        NotListed(rows, es, todo, e);
        SkippedStaysSkipped(rows, todo, e);
      }
    }
    AllSkipped(after, es);
  }

  lemma ToDownloadKeepsDistinct(rows: Rows, es: seq<Entry>)
    requires DistinctPaths(es)
    ensures DistinctPaths(ToDownload(rows, es))
  {
    ToDownloadSelects(rows, es);
  }

  lemma NotListed(rows: Rows, es: seq<Entry>, todo: seq<Entry>, e: Entry)
    requires DistinctPaths(es) && todo == ToDownload(rows, es) && e in es && e !in todo
    ensures Skipped(rows, e) && e.path !in Paths(todo)
  {
    ToDownloadSelects(rows, es);
    forall f | f in todo ensures f.path != e.path { DistinctEntries(es, e, f); }
  }

  lemma AllSkipped(rows: Rows, es: seq<Entry>)
    requires forall e :: e in es ==> Skipped(rows, e)
    ensures ToDownload(rows, es) == []
  {
    var todo := ToDownload(rows, es);
    assert todo == [] || todo[0] in todo;
    ToDownloadSelects(rows, es);
  }

  lemma DistinctEntries(es: seq<Entry>, e: Entry, f: Entry)
    requires DistinctPaths(es) && e in es && f in es && e != f
    ensures e.path != f.path
  {
  }

  function Verdicts(sha: Digest, todo: seq<Entry>, server: (string, nat) -> Response): (ds: seq<Download>)
    ensures |ds| == |todo|
  {
    seq(|todo|, i requires 0 <= i < |todo| => Verdict(sha, todo[i], server, 0))
  }

  lemma NoVerdicts(sha: Digest, todo: seq<Entry>, server: (string, nat) -> Response)
    ensures Verdicts(sha, todo[..0], server) == [] && Statuses([]) == []
  {
  }

  lemma VerdictsSnoc(sha: Digest, todo: seq<Entry>, server: (string, nat) -> Response, i: nat)
    requires i < |todo|
    ensures Verdicts(sha, todo[..i + 1], server) == Verdicts(sha, todo[..i], server) + [Verdict(sha, todo[i], server, 0)]
  {
    hide Verdict;
  }

  lemma StatusesSnoc(ds: seq<Download>, d: Download)
    ensures Statuses(ds + [d]) == Statuses(ds) + [if d.Success? then Succeeded else GaveUp]
  {
  }

  function Statuses(ds: seq<Download>): (ss: seq<TaskStatus>)
    ensures |ss| == |ds|
  {
    seq(|ds|, i requires 0 <= i < |ds| => if ds[i].Success? then Succeeded else GaveUp)
  }
}
