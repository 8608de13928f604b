/** What the artifact stage does to each file, told by the server's responses and the row before. */
module MirrorOutcomes {
  import opened Results
  import opened MirrorProtocol
  import opened MirrorSafety
  import opened MirrorEngine

  // ----- one download, by the responses alone -----

  /** A whole answer with the listed size and digest, as far as these are listed. */
  predicate Delivers(sha: Digest, e: Entry, r: Response) {
    && r.Answer? && r.status < 400 && r.ending == Complete
    && (e.size == 0 || |Concat(r.chunks)| == e.size) && (e.sha256 == "" || sha(Concat(r.chunks)) == e.sha256)
  }

  /** No answer, too many requests, a server error, a broken connection, or a whole answer of other content. */
  predicate TriedAgain(sha: Digest, e: Entry, r: Response) {
    || r == Unreachable
    || (r.Answer? && (r.status == 429 || r.status >= 500))
    || (r.Answer? && r.status < 400 && (r.ending == Broken || (r.ending == Complete && !Delivers(sha, e, r))))
  }

  predicate CutShort(r: Response) {
    r == Cancelled || (r.Answer? && r.status < 400 && r.ending == Aborted)
  }

  predicate Refuses(r: Response) {
    r.Answer? && 400 <= r.status < 500 && r.status != 429
  }

  /** The k-th response is the first that is not tried again. */
  predicate Decides(sha: Digest, e: Entry, server: (string, nat) -> Response, k: nat) {
    && k < 3 && !TriedAgain(sha, e, server(e.path, k))
    && forall j :: 0 <= j < k ==> TriedAgain(sha, e, server(e.path, j))
  }

  lemma JudgeIs(sha: Digest, e: Entry, r: Response)
    ensures Judge(sha, e, r).Fetched? <==> Delivers(sha, e, r)
    ensures Judge(sha, e, r).Retry? <==> TriedAgain(sha, e, r)
    ensures Judge(sha, e, r).Raised? <==> CutShort(r)
    ensures Judge(sha, e, r).ClientError? <==> Refuses(r)
    ensures Judge(sha, e, r).Fetched? ==> Judge(sha, e, r).bytes == |Concat(r.chunks)|
  {
    hide Concat;
  }

  lemma {:induction false} VerdictFrom(sha: Digest, e: Entry, server: (string, nat) -> Response, attempt: nat)
    requires attempt <= 3 && forall j :: 0 <= j < attempt ==> TriedAgain(sha, e, server(e.path, j))
    ensures (forall k :: attempt <= k < 3 ==> TriedAgain(sha, e, server(e.path, k)))
            ==> Verdict(sha, e, server, attempt) == Failure
    ensures forall k: nat :: Decides(sha, e, server, k) ==>
              match Judge(sha, e, server(e.path, k))
              case Fetched(bytes) => Verdict(sha, e, server, attempt) == Success(bytes)
              case Raised => Verdict(sha, e, server, attempt) == Unfinished
              case _ => Verdict(sha, e, server, attempt) == Failure
    decreases 3 - attempt
  {
    hide TriedAgain, Judge;
    if attempt < 3 {
      JudgeIs(sha, e, server(e.path, attempt));
      if TriedAgain(sha, e, server(e.path, attempt)) {
        VerdictFrom(sha, e, server, attempt + 1);
      } else {
        assert Decides(sha, e, server, attempt);
        assert forall k: nat :: Decides(sha, e, server, k) ==> k == attempt;
      }
    }
  }

  lemma DecidesAt(sha: Digest, e: Entry, server: (string, nat) -> Response)
    ensures (forall j :: 0 <= j < 3 ==> TriedAgain(sha, e, server(e.path, j)))
            || exists k: nat :: Decides(sha, e, server, k)
  {
    hide TriedAgain;
    if !TriedAgain(sha, e, server(e.path, 0)) {
      assert Decides(sha, e, server, 0);
    } else if !TriedAgain(sha, e, server(e.path, 1)) {
      assert Decides(sha, e, server, 1);
    } else if !TriedAgain(sha, e, server(e.path, 2)) {
      assert Decides(sha, e, server, 2);
    }
  }

  /** The first response that is not tried again decides a download, and three tries without one fail. */
  lemma DownloadIsDecided(sha: Digest, e: Entry, server: (string, nat) -> Response)
    ensures var d := Verdict(sha, e, server, 0);
            && (d.Success? <==> exists k: nat :: Decides(sha, e, server, k) && Delivers(sha, e, server(e.path, k)))
            && (d.Unfinished? <==> exists k: nat :: Decides(sha, e, server, k) && CutShort(server(e.path, k)))
            && (d.Failure? <==> (forall k :: 0 <= k < 3 ==> TriedAgain(sha, e, server(e.path, k)))
                                || exists k: nat :: Decides(sha, e, server, k) && Refuses(server(e.path, k)))
    ensures forall k: nat :: Decides(sha, e, server, k) && Delivers(sha, e, server(e.path, k)) ==>
              Verdict(sha, e, server, 0) == Success(|Concat(server(e.path, k).chunks)|)
  {
    VerdictFrom(sha, e, server, 0);
    DecidesAt(sha, e, server);
    forall k: nat
      ensures Judge(sha, e, server(e.path, k)).Fetched? <==> Delivers(sha, e, server(e.path, k))
      ensures Judge(sha, e, server(e.path, k)).Retry? <==> TriedAgain(sha, e, server(e.path, k))
      ensures Judge(sha, e, server(e.path, k)).Raised? <==> CutShort(server(e.path, k))
      ensures Judge(sha, e, server(e.path, k)).ClientError? <==> Refuses(server(e.path, k))
      ensures Delivers(sha, e, server(e.path, k)) ==>
                Judge(sha, e, server(e.path, k)) == Fetched(|Concat(server(e.path, k).chunks)|)
    {
      JudgeIs(sha, e, server(e.path, k));
    }
    hide Verdict, Judge, Delivers, TriedAgain, CutShort, Refuses, Concat;
  }

  /** The content of a response is its chunks, one after the other. */
  lemma {:induction false} ChunksAreJoined(a: seq<Content>, b: seq<Content>)
    ensures Concat(a + b) == Concat(a) + Concat(b)
  {
    if b == [] {
      assert a + b == a;
    } else {
      ChunksAreJoined(a, b[..|b| - 1]);
      assert (a + b)[..|a + b| - 1] == a + b[..|b| - 1];
    }
  }

  lemma OneChunk(c: Content)
    ensures Concat([c]) == c && Concat([]) == []
  {
    assert [c][..0] == [];
  }

  // ----- a whole stage, row by row -----

  /** The entry is the first in the list with its path. */
  ghost predicate FirstOfPath(es: seq<Entry>, e: Entry) {
    exists i :: 0 <= i < |es| && es[i] == e && forall j :: 0 <= j < i ==> es[j].path != e.path
  }

  lemma {:induction false} DedupKeepsFirst(es: seq<Entry>, e: Entry)
    ensures e in Dedup(es) <==> FirstOfPath(es, e)
  {
    if es != [] {
      var n := |es| - 1;
      var init, last := es[..n], es[n];
      DedupKeepsFirst(init, e);
      FirstInInit(es, e);
      assert last.path in Paths(init) <==> exists j :: 0 <= j < n && es[j].path == last.path by {
        assert forall j :: 0 <= j < n ==> es[j] == init[j] && init[j] in init;
      }
      hide FirstOfPath, Paths;
    }
  }

  lemma FirstInInit(es: seq<Entry>, e: Entry)
    requires es != []
    ensures var n := |es| - 1;
            FirstOfPath(es, e) <==>
            FirstOfPath(es[..n], e) || (e == es[n] && forall j :: 0 <= j < n ==> es[j].path != e.path)
  {
    var n := |es| - 1;
    assert forall j :: 0 <= j < n ==> es[..n][j] == es[j];
    if FirstOfPath(es[..n], e) {
      var i :| 0 <= i < n && es[..n][i] == e && forall j :: 0 <= j < i ==> es[..n][j].path != e.path;
      assert es[i] == e && forall j :: 0 <= j < i ==> es[j].path != e.path;
    }
    if FirstOfPath(es, e) {
      var i :| 0 <= i < |es| && es[i] == e && forall j :: 0 <= j < i ==> es[j].path != e.path;
      assert i < n ==> es[..n][i] == e && forall j :: 0 <= j < i ==> es[..n][j].path != e.path;
    }
  }

  /** The row says that the listed file is here. */
  predicate Here(rows: Rows, e: Entry) {
    e.path in rows && (rows[e.path].state == Verified || rows[e.path].state == Indexed) && rows[e.path].sha256 == e.sha256
  }

  /** The row of a file that is downloaded: verified at its path, or one more failure, the third of which is final. */
  function RowAfter(rows: Rows, e: Entry, success: bool): Row {
    var retries := if e.path in rows then rows[e.path].retryCount else 0;
    if success then Row(e.sha256, e.size, Verified, retries, Some(e.path))
    else Row(e.sha256, e.size, if retries >= 2 then Failed else Queued, retries + 1,
             if e.path in rows then rows[e.path].localPath else None)
  }

  lemma CreatedThen(rows: Rows, e: Entry)
    ensures VerifyOne(CreateOne(rows, e), e)[e.path] == RowAfter(rows, e, true)
    ensures FailOne(CreateOne(rows, e), e)[e.path] == RowAfter(rows, e, false)
  {
  }

  lemma UpdateOfSameRow(u: Update, rows: Rows, rows': Rows, e: Entry)
    requires e.path in rows && e.path in rows' && rows[e.path] == rows'[e.path]
    ensures e.path in UpdateOne(u, rows, e) && e.path in UpdateOne(u, rows', e)
    ensures UpdateOne(u, rows, e)[e.path] == UpdateOne(u, rows', e)[e.path]
  {
  }

  lemma SelectedAt(todo: seq<Entry>, status: seq<TaskStatus>, i: nat, s: TaskStatus)
    returns (k: nat)
    requires |status| == |todo| && DistinctPaths(todo) && i < |todo| && status[i] == s
    ensures k < |Select(todo, status, s)| && Select(todo, status, s)[k] == todo[i]
    ensures DistinctPaths(Select(todo, status, s))
  {
    SelectSelects(todo, status, s);
    assert todo[i] in Select(todo, status, s);
    k :| 0 <= k < |Select(todo, status, s)| && Select(todo, status, s)[k] == todo[i];
  }

  lemma NotSelected(todo: seq<Entry>, status: seq<TaskStatus>, p: string, s: TaskStatus)
    requires |status| == |todo| && DistinctPaths(todo)
    requires forall i :: 0 <= i < |todo| && status[i] == s ==> todo[i].path != p
    ensures p !in Paths(Select(todo, status, s))
  {
    SelectSelects(todo, status, s);
  }

  lemma StagedRow(rows: Rows, todo: seq<Entry>, ds: seq<Download>, i: nat)
    requires DistinctPaths(todo) && |ds| == |todo| && i < |todo|
    ensures todo[i].path in StagedRows(rows, todo, ds)
    ensures StagedRows(rows, todo, ds)[todo[i].path] == RowAfter(rows, todo[i], ds[i].Success?)
  {
    var e, status := todo[i], Statuses(ds);
    var u: Update, mine := if ds[i].Success? then Verify else Fail, status[i];
    var created := UpdateAll(Create, rows, todo);
    var oks, fails := Select(todo, status, Succeeded), Select(todo, status, GaveUp);
    var verified := UpdateAll(Verify, created, oks);
    assert forall j :: 0 <= j < |todo| && j != i ==> todo[j].path != e.path;
    hide UpdateAll, Select, DistinctPaths, Paths, UpdateOne, RowAfter;
    UpdateAllAt(Create, rows, todo, i);
    UpdateAllFrame(Create, rows, todo);
    UpdateAllFrame(Verify, created, oks);
    UpdateAllFrame(Fail, verified, fails);
    var k := SelectedAt(todo, status, i, mine);
    CreatedThen(rows, e);
    OneCreates(rows, e);
    if ds[i].Success? {
      UpdateAllAt(Verify, created, oks, k);
      UpdateOfSameRow(Verify, created, CreateOne(rows, e), e);
      NotSelected(todo, status, e.path, GaveUp);
    } else {
      NotSelected(todo, status, e.path, Succeeded);
      UpdateAllAt(Fail, verified, fails, k);
      UpdateOfSameRow(Fail, verified, CreateOne(rows, e), e);
    }
  }

  lemma OneCreates(rows: Rows, e: Entry)
    ensures UpdateOne(Create, rows, e) == CreateOne(rows, e) && e.path in CreateOne(rows, e)
    ensures forall r: Rows :: UpdateOne(Verify, r, e) == VerifyOne(r, e) && UpdateOne(Fail, r, e) == FailOne(r, e)
  {
  }

  lemma StagedFrame(rows: Rows, todo: seq<Entry>, ds: seq<Download>, p: string)
    requires DistinctPaths(todo) && |ds| == |todo| && p !in Paths(todo)
    ensures p in StagedRows(rows, todo, ds) <==> p in rows
    ensures p in rows ==> StagedRows(rows, todo, ds)[p] == rows[p]
  {
    var status := Statuses(ds);
    var created := UpdateAll(Create, rows, todo);
    var oks, fails := Select(todo, status, Succeeded), Select(todo, status, GaveUp);
    assert forall i :: 0 <= i < |todo| ==> todo[i] in todo && todo[i].path in Paths(todo);
    hide UpdateAll, Select, Paths;
    NotSelected(todo, status, p, Succeeded);
    NotSelected(todo, status, p, GaveUp);
    UpdateAllFrame(Create, rows, todo);
    UpdateAllFrame(Verify, created, oks);
    UpdateAllFrame(Fail, UpdateAll(Verify, created, oks), fails);
  }

  /**
   * A completed stage: the first entry of each path decides its row. A file that is here stays as it
   * is; any other is verified if its download succeeds and has one more failure if not. Nothing else
   * changes.
   */
  lemma StageDecidesRows(sha: Digest, rows: Rows, entries: seq<Entry>, server: (string, nat) -> Response, e: Entry,
                         p: string)
    requires FirstOfPath(entries, e)
    ensures var todo := ToDownload(rows, Dedup(entries));
            var after := StagedRows(rows, todo, Verdicts(sha, todo, server));
            && e.path in after
            && after[e.path] == (if Here(rows, e) then rows[e.path]
                                 else RowAfter(rows, e, Verdict(sha, e, server, 0).Success?))
            && (p !in Paths(entries) ==> (p in after <==> p in rows) && (p in rows ==> after[p] == rows[p]))
  {
    var unique := Dedup(entries);
    var todo := ToDownload(rows, unique);
    var ds := Verdicts(sha, todo, server);
    DedupIsDistinct(entries);
    DedupKeepsFirst(entries, e);
    ToDownloadSelects(rows, unique);
    assert Here(rows, e) <==> Skipped(rows, e);
    assert p !in Paths(unique) ==> p !in Paths(todo);
    hide StagedRows, ToDownload, Dedup, Verdict, RowAfter, Here, Skipped, FirstOfPath;
    if e in todo {
      var i :| 0 <= i < |todo| && todo[i] == e;
      hide DistinctPaths, Paths;
      StagedRow(rows, todo, ds, i);
    } else {
      forall f | f in todo ensures f.path != e.path { DistinctEntries(unique, e, f); }
      StagedFrame(rows, todo, ds, e.path);
    }
    if p !in Paths(unique) {
      hide DistinctPaths, Paths;
      StagedFrame(rows, todo, ds, p);
    }
  }

  // ----- the bulk updates -----

  /** Rolling back empties the queue and then refills it with what was being downloaded. */
  lemma RolledBack(sha: Digest, w: World, p: string)
    requires Enabled(sha, w, Rollback) && p in w.rows
    ensures var (before, after) := (w.rows[p], Apply(sha, w, Rollback).rows[p]);
            && (after.state == Queued <==> before.state == Downloading)
            && (after.state == Discovered <==> before.state == Queued || before.state == Discovered)
            && after.state != Downloading
            && (after.state != Queued && after.state != Discovered ==> after == before)
            && after == before.(state := after.state)
  {
  }

  lemma Resumed(sha: Digest, w: World, p: string)
    requires Enabled(sha, w, Resume) && p in w.rows
    ensures var (before, after) := (w.rows[p], Apply(sha, w, Resume).rows[p]);
            && (after.state == Queued <==> before.state == Downloading || before.state == Queued)
            && after.state != Downloading
            && (after.state != Queued ==> after == before) && after == before.(state := after.state)
  {
  }

  /** Bytes are counted for successful downloads only, and added up. */
  lemma {:induction false} BytesAreAdded(a: seq<Download>, b: seq<Download>)
    ensures TotalBytes(a + b) == TotalBytes(a) + TotalBytes(b)
  {
    if b == [] {
      assert a + b == a;
    } else {
      BytesAreAdded(a, b[..|b| - 1]);
      assert (a + b)[..|a + b| - 1] == a + b[..|b| - 1];
    }
  }

  lemma OneDownload(d: Download)
    ensures TotalBytes([d]) == (match d case Success(bytes) => bytes case _ => 0) && TotalBytes([]) == 0
  {
    assert [d][..0] == [];
  }

  // ----- commits and partial files -----

  /** Rows at other paths are the same before and after. */
  ghost predicate OnlyTouches(before: Rows, after: Rows, es: seq<Entry>) {
    forall p :: p !in Paths(es) ==> (p in before <==> p in after) && (p in before ==> before[p] == after[p])
  }

  lemma {:induction false} LongerBatchTouches(u: Update, rows: Rows, es: seq<Entry>, j: nat, k: nat)
    requires j <= k <= |es|
    ensures OnlyTouches(UpdateAll(u, rows, es[..j]), UpdateAll(u, rows, es[..k]), es[j..k])
  {
    hide UpdateAll, UpdateOne, OnlyTouches, Paths;
    NothingTouches(UpdateAll(u, rows, es[..k]), es[j..k]);
    if j < k {
      LongerBatchTouches(u, rows, es, j, k - 1);
      UpdateAllOne(u, rows, es, k - 1);
      var before := UpdateAll(u, rows, es[..k - 1]);
      OneTouches(u, before, es[k - 1]);
      TouchesOn(UpdateAll(u, rows, es[..j]), before, UpdateAll(u, rows, es[..k]), es[j..k - 1], es[k - 1]);
      assert es[j..k] == es[j..k - 1] + [es[k - 1]];
    }
  }

  lemma NothingTouches(rows: Rows, es: seq<Entry>)
    ensures OnlyTouches(rows, rows, es)
  {
  }

  lemma OneTouches(u: Update, rows: Rows, e: Entry)
    ensures OnlyTouches(rows, UpdateOne(u, rows, e), [e])
  {
    assert e in [e];
  }

  lemma TouchesOn(a: Rows, b: Rows, c: Rows, es: seq<Entry>, e: Entry)
    requires OnlyTouches(a, b, es) && OnlyTouches(b, c, [e])
    ensures OnlyTouches(a, c, es + [e])
  {
    assert Paths(es + [e]) == Paths(es) + Paths([e]);
    hide Paths;
  }

  /** One commit of a batch writes the rows of at most 500 entries. */
  lemma CommitsAreSmall(sha: Digest, w: World, ev: Event) returns (part: seq<Entry>)
    requires Inv(sha, w) && Enabled(sha, w, ev) && (ev.CommitCreated? || ev.CommitVerified? || ev.CommitFailed?)
    ensures 1 <= |part| <= 500 && OnlyTouches(w.rows, Apply(sha, w, ev).rows, part)
  {
    hide Sound, SafeBatch, Pending, OnDisk, DistinctPaths, UpdateAll, OnlyTouches;
    var es := if ev.CommitCreated? then w.phase.todo else if ev.CommitVerified? then w.phase.oks else w.phase.fails;
    var u := if ev.CommitCreated? then Create else if ev.CommitVerified? then Verify else Fail;
    var done := w.phase.done;
    var k := Min(done + BATCH_SIZE, |es|);
    part := es[done..k];
    LongerBatchTouches(u, w.phase.base, es, done, k);
  }

  lemma SuffixSplits(path: string, file: string, suffix: string)
    requires |suffix| == 5
    ensures path == file + suffix <==> |path| >= 5 && path[..|path| - 5] == file && path[|path| - 5..] == suffix
    ensures path == file + suffix && file != "" ==> path[|path| - 6] == file[|file| - 1]
  {
    if |path| >= 5 {
      assert path == path[..|path| - 5] + path[|path| - 5..];
    }
  }

  lemma PartSuffix(path: string, file: string)
    ensures path == PartOf(file) <==> |path| >= 5 && path[..|path| - 5] == file && path[|path| - 5..] == ".part"
    ensures path == PartOf(file) && file != "" ==> path[|path| - 6] == file[|file| - 1]
  {
    var suffix := ".part";
    SuffixSplits(path, file, suffix);
  }

  lemma PartSuffixOf(path: string)
    ensures HasPartSuffix(path) <==> |path| > 5 && path == PartOf(path[..|path| - 5]) && path[|path| - 6] != '/'
  {
    if |path| > 5 {
      PartSuffix(path, path[..|path| - 5]);
    }
    hide PartOf;
  }

  /** Cleaning spares exactly the names of partial files. */
  lemma PartialFilesAreSpared(path: string)
    ensures HasPartSuffix(path) <==> exists file: string :: IsPartOf(path, file)
  {
    hide HasPartSuffix, PartOf;
    PartSuffixOf(path);
    if HasPartSuffix(path) {
      var file := path[..|path| - 5];
      assert file[|file| - 1] == path[|path| - 6];
      assert IsPartOf(path, file);
    }
    if file: string :| IsPartOf(path, file) {
      PartSuffix(path, file);
    }
  }

  /** Among files with other names, and when the rows are true, cleaning spares exactly those whose rows are
      verified or indexed. */
  lemma CachedFilesAreSpared(sha: Digest, rows: Rows, disk: Disk, path: string)
    requires Sound(sha, rows, disk)
    ensures Referenced(rows, path) <==> path in rows && (rows[path].state == Verified || rows[path].state == Indexed)
  {
  }

  /** In any rows a file is spared exactly if some row that is verified or indexed says it is there. */
  lemma ReferencedIs(rows: Rows, path: string)
    ensures Referenced(rows, path) <==>
            exists p :: p in rows && rows[p].state in {Verified, Indexed} && rows[p].localPath == Some(path)
  {
  }

  /** The name under which a file is downloaded; it is a name, not a directory. */
  predicate IsPartOf(path: string, file: string) {
    file != "" && file[|file| - 1] != '/' && path == PartOf(file)
  }
}
