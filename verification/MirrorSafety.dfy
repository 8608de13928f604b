/** What every run of the mirror protocol keeps, whatever crashes come in between. */
module MirrorSafety {
  import opened Results
  import opened MirrorProtocol

  // ----- the invariant -----

  /** Every row that says "cached" tells the truth about the file on disk. */
  predicate Sound(sha: Digest, rows: Rows, disk: Disk) {
    forall p :: p in rows && Cached(rows[p]) ==>
      rows[p].localPath == Some(p) && p in disk && sha(disk[p]) == rows[p].sha256
  }

  predicate FailedOnlyAfterRetries(rows: Rows) {
    forall p :: p in rows && rows[p].state.Failed? ==> rows[p].retryCount >= MAX_RETRIES
  }

  predicate DistinctPaths(es: seq<Entry>) {
    forall i, j :: 0 <= i < j < |es| ==> es[i].path != es[j].path
  }

  /** The entries have rows that say so and do not claim to be cached. */
  predicate Pending(rows: Rows, es: seq<Entry>) {
    forall e :: e in es ==>
      e.path in rows && !Cached(rows[e.path]) && rows[e.path].sha256 == e.sha256 && e.sha256 != ""
  }

  predicate OnDisk(sha: Digest, disk: Disk, es: seq<Entry>) {
    forall e :: e in es ==> e.path in disk && sha(disk[e.path]) == e.sha256
  }

  predicate PhaseOk(sha: Digest, w: World) {
    match w.phase
    case Idle => true
    case Creating(todo, base, done) =>
      && done <= |todo| && w.rows == UpdateAll(Create, base, todo[..done]) && DistinctPaths(todo)
      && SafeBatch(base, todo) && Sound(sha, base, w.disk)
    case Fetching(todo, status) =>
      && |status| == |todo| && DistinctPaths(todo) && Pending(w.rows, todo) && SafeBatch(w.rows, todo)
      && (forall i :: 0 <= i < |todo| && status[i].Succeeded? ==>
            todo[i].path in w.disk && sha(w.disk[todo[i].path]) == todo[i].sha256)
    case Recording(oks, fails, base, done) =>
      && done <= |oks| && w.rows == UpdateAll(Verify, base, oks[..done])
      && Pending(base, oks + fails) && DistinctPaths(oks) && Paths(oks) !! Paths(fails) && OnDisk(sha, w.disk, oks)
      && DistinctPaths(fails) && Sound(sha, base, w.disk)
    case Marking(fails, base, done) =>
      && done <= |fails| && w.rows == UpdateAll(Fail, base, fails[..done]) && DistinctPaths(fails)
      && Pending(base, fails) && Sound(sha, base, w.disk)
  }

  predicate Inv(sha: Digest, w: World) {
    Sound(sha, w.rows, w.disk) && PhaseOk(sha, w)
  }

  // ----- what a batch of row updates does -----

  lemma {:induction false} UpdateAllOne(u: Update, rows: Rows, es: seq<Entry>, k: nat)
    requires k < |es|
    ensures UpdateAll(u, rows, es[..k + 1]) == UpdateOne(u, UpdateAll(u, rows, es[..k]), es[k])
  {
    assert es[..k + 1][..k] == es[..k];
  }

  /** Rows of other paths are untouched; new rows appear only by creation. */
  lemma {:induction false} UpdateAllFrame(u: Update, rows: Rows, es: seq<Entry>)
    ensures var after := UpdateAll(u, rows, es);
            && rows.Keys <= after.Keys
            && after.Keys == (if u.Create? then rows.Keys + Paths(es) else rows.Keys)
            && forall p :: p in rows && p !in Paths(es) ==> after[p] == rows[p]
  {
    if es != [] {
      var init, last := es[..|es| - 1], es[|es| - 1];
      UpdateAllFrame(u, rows, init);
      assert es == init + [last];
      assert Paths(es) == Paths(init) + {last.path};
    }
  }

  lemma UpdateOneFrame(u: Update, rows: Rows, e: Entry, p: string)
    requires p in rows && p != e.path
    ensures var after := UpdateOne(u, rows, e); p in after && after[p] == rows[p]
  {
  }

  lemma UpdateOneLooksAtOne(u: Update, rows: Rows, rows': Rows, e: Entry)
    requires e.path in rows <==> e.path in rows'
    requires e.path in rows ==> rows[e.path] == rows'[e.path]
    requires !u.Create? ==> e.path in rows
    ensures var (after, after') := (UpdateOne(u, rows, e), UpdateOne(u, rows', e));
            e.path in after && e.path in after' && after[e.path] == after'[e.path]
  {
  }

  /** With distinct paths, each listed row is updated exactly once. */
  lemma {:induction false} UpdateAllAt(u: Update, rows: Rows, es: seq<Entry>, k: nat)
    requires DistinctPaths(es) && k < |es|
    requires !u.Create? ==> es[k].path in rows
    ensures var after := UpdateAll(u, rows, es);
            es[k].path in after && after[es[k].path] == UpdateOne(u, rows, es[k])[es[k].path]
  {
    var n := |es| - 1;
    var init := es[..n];
    UpdateAllFrame(u, rows, init);
    if k < n {
      assert DistinctPaths(init) && init[k] == es[k] && es[k].path != es[n].path;
      hide DistinctPaths;
      hide UpdateOne;
      UpdateAllAt(u, rows, init, k);
      UpdateOneFrame(u, UpdateAll(u, rows, init), es[n], es[k].path);
    } else {
      assert es[n].path !in Paths(init);
      hide DistinctPaths, UpdateOne;
      UpdateOneLooksAtOne(u, rows, UpdateAll(u, rows, init), es[n]);
    }
  }

  /** An update may only claim a file is cached when it is on disk as its row says. */
  lemma UpdateKeepsTruth(sha: Digest, u: Update, rows: Rows, disk: Disk, e: Entry)
    requires Sound(sha, rows, disk)
    requires u.Fail? ==> e.path in rows && !Cached(rows[e.path])
    requires u.Verify? ==> e.path in rows && e.path in disk && sha(disk[e.path]) == rows[e.path].sha256
    ensures Sound(sha, UpdateOne(u, rows, e), disk)
  {
  }

  /** A batch cut off after any number of entries keeps the truth of the rows. */
  lemma {:induction false} BatchKeepsTruth(sha: Digest, u: Update, rows: Rows, disk: Disk, es: seq<Entry>)
    requires Sound(sha, rows, disk) && DistinctPaths(es)
    requires !u.Create? ==> Pending(rows, es)
    requires u.Verify? ==> OnDisk(sha, disk, es)
    ensures Sound(sha, UpdateAll(u, rows, es), disk)
  {
    if es != [] {
      var n := |es| - 1;
      var init := es[..n];
      PrefixIsPending(sha, rows, disk, es, n);
      assert es[n].path !in Paths(init);
      assert es[n] in es;
      hide DistinctPaths, Sound, UpdateOne;
      BatchKeepsTruth(sha, u, rows, disk, init);
      UpdateAllFrame(u, rows, init);
      UpdateKeepsTruth(sha, u, UpdateAll(u, rows, init), disk, es[n]);
    }
  }

  lemma UpdateNone(u: Update, rows: Rows, es: seq<Entry>)
    ensures UpdateAll(u, rows, es[..0]) == rows
  {
  }

  // ----- selecting what to download, and what succeeded -----

  lemma {:induction false} DedupIsDistinct(es: seq<Entry>)
    ensures DistinctPaths(Dedup(es)) && Paths(Dedup(es)) == Paths(es)
    ensures forall e :: e in Dedup(es) ==> e in es
  {
    if es != [] {
      var init, last := es[..|es| - 1], es[|es| - 1];
      DedupIsDistinct(init);
      assert es == init + [last];
      assert Paths(es) == Paths(init) + {last.path};
      if last.path !in Paths(init) {
        assert Paths(Dedup(init) + [last]) == Paths(Dedup(init)) + {last.path};
        assert last.path !in Paths(Dedup(init));
      }
    }
  }

  lemma OneMoreIsDistinct(es: seq<Entry>, e: Entry)
    requires DistinctPaths(es) && forall f :: f in es ==> f.path != e.path
    ensures DistinctPaths(es + [e])
  {
    assert forall i :: 0 <= i < |es| ==> es[i] in es;
  }

  lemma {:induction false} ToDownloadSelects(rows: Rows, es: seq<Entry>)
    ensures forall e :: e in ToDownload(rows, es) <==> e in es && !Skipped(rows, e)
    ensures DistinctPaths(es) ==> DistinctPaths(ToDownload(rows, es))
    ensures |ToDownload(rows, es)| <= |es|
  {
    if es != [] {
      hide Skipped;
      var n := |es| - 1;
      var init, last := es[..n], es[n];
      ToDownloadSelects(rows, init);
      assert es == init + [last];
      if DistinctPaths(es) {
        assert DistinctPaths(init);
        assert forall e :: e in init ==> e.path != last.path;
        hide ToDownload;
        OneMoreIsDistinct(ToDownload(rows, init), last);
      }
    }
  }

  lemma {:induction false} SelectSelects(todo: seq<Entry>, status: seq<TaskStatus>, s: TaskStatus)
    requires |todo| == |status| && DistinctPaths(todo)
    ensures DistinctPaths(Select(todo, status, s))
    ensures forall e :: e in Select(todo, status, s) <==> exists i :: 0 <= i < |todo| && todo[i] == e && status[i] == s
  {
    if todo != [] {
      var n := |todo| - 1;
      SelectSelects(todo[..n], status[..n], s);
      var init := Select(todo[..n], status[..n], s);
      forall e
        ensures e in Select(todo, status, s) <==> exists i :: 0 <= i < |todo| && todo[i] == e && status[i] == s
      {
        if i :| 0 <= i < |todo| && todo[i] == e && status[i] == s {
          if i < n {
            assert todo[..n][i] == e && status[..n][i] == s;
          }
        }
      }
      assert forall e :: e in init ==> e.path != todo[n].path;
    }
  }

  // ----- every step keeps the invariant -----

  lemma BeginKeeps(sha: Digest, w: World, es: seq<Entry>)
    requires Inv(sha, w) && Enabled(sha, w, Begin(es)) && BatchOk(Apply(sha, w, Begin(es)))
    ensures Inv(sha, Apply(sha, w, Begin(es)))
  {
    var todo := ToDownload(w.rows, Dedup(es));
    DedupIsDistinct(es);
    ToDownloadSelects(w.rows, Dedup(es));
    assert todo[..0] == [];
    hide Sound, SafeBatch, DistinctPaths, Skipped, Dedup;
  }

  lemma CreationKeeps(sha: Digest, w: World, ev: Event)
    requires Inv(sha, w) && Enabled(sha, w, ev) && (ev.CommitCreated? || ev.StartFetching?)
    ensures Inv(sha, Apply(sha, w, ev))
  {
    hide Sound, UpdateAll, SafeBatch, DistinctPaths, Pending;
    var todo, base := w.phase.todo, w.phase.base;
    var k := if ev.CommitCreated? then Min(w.phase.done + BATCH_SIZE, |todo|) else |todo|;
    var part := todo[..k];
    PrefixIsPending(sha, base, w.disk, todo, k);
    BatchKeepsTruth(sha, Create, base, w.disk, part);
    if ev.StartFetching? {
      assert part == todo;
      CreatedIsPending(base, todo);
    }
  }

  lemma CreatedIsPending(base: Rows, todo: seq<Entry>)
    requires DistinctPaths(todo) && SafeBatch(base, todo)
    ensures Pending(UpdateAll(Create, base, todo), todo) && SafeBatch(UpdateAll(Create, base, todo), todo)
  {
    hide UpdateAll, DistinctPaths;
    var rows := UpdateAll(Create, base, todo);
    UpdateAllFrame(Create, base, todo);
    forall e | e in todo
      ensures e.path in rows && !Cached(rows[e.path]) && rows[e.path].sha256 == e.sha256
    {
      var i :| 0 <= i < |todo| && todo[i] == e;
      UpdateAllAt(Create, base, todo, i);
    }
  }

  lemma TaskKeeps(sha: Digest, w: World, ev: Event)
    requires Inv(sha, w) && Enabled(sha, w, ev)
    requires ev.UnlinkPart? || ev.WritePart? || ev.Replace? || ev.GiveUp?
    ensures Inv(sha, Apply(sha, w, ev))
  {
    hide DistinctPaths, SafeBatch, PartOf, Pending, Sound;
    var todo, e := w.phase.todo, w.phase.todo[ev.task];
    var after := Apply(sha, w, ev).disk;
    TaskIsAlone(w.rows, todo, ev.task);
    if ev.Replace? {
      assert SameBut(w.disk, after, PartOf(e.path), e.path);
      BesidePartKeeps(sha, w, ev.task, after, e.path);
    } else {
      assert SameBut(w.disk, after, PartOf(e.path), PartOf(e.path));
      BesidePartKeeps(sha, w, ev.task, after, PartOf(e.path));
    }
  }

  /** Nothing on disk differs but what is at two paths. */
  ghost predicate SameBut(disk: Disk, disk': Disk, p: string, q: string) {
    forall r :: r != p && r != q ==> (r in disk <==> r in disk') && (r in disk ==> disk[r] == disk'[r])
  }

  /** Only this task works on its path, and on its partial file none. */
  lemma TaskIsAlone(rows: Rows, todo: seq<Entry>, i: nat)
    requires DistinctPaths(todo) && SafeBatch(rows, todo) && Pending(rows, todo) && i < |todo|
    ensures todo[i].sha256 != "" && PartOf(todo[i].path) != todo[i].path
    ensures forall j :: 0 <= j < |todo| ==> todo[j].path != PartOf(todo[i].path)
    ensures forall j :: 0 <= j < |todo| && j != i ==> todo[j].path != todo[i].path
    ensures todo[i].path in rows && !Cached(rows[todo[i].path])
    ensures PartOf(todo[i].path) in rows ==> !Cached(rows[PartOf(todo[i].path)])
  {
    assert todo[i] in todo;
    assert forall j :: 0 <= j < |todo| ==> todo[j] in todo && todo[j].path in Paths(todo);
    hide PartOf;
  }

  lemma BesidePartKeeps(sha: Digest, w: World, i: nat, disk: Disk, q: string)
    requires Inv(sha, w) && ActiveTask(w, i)
    requires q == w.phase.todo[i].path || q == PartOf(w.phase.todo[i].path)
    requires SameBut(w.disk, disk, PartOf(w.phase.todo[i].path), q)
    ensures Sound(sha, w.rows, disk)
    ensures forall j :: 0 <= j < |w.phase.todo| && j != i && w.phase.status[j].Succeeded? ==>
              w.phase.todo[j].path in disk && sha(disk[w.phase.todo[j].path]) == w.phase.todo[j].sha256
  {
    TaskIsAlone(w.rows, w.phase.todo, i);
    hide DistinctPaths, SafeBatch, PartOf, Pending;
  }

  lemma RecordingStarts(sha: Digest, w: World)
    requires Inv(sha, w) && Enabled(sha, w, StartRecording)
    ensures Inv(sha, Apply(sha, w, StartRecording))
  {
    hide Select, SafeBatch, Sound;
    var todo, status := w.phase.todo, w.phase.status;
    var oks, fails := Select(todo, status, Succeeded), Select(todo, status, GaveUp);
    SelectSelects(todo, status, Succeeded);
    SelectSelects(todo, status, GaveUp);
    UpdateNone(Verify, w.rows, oks);
    forall e, f | e in oks && f in fails
      ensures e.path != f.path
    {
      var i :| 0 <= i < |todo| && todo[i] == e && status[i] == Succeeded;
      var j :| 0 <= j < |todo| && todo[j] == f && status[j] == GaveUp;
    }
    hide DistinctPaths;
  }

  lemma VerificationKeeps(sha: Digest, w: World, ev: Event)
    requires Inv(sha, w) && Enabled(sha, w, ev) && (ev.CommitVerified? || ev.StartMarking?)
    ensures Inv(sha, Apply(sha, w, ev))
  {
    hide Sound, UpdateAll, Pending, OnDisk, DistinctPaths;
    var oks, fails, base := w.phase.oks, w.phase.fails, w.phase.base;
    var k := if ev.CommitVerified? then Min(w.phase.done + BATCH_SIZE, |oks|) else |oks|;
    PendingInTwo(base, oks, fails);
    PrefixIsPending(sha, base, w.disk, oks, k);
    BatchKeepsTruth(sha, Verify, base, w.disk, oks[..k]);
    if ev.StartMarking? {
      assert oks[..k] == oks;
      OthersStayPending(base, oks, fails);
      UpdateNone(Fail, w.rows, fails);
    }
  }

  lemma PendingInTwo(rows: Rows, oks: seq<Entry>, fails: seq<Entry>)
    requires Pending(rows, oks + fails)
    ensures Pending(rows, oks) && Pending(rows, fails)
  {
    assert forall e :: e in oks || e in fails ==> e in oks + fails;
  }

  lemma OthersStayPending(base: Rows, oks: seq<Entry>, fails: seq<Entry>)
    requires Pending(base, fails) && Paths(oks) !! Paths(fails)
    ensures Pending(UpdateAll(Verify, base, oks), fails)
  {
    hide UpdateAll;
    UpdateAllFrame(Verify, base, oks);
    assert forall e :: e in fails ==> e.path in Paths(fails);
  }

  lemma PrefixIsPending(sha: Digest, rows: Rows, disk: Disk, es: seq<Entry>, k: nat)
    requires k <= |es|
    ensures DistinctPaths(es) ==> DistinctPaths(es[..k])
    ensures Pending(rows, es) ==> Pending(rows, es[..k])
    ensures OnDisk(sha, disk, es) ==> OnDisk(sha, disk, es[..k])
  {
    assert forall e :: e in es[..k] ==> e in es;
  }

  lemma FailureKeeps(sha: Digest, w: World)
    requires Inv(sha, w) && Enabled(sha, w, CommitFailed)
    ensures Inv(sha, Apply(sha, w, CommitFailed))
  {
    hide Sound, Pending, OnDisk, DistinctPaths, UpdateAll;
    var fails, base := w.phase.fails, w.phase.base;
    var k := Min(w.phase.done + BATCH_SIZE, |fails|);
    PrefixIsPending(sha, base, w.disk, fails, k);
    BatchKeepsTruth(sha, Fail, base, w.disk, fails[..k]);
    UpdateAllFrame(Fail, base, fails[..k]);
  }

  /** Only what the query for verified files returns is marked as indexed. */
  predicate IndexesCached(w: World, ev: Event) {
    ev.Index? && ev.path in w.rows ==> Cached(w.rows[ev.path])
  }

  lemma StepKeepsInvariant(sha: Digest, w: World, ev: Event)
    requires Inv(sha, w) && Enabled(sha, w, ev) && BatchOk(Apply(sha, w, ev)) && IndexesCached(w, ev)
    ensures Inv(sha, Apply(sha, w, ev))
  {
    match ev
    case Begin(es) => BeginKeeps(sha, w, es);
    case CommitCreated => CreationKeeps(sha, w, ev);
    case StartFetching => CreationKeeps(sha, w, ev);
    case UnlinkPart(_) => TaskKeeps(sha, w, ev);
    case WritePart(_, _) => TaskKeeps(sha, w, ev);
    case Replace(_) => TaskKeeps(sha, w, ev);
    case GiveUp(_) => TaskKeeps(sha, w, ev);
    case StartRecording => RecordingStarts(sha, w);
    case CommitVerified => VerificationKeeps(sha, w, ev);
    case StartMarking => VerificationKeeps(sha, w, ev);
    case CommitFailed => FailureKeeps(sha, w);
    case _ => RestKeeps(sha, w, ev);
  }

  lemma RestKeeps(sha: Digest, w: World, ev: Event)
    requires Inv(sha, w) && Enabled(sha, w, ev)
    requires ev.Finish? || ev.Crash? || ev.Rollback? || ev.Resume? || ev.Index? || ev.Remove?
    requires IndexesCached(w, ev)
    ensures Inv(sha, Apply(sha, w, ev))
  {
  }

  // ----- over whole runs -----

  ghost predicate GoodStep(sha: Digest, w: World, w': World) {
    exists ev :: Enabled(sha, w, ev) && IndexesCached(w, ev) && w' == Apply(sha, w, ev)
  }

  /** A run from a sound start whose batches are safe and which indexes cached files only. */
  ghost predicate GoodRun(sha: Digest, trace: seq<World>) {
    && trace != [] && Inv(sha, trace[0])
    && (forall i :: 0 <= i < |trace| ==> BatchOk(trace[i]))
    && forall i :: 0 <= i < |trace| - 1 ==> GoodStep(sha, trace[i], trace[i + 1])
  }

  lemma EventAt(sha: Digest, trace: seq<World>, i: nat) returns (ev: Event)
    requires GoodRun(sha, trace) && i < |trace| - 1
    ensures Enabled(sha, trace[i], ev) && IndexesCached(trace[i], ev) && trace[i + 1] == Apply(sha, trace[i], ev)
  {
    hide Enabled, Apply, Inv, BatchOk, IndexesCached;
    assert GoodStep(sha, trace[i], trace[i + 1]);
    ev :| Enabled(sha, trace[i], ev) && IndexesCached(trace[i], ev) && trace[i + 1] == Apply(sha, trace[i], ev);
  }

  lemma {:induction false} RunsKeepInvariant(sha: Digest, trace: seq<World>, i: nat)
    requires GoodRun(sha, trace) && i < |trace|
    ensures Inv(sha, trace[i])
  {
    hide Inv, BatchOk;
    if i > 0 {
      RunsKeepInvariant(sha, trace, i - 1);
      var ev := EventAt(sha, trace, i - 1);
      StepKeepsInvariant(sha, trace[i - 1], ev);
    }
  }

  /**
   * In every run, at every point where it may be cut off, a file that an incremental sync would
   * skip is on disk with the content its metadata asks for.
   */
  lemma SkippedFilesAreCorrect(sha: Digest, trace: seq<World>, i: nat, e: Entry)
    requires GoodRun(sha, trace) && i < |trace| && Skipped(trace[i].rows, e)
    ensures e.path in trace[i].disk && sha(trace[i].disk[e.path]) == e.sha256
  {
    RunsKeepInvariant(sha, trace, i);
  }

  // ----- retry counts -----

  /** No row disappears and no retry count goes down. */
  predicate RetriesGrow(rows: Rows, rows': Rows) {
    forall p :: p in rows ==> p in rows' && rows[p].retryCount <= rows'[p].retryCount
  }

  lemma {:induction false} LongerBatchRetries(u: Update, rows: Rows, es: seq<Entry>, j: nat, k: nat)
    requires j <= k <= |es|
    ensures RetriesGrow(UpdateAll(u, rows, es[..j]), UpdateAll(u, rows, es[..k]))
  {
    RetriesStay(UpdateAll(u, rows, es[..k]));
    hide *;
    if j < k {
      var before := UpdateAll(u, rows, es[..k - 1]);
      LongerBatchRetries(u, rows, es, j, k - 1);
      UpdateAllOne(u, rows, es, k - 1);
      UpdateGrowsRetries(u, before, es[k - 1]);
      RetriesGrowOn(UpdateAll(u, rows, es[..j]), before, UpdateAll(u, rows, es[..k]));
    }
  }

  lemma UpdateGrowsRetries(u: Update, rows: Rows, e: Entry)
    ensures RetriesGrow(rows, UpdateOne(u, rows, e))
  {
  }

  lemma RetriesStay(rows: Rows)
    ensures RetriesGrow(rows, rows)
  {
  }

  lemma RetriesGrowOn(a: Rows, b: Rows, c: Rows)
    requires RetriesGrow(a, b) && RetriesGrow(b, c)
    ensures RetriesGrow(a, c)
  {
  }

  predicate RetriesOk(w: World) {
    && FailedOnlyAfterRetries(w.rows)
    && (w.phase.Creating? || w.phase.Recording? || w.phase.Marking? ==> FailedOnlyAfterRetries(w.phase.base))
  }

  lemma {:induction false} BatchKeepsRetries(u: Update, rows: Rows, es: seq<Entry>)
    requires FailedOnlyAfterRetries(rows)
    ensures FailedOnlyAfterRetries(UpdateAll(u, rows, es))
  {
    if es != [] {
      BatchKeepsRetries(u, rows, es[..|es| - 1]);
    }
  }

  lemma StepGrowsRetries(sha: Digest, w: World, ev: Event)
    requires Inv(sha, w) && Enabled(sha, w, ev)
    ensures RetriesGrow(w.rows, Apply(sha, w, ev).rows)
    ensures RetriesOk(w) ==> RetriesOk(Apply(sha, w, ev))
  {
    hide Sound, SafeBatch, UpdateAll;
    match ev
    case CommitCreated =>
      var k := Min(w.phase.done + BATCH_SIZE, |w.phase.todo|);
      LongerBatchRetries(Create, w.phase.base, w.phase.todo, w.phase.done, k);
      if RetriesOk(w) {
        BatchKeepsRetries(Create, w.phase.base, w.phase.todo[..k]);
      }
    case CommitVerified =>
      var k := Min(w.phase.done + BATCH_SIZE, |w.phase.oks|);
      LongerBatchRetries(Verify, w.phase.base, w.phase.oks, w.phase.done, k);
      if RetriesOk(w) {
        BatchKeepsRetries(Verify, w.phase.base, w.phase.oks[..k]);
      }
    case CommitFailed =>
      var k := Min(w.phase.done + BATCH_SIZE, |w.phase.fails|);
      LongerBatchRetries(Fail, w.phase.base, w.phase.fails, w.phase.done, k);
      if RetriesOk(w) {
        BatchKeepsRetries(Fail, w.phase.base, w.phase.fails[..k]);
      }
    case _ =>
  }

  /** Over a whole run retry counts only grow, and a row has failed only after three of them. */
  lemma {:induction false} RunsGrowRetries(sha: Digest, trace: seq<World>, i: nat, j: nat)
    requires GoodRun(sha, trace) && i <= j < |trace|
    ensures RetriesGrow(trace[i].rows, trace[j].rows)
    ensures RetriesOk(trace[i]) ==> RetriesOk(trace[j])
  {
    hide *;
    if i == j {
      RetriesStay(trace[i].rows);
    } else {
      RunsGrowRetries(sha, trace, i, j - 1);
      RunsKeepInvariant(sha, trace, j - 1);
      var ev := EventAt(sha, trace, j - 1);
      StepGrowsRetries(sha, trace[j - 1], ev);
      RetriesGrowOn(trace[i].rows, trace[j - 1].rows, trace[j].rows);
    }
  }
}
