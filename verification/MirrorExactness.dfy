/** The exact conditions under which a sync, a download and indexing keep the rows true. */
module MirrorExactness {
  import opened Results
  import opened MirrorProtocol
  import opened MirrorSafety

  // ----- one sync, as a list of events -----

  /** The steps of a sync after its beginning; it may crash at any point. */
  predicate SyncEvent(ev: Event) {
    || ev.CommitCreated? || ev.StartFetching? || ev.UnlinkPart? || ev.WritePart? || ev.Replace? || ev.GiveUp?
    || ev.StartRecording? || ev.CommitVerified? || ev.StartMarking? || ev.CommitFailed? || ev.Finish? || ev.Crash?
  }

  predicate AllSyncEvents(evs: seq<Event>) {
    forall ev :: ev in evs ==> SyncEvent(ev)
  }

  /** The world after the events, if each is enabled in its turn. */
  function Play(sha: Digest, w: World, evs: seq<Event>): Option<World> {
    if evs == [] then Some(w)
    else
      match Play(sha, w, evs[..|evs| - 1])
      case None => None
      case Some(v) =>
        if Enabled(sha, v, evs[|evs| - 1]) then Some(Apply(sha, v, evs[|evs| - 1])) else None
  }

  /** Every run of one sync of the entries, cut off anywhere, leaves the rows true. */
  ghost predicate SyncKeepsSound(sha: Digest, w: World, es: seq<Entry>)
    requires w.phase.Idle?
  {
    forall evs :: AllSyncEvents(evs) && Play(sha, Apply(sha, w, Begin(es)), evs).Some? ==>
      var v := Play(sha, Apply(sha, w, Begin(es)), evs).value;
      Sound(sha, v.rows, v.disk)
  }

  /** The batch that a sync of the entries downloads. */
  function Batch(w: World, es: seq<Entry>): seq<Entry> {
    ToDownload(w.rows, Dedup(es))
  }

  lemma BatchIsDistinct(w: World, es: seq<Entry>)
    ensures DistinctPaths(Batch(w, es))
    ensures forall e :: e in Batch(w, es) ==> !Skipped(w.rows, e)
  {
    DedupIsDistinct(es);
    ToDownloadSelects(w.rows, Dedup(es));
  }

  // ----- a safe batch -----

  lemma SyncStepKeeps(sha: Digest, w: World, ev: Event)
    requires Inv(sha, w) && SyncEvent(ev) && Enabled(sha, w, ev)
    ensures Inv(sha, Apply(sha, w, ev))
  {
    assert BatchOk(Apply(sha, w, ev)) by {
      hide Sound, UpdateAll;
    }
    hide Inv, Enabled, Apply;
    StepKeepsInvariant(sha, w, ev);
  }

  lemma {:induction false} SafeSyncKeeps(sha: Digest, w: World, evs: seq<Event>)
    requires Inv(sha, w) && AllSyncEvents(evs) && Play(sha, w, evs).Some?
    ensures Inv(sha, Play(sha, w, evs).value)
  {
    hide Inv, Enabled, Apply, SyncEvent;
    if evs != [] {
      var n := |evs| - 1;
      assert evs[n] in evs && forall ev :: ev in evs[..n] ==> ev in evs;
      SafeSyncKeeps(sha, w, evs[..n]);
      SyncStepKeeps(sha, Play(sha, w, evs[..n]).value, evs[n]);
    }
  }

  lemma SafeBatchKeepsSound(sha: Digest, w: World, es: seq<Entry>)
    requires w.phase.Idle? && Sound(sha, w.rows, w.disk) && SafeBatch(w.rows, Batch(w, es))
    ensures SyncKeepsSound(sha, w, es)
  {
    var v := Apply(sha, w, Begin(es));
    assert Inv(sha, v) by {
      BeginKeeps(sha, w, es);
    }
    forall evs | AllSyncEvents(evs) && Play(sha, v, evs).Some?
      ensures Sound(sha, Play(sha, v, evs).value.rows, Play(sha, v, evs).value.disk)
    {
      hide Play, AllSyncEvents, PhaseOk, Sound;
      SafeSyncKeeps(sha, v, evs);
    }
  }

  // ----- building a run -----

  lemma {:induction false} PlayInTwo(sha: Digest, w: World, a: seq<Event>, b: seq<Event>)
    requires Play(sha, w, a).Some?
    ensures Play(sha, w, a + b) == Play(sha, Play(sha, w, a).value, b)
  {
    hide Enabled, Apply;
    if b == [] {
      assert a + b == a;
    } else {
      var n := |b| - 1;
      assert (a + b)[..|a + b| - 1] == a + b[..n];
      PlayInTwo(sha, w, a, b[..n]);
    }
  }

  lemma PlayOne(sha: Digest, w: World, ev: Event)
    requires Enabled(sha, w, ev)
    ensures Play(sha, w, [ev]) == Some(Apply(sha, w, ev))
  {
    hide Enabled, Apply;
    assert [ev][..0] == [];
    assert Play(sha, w, []) == Some(w);
  }

  /** A sync can get from its beginning to any later world through sync events. */
  ghost predicate Leads(sha: Digest, w: World, v: World) {
    exists evs :: AllSyncEvents(evs) && Play(sha, w, evs) == Some(v)
  }

  lemma LeadsOn(sha: Digest, w: World, v: World, ev: Event)
    requires Leads(sha, w, v) && SyncEvent(ev) && Enabled(sha, v, ev)
    ensures Leads(sha, w, Apply(sha, v, ev))
  {
    hide Enabled, Apply, SyncEvent, Play;
    var evs :| AllSyncEvents(evs) && Play(sha, w, evs) == Some(v);
    PlayInTwo(sha, w, evs, [ev]);
    PlayOne(sha, v, ev);
    assert AllSyncEvents(evs + [ev]);
  }

  lemma LeadsToItself(sha: Digest, w: World)
    ensures Leads(sha, w, w)
  {
    assert Play(sha, w, []) == Some(w) && AllSyncEvents([]);
  }

  /** All rows can be created. */
  lemma {:induction false} CreationCompletes(sha: Digest, w: World, rows: Rows, disk: Disk, todo: seq<Entry>, base: Rows,
                                             done: nat)
    requires done <= |todo| && Leads(sha, w, World(rows, disk, Creating(todo, base, done)))
    requires rows == UpdateAll(Create, base, todo[..done])
    ensures Leads(sha, w, World(UpdateAll(Create, base, todo), disk, Creating(todo, base, |todo|)))
    decreases |todo| - done
  {
    var v := World(rows, disk, Creating(todo, base, done));
    if done < |todo| {
      var k := Min(done + BATCH_SIZE, |todo|);
      LeadsOn(sha, w, v, CommitCreated);
      hide Leads, UpdateAll;
      CreationCompletes(sha, w, UpdateAll(Create, base, todo[..k]), disk, todo, base, k);
    } else {
      assert todo[..done] == todo;
    }
  }

  /** A sync can get to where the rows are created and no download has begun. */
  lemma FetchingIsReached(sha: Digest, w: World, es: seq<Entry>)
    requires w.phase.Idle?
    ensures var todo := Batch(w, es);
            Leads(sha, Apply(sha, w, Begin(es)),
                  World(UpdateAll(Create, w.rows, todo), w.disk, Fetching(todo, seq(|todo|, _ => Active))))
  {
    var todo, v := Batch(w, es), Apply(sha, w, Begin(es));
    LeadsToItself(sha, v);
    assert v == World(w.rows, w.disk, Creating(todo, w.rows, 0));
    assert UpdateAll(Create, w.rows, todo[..0]) == w.rows;
    hide Leads, UpdateAll, Batch, ToDownload;
    CreationCompletes(sha, v, w.rows, w.disk, todo, w.rows, 0);
    LeadsOn(sha, v, World(UpdateAll(Create, w.rows, todo), w.disk, Creating(todo, w.rows, |todo|)), StartFetching);
  }

  /** One download can succeed with any acceptable content. */
  lemma DownloadSucceeds(sha: Digest, w: World, v: World, i: nat, c: Content)
    requires Leads(sha, w, v) && ActiveTask(v, i) && Acceptable(sha, v.phase.todo[i], c)
    ensures var p := v.phase.todo[i].path;
            Leads(sha, w, World(v.rows, (v.disk - {PartOf(p)})[p := c],
                                Fetching(v.phase.todo, v.phase.status[i := Succeeded])))
  {
    hide Leads, Acceptable;
    var p := v.phase.todo[i].path;
    LeadsOn(sha, w, v, WritePart(i, c));
    var u := Apply(sha, v, WritePart(i, c));
    LeadsOn(sha, w, u, Replace(i));
    assert v.disk[PartOf(p) := c] - {PartOf(p)} == v.disk - {PartOf(p)};
  }

  /** The tasks from the k-th on can all give up, those before it being over. */
  lemma {:induction false} TheRestGivesUp(sha: Digest, w: World, v: World, k: nat) returns (status: seq<TaskStatus>)
    requires Leads(sha, w, v) && v.phase.Fetching? && k <= |v.phase.todo| == |v.phase.status|
    requires forall j :: 0 <= j < k ==> !v.phase.status[j].Active?
    ensures |status| == |v.phase.todo|
    ensures forall j :: 0 <= j < |status| ==>
              status[j] == if v.phase.status[j].Active? then GaveUp else v.phase.status[j]
    ensures Leads(sha, w, World(v.rows, v.disk, Fetching(v.phase.todo, status)))
    decreases |v.phase.todo| - k
  {
    hide Leads;
    if k == |v.phase.todo| {
      status := v.phase.status;
    } else if v.phase.status[k].Active? {
      LeadsOn(sha, w, v, GiveUp(k));
      status := TheRestGivesUp(sha, w, Apply(sha, v, GiveUp(k)), k + 1);
    } else {
      status := TheRestGivesUp(sha, w, v, k + 1);
    }
  }

  /** When every task is over, the first batch of successes can be recorded. */
  lemma RecordingFollows(sha: Digest, w: World, v: World)
    requires Leads(sha, w, v) && v.phase.Fetching? && |v.phase.status| == |v.phase.todo|
    requires Active !in v.phase.status
    ensures var oks := Select(v.phase.todo, v.phase.status, Succeeded);
            oks != [] ==>
              var k := Min(BATCH_SIZE, |oks|);
              Leads(sha, w, World(UpdateAll(Verify, v.rows, oks[..k]), v.disk,
                                  Recording(oks, Select(v.phase.todo, v.phase.status, GaveUp), v.rows, k)))
  {
    hide Leads, Select, UpdateAll;
    LeadsOn(sha, w, v, StartRecording);
    var u := Apply(sha, v, StartRecording);
    if u.phase.oks != [] {
      LeadsOn(sha, w, u, CommitVerified);
    }
  }

  // ----- an unsafe batch -----

  /** With one task succeeded and the others given up, only its entry is recorded. */
  lemma {:induction false} OnlySuccess(todo: seq<Entry>, status: seq<TaskStatus>, i: nat)
    requires |todo| == |status| && i < |todo| && status[i].Succeeded?
    requires forall j :: 0 <= j < |status| && j != i ==> status[j].GaveUp?
    ensures Select(todo, status, Succeeded) == [todo[i]]
  {
    var n := |todo| - 1;
    if i < n {
      OnlySuccess(todo[..n], status[..n], i);
    } else {
      NoSuccess(todo[..n], status[..n]);
    }
  }

  lemma {:induction false} NoSuccess(todo: seq<Entry>, status: seq<TaskStatus>)
    requires |todo| == |status| && forall j :: 0 <= j < |status| ==> status[j].GaveUp?
    ensures Select(todo, status, Succeeded) == []
  {
    if todo != [] {
      NoSuccess(todo[..|todo| - 1], status[..|todo| - 1]);
    }
  }

  /** The row of a batch entry is recorded as verified with the digest that is listed. */
  lemma RecordedRow(base: Rows, todo: seq<Entry>, i: nat)
    requires DistinctPaths(todo) && i < |todo|
    ensures var rows := UpdateAll(Verify, UpdateAll(Create, base, todo), [todo[i]]);
            todo[i].path in rows && Cached(rows[todo[i].path]) && rows[todo[i].path].sha256 == todo[i].sha256
  {
    var created := UpdateAll(Create, base, todo);
    UpdateAllAt(Create, base, todo, i);
    assert [todo[i]][..0] == [];
    assert UpdateAll(Verify, created, [todo[i]]) == VerifyOne(UpdateAll(Verify, created, []), todo[i]);
  }

  /** After one success and whatever else happened to the disk, the success can be recorded. */
  lemma SuccessIsRecorded(sha: Digest, w: World, v: World, base: Rows, i: nat)
    requires v.phase.Fetching? && i < |v.phase.todo| == |v.phase.status| && DistinctPaths(v.phase.todo)
    requires Leads(sha, w, v) && v.rows == UpdateAll(Create, base, v.phase.todo)
    requires forall j :: 0 <= j < |v.phase.status| ==> v.phase.status[j] == if j == i then Succeeded else Active
    ensures exists u :: Leads(sha, w, u) && u.disk == v.disk && var e := v.phase.todo[i];
                        e.path in u.rows && Cached(u.rows[e.path]) && u.rows[e.path].sha256 == e.sha256
  {
    hide Leads, UpdateAll, DistinctPaths, Select;
    var todo := v.phase.todo;
    var status := TheRestGivesUp(sha, w, v, 0);
    var u := World(v.rows, v.disk, Fetching(todo, status));
    OnlySuccess(todo, status, i);
    RecordingFollows(sha, w, u);
    assert [todo[i]][..1] == [todo[i]];
    RecordedRow(base, todo, i);
  }

  lemma NotKept(sha: Digest, w: World, es: seq<Entry>, v: World)
    requires w.phase.Idle? && Leads(sha, Apply(sha, w, Begin(es)), v) && !Sound(sha, v.rows, v.disk)
    ensures !SyncKeepsSound(sha, w, es)
  {
    hide Sound, Apply, Play, AllSyncEvents;
  }

  /** Without a listed digest any content of the right size is recorded. */
  lemma MissingDigestIsUnsafe(sha: Digest, w: World, es: seq<Entry>, i: nat)
    requires w.phase.Idle? && i < |Batch(w, es)| && Batch(w, es)[i].sha256 == "" && forall c :: sha(c) != ""
    ensures !SyncKeepsSound(sha, w, es)
  {
    hide Leads, UpdateAll, DistinctPaths, Batch, Apply, SyncKeepsSound;
    var todo, begun := Batch(w, es), Apply(sha, w, Begin(es));
    var c: Content := seq(todo[i].size, _ => 0);
    var v := World(UpdateAll(Create, w.rows, todo), w.disk, Fetching(todo, seq(|todo|, _ => Active)));
    FetchingIsReached(sha, w, es);
    BatchIsDistinct(w, es);
    DownloadSucceeds(sha, begun, v, i, c);
    var p := todo[i].path;
    var fetched := World(v.rows, (v.disk - {PartOf(p)})[p := c], Fetching(todo, v.phase.status[i := Succeeded]));
    SuccessIsRecorded(sha, begun, fetched, w.rows, i);
    var u :| Leads(sha, begun, u) && u.disk == fetched.disk && var e := todo[i];
             e.path in u.rows && Cached(u.rows[e.path]) && u.rows[e.path].sha256 == e.sha256;
    assert sha(u.disk[p]) != u.rows[p].sha256;
    NotKept(sha, w, es, u);
  }

  /** Starting a download removes a cached file that has the name of its partial download. */
  lemma CachedPartIsUnsafe(sha: Digest, w: World, es: seq<Entry>, i: nat)
    requires w.phase.Idle? && i < |Batch(w, es)|
    requires var q := PartOf(Batch(w, es)[i].path); q in w.rows && Cached(w.rows[q]) && q !in Paths(Batch(w, es))
    ensures !SyncKeepsSound(sha, w, es)
  {
    hide Leads, UpdateAll, Batch, SyncKeepsSound, Cached, PartOf;
    var todo, begun := Batch(w, es), Apply(sha, w, Begin(es));
    var q := PartOf(todo[i].path);
    var v := World(UpdateAll(Create, w.rows, todo), w.disk, Fetching(todo, seq(|todo|, _ => Active)));
    FetchingIsReached(sha, w, es);
    LeadsOn(sha, begun, v, UnlinkPart(i));
    UpdateAllFrame(Create, w.rows, todo);
    var u := Apply(sha, v, UnlinkPart(i));
    assert q in u.rows && u.rows[q] == w.rows[q] && q !in u.disk;
    NotKept(sha, w, es, u);
  }

  /** A file of the batch is downloaded and then removed as the partial download of another. */
  lemma PartInBatchIsUnsafe(sha: Digest, w: World, es: seq<Entry>, i: nat, k: nat, c: Content)
    requires w.phase.Idle? && i < |Batch(w, es)| && k < |Batch(w, es)|
    requires Batch(w, es)[k].path == PartOf(Batch(w, es)[i].path) && Acceptable(sha, Batch(w, es)[k], c)
    ensures !SyncKeepsSound(sha, w, es)
  {
    hide Leads, UpdateAll, DistinctPaths, Batch, SyncKeepsSound, Acceptable;
    var todo, begun := Batch(w, es), Apply(sha, w, Begin(es));
    var v := World(UpdateAll(Create, w.rows, todo), w.disk, Fetching(todo, seq(|todo|, _ => Active)));
    FetchingIsReached(sha, w, es);
    BatchIsDistinct(w, es);
    var p := todo[k].path;
    assert |p| > |todo[i].path| && i != k;
    DownloadSucceeds(sha, begun, v, k, c);
    var fetched := World(v.rows, (v.disk - {PartOf(p)})[p := c], Fetching(todo, v.phase.status[k := Succeeded]));
    LeadsOn(sha, begun, fetched, UnlinkPart(i));
    var unlinked := Apply(sha, fetched, UnlinkPart(i));
    SuccessIsRecorded(sha, begun, unlinked, w.rows, k);
    var u :| Leads(sha, begun, u) && u.disk == unlinked.disk && var e := todo[k];
             e.path in u.rows && Cached(u.rows[e.path]) && u.rows[e.path].sha256 == e.sha256;
    assert p !in u.disk;
    NotKept(sha, w, es, u);
  }

  /** From a sound start every run of one sync keeps every cached row true if and only if each file to
      download has a digest and its partial download is neither a cached file nor another file to download. */
  lemma SyncIsSafeExactly(sha: Digest, w: World, es: seq<Entry>)
    requires w.phase.Idle? && Sound(sha, w.rows, w.disk)
    requires forall c :: sha(c) != ""
    requires forall e :: e in Batch(w, es) ==> exists c :: Acceptable(sha, e, c)
    ensures SyncKeepsSound(sha, w, es) <==> SafeBatch(w.rows, Batch(w, es))
  {
    hide Batch, SyncKeepsSound, Sound, Acceptable;
    if SafeBatch(w.rows, Batch(w, es)) {
      SafeBatchKeepsSound(sha, w, es);
    } else {
      var todo := Batch(w, es);
      var e :| e in todo && (e.sha256 == "" || PartOf(e.path) in Paths(todo)
                             || (PartOf(e.path) in w.rows && Cached(w.rows[PartOf(e.path)])));
      var i :| 0 <= i < |todo| && todo[i] == e;
      if e.sha256 == "" {
        MissingDigestIsUnsafe(sha, w, es, i);
      } else if PartOf(e.path) in Paths(todo) {
        var f :| f in todo && f.path == PartOf(e.path);
        var k :| 0 <= k < |todo| && todo[k] == f;
        var c :| Acceptable(sha, f, c);
        PartInBatchIsUnsafe(sha, w, es, i, k, c);
      } else {
        CachedPartIsUnsafe(sha, w, es, i);
      }
    }
  }

  /** "x" and "x.part" in one sync of an empty mirror: although no cached file is in danger at the start, a
      run ends with "x.part" recorded as verified and its file removed. */
  lemma FileAndItsPartClash(sha: Digest, c: Content, d: Content)
    requires sha(d) != "" && sha(c) != ""
    ensures var (empty, es) := (World(map[], map[], Idle), [Entry("x", sha(c), |c|), Entry("x.part", sha(d), |d|)]);
            && Batch(empty, es) == es && Sound(sha, empty.rows, empty.disk)
            && (forall e :: e in es ==> PartOf(e.path) !in empty.rows && e.sha256 != "")
            && !SyncKeepsSound(sha, empty, es)
  {
    var empty, e, f := World(map[], map[], Idle), Entry("x", sha(c), |c|), Entry("x.part", sha(d), |d|);
    var es := [e, f];
    TwoEntries(e, f);
    hide Batch, SyncKeepsSound;
    assert PartOf(e.path) == f.path;
    PartInBatchIsUnsafe(sha, empty, es, 0, 1, d);
  }

  lemma TwoEntries(e: Entry, f: Entry)
    requires e.path != f.path
    ensures Batch(World(map[], map[], Idle), [e, f]) == [e, f]
  {
    var none: seq<Entry> := [];
    assert [e, f][..1] == [e] && [e][..0] == none;
    assert Dedup([e]) == none + [e] && Paths([e]) == {e.path};
    assert Dedup([e, f]) == [e] + [f];
    assert ToDownload(map[], [e]) == none + [e];
    assert ToDownload(map[], [e, f]) == [e] + [f];
  }

  // ----- one step at a time -----

  /** Starting a download keeps the rows true exactly if its partial file is not itself a cached file. */
  lemma UnlinkingPartIsSafeExactly(sha: Digest, w: World, i: nat)
    requires ActiveTask(w, i) && Sound(sha, w.rows, w.disk)
    ensures var part := PartOf(w.phase.todo[i].path);
            Sound(sha, w.rows, Apply(sha, w, UnlinkPart(i)).disk) <==> !(part in w.rows && Cached(w.rows[part]))
  {
  }

  /** A completed download is sure to have the listed digest exactly if a digest is listed. */
  lemma DigestIsCheckedExactly(sha: Digest, e: Entry)
    requires forall c :: sha(c) != ""
    ensures e.sha256 != "" <==> forall c :: Acceptable(sha, e, c) ==> sha(c) == e.sha256
  {
    var c := seq(e.size, _ => 0);
    assert e.sha256 == "" ==> Acceptable(sha, e, c);
  }

  // ----- indexing -----

  /** Marking a row like this one as indexed keeps the rows true, whatever else is in the database and on disk. */
  ghost predicate IndexingKeepsSound(sha: Digest, path: string, row: Row) {
    forall rows: Rows, disk: Disk ::
      Sound(sha, rows, disk) && path in rows && rows[path] == row ==>
        Sound(sha, rows[path := row.(state := Indexed)], disk)
  }

  /** Marking a row as indexed is safe if and only if it is verified or indexed already. */
  lemma IndexingIsSafeExactly(sha: Digest, path: string, row: Row)
    ensures IndexingKeepsSound(sha, path, row) <==> Cached(row)
  {
    if Cached(row) {
      forall rows: Rows, disk: Disk | Sound(sha, rows, disk) && path in rows && rows[path] == row
        ensures Sound(sha, rows[path := row.(state := Indexed)], disk)
      {
      }
    } else {
      var rows: Rows, disk: Disk := map[path := row], map[];
      var marked := rows[path := row.(state := Indexed)];
      assert Sound(sha, rows, disk) && path in rows && rows[path] == row;
      assert path in marked && Cached(marked[path]) && path !in disk;
      assert !Sound(sha, marked, disk);
    }
  }

  /** A sync makes the rows of its batch such that marking them is unsafe until they are recorded. */
  lemma IndexingDuringSyncLies(sha: Digest, rows: Rows, disk: Disk, e: Entry)
    requires Sound(sha, rows, disk) && e.path in rows && Cached(rows[e.path])
    requires rows[e.path].sha256 != e.sha256
    ensures var queued := CreateOne(rows, e);
            && !IndexingKeepsSound(sha, e.path, queued[e.path])
            && !Sound(sha, queued[e.path := queued[e.path].(state := Indexed)], disk)
  {
    var queued := CreateOne(rows, e);
    var indexed := queued[e.path := queued[e.path].(state := Indexed)];
    IndexingIsSafeExactly(sha, e.path, queued[e.path]);
    hide IndexingKeepsSound;
    assert e.path in indexed && Cached(indexed[e.path]);
  }
}
