/**
 * The artifact side of a repository mirror as a state machine over durable steps: one step is one
 * database commit or one change of the file system, and a crash may come between any two.
 */
module MirrorProtocol {
  import opened Results

  type Content = seq<bv8>
  type Digest = Content -> string

  datatype FileState = Discovered | Queued | Downloading | Downloaded | Verified | Indexed | Failed

  /** A repository file record. */
  datatype Row = Row(sha256: string, size: nat, state: FileState, retryCount: nat, localPath: Option<string>)

  /** A file listed in the repository metadata. */
  datatype Entry = Entry(path: string, sha256: string, size: nat)

  /** Both the URL and the local path of an artifact are determined by its relative path. */
  type Rows = map<string, Row>
  type Disk = map<string, Content>

  const MAX_RETRIES := 3
  const BATCH_SIZE := 500

  predicate Cached(r: Row) {
    r.state.Verified? || r.state.Indexed?
  }

  function PartOf(path: string): string {
    path + ".part"
  }

  function Min(a: nat, b: nat): nat {
    if a < b then a else b
  }

  // ----- row updates -----

  function CreateOne(rows: Rows, e: Entry): Rows {
    if e.path in rows
    then rows[e.path := rows[e.path].(sha256 := e.sha256, size := e.size, state := Queued)]
    else rows[e.path := Row(e.sha256, e.size, Queued, 0, None)]
  }

  function VerifyOne(rows: Rows, e: Entry): Rows {
    if e.path in rows then rows[e.path := rows[e.path].(state := Verified, localPath := Some(e.path))] else rows
  }

  function FailOne(rows: Rows, e: Entry): Rows {
    if e.path in rows then
      var count := rows[e.path].retryCount + 1;
      rows[e.path := rows[e.path].(retryCount := count, state := if count >= MAX_RETRIES then Failed else Queued)]
    else rows
  }

  datatype Update = Create | Verify | Fail

  function UpdateOne(u: Update, rows: Rows, e: Entry): Rows {
    match u
    case Create => CreateOne(rows, e)
    case Verify => VerifyOne(rows, e)
    case Fail => FailOne(rows, e)
  }

  /** Apply one update to the rows of all entries, in order. */
  function UpdateAll(u: Update, rows: Rows, es: seq<Entry>): Rows {
    if es == [] then rows else UpdateOne(u, UpdateAll(u, rows, es[..|es| - 1]), es[|es| - 1])
  }

  function RollbackRow(r: Row): Row {
    if r.state.Queued? then r.(state := Discovered)
    else if r.state.Downloading? then r.(state := Queued)
    else r
  }

  function ResumeRow(r: Row): Row {
    if r.state.Downloading? then r.(state := Queued) else r
  }

  // ----- incremental decisions -----

  function Paths(es: seq<Entry>): set<string> {
    set e | e in es :: e.path
  }

  /** The entries with their first occurrence of each path only. */
  function Dedup(es: seq<Entry>): seq<Entry> {
    if es == [] then []
    else
      var (init, last) := (es[..|es| - 1], es[|es| - 1]);
      if last.path in Paths(init) then Dedup(init) else Dedup(init) + [last]
  }

  predicate Skipped(rows: Rows, e: Entry) {
    e.path in rows && Cached(rows[e.path]) && rows[e.path].sha256 == e.sha256
  }

  function ToDownload(rows: Rows, es: seq<Entry>): seq<Entry> {
    if es == [] then []
    else ToDownload(rows, es[..|es| - 1]) + if Skipped(rows, es[|es| - 1]) then [] else [es[|es| - 1]]
  }

  // ----- the machine -----

  datatype TaskStatus = Active | Succeeded | GaveUp

  datatype Phase =
    | Idle
    | Creating(todo: seq<Entry>, base: Rows, done: nat)
    | Fetching(todo: seq<Entry>, status: seq<TaskStatus>)
    | Recording(oks: seq<Entry>, fails: seq<Entry>, base: Rows, done: nat)
    | Marking(fails: seq<Entry>, base: Rows, done: nat)

  datatype World = World(rows: Rows, disk: Disk, phase: Phase)

  function Select(todo: seq<Entry>, status: seq<TaskStatus>, s: TaskStatus): seq<Entry>
    requires |todo| == |status|
  {
    if todo == [] then []
    else
      var n := |todo| - 1;
      Select(todo[..n], status[..n], s) + if status[n] == s then [todo[n]] else []
  }

  datatype Event =
    | Begin(entries: seq<Entry>)
    | CommitCreated
    | StartFetching
    | UnlinkPart(task: nat)
    | WritePart(task: nat, content: Content)
    | Replace(task: nat)
    | GiveUp(task: nat)
    | StartRecording
    | CommitVerified
    | StartMarking
    | CommitFailed
    | Finish
    | Crash
    | Rollback
    | Resume
    | Index(path: string)
    | Remove(path: string)

  /** Every digest can be checked, and no partial download is a cached file or another file of the batch. */
  predicate SafeBatch(rows: Rows, todo: seq<Entry>) {
    forall e :: e in todo ==>
      && e.sha256 != "" && PartOf(e.path) !in Paths(todo)
      && !(PartOf(e.path) in rows && Cached(rows[PartOf(e.path)]))
  }

  predicate BatchOk(w: World) {
    w.phase.Creating? ==> SafeBatch(w.phase.base, w.phase.todo)
  }

  predicate ActiveTask(w: World, i: nat) {
    w.phase.Fetching? && i < |w.phase.status| == |w.phase.todo| && w.phase.status[i].Active?
  }

  predicate Acceptable(sha: Digest, e: Entry, c: Content) {
    (e.size != 0 ==> |c| == e.size) && (e.sha256 != "" ==> sha(c) == e.sha256)
  }

  predicate Referenced(rows: Rows, path: string) {
    exists p :: p in rows && Cached(rows[p]) && rows[p].localPath == Some(path)
  }

  /** The file name has the suffix ".part"; a file named just ".part" has none. */
  predicate HasPartSuffix(path: string) {
    |path| > 5 && path[|path| - 5..] == ".part" && path[|path| - 6] != '/'
  }

  predicate Enabled(sha: Digest, w: World, ev: Event) {
    match ev
    case Begin(_) => w.phase.Idle?
    case CommitCreated => w.phase.Creating? && w.phase.done < |w.phase.todo|
    case StartFetching => w.phase.Creating? && w.phase.done == |w.phase.todo|
    case UnlinkPart(i) => ActiveTask(w, i)
    case WritePart(i, _) => ActiveTask(w, i)
    case Replace(i) =>
      && ActiveTask(w, i) && PartOf(w.phase.todo[i].path) in w.disk
      && Acceptable(sha, w.phase.todo[i], w.disk[PartOf(w.phase.todo[i].path)])
    case GiveUp(i) => ActiveTask(w, i)
    case StartRecording => w.phase.Fetching? && |w.phase.status| == |w.phase.todo| && Active !in w.phase.status
    case CommitVerified => w.phase.Recording? && w.phase.done < |w.phase.oks|
    case StartMarking => w.phase.Recording? && w.phase.done == |w.phase.oks|
    case CommitFailed => w.phase.Marking? && w.phase.done < |w.phase.fails|
    case Finish => w.phase.Marking? && w.phase.done == |w.phase.fails|
    case Crash => true
    case Rollback => w.phase.Idle?
    case Resume => w.phase.Idle?
    case Index(p) => w.phase.Idle? && p in w.rows
    case Remove(p) => w.phase.Idle? && !Referenced(w.rows, p) && !HasPartSuffix(p)
  }

  function Apply(sha: Digest, w: World, ev: Event): World
    requires Enabled(sha, w, ev)
  {
    match ev
    case Begin(es) => w.(phase := Creating(ToDownload(w.rows, Dedup(es)), w.rows, 0))
    case CommitCreated =>
      var k := Min(w.phase.done + BATCH_SIZE, |w.phase.todo|);
      World(UpdateAll(Create, w.phase.base, w.phase.todo[..k]), w.disk, Creating(w.phase.todo, w.phase.base, k))
    case StartFetching => w.(phase := Fetching(w.phase.todo, seq(|w.phase.todo|, _ => Active)))
    case UnlinkPart(i) => w.(disk := w.disk - {PartOf(w.phase.todo[i].path)})
    case WritePart(i, c) => w.(disk := w.disk[PartOf(w.phase.todo[i].path) := c])
    case Replace(i) =>
      var p := w.phase.todo[i].path;
      var moved := (w.disk - {PartOf(p)})[p := w.disk[PartOf(p)]];
      World(w.rows, moved, Fetching(w.phase.todo, w.phase.status[i := Succeeded]))
    case GiveUp(i) => w.(phase := Fetching(w.phase.todo, w.phase.status[i := GaveUp]))
    case StartRecording =>
      var (todo, status) := (w.phase.todo, w.phase.status);
      w.(phase := Recording(Select(todo, status, Succeeded), Select(todo, status, GaveUp), w.rows, 0))
    case CommitVerified =>
      var k := Min(w.phase.done + BATCH_SIZE, |w.phase.oks|);
      World(UpdateAll(Verify, w.phase.base, w.phase.oks[..k]), w.disk,
            Recording(w.phase.oks, w.phase.fails, w.phase.base, k))
    case StartMarking => w.(phase := Marking(w.phase.fails, w.rows, 0))
    case CommitFailed =>
      var k := Min(w.phase.done + BATCH_SIZE, |w.phase.fails|);
      World(UpdateAll(Fail, w.phase.base, w.phase.fails[..k]), w.disk, Marking(w.phase.fails, w.phase.base, k))
    case Finish => w.(phase := Idle)
    case Crash => w.(phase := Idle)
    case Rollback => w.(rows := map p | p in w.rows :: RollbackRow(w.rows[p]))
    case Resume => w.(rows := map p | p in w.rows :: ResumeRow(w.rows[p]))
    case Index(p) => w.(rows := w.rows[p := w.rows[p].(state := Indexed)])
    case Remove(p) => w.(disk := w.disk - {p})
  }

  ghost predicate Step(sha: Digest, w: World, w': World) {
    exists ev :: Enabled(sha, w, ev) && w' == Apply(sha, w, ev)
  }

  /** A run: every world is a step away from the one before. */
  ghost predicate Run(sha: Digest, trace: seq<World>) {
    forall i :: 0 <= i < |trace| - 1 ==> Step(sha, trace[i], trace[i + 1])
  }
}
