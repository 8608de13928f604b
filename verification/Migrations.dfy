/** Forward-only database migrations: discovery, savepoints and the history table. */
module Migrations {
  import opened Results
  import opened Lines
  import opened Decimals

  datatype Migration = Migration(version: nat, path: string)

  // ----- discovery -----

  function DigitRun(s: string, i: nat): (j: nat)
    requires i <= |s|
    ensures i <= j <= |s| && forall k :: i <= k < j ==> IsDigit(s[k])
    ensures j < |s| ==> !IsDigit(s[j])
    decreases |s| - i
  {
    if i < |s| && IsDigit(s[i]) then DigitRun(s, i + 1) else i
  }

  /** The version in a file name of the form v{N}_*.py, as the pattern matches it. */
  function VersionOf(name: string): Option<nat> {
    var s := if name != "" && name[|name| - 1] == '\n' then name[..|name| - 1] else name;
    if s == "" || s[0] != 'v' then None
    else
      var j := DigitRun(s, 1);
      if 1 < j && j + 4 <= |s| && s[j] == '_' && s[|s| - 3..] == ".py" && '\n' !in s then DigitsValue(s[1..j]) else None
  }

  /** Found migrations in the order of the directory. */
  function Found(names: seq<string>): seq<Migration> {
    if names == [] then []
    else
      var name := names[|names| - 1];
      Found(names[..|names| - 1])
      + match VersionOf(name) case None => [] case Some(v) => [Migration(v, name)]
  }

  predicate Ascending(ms: seq<Migration>) {
    forall i, j :: 0 <= i < j < |ms| ==> ms[i].version <= ms[j].version
  }

  /** Put a migration behind those of the same or a lower version. */
  function Insert(ms: seq<Migration>, m: Migration): seq<Migration> {
    if ms == [] || ms[|ms| - 1].version <= m.version then ms + [m]
    else Insert(ms[..|ms| - 1], m) + [ms[|ms| - 1]]
  }

  /** The stable sort by version. */
  function Sorted(ms: seq<Migration>): seq<Migration> {
    if ms == [] then [] else Insert(Sorted(ms[..|ms| - 1]), ms[|ms| - 1])
  }

  lemma {:induction false} InsertAdds(ms: seq<Migration>, m: Migration)
    ensures multiset(Insert(ms, m)) == multiset(ms) + multiset{m}
  {
    if ms != [] && ms[|ms| - 1].version > m.version {
      assert ms == ms[..|ms| - 1] + [ms[|ms| - 1]];
      InsertAdds(ms[..|ms| - 1], m);
    }
  }

  lemma InsertMembers(ms: seq<Migration>, m: Migration)
    ensures forall x :: x in Insert(ms, m) <==> x == m || x in ms
  {
    InsertAdds(ms, m);
    hide Insert;
    var r := Insert(ms, m);
    assert forall x :: x in multiset(r) <==> x in r;
    assert forall x :: x in multiset(ms) <==> x in ms;
  }

  lemma {:induction false} InsertKeepsOrder(ms: seq<Migration>, m: Migration)
    requires Ascending(ms)
    ensures Ascending(Insert(ms, m))
  {
    if ms != [] && ms[|ms| - 1].version > m.version {
      var init, last := ms[..|ms| - 1], ms[|ms| - 1];
      InsertKeepsOrder(init, m);
      InsertMembers(init, m);
      var r := Insert(init, m);
      assert Insert(ms, m) == r + [last];
      hide Insert;
      forall i | 0 <= i < |r|
        ensures r[i].version <= last.version
      {
        assert r[i] in r;
      }
    }
  }

  lemma {:induction false} SortedIsAscending(ms: seq<Migration>)
    ensures Ascending(Sorted(ms)) && multiset(Sorted(ms)) == multiset(ms)
    ensures forall x :: x in Sorted(ms) <==> x in ms
  {
    if ms != [] {
      var init, last := ms[..|ms| - 1], ms[|ms| - 1];
      assert ms == init + [last];
      SortedIsAscending(init);
      hide Insert, Ascending;
      InsertKeepsOrder(Sorted(init), last);
      InsertAdds(Sorted(init), last);
      InsertMembers(Sorted(init), last);
    }
  }

  function Pending(ms: seq<Migration>, history: set<nat>): (r: seq<Migration>)
    ensures forall m :: m in r <==> m in ms && m.version !in history
  {
    if ms == [] then []
    else
      var m := ms[|ms| - 1];
      Pending(ms[..|ms| - 1], history) + if m.version in history then [] else [m]
  }

  // ----- a database and one run -----

  /** The migrations whose effects are in the database, in order, and the versions recorded. */
  datatype Database = Database(applied: seq<Migration>, history: set<nat>)

  function Versions(ms: seq<Migration>): (vs: set<nat>)
    ensures forall m :: m in ms ==> m.version in vs
  {
    set m | m in ms :: m.version
  }

  predicate DistinctVersions(ms: seq<Migration>) {
    forall i, j :: 0 <= i < j < |ms| ==> ms[i].version != ms[j].version
  }

  /** The history tells exactly what was done, and nothing was done twice. */
  predicate Truthful(db: Database) {
    db.history == Versions(db.applied) && DistinctVersions(db.applied)
  }

  function Applied(db: Database, m: Migration): Database {
    Database(db.applied + [m], db.history + {m.version})
  }

  /** Apply in order up to the first that fails, or whose version is recorded by then. */
  function Run(db: Database, pending: seq<Migration>, failing: set<string>): (Database, Option<nat>)
    decreases |pending|
  {
    if pending == [] then (db, None)
    else if pending[0].path in failing || pending[0].version in db.history then (db, Some(pending[0].version))
    else Run(Applied(db, pending[0]), pending[1..], failing)
  }

  function PendingOf(names: seq<string>, db: Database): seq<Migration> {
    Pending(Sorted(Found(names)), db.history)
  }

  function RunPendingOf(db: Database, names: seq<string>, failing: set<string>): (Database, Option<nat>) {
    Run(db, PendingOf(names, db), failing)
  }

  function VersionList(ms: seq<Migration>): (vs: seq<nat>)
    ensures |vs| == |ms|
  {
    seq(|ms|, i requires 0 <= i < |ms| => ms[i].version)
  }

  class MigrationRunner {
    var applied: seq<Migration>
    var history: set<nat>
    var published: seq<nat>

    constructor ()
      ensures State() == Database([], {}) && published == []
    {
      applied, history, published := [], {}, [];
    }

    function State(): Database
      reads this
    {
      Database(applied, history)
    }

    method DiscoverMigrations(names: seq<string>) returns (migrations: seq<Migration>)
      ensures migrations == Sorted(Found(names))
    {
      hide VersionOf;
      migrations := [];
      for i := 0 to |names|
        invariant migrations == Found(names[..i])
      {
        assert names[..i + 1][..i] == names[..i];
        var version := VersionOf(names[i]);
        if version.Some? {
          migrations := migrations + [Migration(version.value, names[i])];
        }
      }
      assert names[..|names|] == names;
      migrations := Sorted(migrations);
    }

    /** One call: the names are the files of the directory, and those that fail leave
        something of their own behind before the savepoint is rolled back. */
    method RunPending(names: seq<string>, failing: set<string>) returns (r: Result<(), nat>)
      modifies this
      ensures (State(), if r.Ok? then None else Some(r.error)) == RunPendingOf(old(State()), names, failing)
      ensures old(applied) <= applied && published == old(published) + VersionList(applied[|old(applied)|..])
    {
      hide Sorted, Found, Pending;
      var found := DiscoverMigrations(names);
      var pending := Pending(found, history);
      ghost var start := State();
      ghost var done: seq<Migration> := [];
      assert pending[0..] == pending;
      for i := 0 to |pending|
        invariant Run(State(), pending[i..], failing) == Run(start, pending, failing)
        invariant applied == old(applied) + done && published == old(published) + VersionList(done)
      {
        var m := pending[i];
        assert pending[i..][0] == m && pending[i..][1..] == pending[i + 1..];
        var savepoint := State();
        if m.path in failing {
          applied := *;
          applied, history := savepoint.applied, savepoint.history;
          assert applied[|old(applied)|..] == done;
          return Err(m.version);
        }
        applied := applied + [m];
        if m.version in history {
          applied, history := savepoint.applied, savepoint.history;
          assert applied[|old(applied)|..] == done;
          return Err(m.version);
        }
        history := history + {m.version};
        published := published + [m.version];
        done := done + [m];
      }
      assert applied[|old(applied)|..] == done;
      r := Ok(());
    }
  }

  // ----- what runs keep -----

  /** How far a run gets: the migrations it applies and the one it stops at. */
  predicate GotTo(db: Database, pending: seq<Migration>, failing: set<string>, k: nat) {
    && k <= |pending|
    && (forall i :: 0 <= i < k ==> pending[i].path !in failing && pending[i].version !in db.history)
    && DistinctVersions(pending[..k])
    && (k < |pending| ==>
          pending[k].path in failing || pending[k].version in db.history + Versions(pending[..k]))
  }

  lemma GotToStep(db: Database, pending: seq<Migration>, failing: set<string>, n: nat)
    requires pending != [] && pending[0].path !in failing && pending[0].version !in db.history
    requires GotTo(Applied(db, pending[0]), pending[1..], failing, n)
    ensures GotTo(db, pending, failing, n + 1)
    ensures pending[..n + 1] == [pending[0]] + pending[1..][..n]
    ensures Versions(pending[..n + 1]) == {pending[0].version} + Versions(pending[1..][..n])
  {
    var m, rest := pending[0], pending[1..];
    assert pending[..n + 1] == [m] + rest[..n];
    assert forall x :: x in [m] + rest[..n] <==> x == m || x in rest[..n];
    assert forall i :: 0 < i <= n ==> pending[i] == rest[i - 1];
    assert n + 1 < |pending| ==> pending[n + 1] == rest[n];
  }

  /** What a run leaves and returns when it gets to the k-th migration. */
  function Reached(db: Database, pending: seq<Migration>, k: nat): (Database, Option<nat>)
    requires k <= |pending|
  {
    (Database(db.applied + pending[..k], db.history + Versions(pending[..k])),
     if k == |pending| then None else Some(pending[k].version))
  }

  lemma ReachedStart(db: Database, pending: seq<Migration>)
    ensures Reached(db, pending, 0) == (db, if pending == [] then None else Some(pending[0].version))
  {
    assert pending[..0] == [] && db.applied + [] == db.applied;
    assert db.history + Versions([]) == db.history;
  }

  lemma ReachedStep(db: Database, pending: seq<Migration>, n: nat)
    requires pending != [] && n < |pending|
    requires pending[..n + 1] == [pending[0]] + pending[1..][..n]
    requires Versions(pending[..n + 1]) == {pending[0].version} + Versions(pending[1..][..n])
    ensures Reached(db, pending, n + 1) == Reached(Applied(db, pending[0]), pending[1..], n)
  {
    hide Versions;
    var m, rest := pending[0], pending[1..];
    assert db.applied + [m] + rest[..n] == db.applied + ([m] + rest[..n]);
    assert db.history + {m.version} + Versions(rest[..n]) == db.history + ({m.version} + Versions(rest[..n]));
  }

  /** A run applies exactly the migrations before the first failure, each recorded. */
  lemma {:induction false} RunAppliesPrefix(db: Database, pending: seq<Migration>, failing: set<string>)
    returns (k: nat)
    ensures GotTo(db, pending, failing, k) && Run(db, pending, failing) == Reached(db, pending, k)
    decreases |pending|
  {
    hide Reached, Applied, Versions;
    if pending == [] || pending[0].path in failing || pending[0].version in db.history {
      k := 0;
      ReachedStart(db, pending);
    } else {
      hide GotTo;
      var n := RunAppliesPrefix(Applied(db, pending[0]), pending[1..], failing);
      k := n + 1;
      GotToBound(Applied(db, pending[0]), pending[1..], failing, n);
      GotToStep(db, pending, failing, n);
      ReachedStep(db, pending, n);
    }
  }

  lemma GotToBound(db: Database, pending: seq<Migration>, failing: set<string>, k: nat)
    requires GotTo(db, pending, failing, k)
    ensures k <= |pending|
  {
  }

  /** Whatever fails, the history stays the truth, and what was applied stays applied. */
  lemma RunKeepsTruth(db: Database, pending: seq<Migration>, failing: set<string>)
    requires Truthful(db)
    ensures var after := Run(db, pending, failing).0;
            Truthful(after) && db.applied <= after.applied && db.history <= after.history
  {
    var k := RunAppliesPrefix(db, pending, failing);
    var all, more := db.applied + pending[..k], pending[..k];
    assert forall m :: m in all <==> m in db.applied || m in more;
    forall i, j | 0 <= i < j < |all|
      ensures all[i].version != all[j].version
    {
      if i < |db.applied| <= j {
        assert all[i] in db.applied && all[j] == pending[j - |db.applied|];
      }
    }
  }

  lemma {:induction false} PendingIsAscending(ms: seq<Migration>, history: set<nat>)
    requires Ascending(ms)
    ensures Ascending(Pending(ms, history))
  {
    if ms != [] {
      var init := ms[..|ms| - 1];
      PendingIsAscending(init, history);
      var r := Pending(init, history);
      assert forall i :: 0 <= i < |r| ==> r[i] in init;
    }
  }

  /** The migrations of one run go up strictly, and none was recorded before. */
  lemma RunGoesUp(db: Database, names: seq<string>, failing: set<string>)
    ensures var after := RunPendingOf(db, names, failing).0;
            && db.applied <= after.applied
            && var more := after.applied[|db.applied|..];
               && (forall i, j :: 0 <= i < j < |more| ==> more[i].version < more[j].version)
               && (forall m :: m in more ==> m in Found(names) && m.version !in db.history && m.path !in failing)
  {
    var pending := PendingOf(names, db);
    SortedIsAscending(Found(names));
    PendingIsAscending(Sorted(Found(names)), db.history);
    hide Sorted, Found, Pending;
    var k := RunAppliesPrefix(db, pending, failing);
    StrictlyUp(pending, k);
    var after := Run(db, pending, failing).0;
    assert after.applied[|db.applied|..] == pending[..k];
    hide Run, Ascending, DistinctVersions, Versions;
    assert forall m :: m in pending[..k] ==> m in pending;
  }

  lemma StrictlyUp(ms: seq<Migration>, k: nat)
    requires k <= |ms| && Ascending(ms) && DistinctVersions(ms[..k])
    ensures forall i, j :: 0 <= i < j < k ==> ms[..k][i].version < ms[..k][j].version
  {
  }

  /** A run succeeds exactly when no pending migration fails and no two share a version;
      then every version that was found is recorded. */
  lemma RunSucceedsExactly(db: Database, names: seq<string>, failing: set<string>)
    ensures var (after, error) := RunPendingOf(db, names, failing);
            && (error.None? <==>
                  (forall m :: m in PendingOf(names, db) ==> m.path !in failing)
                  && DistinctVersions(PendingOf(names, db)))
            && (error.None? ==> forall m :: m in Found(names) ==> m.version in after.history)
  {
    var pending := PendingOf(names, db);
    SortedIsAscending(Found(names));
    hide Sorted, Found, Pending;
    var k := RunAppliesPrefix(db, pending, failing);
    if k == |pending| {
      assert pending[..k] == pending;
    } else {
      assert pending[k] in pending;
      if pending[k].path !in failing {
        var m :| m in pending[..k] && m.version == pending[k].version;
        var i :| 0 <= i < k && pending[i] == m;
        assert !DistinctVersions(pending);
      }
    }
  }

  lemma {:induction false} NothingPending(ms: seq<Migration>, history: set<nat>)
    requires forall m :: m in ms ==> m.version in history
    ensures Pending(ms, history) == []
  {
    if ms != [] {
      NothingPending(ms[..|ms| - 1], history);
    }
  }

  /** After a full success a run with the same files changes nothing, whatever fails. */
  lemma RunAfterSuccessIsIdle(db: Database, names: seq<string>, failing: set<string>, failing2: set<string>)
    requires RunPendingOf(db, names, failing).1.None?
    ensures var after := RunPendingOf(db, names, failing).0;
            RunPendingOf(after, names, failing2) == (after, None)
  {
    var after := RunPendingOf(db, names, failing).0;
    RunSucceedsExactly(db, names, failing);
    SortedIsAscending(Found(names));
    hide Sorted, Found;
    NothingPending(Sorted(Found(names)), after.history);
  }

  // ----- any sequence of runs -----

  datatype Call = Call(names: seq<string>, failing: set<string>)

  function RunAll(db: Database, calls: seq<Call>): Database {
    if calls == [] then db
    else RunPendingOf(RunAll(db, calls[..|calls| - 1]), calls[|calls| - 1].names, calls[|calls| - 1].failing).0
  }

  /** Over any calls with any failures the history is the truth and nothing is undone. */
  lemma {:induction false} CallsKeepTruth(db: Database, calls: seq<Call>)
    requires Truthful(db)
    ensures Truthful(RunAll(db, calls)) && db.applied <= RunAll(db, calls).applied
  {
    hide Truthful, Run, PendingOf;
    if calls != [] {
      CallsKeepTruth(db, calls[..|calls| - 1]);
      var before, call := RunAll(db, calls[..|calls| - 1]), calls[|calls| - 1];
      RunKeepsTruth(before, PendingOf(call.names, before), call.failing);
    }
  }
}
