/** Following chains of copyright symlinks through the owners of files. */
module SymlinkResolver {
  import opened Results
  import opened Lines
  import opened PosixPath

  const MAX_RESOLUTION_DEPTH := 10

  /** What the Contents data knows: the owner of a path, and the copyright file of a package. */
  datatype Contents = Contents(owners: map<string, string>, copyrights: map<string, string>) {

    function FindOwner(path: string): Option<string> {
      if path in owners then Some(owners[path]) else None
    }

    function GetCopyrightContent(package: string): Option<string> {
      if package in copyrights then Some(copyrights[package]) else None
    }
  }

  datatype Outcome =
    | Resolved(path: string, owner: string, content: string)
    | NoOwner(path: string)
    | NoContent(path: string, owner: string)

  datatype Resolution = Reached(outcome: Outcome) | Circular(path: string) | TooDeep

  // ----- the chain without any limit -----

  predicate IsSymlinkPath(content: string) {
    var stripped := Strip(content);
    && stripped != "" && '\n' !in stripped
    && (StartsWith(stripped, "/") || StartsWith(stripped, "../") || StartsWith(stripped, "./"))
  }

  function Locate(sourceDir: string, target: string): string {
    if StartsWith(target, "/") then target else Normpath(Join(sourceDir, target))
  }

  datatype Hop = Final(outcome: Outcome) | Onward(path: string)

  /** What following the chain from a path finds: its end, or the next path. */
  function HopAt(contents: Contents, path: string): Hop {
    match contents.FindOwner(path)
    case None => Final(NoOwner(path))
    case Some(owner) =>
      match contents.GetCopyrightContent(owner)
      case None => Final(NoContent(path, owner))
      case Some(content) =>
        if IsSymlinkPath(content) then Onward(Locate(Dirname(path), content))
        else Final(Resolved(path, owner, content))
  }

  /** The path after so many hops; none when the chain has ended before. */
  function PathAt(contents: Contents, start: string, hops: nat): Option<string> {
    if hops == 0 then Some(start)
    else
      match PathAt(contents, start, hops - 1)
      case None => None
      case Some(path) =>
        match HopAt(contents, path)
        case Final(_) => None
        case Onward(next) => Some(next)
  }

  /** The chain ends after so many hops. */
  predicate EndsAfter(contents: Contents, start: string, hops: nat, outcome: Outcome) {
    match PathAt(contents, start, hops)
    case None => false
    case Some(path) => HopAt(contents, path) == Final(outcome)
  }

  ghost predicate NeverEnds(contents: Contents, start: string) {
    forall hops: nat :: PathAt(contents, start, hops).Some?
  }

  /** A path comes twice among the first so many. */
  ghost predicate Repeats(contents: Contents, start: string, limit: nat) {
    exists i: nat, j: nat :: i < j < limit && PathAt(contents, start, j).Some?
                             && PathAt(contents, start, i) == PathAt(contents, start, j)
  }

  lemma {:induction false} ChainIsPrefixClosed(contents: Contents, start: string, i: nat, j: nat)
    requires i <= j && PathAt(contents, start, j).Some?
    ensures PathAt(contents, start, i).Some?
    ensures i < j ==> HopAt(contents, PathAt(contents, start, i).value).Onward?
  {
    hide HopAt;
    if i < j {
      ChainIsPrefixClosed(contents, start, i, j - 1);
    }
  }

  lemma OneEnd(contents: Contents, start: string, m: nat, n: nat, o: Outcome, p: Outcome)
    requires EndsAfter(contents, start, m, o) && EndsAfter(contents, start, n, p)
    ensures m == n && o == p
  {
    hide PathAt, HopAt;
    if m < n {
      ChainIsPrefixClosed(contents, start, m, n);
    } else if n < m {
      ChainIsPrefixClosed(contents, start, n, m);
    }
  }

  /** After a path that has come before, the chain goes round for ever. */
  lemma {:induction false} RepeatedPathIsForever(contents: Contents, start: string, i: nat, j: nat, hops: nat)
    requires i < j && PathAt(contents, start, j).Some? && PathAt(contents, start, i) == PathAt(contents, start, j)
    ensures PathAt(contents, start, hops).Some?
    decreases hops
  {
    hide PathAt;
    if hops <= j {
      ChainIsPrefixClosed(contents, start, hops, j);
    } else {
      RepeatedPathIsForever(contents, start, i, j, hops - (j - i));
      SamePathSameFuture(contents, start, i, j, hops - j);
      assert i + (hops - j) == hops - (j - i) && j + (hops - j) == hops;
    }
  }

  lemma {:induction false} SamePathSameFuture(contents: Contents, start: string, i: nat, j: nat, more: nat)
    requires PathAt(contents, start, i) == PathAt(contents, start, j)
    ensures PathAt(contents, start, i + more) == PathAt(contents, start, j + more)
  {
    hide HopAt;
    if more > 0 {
      SamePathSameFuture(contents, start, i, j, more - 1);
    }
  }

  lemma RepeatingNeverEnds(contents: Contents, start: string, limit: nat)
    requires Repeats(contents, start, limit)
    ensures NeverEnds(contents, start)
  {
    hide PathAt;
    var i: nat, j: nat :| i < j < limit && PathAt(contents, start, j).Some?
                          && PathAt(contents, start, i) == PathAt(contents, start, j);
    forall hops: nat
      ensures PathAt(contents, start, hops).Some?
    {
      RepeatedPathIsForever(contents, start, i, j, hops);
    }
  }

  lemma {:induction false} NeverEndingHasNoEnd(contents: Contents, start: string, hops: nat, outcome: Outcome)
    requires NeverEnds(contents, start)
    ensures !EndsAfter(contents, start, hops, outcome)
  {
    assert PathAt(contents, start, hops + 1).Some?;
    ChainIsPrefixClosed(contents, start, hops, hops + 1);
  }

  // ----- the resolver -----

  /** The visited set of the loop: the paths of the first hops. */
  ghost predicate Visited(contents: Contents, start: string, hops: nat, visited: set<string>) {
    && (forall i: nat :: i < hops ==> PathAt(contents, start, i).Some? && PathAt(contents, start, i).value in visited)
    && (forall p :: p in visited ==> exists i: nat :: i < hops && PathAt(contents, start, i) == Some(p))
    && !Repeats(contents, start, hops)
  }

  lemma VisitedGrows(contents: Contents, start: string, hops: nat, visited: set<string>, path: string)
    requires Visited(contents, start, hops, visited) && PathAt(contents, start, hops) == Some(path)
    requires path !in visited
    ensures Visited(contents, start, hops + 1, visited + {path})
  {
    hide PathAt;
    NewPathDoesNotRepeat(contents, start, hops, visited, path);
    hide Repeats;
    var more := visited + {path};
    forall p | p in more
      ensures exists i: nat :: i < hops + 1 && PathAt(contents, start, i) == Some(p)
    {
      if p in visited {
        var i: nat :| i < hops && PathAt(contents, start, i) == Some(p);
        assert i < hops + 1;
      } else {
        assert p == path && PathAt(contents, start, hops) == Some(p);
      }
    }
  }

  lemma NewPathDoesNotRepeat(contents: Contents, start: string, hops: nat, visited: set<string>, path: string)
    requires Visited(contents, start, hops, visited) && PathAt(contents, start, hops) == Some(path)
    requires path !in visited
    ensures !Repeats(contents, start, hops + 1)
  {
    hide PathAt;
    forall i: nat, j: nat | i < j < hops + 1 && PathAt(contents, start, j).Some?
      ensures PathAt(contents, start, i) != PathAt(contents, start, j)
    {
      if j == hops {
        assert PathAt(contents, start, i).value in visited;
      }
    }
  }

  lemma CircleIsFound(contents: Contents, start: string, hops: nat, visited: set<string>, path: string)
    requires Visited(contents, start, hops, visited) && PathAt(contents, start, hops) == Some(path)
    requires path in visited
    ensures Repeats(contents, start, hops + 1)
  {
    hide PathAt;
  }

  lemma Proceeds(contents: Contents, start: string, hops: nat, path: string, next: string)
    requires PathAt(contents, start, hops) == Some(path) && HopAt(contents, path) == Onward(next)
    ensures PathAt(contents, start, hops + 1) == Some(next)
  {
  }

  /** The resolution is the true end of the chain when that comes within the hops allowed,
      circular when a path repeats within them, and too deep otherwise. */
  ghost predicate Agrees(contents: Contents, start: string, r: Resolution) {
    match r
    case Reached(o) => exists hops: nat :: hops < MAX_RESOLUTION_DEPTH && EndsAfter(contents, start, hops, o)
    case Circular(path) =>
      && Repeats(contents, start, MAX_RESOLUTION_DEPTH)
      && exists hops: nat :: hops < MAX_RESOLUTION_DEPTH && PathAt(contents, start, hops) == Some(path)
    case TooDeep =>
      PathAt(contents, start, MAX_RESOLUTION_DEPTH).Some? && !Repeats(contents, start, MAX_RESOLUTION_DEPTH)
  }

  method Resolve(contents: Contents, symlinkTarget: string, sourceDir: string) returns (r: Resolution)
    ensures Agrees(contents, Locate(sourceDir, symlinkTarget), r)
  {
    hide PathAt, Normpath, Repeats, Visited;
    var visited: set<string> := {};
    var currentTarget, currentSourceDir := symlinkTarget, sourceDir;
    ghost var start := Locate(sourceDir, symlinkTarget);
    NothingVisited(contents, start);
    for hop := 0 to MAX_RESOLUTION_DEPTH
      invariant PathAt(contents, start, hop) == Some(Locate(currentSourceDir, currentTarget))
      invariant Visited(contents, start, hop, visited)
    {
      var resolvedPath := if StartsWith(currentTarget, "/") then currentTarget
                          else Normpath(Join(currentSourceDir, currentTarget));
      if resolvedPath in visited {
        CircleIsFound(contents, start, hop, visited, resolvedPath);
        RepeatsMore(contents, start, hop + 1);
        return Circular(resolvedPath);
      }
      VisitedGrows(contents, start, hop, visited, resolvedPath);
      visited := visited + {resolvedPath};
      var owner := contents.FindOwner(resolvedPath);
      if owner.None? {
        assert EndsAfter(contents, start, hop, NoOwner(resolvedPath));
        return Reached(NoOwner(resolvedPath));
      }
      var content := contents.GetCopyrightContent(owner.value);
      if content.None? {
        assert EndsAfter(contents, start, hop, NoContent(resolvedPath, owner.value));
        return Reached(NoContent(resolvedPath, owner.value));
      }
      if IsSymlinkPath(content.value) {
        Proceeds(contents, start, hop, resolvedPath, Locate(Dirname(resolvedPath), content.value));
        currentSourceDir := Dirname(resolvedPath);
        currentTarget := content.value;
      } else {
        assert EndsAfter(contents, start, hop, Resolved(resolvedPath, owner.value, content.value));
        return Reached(Resolved(resolvedPath, owner.value, content.value));
      }
    }
    NoRepeat(contents, start, MAX_RESOLUTION_DEPTH, visited);
    r := TooDeep;
  }

  lemma NothingVisited(contents: Contents, start: string)
    ensures PathAt(contents, start, 0) == Some(start) && Visited(contents, start, 0, {})
  {
  }

  lemma RepeatsMore(contents: Contents, start: string, hops: nat)
    requires Repeats(contents, start, hops) && hops <= MAX_RESOLUTION_DEPTH
    ensures Repeats(contents, start, MAX_RESOLUTION_DEPTH)
  {
    hide PathAt;
  }

  lemma NoRepeat(contents: Contents, start: string, hops: nat, visited: set<string>)
    requires Visited(contents, start, hops, visited)
    ensures !Repeats(contents, start, hops)
  {
    hide PathAt, Repeats;
  }

  /** Exactly one resolution kind agrees with a chain, and an outcome only with its own. */
  lemma ResolutionIsTrue(contents: Contents, start: string, r: Resolution, hops: nat, outcome: Outcome)
    requires Agrees(contents, start, r)
    ensures r.Circular? ==> NeverEnds(contents, start)
    ensures r.Reached? ==> !NeverEnds(contents, start)
    ensures EndsAfter(contents, start, hops, outcome) && hops < 10 ==> r == Reached(outcome)
    ensures EndsAfter(contents, start, hops, outcome) && hops >= 10 ==> r == TooDeep
    ensures NeverEnds(contents, start) ==>
              (r.Circular? <==> Repeats(contents, start, 10))
              && (r.TooDeep? <==> !Repeats(contents, start, 10))
  {
    hide PathAt, HopAt, Repeats;
    if r.Circular? {
      RepeatingNeverEnds(contents, start, MAX_RESOLUTION_DEPTH);
      if EndsAfter(contents, start, hops, outcome) {
        NeverEndingHasNoEnd(contents, start, hops, outcome);
      }
    }
    if r.Reached? {
      var n: nat :| n < MAX_RESOLUTION_DEPTH && EndsAfter(contents, start, n, r.outcome);
      if NeverEnds(contents, start) {
        NeverEndingHasNoEnd(contents, start, n, r.outcome);
      }
      if EndsAfter(contents, start, hops, outcome) {
        OneEnd(contents, start, n, hops, r.outcome, outcome);
      }
    }
    if r.TooDeep? && EndsAfter(contents, start, hops, outcome) && hops < MAX_RESOLUTION_DEPTH {
      ChainIsPrefixClosed(contents, start, hops, MAX_RESOLUTION_DEPTH);
    }
  }
}
