/** What normalizing a path does, as rules for rewriting it, and which contents are links. */
module PathLaws {
  import opened Letters
  import opened Lines
  import opened LineLaws
  import opened PosixPath
  import opened SymlinkResolver

  /** A component that names something: not empty, not ".", not "..", and without a slash. */
  predicate Plain(c: string) {
    c != "" && c != "." && c != ".." && '/' !in c
  }

  // ----- components -----

  lemma {:induction false} ComponentsSnoc(p: string, c: char)
    ensures var (cs, before) := (Components(p + [c]), Components(p));
            cs == if c == '/' then before + [""] else before[..|before| - 1] + [before[|before| - 1] + [c]]
  {
    assert (p + [c])[..|p|] == p;
  }

  lemma {:induction false} ComponentsInTwo(a: string, b: string)
    ensures Components(a + "/" + b) == Components(a) + Components(b)
  {
    hide Components;
    if b == "" {
      assert a + "/" + b == a + ['/'];
      ComponentsSnoc(a, '/');
      OneComponent("");
    } else {
      var n := |b| - 1;
      ComponentsInTwo(a, b[..n]);
      assert a + "/" + b == (a + "/" + b[..n]) + [b[n]] && b == b[..n] + [b[n]];
      ComponentsSnoc(a + "/" + b[..n], b[n]);
      ComponentsSnoc(b[..n], b[n]);
      var ca, cb := Components(a), Components(b[..n]);
      assert (ca + cb)[..|ca + cb| - 1] == ca + cb[..|cb| - 1];
    }
  }

  lemma {:induction false} OneComponent(c: string)
    requires '/' !in c
    ensures Components(c) == [c]
  {
    if c != "" {
      var n := |c| - 1;
      assert c == c[..n] + [c[n]];
      OneComponent(c[..n]);
      ComponentsSnoc(c[..n], c[n]);
    }
  }

  // ----- rules -----

  lemma {:induction false} ReducedAlike(a: seq<string>, b: seq<string>, more: seq<string>, absolute: bool)
    requires Reduced(a, absolute) == Reduced(b, absolute)
    ensures Reduced(a + more, absolute) == Reduced(b + more, absolute)
  {
    hide Reduced;
    if more == [] {
      assert a + more == a && b + more == b;
    } else {
      var n := |more| - 1;
      ReducedAlike(a, b, more[..n], absolute);
      OneMoreAlike(a + more[..n], b + more[..n], more[n], absolute);
      assert a + more == (a + more[..n]) + [more[n]] && b + more == (b + more[..n]) + [more[n]];
    }
  }

  lemma OneMoreAlike(a: seq<string>, b: seq<string>, c: string, absolute: bool)
    requires Reduced(a, absolute) == Reduced(b, absolute)
    ensures Reduced(a + [c], absolute) == Reduced(b + [c], absolute)
  {
    assert (a + [c])[..|a|] == a && (b + [c])[..|b|] == b;
  }

  lemma ReducedSnoc(a: seq<string>, c: string, absolute: bool)
    ensures c == "" || c == "." ==> Reduced(a + [c], absolute) == Reduced(a, absolute)
    ensures Plain(c) ==> Reduced(a + [c], absolute) == Reduced(a, absolute) + [c]
    ensures c == ".." && Reduced(a, absolute) == [] ==> Reduced(a + [c], absolute) == if absolute then [] else [".."]
  {
    assert (a + [c])[..|a|] == a;
  }

  lemma ReducedUp(a: seq<string>, c: string, absolute: bool)
    requires Plain(c)
    ensures Reduced(a + [c, ".."], absolute) == Reduced(a, absolute)
  {
    ReducedSnoc(a, c, absolute);
    assert (a + [c, ".."])[..|a| + 1] == a + [c];
    var rest := Reduced(a, absolute) + [c];
    assert rest[..|rest| - 1] == Reduced(a, absolute);
  }

  /** The first slashes of a path do not depend on what follows something else. */
  lemma SlashesOfPrefix(a: string, b: string)
    requires a != "" && a[|a| - 1] != '/'
    ensures InitialSlashes(a + b) == InitialSlashes(a)
  {
    var s := a + b;
    assert forall i :: 0 <= i < |a| ==> s[i] == a[i];
    Begins(a, b, "/");
    Begins(a, b, "//");
    Begins(a, b, "///");
  }

  lemma Begins(a: string, b: string, slashes: string)
    requires a != "" && a[|a| - 1] != '/' && forall i :: 0 <= i < |slashes| ==> slashes[i] == '/'
    ensures StartsWith(a + b, slashes) <==> StartsWith(a, slashes)
  {
    var s := a + b;
    if |slashes| <= |a| {
      assert s[..|slashes|] == a[..|slashes|];
    } else {
      assert s[|a| - 1] == a[|a| - 1];
      assert |slashes| <= |s| ==> s[..|slashes|][|a| - 1] == s[|a| - 1];
    }
  }

  lemma SameReduced(a: string, b: string, c: string)
    requires a != "" && a[|a| - 1] != '/'
    requires forall absolute :: Reduced(Components(a + b), absolute) == Reduced(Components(a + c), absolute)
    ensures Normpath(a + b) == Normpath(a + c)
  {
    SlashesOfPrefix(a, b);
    SlashesOfPrefix(a, c);
    hide InitialSlashes, Components, Reduced;
  }

  /** "a/x/../b" is "a/b". */
  lemma UpIsUndone(a: string, x: string, b: string)
    requires a != "" && a[|a| - 1] != '/' && Plain(x)
    ensures Normpath(a + ("/" + x + "/../" + b)) == Normpath(a + ("/" + b))
  {
    hide Components, Reduced, Normpath;
    var ca, cb, up := Components(a), Components(b), "..";
    assert a + ("/" + x + "/../" + b) == a + "/" + (x + "/" + (up + "/" + b));
    assert a + ("/" + b) == a + "/" + b;
    ComponentsInTwo(a, x + "/" + (up + "/" + b));
    ComponentsInTwo(x, up + "/" + b);
    ComponentsInTwo(up, b);
    ComponentsInTwo(a, b);
    OneComponent(x);
    OneComponent(up);
    assert ca + ([x] + ([up] + cb)) == (ca + [x, up]) + cb;
    forall absolute
      ensures Reduced((ca + [x, up]) + cb, absolute) == Reduced(ca + cb, absolute)
    {
      ReducedUp(ca, x, absolute);
      ReducedAlike(ca + [x, up], ca, cb, absolute);
    }
    SameReduced(a, "/" + x + "/../" + b, "/" + b);
  }

  /** "a/./b" and "a//b" are "a/b". */
  lemma NothingIsDropped(a: string, b: string)
    requires a != "" && a[|a| - 1] != '/'
    ensures Normpath(a + ("/./" + b)) == Normpath(a + ("/" + b)) && Normpath(a + ("//" + b)) == Normpath(a + ("/" + b))
  {
    Dropped(a, ".", b);
    Dropped(a, "", b);
    assert "/" + "." + ("/" + b) == "/./" + b && "/" + "" + ("/" + b) == "//" + b;
  }

  lemma Dropped(a: string, c: string, b: string)
    requires a != "" && a[|a| - 1] != '/' && (c == "" || c == ".")
    ensures Normpath(a + ("/" + c + ("/" + b))) == Normpath(a + ("/" + b))
  {
    hide Components, Reduced, Normpath;
    var ca, cb := Components(a), Components(b);
    assert a + ("/" + c + ("/" + b)) == a + "/" + (c + "/" + b);
    assert a + ("/" + b) == a + "/" + b;
    ComponentsInTwo(a, c + "/" + b);
    ComponentsInTwo(c, b);
    ComponentsInTwo(a, b);
    OneComponent(c);
    assert ca + ([c] + cb) == (ca + [c]) + cb;
    forall absolute
      ensures Reduced((ca + [c]) + cb, absolute) == Reduced(ca + cb, absolute)
    {
      ReducedSnoc(ca, c, absolute);
      ReducedAlike(ca + [c], ca, cb, absolute);
    }
    SameReduced(a, "/" + c + ("/" + b), "/" + b);
  }

  // ----- normal paths -----

  predicate AllPlain(cs: seq<string>) {
    forall i :: 0 <= i < |cs| ==> Plain(cs[i])
  }

  function Ups(n: nat): (cs: seq<string>)
    ensures |cs| == n && forall i :: 0 <= i < n ==> cs[i] == ".."
  {
    seq(n, _ => "..")
  }

  lemma {:induction false} PlainIsReduced(before: seq<string>, cs: seq<string>, absolute: bool)
    requires AllPlain(cs)
    ensures Reduced(before + cs, absolute) == Reduced(before, absolute) + cs
  {
    hide Reduced, Plain;
    if cs == [] {
      assert before + cs == before && Reduced(before, absolute) + cs == Reduced(before, absolute);
    } else {
      var n := |cs| - 1;
      PlainIsReduced(before, cs[..n], absolute);
      assert before + cs == (before + cs[..n]) + [cs[n]] && cs == cs[..n] + [cs[n]];
      ReducedSnoc(before + cs[..n], cs[n], absolute);
    }
  }

  lemma {:induction false} UpsAreKept(n: nat)
    ensures Reduced(Ups(n), false) == Ups(n) && Reduced(Ups(n), true) == []
  {
    if n > 0 {
      UpsAreKept(n - 1);
      assert Ups(n)[..n - 1] == Ups(n - 1) && Ups(n)[n - 1] == "..";
      assert n > 1 ==> Ups(n - 1)[n - 2] == "..";
    }
  }

  lemma {:induction false} ComponentsOfJoined(cs: seq<string>)
    requires cs != [] && forall i :: 0 <= i < |cs| ==> '/' !in cs[i]
    ensures Components(JoinComponents(cs)) == cs
  {
    hide Components;
    var n := |cs| - 1;
    if n == 0 {
      OneComponent(cs[0]);
    } else {
      ComponentsOfJoined(cs[..n]);
      ComponentsInTwo(JoinComponents(cs[..n]), cs[n]);
      OneComponent(cs[n]);
      assert cs == cs[..n] + [cs[n]];
    }
  }

  /** Names below a number of parents, or from the root: such a path is left as it is. */
  lemma NormalIsKept(n: nat, cs: seq<string>)
    requires AllPlain(cs) && (n > 0 || cs != [])
    ensures Normpath(JoinComponents(Ups(n) + cs)) == JoinComponents(Ups(n) + cs)
    ensures Normpath("/" + JoinComponents(Ups(n) + cs)) == "/" + JoinComponents(cs)
  {
    hide *;
    var p := JoinComponents(Ups(n) + cs);
    NormalComponents(n, cs);
    UpsAreKept(n);
    PlainIsReduced(Ups(n), cs, false);
    PlainIsReduced(Ups(n), cs, true);
    assert [] + cs == cs;
    ComponentsInTwo("", p);
    OneComponent("");
    assert "" + "/" + p == "/" + p;
    RootIsDropped(Ups(n) + cs);
    FirstIsNoSlash(n, cs);
    FirstSlashes(p);
    NormpathIs(p);
    NormpathIs("/" + p);
    assert "" + p == p;
  }

  lemma NormpathIs(p: string)
    ensures var slashes := InitialSlashes(p);
            var normal := slashes + JoinComponents(Reduced(Components(p), slashes != ""));
            Normpath(p) == if normal == "" then "." else normal
  {
    hide InitialSlashes, JoinComponents, Reduced, Components;
  }

  lemma FirstSlashes(p: string)
    requires p != "" && p[0] != '/'
    ensures InitialSlashes(p) == "" && InitialSlashes("/" + p) == "/"
  {
    assert ("/" + p)[0] == '/' && ("/" + p)[1] == p[0];
  }

  lemma FirstIsNoSlash(n: nat, cs: seq<string>)
    requires AllPlain(cs) && (n > 0 || cs != [])
    ensures var p := JoinComponents(Ups(n) + cs); p != "" && p[0] != '/'
  {
    var all := Ups(n) + cs;
    assert all[0] == if n > 0 then ".." else cs[0];
    hide JoinComponents;
    NormalStarts(all);
  }

  lemma RootIsDropped(cs: seq<string>)
    ensures Reduced([""] + cs, true) == Reduced(cs, true)
  {
    ReducedSnoc([], "", true);
    assert [] + [""] == [""] && [] + cs == cs;
    ReducedAlike([""], [], cs, true);
  }

  lemma NormalComponents(n: nat, cs: seq<string>)
    requires AllPlain(cs) && (n > 0 || cs != [])
    ensures Components(JoinComponents(Ups(n) + cs)) == Ups(n) + cs
  {
    var all := Ups(n) + cs;
    assert forall i :: 0 <= i < |all| ==> all[i] == if i < n then ".." else cs[i - n];
    ComponentsOfJoined(all);
  }

  lemma {:induction false} NormalStarts(cs: seq<string>)
    requires cs != [] && cs[0] != "" && '/' !in cs[0]
    ensures JoinComponents(cs) != "" && JoinComponents(cs)[0] != '/'
  {
    var n := |cs| - 1;
    if n == 0 {
      assert cs[0][0] in cs[0];
    } else {
      NormalStarts(cs[..n]);
    }
  }

  function Slashes(n: nat): (s: string)
    ensures |s| == n && forall i :: 0 <= i < n ==> s[i] == '/'
  {
    seq(n, _ => '/')
  }

  /** Two slashes at the start stay two; any other number of them is one. */
  lemma FirstSlashesAre(n: nat, p: string)
    requires n > 0 && (p != "" ==> p[0] != '/')
    ensures InitialSlashes(Slashes(n) + p) == if n == 2 then "//" else "/"
  {
    var s := Slashes(n) + p;
    assert forall i :: 0 <= i < n ==> s[i] == '/';
    assert n < |s| ==> s[n] != '/';
    StartsWithSlashes(s, 1);
    StartsWithSlashes(s, 2);
    StartsWithSlashes(s, 3);
    assert Slashes(1) == "/" && Slashes(2) == "//" && Slashes(3) == "///";
  }

  lemma StartsWithSlashes(s: string, k: nat)
    ensures StartsWith(s, Slashes(k)) <==> k <= |s| && forall i :: 0 <= i < k ==> s[i] == '/'
  {
    if k <= |s| && forall i :: 0 <= i < k ==> s[i] == '/' {
      assert s[..k] == Slashes(k);
    }
    if StartsWith(s, Slashes(k)) {
      assert forall i :: 0 <= i < k ==> s[..k][i] == Slashes(k)[i];
    }
  }

  // ----- links -----

  /** A content is a link exactly if, spacing around it aside, it is one line that starts as a path. */
  lemma LinkIs(content: string)
    ensures IsSymlinkPath(content) <==>
            exists before: string, t: string, after: string :: LinksAs(content, before, t, after)
  {
    hide Strip, StripsTo;
    StripIs(content, Strip(content));
    if IsSymlinkPath(content) {
      var t := Strip(content);
      var before: string, after: string :| StripsTo(content, before, t, after);
      assert LinksAs(content, before, t, after);
    }
    if before: string, t: string, after: string :| LinksAs(content, before, t, after) {
      StripIs(content, t);
    }
  }

  predicate LinksAs(content: string, before: string, t: string, after: string) {
    && StripsTo(content, before, t, after)
    && t != "" && !Spacing(t[0]) && !Spacing(t[|t| - 1]) && (forall i :: 0 <= i < |t| ==> t[i] != '\n')
    && (t[0] == '/' || (|t| >= 2 && t[0] == '.' && t[1] == '/') || (|t| >= 3 && t[0] == '.' && t[1] == '.' && t[2] == '/'))
  }

  /** One hop: no owner, no content, the content itself, or on to where a link points from its directory. */
  lemma HopIs(contents: Contents, path: string, hop: Hop)
    ensures HopAt(contents, path) == hop <==>
            if path !in contents.owners then hop == Final(NoOwner(path))
            else
              var owner := contents.owners[path];
              if owner !in contents.copyrights then hop == Final(NoContent(path, owner))
              else
                var content := contents.copyrights[owner];
                if exists before: string, t: string, after: string :: LinksAs(content, before, t, after) then
                  hop == Onward(if content != "" && content[0] == '/' then content
                                else Normpath(Join(Dirname(path), content)))
                else hop == Final(Resolved(path, owner, content))
  {
    hide IsSymlinkPath, LinksAs, Normpath, Join, Dirname;
    if path in contents.owners && contents.owners[path] in contents.copyrights {
      var content := contents.copyrights[contents.owners[path]];
      LinkIs(content);
      StartsWithSlash(content);
    }
  }

  lemma StartsWithSlash(s: string)
    ensures StartsWith(s, "/") <==> s != "" && s[0] == '/'
  {
  }

  /** The directory of "d/n" is "d", and a target is looked up below its directory. */
  lemma TargetIs(dir: string, name: string, target: string)
    requires dir != "" && dir[|dir| - 1] != '/' && '/' !in name && (target == "" || target[0] != '/')
    ensures Dirname(dir + "/" + name) == dir && Join(dir, target) == dir + "/" + target
  {
    PartsOf(dir, name);
  }
}
