/** Spellings of member names: a file is the same whether it is written "p", "/p" or "./p". */
module LayerNames {
  import opened Results
  import opened PosixPath
  import opened Whiteouts
  import opened LayerMerge

  /** A name without a prefix that is dropped. */
  predicate Bare(p: string) {
    (p != "" ==> p[0] != '/') && !(|p| >= 2 && p[0] == '.' && p[1] == '/')
  }

  function Slashes(n: nat): (s: string)
    ensures |s| == n && forall i :: 0 <= i < n ==> s[i] == '/'
  {
    seq(n, _ => '/')
  }

  lemma {:induction false} SlashesAreStripped(n: nat, p: string)
    requires p != "" ==> p[0] != '/'
    ensures StripLeadingSlashes(Slashes(n) + p) == p
  {
    var s := Slashes(n) + p;
    if n == 0 {
      assert s == p;
    } else {
      assert s[0] == '/' && s[1..] == Slashes(n - 1) + p;
      SlashesAreStripped(n - 1, p);
    }
  }

  /** Leading slashes are dropped, and before them "./", once; a name that begins with a dot keeps it. */
  lemma SpellingsOfName(p: string, n: nat)
    requires Bare(p)
    ensures NormalizeName(Slashes(n) + p) == p && NormalizeName("./" + Slashes(n) + p) == p
    ensures NormalizeName(p) == p && NormalizeName("/" + p) == p && NormalizeName("./" + p) == p
    ensures NormalizeName("././" + p) == "./" + p
  {
    NormalizeSlashes(n, p);
    NormalizeSlashes(0, p);
    NormalizeSlashes(1, p);
    assert Slashes(0) + p == p && Slashes(1) + p == "/" + p && "./" + Slashes(0) + p == "./" + p;
    NormalizeTwice(p);
  }

  lemma NormalizeSlashes(n: nat, p: string)
    requires Bare(p)
    ensures NormalizeName(Slashes(n) + p) == p && NormalizeName("./" + Slashes(n) + p) == p
  {
    var s, t := Slashes(n) + p, "./" + Slashes(n) + p;
    SlashesAreStripped(n, p);
    assert t[..2] == "./" && t[2..] == s;
    assert !StartsWith(s, "./") by {
      if n > 0 {
        assert s[0] == '/';
      } else {
        assert s == p;
      }
    }
    hide StripLeadingSlashes;
  }

  lemma NormalizeTwice(p: string)
    ensures NormalizeName("././" + p) == "./" + p
  {
    var s := "././" + p;
    assert s[..2] == "./" && s[2..] == "./" + p;
    var rest := "./" + p;
    assert rest[0] == '.';
  }

  // ----- what respelling leaves alone -----

  /** Two of the usual spellings of one name, or the same. */
  ghost predicate SameSpelling(a: string, b: string) {
    a == b || exists p: string :: Bare(p) && Spells(p, a) && Spells(p, b)
  }

  predicate Spells(p: string, a: string) {
    a == p || a == "/" + p || a == "./" + p
  }

  ghost predicate SameMembers(a: Layer, b: Layer) {
    && |a| == |b|
    && forall i :: 0 <= i < |a| ==> a[i].kind == b[i].kind && SameSpelling(a[i].rawName, b[i].rawName)
  }

  ghost predicate SameLayer(s: Source, t: Source) {
    match (s, t)
    case (Readable(a), Readable(b)) => SameMembers(a, b)
    case (Broken(a), Broken(b)) => SameMembers(a, b)
    case _ => s == t
  }

  lemma SameName(a: string, b: string)
    requires SameSpelling(a, b)
    ensures NormalizeName(a) == NormalizeName(b)
  {
    hide NormalizeName;
    if a != b {
      var p: string :| Bare(p) && Spells(p, a) && Spells(p, b);
      SpellingsOfName(p, 0);
    }
  }

  lemma {:induction false} SameWritten(a: Layer, b: Layer, p: string)
    requires SameMembers(a, b)
    ensures Names(a) == Names(b) && Written(a, p) == Written(b, p)
  {
    hide NormalizeName, SameSpelling, IsRoot;
    if a != [] {
      var n := |a| - 1;
      SameWritten(a[..n], b[..n], p);
      SameName(a[n].rawName, b[n].rawName);
      assert a == a[..n] + [a[n]] && b == b[..n] + [b[n]];
      NamesSnoc(a[..n], a[n]);
      NamesSnoc(b[..n], b[n]);
    }
  }

  /** Over every run of layers, members may be respelled without changing what is at any path. */
  lemma {:induction false} SpellingIsIgnored(ss: seq<Source>, ts: seq<Source>, p: string)
    requires |ss| == |ts| && forall i :: 0 <= i < |ss| ==> SameLayer(ss[i], ts[i])
    ensures Meaning(ss, p) == Meaning(ts, p)
  {
    hide SameMembers, Names, Written, Doomed;
    if ss != [] {
      var n := |ss| - 1;
      SpellingIsIgnored(ss[..n], ts[..n], p);
      assert SameLayer(ss[n], ts[n]);
      if !ss[n].Unreadable? {
        SameWritten(ss[n].layer, ts[n].layer, p);
      }
    }
  }

  /** The root of the archive is never a file. */
  lemma RootHasNoContent(layer: Layer)
    ensures "" !in Names(layer) && "." !in Names(layer)
    ensures Written(layer, "").None? && Written(layer, ".").None?
  {
    if Written(layer, "").Some? {
      WrittenIsNamed(layer, "");
    }
    if Written(layer, ".").Some? {
      WrittenIsNamed(layer, ".");
    }
  }
}
