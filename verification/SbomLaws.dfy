/** The relationships of a document, told from the packages and the text of their dependencies. */
module SbomLaws {
  import opened Results
  import opened Letters
  import opened Lines
  import opened LineLaws
  import opened Decimals
  import opened SbomIds

  // ----- dependencies as text -----

  /** One of the parts between commas. */
  predicate IsPart(s: string, before: string, part: string, after: string) {
    && s == before + part + after && ',' !in part
    && (before == "" || before[|before| - 1] == ',') && (after == "" || after[0] == ',')
  }

  ghost predicate HasPart(s: string, part: string) {
    exists before: string, after: string :: IsPart(s, before, part, after)
  }

  /** What a dependency names: the text before the first parenthesis or bar, without spacing around it. */
  ghost predicate NamesPackage(part: string, name: string) {
    exists prefix: string, rest: string, before: string, after: string ::
      CutsTo(part, prefix, rest) && StripsTo(prefix, before, name, after) && IsName(name)
  }

  predicate CutsTo(part: string, prefix: string, rest: string) {
    part == prefix + rest && '(' !in prefix && '|' !in prefix && (rest == "" || rest[0] == '(' || rest[0] == '|')
  }

  predicate IsName(name: string) {
    name != "" && !Spacing(name[0]) && !Spacing(name[|name| - 1])
  }

  lemma PartsSnoc(s: string, c: char)
    ensures var (parts, before) := (CommaParts(s + [c]), CommaParts(s));
            parts == if c == ',' then before + [""] else before[..|before| - 1] + [before[|before| - 1] + [c]]
  {
    assert (s + [c])[..|s|] == s;
  }

  lemma {:induction false} PartsInTwo(a: string, b: string)
    ensures CommaParts(a + "," + b) == CommaParts(a) + CommaParts(b)
  {
    hide CommaParts;
    if b == "" {
      assert a + "," + b == a + [','];
      PartsSnoc(a, ',');
      OnePart("");
    } else {
      var n := |b| - 1;
      PartsInTwo(a, b[..n]);
      assert a + "," + b == (a + "," + b[..n]) + [b[n]] && b == b[..n] + [b[n]];
      PartsSnoc(a + "," + b[..n], b[n]);
      PartsSnoc(b[..n], b[n]);
      var pa, pb := CommaParts(a), CommaParts(b[..n]);
      assert (pa + pb)[..|pa + pb| - 1] == pa + pb[..|pb| - 1];
    }
  }

  lemma {:induction false} OnePart(s: string)
    requires ',' !in s
    ensures CommaParts(s) == [s]
  {
    if s != "" {
      var n := |s| - 1;
      assert s == s[..n] + [s[n]];
      OnePart(s[..n]);
      PartsSnoc(s[..n], s[n]);
    }
  }

  lemma PartIsSplitOff(s: string, before: string, part: string, after: string)
    requires IsPart(s, before, part, after)
    ensures part in CommaParts(s)
  {
    hide CommaParts;
    OnePart(part);
    var tail := part + after;
    if after != "" {
      assert after == "," + after[1..] && tail == part + "," + after[1..];
      PartsInTwo(part, after[1..]);
    } else {
      assert tail == part;
    }
    assert part in CommaParts(tail);
    if before != "" {
      var head := before[..|before| - 1];
      assert before == head + "," && s == head + "," + tail;
      PartsInTwo(head, tail);
    } else {
      assert s == tail;
    }
  }

  lemma {:induction false} SplitOffIsPart(s: string, part: string)
    requires part in CommaParts(s)
    ensures HasPart(s, part)
    decreases |s|
  {
    hide CommaParts;
    if ',' in s {
      var x, y := FirstComma(s);
      PartsInTwo(x, y);
      OnePart(x);
      if part == x {
        assert IsPart(s, "", part, "," + y);
      } else {
        SplitOffIsPart(y, part);
        var before: string, after: string :| IsPart(y, before, part, after);
        var longer := x + "," + before;
        assert s == longer + part + after && longer[|longer| - 1] == if before == "" then ',' else before[|before| - 1];
        assert IsPart(s, longer, part, after);
      }
    } else {
      OnePart(s);
      assert IsPart(s, "", part, "");
    }
  }

  lemma {:induction false} FirstComma(s: string) returns (x: string, y: string)
    requires ',' in s
    ensures s == x + "," + y && ',' !in x
  {
    if s[0] == ',' {
      x, y := "", s[1..];
      assert s == "," + y;
    } else {
      x, y := FirstComma(s[1..]);
      x := [s[0]] + x;
      assert s == [s[0]] + s[1..];
    }
  }

  lemma PartsAre(s: string, part: string)
    ensures part in CommaParts(s) <==> HasPart(s, part)
  {
    hide CommaParts, IsPart;
    if part in CommaParts(s) {
      SplitOffIsPart(s, part);
    }
    if before: string, after: string :| IsPart(s, before, part, after) {
      PartIsSplitOff(s, before, part, after);
    }
  }

  // ----- names -----

  lemma {:induction false} BeforeIs(s: string, c: char)
    ensures Before(s, c) <= s && c !in Before(s, c)
    ensures |Before(s, c)| < |s| ==> s[|Before(s, c)|] == c
  {
    if s != "" && s[0] != c {
      BeforeIs(s[1..], c);
    }
  }

  lemma BeforeUnique(s: string, prefix: string, c: char)
    requires prefix <= s && c !in prefix && (|prefix| < |s| ==> s[|prefix|] == c)
    ensures Before(s, c) == prefix
  {
    BeforeIs(s, c);
    var b := Before(s, c);
    assert forall i :: 0 <= i < |prefix| ==> s[i] == prefix[i] && prefix[i] in prefix;
    assert forall i :: 0 <= i < |b| ==> s[i] == b[i] && b[i] in b;
  }

  lemma NotInBlank(s: string, c: char)
    requires Blank(s) && !IsSpace(c)
    ensures c !in s
  {
    hide IsSpace;
  }

  /** Where to cut does not depend on the spacing around, and what is left only by spacing. */
  lemma StripThenCut(s: string, c: char)
    requires !IsSpace(c)
    ensures Strip(Before(Strip(s), c)) == Strip(Before(s, c))
  {
    hide IsSpace, Blank, Strip, Before;
    var before, after := StripRest(s);
    var t := Strip(s);
    BeforeIs(t, c);
    NotInBlank(before, c);
    NotInBlank(after, c);
    var p := Before(t, c);
    if |p| < |t| {
      var q := before + p;
      assert s == q + (t[|p|..] + after);
      BeforeUnique(s, q, c);
      NothingIsBlank();
      StripAround(before, p, "");
      assert before + p + "" == q;
    } else {
      assert p == t;
      BeforeUnique(s, s, c);
      StripAround(before, t, after);
    }
  }

  lemma NothingIsBlank()
    ensures Blank("")
  {
  }

  lemma BlankInTwo(a: string, b: string)
    requires Blank(a) && Blank(b)
    ensures Blank(a + b)
  {
    hide IsSpace;
  }

  lemma StripAround(before: string, t: string, after: string)
    requires Blank(before) && Blank(after)
    ensures Strip(before + t + after) == Strip(t)
  {
    hide IsSpace, Blank, Strip;
    var b, a := StripRest(t);
    BlankInTwo(before, b);
    BlankInTwo(a, after);
    assert before + t + after == (before + b) + Strip(t) + (a + after);
    StripIsStripped(t);
    StrippedText(before + b, Strip(t), a + after);
  }

  /** Cutting at the parenthesis and then at the bar is cutting at the first of them. */
  lemma CutTwice(s: string, prefix: string, rest: string)
    requires CutsTo(s, prefix, rest)
    ensures Before(Before(s, '('), '|') == prefix
  {
    BeforeIs(s, '(');
    var p := Before(s, '(');
    assert forall i :: 0 <= i < |prefix| ==> s[i] == prefix[i] && prefix[i] in prefix;
    assert |prefix| <= |p| && p[..|prefix|] == prefix;
    if |prefix| < |p| {
      assert p[|prefix|] == s[|prefix|] && s[|prefix|] == rest[0] && p[|prefix|] in p;
    }
    BeforeUnique(p, prefix, '|');
  }

  lemma FirstCut(s: string) returns (prefix: string, rest: string)
    ensures CutsTo(s, prefix, rest)
  {
    BeforeIs(s, '(');
    var p := Before(s, '(');
    BeforeIs(p, '|');
    prefix := Before(p, '|');
    rest := s[|prefix|..];
    assert '(' !in prefix by {
      assert forall i :: 0 <= i < |prefix| ==> prefix[i] == p[i];
    }
    if rest != "" {
      assert |prefix| < |p| ==> s[|prefix|] == p[|prefix|];
    }
  }

  lemma NameIs(part: string, name: string)
    requires name != ""
    ensures DependencyName(part) == name <==> NamesPackage(part, name)
  {
    hide DependencyName, Strip, CutsTo, StripsTo, Before;
    var prefix, rest := FirstCut(part);
    NameOfCut(part, prefix, rest);
    StripIs(prefix, name);
    if name == DependencyName(part) {
      var before: string, after: string :| StripsTo(prefix, before, name, after);
      assert CutsTo(part, prefix, rest) && StripsTo(prefix, before, name, after) && IsName(name);
    }
    if NamesPackage(part, name) {
      var p: string, r: string, before: string, after: string :|
        CutsTo(part, p, r) && StripsTo(p, before, name, after) && IsName(name);
      CutTwice(part, prefix, rest);
      CutTwice(part, p, r);
    }
  }

  lemma NameOfCut(part: string, prefix: string, rest: string)
    requires CutsTo(part, prefix, rest)
    ensures DependencyName(part) == Strip(prefix)
  {
    CutTwice(part, prefix, rest);
    hide Strip, Before, CutsTo;
    StripThenCut(Before(Strip(part), '('), '|');
    var p := Before(Strip(part), '(');
    BarAfterStrip(part);
  }

  lemma BarAfterStrip(part: string)
    ensures Strip(Before(Before(Strip(part), '('), '|')) == Strip(Before(Before(part, '('), '|'))
  {
    hide Strip, Before;
    StripThenCut(Before(Strip(part), '('), '|');
    StripThenCut(Before(part, '('), '|');
    StripThenCut(part, '(');
  }

  // ----- relationships -----

  /** The last package of this name. */
  predicate IsLastNamed(es: seq<EnrichedPackage>, name: string, j: nat) {
    j < |es| && es[j].name == name && forall k :: j < k < |es| ==> es[k].name != name
  }

  /** The dependencies of a package name another one. */
  ghost predicate Needs(e: EnrichedPackage, name: string) {
    e.depends.Some? && exists part: string :: HasPart(e.depends.value, part) && NamesPackage(part, name)
  }

  lemma LastNamedStep(es: seq<EnrichedPackage>, name: string, j: nat)
    requires es != []
    ensures var n: nat := |es| - 1;
            IsLastNamed(es, name, j) <==> if es[n].name == name then j == n else IsLastNamed(es[..n], name, j)
  {
    var n := |es| - 1;
    assert forall k :: 0 <= k < n ==> es[k] == es[..n][k];
  }

  lemma {:induction false} LookupIs(es: seq<EnrichedPackage>, ids: seq<string>, name: string)
    requires |es| == |ids|
    ensures name in Lookup(es, ids) <==> exists j: nat :: IsLastNamed(es, name, j)
    ensures forall j: nat :: IsLastNamed(es, name, j) ==> name in Lookup(es, ids) && Lookup(es, ids)[name] == ids[j]
  {
    if es != [] {
      var n: nat := |es| - 1;
      LookupIs(es[..n], ids[..n], name);
      forall j: nat
        ensures IsLastNamed(es, name, j) <==> if es[n].name == name then j == n else IsLastNamed(es[..n], name, j)
      {
        LastNamedStep(es, name, j);
      }
      if es[n].name == name {
        assert IsLastNamed(es, name, n);
      } else {
        assert forall j: nat :: IsLastNamed(es[..n], name, j) ==> j < n;
        hide IsLastNamed;
      }
    }
  }

  lemma BlankNamesNothing(part: string)
    ensures DependencyName(part) != "" ==> Strip(part) != ""
  {
    assert Strip("") == "";
  }

  lemma {:induction false} TargetsAre(specs: seq<string>, lookup: map<string, string>, target: string)
    ensures target in Targets(specs, lookup) <==>
            exists part: string :: part in specs && DependencyName(part) != "" && DependencyName(part) in lookup
                                   && lookup[DependencyName(part)] == target
  {
    hide DependencyName, Strip;
    if specs != [] {
      var n := |specs| - 1;
      TargetsAre(specs[..n], lookup, target);
      BlankNamesNothing(specs[n]);
      assert specs == specs[..n] + [specs[n]];
    }
  }

  lemma DependencyTargetsAre(e: EnrichedPackage, lookup: map<string, string>, target: string)
    ensures target in DependencyTargets(e, lookup) <==>
            exists name: string :: Needs(e, name) && name in lookup && lookup[name] == target
  {
    hide DependencyName, CommaParts, NamesPackage, HasPart, Targets;
    if e.depends.Some? {
      var specs := CommaParts(e.depends.value);
      TargetsAre(specs, lookup, target);
      forall part: string, name: string
        ensures part in specs <==> HasPart(e.depends.value, part)
        ensures name != "" ==> (DependencyName(part) == name <==> NamesPackage(part, name))
      {
        PartsAre(e.depends.value, part);
        if name != "" {
          NameIs(part, name);
        }
      }
      forall part: string, name: string | NamesPackage(part, name)
        ensures name != ""
      {
        NamesAreNotEmpty(part, name);
      }
      if part: string :| part in specs && DependencyName(part) != "" && DependencyName(part) in lookup
                         && lookup[DependencyName(part)] == target {
        PartsAre(e.depends.value, part);
        NameIs(part, DependencyName(part));
        assert HasPart(e.depends.value, part) && NamesPackage(part, DependencyName(part));
        assert Needs(e, DependencyName(part));
      }
    }
  }

  lemma NamesAreNotEmpty(part: string, name: string)
    requires NamesPackage(part, name)
    ensures name != ""
  {
  }

  lemma {:induction false} DependenciesAre(es: seq<EnrichedPackage>, ids: seq<string>, lookup: map<string, string>,
                                           r: Relationship)
    requires |es| == |ids|
    ensures r in AllDependencies(es, ids, lookup) <==>
            r.kind == DependsOn && exists i :: 0 <= i < |es| && ids[i] == r.source && r.target in DependencyTargets(es[i], lookup)
  {
    hide DependencyTargets;
    if es != [] {
      var n := |es| - 1;
      DependenciesAre(es[..n], ids[..n], lookup, r);
      EdgesAre(ids[n], DependencyTargets(es[n], lookup), DependsOn, r);
      assert forall i :: 0 <= i < n ==> es[i] == es[..n][i] && ids[i] == ids[..n][i];
    }
  }

  lemma EdgesAre(source: string, targets: seq<string>, kind: Kind, r: Relationship)
    ensures r in Edges(source, targets, kind) <==> r.source == source && r.kind == kind && r.target in targets
  {
    if r.source == source && r.kind == kind && r.target in targets {
      var i :| 0 <= i < |targets| && targets[i] == r.target;
      assert Edges(source, targets, kind)[i] == r;
    }
  }

  /** A package depends on another: its dependencies name that one, which is the last of its name. */
  ghost predicate DependsOnPackage(es: seq<EnrichedPackage>, i: nat, j: nat) {
    i < |es| && j < |es| && exists name: string :: Needs(es[i], name) && IsLastNamed(es, name, j)
  }

  /** The relationships of a document: the root describes every package, and packages depend on what they name. */
  lemma RelatesExactly(es: seq<EnrichedPackage>, r: Relationship)
    ensures var ids := PackageIds(es);
            r in Relationships(es) <==>
            || (r.kind == Describes && r.source == "SPDXRef-Package-root" && r.target in ids)
            || (r.kind == DependsOn && exists i: nat, j: nat ::
                  DependsOnPackage(es, i, j) && ids[i] == r.source && ids[j] == r.target)
  {
    var ids := PackageIds(es);
    var lookup := Lookup(es, ids);
    EdgesAre(ROOT, ids, Describes, r);
    DependenciesAre(es, ids, lookup, r);
    hide PackageIds, Edges, AllDependencies, DependencyTargets, Lookup, IsLastNamed, Needs;
    RootIs();
    hide ROOT;
    if r.kind == DependsOn {
      forall i: nat | i < |es|
        ensures r.target in DependencyTargets(es[i], lookup) <==>
                exists j: nat :: DependsOnPackage(es, i, j) && ids[j] == r.target
      {
        OneDepends(es, ids, i, r.target);
      }
    }
  }

  lemma RootIs()
    ensures ROOT == "SPDXRef-Package-root"
  {
  }

  lemma OneDepends(es: seq<EnrichedPackage>, ids: seq<string>, i: nat, target: string)
    requires |es| == |ids| && i < |es|
    ensures target in DependencyTargets(es[i], Lookup(es, ids)) <==>
            exists j: nat :: DependsOnPackage(es, i, j) && j < |es| && ids[j] == target
  {
    hide DependencyTargets, Lookup, Needs;
    DependencyTargetsAre(es[i], Lookup(es, ids), target);
    forall name: string
      ensures name in Lookup(es, ids) <==> exists j: nat :: IsLastNamed(es, name, j)
      ensures forall j: nat :: IsLastNamed(es, name, j) ==> name in Lookup(es, ids) && Lookup(es, ids)[name] == ids[j]
    {
      LookupIs(es, ids, name);
    }
  }

  // ----- identifiers -----

  /** Letters, digits, dots and hyphens are kept and anything else becomes a hyphen. */
  predicate Replaced(value: string, s: string) {
    |s| == |value|
    && forall i :: 0 <= i < |s| ==>
         s[i] == if 'a' <= value[i] <= 'z' || 'A' <= value[i] <= 'Z' || '0' <= value[i] <= '9' || value[i] == '.' then value[i]
                 else '-'
  }

  ghost predicate WritesId(p: EnrichedPackage, id: string) {
    exists name: string, version: string ::
      Replaced(p.name, name) && Replaced(p.version, version) && id == "SPDXRef-Package-" + name + "-" + version
  }

  lemma BaseIdIs(p: EnrichedPackage)
    ensures WritesId(p, BaseId(p))
  {
    assert Replaced(p.name, Sanitize(p.name)) && Replaced(p.version, Sanitize(p.version));
    hide Sanitize, Replaced;
  }

  /** Which of the first n packages have this identifier. */
  function Uses(bases: seq<string>, n: nat, id: string): set<nat>
    requires n <= |bases|
  {
    set j: nat | j < n && bases[j] == id
  }

  lemma {:induction false} CountIs(bases: seq<string>, n: nat, id: string)
    requires n <= |bases|
    ensures Count(bases[..n], id) == |Uses(bases, n, id)|
  {
    if n == 0 {
      assert Uses(bases, n, id) == {};
    } else {
      CountIs(bases, n - 1, id);
      assert bases[..n][..n - 1] == bases[..n - 1];
      assert Uses(bases, n, id) == Uses(bases, n - 1, id) + if bases[n - 1] == id then {n - 1} else {};
    }
  }

  /** The first use of an identifier keeps it, and each later one is suffixed with its number. */
  lemma UsesAreNumbered(bases: seq<string>, i: nat)
    requires i < |bases|
    ensures FinalIds(bases)[i]
            == var earlier := Uses(bases, i, bases[i]);
               if earlier == {} then bases[i] else bases[i] + "-" + Decimal(|earlier| + 1)
  {
    CountIs(bases, i, bases[i]);
    hide Decimal, Count;
  }
}
