/** The identifiers and relationships of an assembled SBOM document. */
module SbomIds {
  import opened Results
  import opened Lines
  import opened Decimals

  /** An identified package with the Depends field of its enrichment, if it has one. */
  datatype EnrichedPackage = EnrichedPackage(name: string, version: string, depends: Option<string>)

  const ROOT := "SPDXRef-Package-root"
  const PREFIX := "SPDXRef-Package-"

  // ----- identifiers -----

  predicate Safe(c: char) {
    'a' <= c <= 'z' || 'A' <= c <= 'Z' || '0' <= c <= '9' || c == '.' || c == '-'
  }

  function Sanitize(value: string): (s: string)
    ensures |s| == |value| && forall i :: 0 <= i < |s| ==> Safe(s[i])
  {
    seq(|value|, i requires 0 <= i < |value| => if Safe(value[i]) then value[i] else '-')
  }

  function BaseId(p: EnrichedPackage): string {
    PREFIX + Sanitize(p.name) + "-" + Sanitize(p.version)
  }

  function Count(ids: seq<string>, id: string): nat {
    if ids == [] then 0 else Count(ids[..|ids| - 1], id) + if ids[|ids| - 1] == id then 1 else 0
  }

  function Suffixed(id: string, k: nat): string {
    id + "-" + Decimal(k)
  }

  /** The first use of a base identifier keeps it; the k-th is suffixed with k. */
  function FinalId(bases: seq<string>, i: nat): string
    requires i < |bases|
  {
    var before := Count(bases[..i], bases[i]);
    if before == 0 then bases[i] else Suffixed(bases[i], before + 1)
  }

  function FinalIds(bases: seq<string>): (ids: seq<string>)
    ensures |ids| == |bases|
  {
    seq(|bases|, i requires 0 <= i < |bases| => FinalId(bases, i))
  }

  method NumberIds(bases: seq<string>) returns (finalIds: seq<string>)
    ensures finalIds == FinalIds(bases)
  {
    hide Decimal;
    var idCounts: map<string, nat> := map[];
    finalIds := [];
    for i := 0 to |bases|
      invariant finalIds == FinalIds(bases)[..i]
      invariant forall b :: b in idCounts <==> Count(bases[..i], b) > 0
      invariant forall b :: b in idCounts ==> idCounts[b] == Count(bases[..i], b)
    {
      var base := bases[i];
      assert bases[..i + 1][..i] == bases[..i];
      if base !in idCounts {
        idCounts := idCounts[base := 1];
        finalIds := finalIds + [base];
      } else {
        idCounts := idCounts[base := idCounts[base] + 1];
        finalIds := finalIds + [base + "-" + Decimal(idCounts[base])];
      }
    }
  }

  predicate Distinct<T(==)>(s: seq<T>) {
    forall i, j :: 0 <= i < j < |s| ==> s[i] != s[j]
  }

  /** Some base identifier is another one with a suffix that numbering hands out. */
  ghost predicate Ambiguous(bases: seq<string>) {
    exists b, k :: 2 <= k <= Count(bases, b) && Suffixed(b, k) in bases
  }

  lemma {:induction false} CountGrows(ids: seq<string>, i: nat, j: nat, id: string)
    requires i <= j <= |ids|
    ensures Count(ids[..i], id) <= Count(ids[..j], id)
    ensures i < j && ids[i] == id ==> Count(ids[..i], id) < Count(ids[..j], id)
    decreases j
  {
    if i < j {
      CountGrows(ids, i, j - 1, id);
      assert ids[..j][..j - 1] == ids[..j - 1];
    }
  }

  /** The k-th use of an identifier that is used at least k times. */
  lemma {:induction false} Occurrence(ids: seq<string>, id: string, k: nat) returns (i: nat)
    requires 1 <= k <= Count(ids, id)
    ensures i < |ids| && ids[i] == id && Count(ids[..i], id) == k - 1
  {
    var n := |ids| - 1;
    if k <= Count(ids[..n], id) {
      i := Occurrence(ids[..n], id, k);
      assert ids[..n][..i] == ids[..i];
    } else {
      i := n;
    }
  }

  lemma {:induction false} Used(ids: seq<string>, id: string)
    requires id in ids
    ensures Count(ids, id) >= 1
  {
    var n := |ids| - 1;
    if ids[n] != id {
      assert id in ids[..n];
      Used(ids[..n], id);
    }
  }

  /** Numerals hold no hyphen, so a suffixed identifier splits at its last one only. */
  lemma SuffixIsUnique(a: string, m: nat, b: string, n: nat)
    requires Suffixed(a, m) == Suffixed(b, n)
    ensures a == b && m == n
  {
    var s, da, db := Suffixed(a, m), Decimal(m), Decimal(n);
    hide Decimal;
    assert s[|a|] == '-' && s[|b|] == '-';
    assert s[|a| + 1..] == da && s[|b| + 1..] == db;
    assert forall i :: |a| < i < |s| ==> s[i] == da[i - |a| - 1];
    assert forall i :: |b| < i < |s| ==> s[i] == db[i - |b| - 1];
    assert |a| == |b|;
    assert s[..|a|] == a && s[..|b|] == b;
    DecimalIsInjective(m, n);
  }

  lemma ClashIsAmbiguous(bases: seq<string>, i: nat, j: nat)
    requires i < j < |bases| && FinalId(bases, i) == FinalId(bases, j)
    ensures Ambiguous(bases)
  {
    hide Decimal, Suffixed;
    var bi, bj := bases[i], bases[j];
    var ci, cj := Count(bases[..i], bi), Count(bases[..j], bj);
    assert bases[..|bases|] == bases;
    CountGrows(bases, i, j, bi);
    CountGrows(bases, i, |bases|, bi);
    CountGrows(bases, j, |bases|, bj);
    if ci > 0 && cj > 0 {
      SuffixIsUnique(bi, ci + 1, bj, cj + 1);
      assert false;
    } else if ci > 0 {
      assert Suffixed(bi, ci + 1) in bases;
    } else if cj > 0 {
      assert Suffixed(bj, cj + 1) in bases;
    }
  }

  lemma AmbiguousClashes(bases: seq<string>)
    requires Ambiguous(bases)
    ensures !Distinct(FinalIds(bases))
  {
    hide Decimal;
    var b, k :| 2 <= k <= Count(bases, b) && Suffixed(b, k) in bases;
    var i := Occurrence(bases, b, k);
    Used(bases, Suffixed(b, k));
    var j := Occurrence(bases, Suffixed(b, k), 1);
    assert FinalIds(bases)[i] == FinalIds(bases)[j];
    assert |Suffixed(b, k)| > |b|;
    assert i != j;
  }

  /** Numbering gives every package an identifier of its own exactly when no base identifier
      is another one with a suffix that is handed out. */
  lemma IdsAreDistinctExactly(bases: seq<string>)
    ensures Distinct(FinalIds(bases)) <==> !Ambiguous(bases)
  {
    if Ambiguous(bases) {
      AmbiguousClashes(bases);
    } else {
      forall i, j | 0 <= i < j < |bases|
        ensures FinalIds(bases)[i] != FinalIds(bases)[j]
      {
        if FinalId(bases, i) == FinalId(bases, j) {
          ClashIsAmbiguous(bases, i, j);
        }
      }
    }
  }

  function BaseIds(es: seq<EnrichedPackage>): (bs: seq<string>)
    ensures |bs| == |es|
  {
    seq(|es|, i requires 0 <= i < |es| => BaseId(es[i]))
  }

  function PackageIds(es: seq<EnrichedPackage>): (ids: seq<string>)
    ensures |ids| == |es|
  {
    FinalIds(BaseIds(es))
  }

  /** Every package identifier is legal and none is the identifier of the root. */
  lemma IdsAreLegal(es: seq<EnrichedPackage>, i: nat)
    requires i < |es|
    ensures var id := PackageIds(es)[i];
            |id| > |PREFIX| && id[..|PREFIX|] == PREFIX && (forall k :: 0 <= k < |id| ==> Safe(id[k])) && id != ROOT
  {
    hide Decimal, Count, Sanitize;
    var base, id := BaseId(es[i]), PackageIds(es)[i];
    var name, version := Sanitize(es[i].name), Sanitize(es[i].version);
    assert |PREFIX| == 16 && forall k :: 0 <= k < 16 ==> Safe(PREFIX[k]);
    assert base[16 + |name|] == '-' && forall k :: 0 <= k < |base| ==> Safe(base[k]);
    assert id[..|base|] == base;
    assert id[16 + |name|] == '-';
    assert forall k :: 16 <= k < |ROOT| ==> ROOT[k] != '-';
  }

  // ----- relationships -----

  datatype Kind = Describes | DependsOn

  datatype Relationship = Relationship(source: string, target: string, kind: Kind)

  /** The part of a string before the first of a character. */
  function Before(s: string, c: char): string {
    if s == "" || s[0] == c then "" else [s[0]] + Before(s[1..], c)
  }

  /** The parts of a string between commas. */
  function CommaParts(s: string): (parts: seq<string>)
    ensures parts != []
  {
    if s == "" then [""]
    else
      var parts := CommaParts(s[..|s| - 1]);
      if s[|s| - 1] == ',' then parts + [""]
      else parts[..|parts| - 1] + [parts[|parts| - 1] + [s[|s| - 1]]]
  }

  /** The package a dependency names: its first alternative without the version constraint. */
  function DependencyName(spec: string): string {
    Strip(Before(Strip(Before(Strip(spec), '(')), '|'))
  }

  /** The identifiers of the packages that the dependencies name, in order. */
  function Targets(specs: seq<string>, lookup: map<string, string>): seq<string> {
    if specs == [] then []
    else
      var name := DependencyName(specs[|specs| - 1]);
      Targets(specs[..|specs| - 1], lookup)
      + if Strip(specs[|specs| - 1]) != "" && name != "" && name in lookup then [lookup[name]] else []
  }

  /** The first occurrences. */
  function Once(ts: seq<string>): (r: seq<string>)
    ensures forall t :: t in r <==> t in ts
  {
    if ts == [] then []
    else
      var rest := Once(ts[..|ts| - 1]);
      if ts[|ts| - 1] in rest then rest else rest + [ts[|ts| - 1]]
  }

  function Edges(source: string, targets: seq<string>, kind: Kind): (r: seq<Relationship>)
    ensures |r| == |targets|
  {
    seq(|targets|, i requires 0 <= i < |targets| => Relationship(source, targets[i], kind))
  }

  function DependencyTargets(e: EnrichedPackage, lookup: map<string, string>): seq<string> {
    if e.depends.None? then [] else Once(Targets(CommaParts(e.depends.value), lookup))
  }

  method BuildDependsOnRelationships(e: EnrichedPackage, sourceId: string, lookup: map<string, string>)
    returns (relationships: seq<Relationship>)
    ensures relationships == Edges(sourceId, DependencyTargets(e, lookup), DependsOn)
  {
    hide DependencyName, CommaParts, Strip, Once, Targets;
    relationships := [];
    if e.depends.None? {
      return;
    }
    var specs := CommaParts(e.depends.value);
    TargetsEnds(specs, lookup);
    var seenPairs: set<(string, string)> := {};
    ghost var targets: seq<string> := [];
    for i := 0 to |specs|
      invariant targets == Once(Targets(specs[..i], lookup))
      invariant relationships == Edges(sourceId, targets, DependsOn)
      invariant forall t :: (sourceId, t) in seenPairs <==> t in targets
    {
      TargetsStep(specs, i, lookup);
      var name := DependencyName(specs[i]);
      if Strip(specs[i]) != "" && name != "" && name in lookup {
        var target := lookup[name];
        OnceStep(Targets(specs[..i], lookup), target);
        if (sourceId, target) !in seenPairs {
          seenPairs := seenPairs + {(sourceId, target)};
          relationships := relationships + [Relationship(sourceId, target, DependsOn)];
          targets := targets + [target];
        }
      }
    }
  }

  lemma TargetsEnds(specs: seq<string>, lookup: map<string, string>)
    ensures Once(Targets(specs[..0], lookup)) == [] && specs[..|specs|] == specs
  {
  }

  lemma TargetsStep(specs: seq<string>, i: nat, lookup: map<string, string>)
    requires i < |specs|
    ensures var name := DependencyName(specs[i]);
            Targets(specs[..i + 1], lookup)
            == if Strip(specs[i]) != "" && name != "" && name in lookup then Targets(specs[..i], lookup) + [lookup[name]]
               else Targets(specs[..i], lookup)
  {
    hide DependencyName, Strip;
    assert specs[..i + 1][..i] == specs[..i];
  }

  lemma OnceStep(ts: seq<string>, t: string)
    ensures Once(ts + [t]) == if t in ts then Once(ts) else Once(ts) + [t]
  {
    assert (ts + [t])[..|ts|] == ts;
  }

  /** The last package of a name is the one its dependents point to. */
  function Lookup(es: seq<EnrichedPackage>, ids: seq<string>): (m: map<string, string>)
    requires |es| == |ids|
    ensures forall n :: n in m ==> m[n] in ids
  {
    if es == [] then map[]
    else
      var k := |es| - 1;
      Lookup(es[..k], ids[..k])[es[k].name := ids[k]]
  }

  function AllDependencies(es: seq<EnrichedPackage>, ids: seq<string>, lookup: map<string, string>): seq<Relationship>
    requires |es| == |ids|
  {
    if es == [] then []
    else
      var k := |es| - 1;
      AllDependencies(es[..k], ids[..k], lookup) + Edges(ids[k], DependencyTargets(es[k], lookup), DependsOn)
  }

  function Relationships(es: seq<EnrichedPackage>): seq<Relationship> {
    var ids := PackageIds(es);
    Edges(ROOT, ids, Describes) + AllDependencies(es, ids, Lookup(es, ids))
  }

  /** Number the packages and relate them to the root and to each other. */
  method Assemble(es: seq<EnrichedPackage>) returns (ids: seq<string>, relationships: seq<Relationship>)
    ensures ids == PackageIds(es) && relationships == Relationships(es)
  {
    hide FinalIds, DependencyTargets, BaseId, Lookup, AllDependencies;
    var bases: seq<string> := [];
    for i := 0 to |es|
      invariant bases == BaseIds(es)[..i]
    {
      bases := bases + [BaseId(es[i])];
    }
    assert bases == BaseIds(es);
    ids := NumberIds(bases);
    LoopsStart();
    var lookup: map<string, string> := map[];
    for i := 0 to |es|
      invariant lookup == Lookup(es[..i], ids[..i])
    {
      LookupStep(es, ids, i);
      lookup := lookup[es[i].name := ids[i]];
    }
    assert es[..|es|] == es && ids[..|es|] == ids;
    relationships := [];
    for i := 0 to |es|
      invariant relationships == Edges(ROOT, ids[..i], Describes)
    {
      relationships := relationships + [Relationship(ROOT, ids[i], Describes)];
    }
    ghost var describes, dependencies := relationships, [];
    hide Edges;
    for i := 0 to |es|
      invariant dependencies == AllDependencies(es[..i], ids[..i], lookup)
      invariant relationships == describes + dependencies
    {
      DependenciesStep(es, ids, lookup, i);
      var depends := BuildDependsOnRelationships(es[i], ids[i], lookup);
      relationships := relationships + depends;
      dependencies := dependencies + depends;
    }
  }

  lemma LoopsStart()
    ensures Lookup([], []) == map[]
    ensures forall lookup :: AllDependencies([], [], lookup) == []
  {
  }

  lemma LookupStep(es: seq<EnrichedPackage>, ids: seq<string>, i: nat)
    requires |es| == |ids| && i < |es|
    ensures Lookup(es[..i + 1], ids[..i + 1]) == Lookup(es[..i], ids[..i])[es[i].name := ids[i]]
  {
    assert es[..i + 1][..i] == es[..i] && ids[..i + 1][..i] == ids[..i];
  }

  lemma DependenciesStep(es: seq<EnrichedPackage>, ids: seq<string>, lookup: map<string, string>, i: nat)
    requires |es| == |ids| && i < |es|
    ensures AllDependencies(es[..i + 1], ids[..i + 1], lookup)
            == AllDependencies(es[..i], ids[..i], lookup)
               + Edges(ids[i], DependencyTargets(es[i], lookup), DependsOn)
  {
    hide DependencyTargets, Edges;
    assert es[..i + 1][..i] == es[..i] && ids[..i + 1][..i] == ids[..i];
  }

  lemma {:induction false} OnceIsDistinct(ts: seq<string>)
    ensures Distinct(Once(ts))
  {
    if ts != [] {
      OnceIsDistinct(ts[..|ts| - 1]);
    }
  }

  lemma EdgesAreDistinct(source: string, targets: seq<string>, kind: Kind)
    ensures Distinct(Edges(source, targets, kind)) <==> Distinct(targets)
  {
    var es := Edges(source, targets, kind);
    assert forall i :: 0 <= i < |targets| ==> es[i].target == targets[i];
  }

  lemma DistinctInTwo<T>(a: seq<T>, b: seq<T>)
    requires Distinct(a) && Distinct(b) && forall x :: x in a ==> x !in b
    ensures Distinct(a + b)
  {
    forall i, j | 0 <= i < j < |a + b|
      ensures (a + b)[i] != (a + b)[j]
    {
      assert i < |a| <= j ==> a[i] in a && b[j - |a|] in b;
    }
  }

  lemma DependencyTargetsAreDistinct(e: EnrichedPackage, lookup: map<string, string>)
    ensures Distinct(DependencyTargets(e, lookup))
    ensures forall t :: t in DependencyTargets(e, lookup) ==> t in lookup.Values
  {
    hide Once, Targets, CommaParts;
    if e.depends.Some? {
      OnceIsDistinct(Targets(CommaParts(e.depends.value), lookup));
      TargetsAreFound(CommaParts(e.depends.value), lookup);
    }
  }

  lemma {:induction false} TargetsAreFound(specs: seq<string>, lookup: map<string, string>)
    ensures forall t :: t in Targets(specs, lookup) ==> t in lookup.Values
  {
    hide DependencyName, Strip;
    if specs != [] {
      TargetsAreFound(specs[..|specs| - 1], lookup);
    }
  }

  lemma {:induction false} DependenciesAreDistinct(es: seq<EnrichedPackage>, ids: seq<string>, lookup: map<string, string>)
    requires |es| == |ids|
    ensures Distinct(ids) ==> Distinct(AllDependencies(es, ids, lookup))
    ensures forall r :: r in AllDependencies(es, ids, lookup) ==>
              r.kind == DependsOn && r.source in ids && r.target in lookup.Values
  {
    hide DependencyTargets;
    if es != [] {
      var k := |es| - 1;
      DependenciesAreDistinct(es[..k], ids[..k], lookup);
      var targets := DependencyTargets(es[k], lookup);
      DependencyTargetsAreDistinct(es[k], lookup);
      EdgesAreDistinct(ids[k], targets, DependsOn);
      var earlier, more := AllDependencies(es[..k], ids[..k], lookup), Edges(ids[k], targets, DependsOn);
      assert forall r :: r in more ==> r.kind == DependsOn && r.source == ids[k] && r.target in targets;
      assert AllDependencies(es, ids, lookup) == earlier + more;
      if Distinct(ids) {
        assert ids[k] !in ids[..k];
        hide AllDependencies, Edges;
        DistinctInTwo(earlier, more);
      }
    }
  }

  /** Every endpoint is an element of the document. */
  lemma EndpointsAreElements(es: seq<EnrichedPackage>)
    ensures forall r :: r in Relationships(es) ==>
              && r.target in PackageIds(es)
              && (if r.kind == Describes then r.source == ROOT else r.source in PackageIds(es))
  {
    var ids := PackageIds(es);
    DependenciesAreDistinct(es, ids, Lookup(es, ids));
    hide AllDependencies, PackageIds;
    assert forall r :: r in Edges(ROOT, ids, Describes) ==> r.kind == Describes && r.source == ROOT && r.target in ids;
  }

  /** No relationship is stated twice exactly when the identifiers are all different. */
  lemma RelationshipsAreDistinctExactly(es: seq<EnrichedPackage>)
    ensures Distinct(Relationships(es)) <==> !Ambiguous(BaseIds(es))
  {
    var ids := PackageIds(es);
    var describes, depends := Edges(ROOT, ids, Describes), AllDependencies(es, ids, Lookup(es, ids));
    IdsAreDistinctExactly(BaseIds(es));
    DependenciesAreDistinct(es, ids, Lookup(es, ids));
    EdgesAreDistinct(ROOT, ids, Describes);
    assert forall r :: r in describes ==> r.kind == Describes;
    hide AllDependencies, Edges, FinalIds, Ambiguous, Lookup;
    if Distinct(ids) {
      DistinctInTwo(describes, depends);
    } else {
      var i, j :| 0 <= i < j < |describes| && describes[i] == describes[j];
      assert (describes + depends)[i] == (describes + depends)[j];
    }
  }

  /** Two packages of one name and version beside a version that ends in "-2" share an identifier. */
  lemma VersionsCanClash(name: string, version: string)
    ensures var p := EnrichedPackage(name, version, None);
            var other := EnrichedPackage(name, version + "-2", None);
            PackageIds([p, p, other])[1] == PackageIds([p, p, other])[2]
  {
    var p, other := EnrichedPackage(name, version, None), EnrichedPackage(name, version + "-2", None);
    var b, bases := BaseId(p), BaseIds([p, p, other]);
    assert Sanitize(version + "-2") == Sanitize(version) + "-2";
    assert BaseId(other) == b + "-2";
    assert bases == [b, b, b + "-2"];
    hide BaseId, Sanitize;
    assert bases[..0] == [] && bases[..1] == [b] && bases[..2] == [b, b];
    assert [b][..0] == [] && [b, b][..1] == [b];
    assert |b + "-2"| != |b|;
    assert Count([b], b) == 1 && Count([b], b + "-2") == 0 && Count([b, b], b + "-2") == 0;
    assert Decimal(2) == "2";
  }
}
