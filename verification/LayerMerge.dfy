/** Merging the layers of a container image, bottom to top. */
module LayerMerge {
  import opened Results
  import opened PosixPath
  import opened Whiteouts

  datatype Kind = Regular(content: Content) | Directory | Special

  /** A tar member as stored in the layer. */
  datatype Member = Member(rawName: string, kind: Kind)

  type Layer = seq<Member>

  /** A leading "./" is removed once, then every leading slash. */
  function NormalizeName(name: string): string {
    StripLeadingSlashes(if StartsWith(name, "./") then name[2..] else name)
  }

  /** The archive root is not a file of the layer. */
  predicate IsRoot(name: string) {
    name == "" || name == "."
  }

  function Names(layer: Layer): set<string> {
    set m | m in layer && !IsRoot(NormalizeName(m.rawName)) :: NormalizeName(m.rawName)
  }

  /** The content a layer writes at a path: that of the last regular member with this name. */
  function Written(layer: Layer, p: string): Option<Content> {
    if layer == [] then None
    else
      var m := layer[|layer| - 1];
      if m.kind.Regular? && NormalizeName(m.rawName) == p && !IsRoot(p) then Some(m.kind.content)
      else Written(layer[..|layer| - 1], p)
  }

  /** A layer that could not be opened, a whole one, or the members of one before it could not be read on. */
  datatype Source = Unreadable | Readable(layer: Layer) | Broken(layer: Layer)

  /** What is at a path after all layers: the topmost layer that removes or writes it decides. */
  function Meaning(sources: seq<Source>, p: string): Option<Content> {
    if sources == [] then None
    else
      var below := sources[..|sources| - 1];
      match sources[|sources| - 1]
      case Unreadable => Meaning(below, p)
      case Readable(layer) =>
        if Doomed(Names(layer), p) then None
        else if Written(layer, p).Some? then Written(layer, p)
        else Meaning(below, p)
      case Broken(layer) => if Written(layer, p).Some? then Written(layer, p) else Meaning(below, p)
  }

  ghost predicate Represents(files: Files, sources: seq<Source>) {
    && (forall p :: p in files ==> Meaning(sources, p) == Some(files[p]))
    && forall p :: Meaning(sources, p).Some? ==> p in files
  }

  class Scanner {
    const vfs: VirtualFilesystem
    var diagnostics: nat

    constructor ()
      ensures fresh(vfs) && vfs.files == map[] && diagnostics == 0
    {
      vfs := new VirtualFilesystem();
      diagnostics := 0;
    }

    /** Store the layer's regular files, member by member, and list the names of all its members. */
    method MergeLayer(layer: Layer) returns (entries: seq<string>)
      modifies vfs
      ensures (set e | e in entries) == Names(layer)
      ensures forall p :: p in vfs.files <==> p in old(vfs.files) || Written(layer, p).Some?
      ensures forall p :: p in vfs.files ==>
                vfs.files[p] == if Written(layer, p).Some? then Written(layer, p).value else old(vfs.files)[p]
    {
      entries := [];
      for i := 0 to |layer|
        invariant (set e | e in entries) == Names(layer[..i])
        invariant forall p :: p in vfs.files <==> p in old(vfs.files) || Written(layer[..i], p).Some?
        invariant forall p :: p in vfs.files ==>
                    vfs.files[p] ==
                    if Written(layer[..i], p).Some? then Written(layer[..i], p).value else old(vfs.files)[p]
      {
        var m := layer[i];
        assert layer[..i + 1] == layer[..i] + [m] && layer[..i + 1][..i] == layer[..i];
        NamesSnoc(layer[..i], m);
        var name := NormalizeName(m.rawName);
        if !IsRoot(name) {
          entries := entries + [name];
          if m.kind.Regular? {
            vfs.files := vfs.files[name := m.kind.content];
          }
        }
      }
      assert layer[..|layer|] == layer;
    }

    /** One layer on top of the files so far; a broken one stores what was read and loses its whiteouts. */
    method ExtractLayer(source: Source)
      modifies vfs, `diagnostics
      ensures OnTop(old(vfs.files), vfs.files, source)
      ensures diagnostics == old(diagnostics) + if source.Readable? then 0 else 1
    {
      match source
      case Unreadable =>
        diagnostics := diagnostics + 1;
      case Readable(layer) =>
        var entries := MergeLayer(layer);
        vfs.ApplyWhiteouts(entries);
      case Broken(layer) =>
        var _ := MergeLayer(layer);
        diagnostics := diagnostics + 1;
    }

    /** All layers in order, until the scan is cancelled before one of them. */
    method ProcessLayers(sources: seq<Source>, cancelled: nat -> bool) returns (wasCancelled: bool, done: nat)
      requires vfs.files == map[]
      modifies vfs, `diagnostics
      ensures done <= |sources| && Represents(vfs.files, sources[..done])
      ensures wasCancelled <==> done < |sources|
      ensures wasCancelled <==> exists i :: 0 <= i < |sources| && cancelled(i)
      ensures forall i :: 0 <= i < done ==> !cancelled(i)
    {
      done := 0;
      while done < |sources|
        invariant done <= |sources| && Represents(vfs.files, sources[..done])
        invariant forall i :: 0 <= i < done ==> !cancelled(i)
      {
        if cancelled(done) {
          diagnostics := diagnostics + 1;
          return true, done;
        }
        ghost var before := vfs.files;
        ExtractLayer(sources[done]);
        LayerOnTop(before, vfs.files, sources, done);
        done := done + 1;
      }
      wasCancelled := false;
    }
  }

  lemma NamesSnoc(layer: Layer, m: Member)
    ensures Names(layer + [m]) ==
            Names(layer) + if IsRoot(NormalizeName(m.rawName)) then {} else {NormalizeName(m.rawName)}
  {
    assert forall x :: x in layer + [m] <==> x in layer || x == m;
  }

  /** The files after one more layer, given those before it. */
  ghost predicate OnTop(before: Files, after: Files, source: Source) {
    match source
    case Unreadable => after == before
    case Readable(layer) =>
      && (forall p :: p in after <==> !Doomed(Names(layer), p) && (p in before || Written(layer, p).Some?))
      && forall p :: p in after ==>
           after[p] == if Written(layer, p).Some? then Written(layer, p).value else before[p]
    case Broken(layer) =>
      && (forall p :: p in after <==> p in before || Written(layer, p).Some?)
      && forall p :: p in after ==>
           after[p] == if Written(layer, p).Some? then Written(layer, p).value else before[p]
  }

  lemma LayerOnTop(before: Files, after: Files, sources: seq<Source>, i: nat)
    requires i < |sources| && Represents(before, sources[..i]) && OnTop(before, after, sources[i])
    ensures Represents(after, sources[..i + 1])
  {
    assert sources[..i + 1][..i] == sources[..i];
  }

  // ----- the meaning, path by path -----

  predicate Writes(source: Source, p: string) {
    !source.Unreadable? && Written(source.layer, p).Some?
  }

  predicate Removes(source: Source, p: string) {
    source.Readable? && Doomed(Names(source.layer), p)
  }

  /** Layer i is the last to write p, and neither it nor a later layer removes p. */
  ghost predicate LastWriter(sources: seq<Source>, p: string, i: nat) {
    && i < |sources| && Writes(sources[i], p)
    && (forall j :: i < j < |sources| ==> !Writes(sources[j], p))
    && forall j :: i <= j < |sources| ==> !Removes(sources[j], p)
  }

  lemma LastWriterBelow(sources: seq<Source>, p: string, i: nat)
    requires i < |sources| - 1
    ensures LastWriter(sources, p, i) <==>
            var n := |sources| - 1;
            LastWriter(sources[..n], p, i) && !Writes(sources[n], p) && !Removes(sources[n], p)
  {
    hide Writes, Removes;
    var n := |sources| - 1;
    assert forall j :: 0 <= j < n ==> sources[..n][j] == sources[j];
    if LastWriter(sources[..n], p, i) {
      assert forall j :: i <= j < n ==> !Removes(sources[j], p) && (i < j ==> !Writes(sources[j], p));
    }
  }

  lemma TopWriter(sources: seq<Source>, p: string)
    requires sources != []
    ensures var n: nat := |sources| - 1;
            LastWriter(sources, p, n) <==> Writes(sources[n], p) && !Removes(sources[n], p)
  {
    hide Writes, Removes;
  }

  /** A path holds the content of its last writer, unless that layer or a later one removes it. */
  lemma {:induction false} MeaningIsLastWriter(sources: seq<Source>, p: string, c: Content)
    ensures Meaning(sources, p) == Some(c) <==>
            exists i: nat :: LastWriter(sources, p, i) && Written(sources[i].layer, p) == Some(c)
  {
    if sources != [] {
      var n := |sources| - 1;
      var below := sources[..n];
      MeaningIsLastWriter(below, p, c);
      TopWriter(sources, p);
      hide Written, Doomed, LastWriter;
      if i: nat :| LastWriter(sources, p, i) && Written(sources[i].layer, p) == Some(c) {
        LastWriterWithin(sources, p, i);
        if i < n {
          LastWriterBelow(sources, p, i);
        }
      }
      if Meaning(sources, p) == Some(c) && !Writes(sources[n], p) {
        var i: nat :| LastWriter(below, p, i) && Written(below[i].layer, p) == Some(c);
        LastWriterWithin(below, p, i);
        LastWriterBelow(sources, p, i);
      }
    }
  }

  lemma LastWriterWithin(sources: seq<Source>, p: string, i: nat)
    requires LastWriter(sources, p, i)
    ensures i < |sources| && Writes(sources[i], p) && !Removes(sources[i], p)
    ensures i < |sources| - 1 ==> !Writes(sources[|sources| - 1], p)
  {
  }

  /** Layer i broke off after it wrote p, and no later layer removes p. */
  ghost predicate LeftBehind(sources: seq<Source>, p: string, i: nat) {
    && i < |sources| && sources[i].Broken? && Writes(sources[i], p)
    && forall j :: i < j < |sources| ==> !Removes(sources[j], p)
  }

  /** Over every run a whiteout marker is among the files exactly if a broken layer left it behind. */
  lemma {:induction false} MarkersAreLeftExactly(sources: seq<Source>, p: string)
    requires IsMarker(p)
    ensures Meaning(sources, p).Some? <==> exists i: nat :: LeftBehind(sources, p, i)
  {
    if sources != [] {
      hide *;
      MarkersAreLeftExactly(sources[..|sources| - 1], p);
      WholeLayersRemoveTheirMarkers(sources[|sources| - 1], p);
      LeftBehindStep(sources, p);
      SomeMeaning(sources, p);
    } else {
      hide IsMarker;
    }
  }

  lemma SomeMeaning(sources: seq<Source>, p: string)
    requires sources != []
    ensures var top := sources[|sources| - 1];
            Meaning(sources, p).Some? <==>
            !Removes(top, p) && (Writes(top, p) || Meaning(sources[..|sources| - 1], p).Some?)
    ensures sources[|sources| - 1].Broken? ==> !Removes(sources[|sources| - 1], p)
    ensures sources[|sources| - 1].Unreadable? ==> !Writes(sources[|sources| - 1], p)
  {
    hide Written, Doomed;
  }

  lemma LeftBehindStep(sources: seq<Source>, p: string)
    requires sources != []
    ensures var (n, top) := (|sources| - 1, sources[|sources| - 1]);
            (exists i: nat :: LeftBehind(sources, p, i)) <==>
            (top.Broken? && Writes(top, p)) || (!Removes(top, p) && exists i: nat :: LeftBehind(sources[..n], p, i))
  {
    var n: nat := |sources| - 1;
    LeftBehindOnTop(sources, p);
    forall i: nat | i < n
      ensures LeftBehind(sources, p, i) <==> LeftBehind(sources[..n], p, i) && !Removes(sources[n], p)
    {
      LeftBehindBelow(sources, p, i);
    }
    assert forall i: nat :: LeftBehind(sources, p, i) ==> i <= n;
    assert forall i: nat :: LeftBehind(sources[..n], p, i) ==> i < n;
    hide LeftBehind, Writes, Removes;
  }

  lemma WholeLayersRemoveTheirMarkers(source: Source, p: string)
    requires IsMarker(p)
    ensures source.Readable? && Writes(source, p) ==> Removes(source, p)
  {
    if source.Readable? && Writes(source, p) {
      WrittenIsNamed(source.layer, p);
      assert DoomedBy(p, Names(source.layer), p);
    }
  }

  lemma LeftBehindOnTop(sources: seq<Source>, p: string)
    requires sources != []
    ensures var n: nat := |sources| - 1;
            LeftBehind(sources, p, n) <==> sources[n].Broken? && Writes(sources[n], p)
  {
    hide Writes, Removes;
  }

  lemma LeftBehindBelow(sources: seq<Source>, p: string, i: nat)
    requires i < |sources| - 1
    ensures var n: nat := |sources| - 1;
            LeftBehind(sources, p, i) <==> LeftBehind(sources[..n], p, i) && !Removes(sources[n], p)
  {
    hide Writes, Removes;
    var n := |sources| - 1;
    assert forall j :: 0 <= j < n ==> sources[..n][j] == sources[j];
    if LeftBehind(sources[..n], p, i) {
      assert forall j :: i < j < n ==> !Removes(sources[j], p);
    }
  }

  /** Without broken layers no marker is left. */
  lemma NoMarkerHasMeaning(sources: seq<Source>, p: string)
    requires IsMarker(p) && forall i :: 0 <= i < |sources| ==> !sources[i].Broken?
    ensures Meaning(sources, p).None?
  {
    MarkersAreLeftExactly(sources, p);
  }

  lemma {:induction false} WrittenIsNamed(layer: Layer, p: string)
    requires Written(layer, p).Some?
    ensures p in Names(layer)
  {
    var n := |layer| - 1;
    var m := layer[n];
    assert layer == layer[..n] + [m];
    NamesSnoc(layer[..n], m);
    if !(m.kind.Regular? && NormalizeName(m.rawName) == p && !IsRoot(p)) {
      WrittenIsNamed(layer[..n], p);
    }
  }
}
