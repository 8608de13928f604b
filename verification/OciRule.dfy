/** The rule of the OCI image specification (layer.md) for stacking layers, and where the merge follows it. */
module OciRule {
  import opened Results
  import opened PosixPath
  import opened Whiteouts
  import opened LayerMerge

  // ----- whiteouts of a layer -----

  predicate PlainlyHidden(entries: set<string>, p: string) {
    exists e :: e in entries && IsPlain(e) && p == Target(e)
  }

  /** A plain marker hides the path it names and, if that is a directory, everything below. */
  predicate HiddenBelow(entries: set<string>, p: string) {
    exists e :: e in entries && IsPlain(e) && StartsWith(p, Target(e) + "/")
  }

  predicate Covered(entries: set<string>, p: string) {
    exists e :: e in entries && IsOpaque(e) && StartsWith(p, CoverPrefix(e))
  }

  // ----- members of a layer -----

  predicate Below(p: string, dir: string) {
    StartsWith(p, dir + "/")
  }

  /** Extracting the member decides what is at p: it is p itself, it puts something that is not a directory
      above p, or it needs p to be a directory. */
  predicate Touches(m: Member, p: string) {
    var name := NormalizeName(m.rawName);
    && !IsRoot(name) && !IsMarker(name)
    && (name == p || (Below(p, name) && !m.kind.Directory?) || Below(name, p))
  }

  /** What the last member that touches p leaves there: Some(None) for anything but a regular file. */
  function Extracted(layer: Layer, p: string): Option<Option<Content>> {
    if layer == [] then None
    else
      var m := layer[|layer| - 1];
      if Touches(m, p) then
        Some(if m.kind.Regular? && NormalizeName(m.rawName) == p then Some(m.kind.content) else None)
      else Extracted(layer[..|layer| - 1], p)
  }

  /** Whiteouts hide resources of lower layers only, and are hidden themselves; a member replaces what is at
      its path unless both are directories. */
  function OciContent(lower: Files, layer: Layer, p: string): Option<Content> {
    var entries := Names(layer);
    if IsMarker(p) then None
    else
      match Extracted(layer, p)
      case Some(content) => content
      case None =>
        if p in lower && !PlainlyHidden(entries, p) && !HiddenBelow(entries, p) && !Covered(entries, p)
        then Some(lower[p])
        else None
  }

  function CodeContent(lower: Files, layer: Layer, p: string): Option<Content> {
    if Doomed(Names(layer), p) then None
    else if Written(layer, p).Some? then Written(layer, p)
    else if p in lower then Some(lower[p])
    else None
  }

  // ----- where they differ -----

  /** The layer writes a path and plainly whites it out at the same time. */
  predicate WhitesOutOwnFile(layer: Layer, p: string) {
    PlainlyHidden(Names(layer), p) && Extracted(layer, p).Some? && Extracted(layer, p).value.Some?
  }

  /** A plain marker names a directory above a lower file that nothing else in the layer hides or replaces. */
  predicate WhitesOutDirectory(lower: Files, layer: Layer, p: string) {
    && p in lower && HiddenBelow(Names(layer), p) && Extracted(layer, p).None?
    && !PlainlyHidden(Names(layer), p) && !Covered(Names(layer), p)
  }

  /** The layer turns a file, of a lower layer or its own, into something else without whiting it out. */
  predicate ChangesType(lower: Files, layer: Layer, p: string) {
    && Extracted(layer, p) == Some(None) && (p in lower || Written(layer, p).Some?)
    && !PlainlyHidden(Names(layer), p) && (Covered(Names(layer), p) ==> p in Names(layer))
  }

  predicate Misplaced(lower: Files, layer: Layer, p: string) {
    WhitesOutOwnFile(layer, p) || WhitesOutDirectory(lower, layer, p) || ChangesType(lower, layer, p)
  }

  lemma DoomedParts(entries: set<string>, p: string)
    ensures Doomed(entries, p) <==>
            PlainlyHidden(entries, p) || (Covered(entries, p) && p !in entries) || (IsMarker(p) && p in entries)
  {
    if PlainlyHidden(entries, p) {
      var e :| e in entries && IsPlain(e) && p == Target(e);
      assert DoomedBy(e, entries, p);
    }
    if Covered(entries, p) && p !in entries {
      var e :| e in entries && IsOpaque(e) && StartsWith(p, CoverPrefix(e));
      assert DoomedBy(e, entries, p);
    }
    if IsMarker(p) && p in entries {
      assert DoomedBy(p, entries, p);
    }
  }

  /** A file that stays was written by the last member at its path; without any member there is none. */
  lemma {:induction false} ExtractedIsWritten(layer: Layer, p: string)
    requires !IsMarker(p)
    ensures Extracted(layer, p).Some? && Extracted(layer, p).value.Some? ==>
              Written(layer, p) == Extracted(layer, p).value && p in Names(layer)
    ensures Extracted(layer, p).None? ==> Written(layer, p).None? && p !in Names(layer)
  {
    if layer != [] {
      var n := |layer| - 1;
      var m := layer[n];
      ExtractedIsWritten(layer[..n], p);
      assert layer == layer[..n] + [m];
      NamesSnoc(layer[..n], m);
      hide IsMarker, Below;
    }
  }

  /** The merge gives a path what the specification says exactly where the layer does none of three things. */
  lemma MergeFollowsOciExactly(lower: Files, layer: Layer, p: string)
    requires forall k :: k in lower ==> !IsMarker(k)
    ensures CodeContent(lower, layer, p) == OciContent(lower, layer, p) <==>
            IsMarker(p) || !Misplaced(lower, layer, p)
  {
    DoomedParts(Names(layer), p);
    if Written(layer, p).Some? {
      WrittenIsNamed(layer, p);
    }
    if !IsMarker(p) {
      ExtractedIsWritten(layer, p);
    }
    hide IsMarker, PlainlyHidden, HiddenBelow, Covered, Doomed, Extracted, Written;
  }

  // ----- each of the three, at a layer -----

  lemma ExtractedOne(m: Member, p: string)
    ensures Extracted([m], p)
            == if Touches(m, p) then
                 Some(if m.kind.Regular? && NormalizeName(m.rawName) == p then Some(m.kind.content) else None)
               else None
    ensures Written([m], p)
            == if m.kind.Regular? && NormalizeName(m.rawName) == p && !IsRoot(p) then Some(m.kind.content) else None
    ensures Names([m]) == if IsRoot(NormalizeName(m.rawName)) then {} else {NormalizeName(m.rawName)}
  {
    hide Touches, NormalizeName, IsRoot;
    assert [m][..0] == [];
    assert [] + [m] == [m];
    NamesSnoc([], m);
  }

  lemma ExtractedLast(layer: Layer, m: Member, p: string)
    requires m.kind.Regular? && NormalizeName(m.rawName) == p && !IsRoot(p) && !IsMarker(p)
    ensures Extracted(layer + [m], p) == Some(Some(m.kind.content))
  {
    hide NormalizeName, IsMarker, IsRoot;
    assert Touches(m, p);
  }

  predicate PlainName(name: string) {
    IsName(name) && name[0] != '.'
  }

  lemma NormalName(name: string)
    requires name != "" && name[0] != '/' && !StartsWith(name, "./") && name != "."
    ensures NormalizeName(name) == name && !IsRoot(name)
  {
  }

  lemma PlainBasename(p: string)
    requires PlainName(Basename(p))
    ensures !IsMarker(p)
  {
    hide Basename;
    assert WHITEOUT_PREFIX[0] == '.' && OPAQUE_WHITEOUT[0] == '.';
  }

  lemma NotAMarker(dir: string, name: string)
    requires PlainName(name) && dir != "" && dir[|dir| - 1] != '/'
    ensures !IsMarker(name) && !IsMarker(dir + "/" + name)
  {
    hide IsMarker, Basename, Dirname;
    PartsOf(dir, name);
    PlainBasename(name);
    PlainBasename(dir + "/" + name);
  }

  lemma PlainMarker(name: string)
    requires PlainName(name)
    ensures var m := WHITEOUT_PREFIX + name;
            IsPlain(m) && IsMarker(m) && !IsOpaque(m) && Target(m) == name && NormalizeName(m) == m && !IsRoot(m)
    ensures NormalizeName(name) == name && !IsRoot(name) && !IsMarker(name)
  {
    hide NormalizeName, IsPlain, IsMarker, IsOpaque, IsRoot, Target;
    var marker := WHITEOUT_PREFIX + name;
    assert marker[0] == '.' && marker[1] == 'w';
    MarkersInDirectory("d", name);
    NotAMarker("d", name);
    NormalName(name);
    NormalName(marker);
    MarkerIsPlainOnly(marker);
  }

  lemma MarkerIsPlainOnly(entry: string)
    requires IsPlain(entry)
    ensures IsMarker(entry) && !IsOpaque(entry)
  {
  }

  /** A layer that writes "n" and holds ".wh.n": the file should be there, and the merge drops it. */
  lemma OwnWhiteoutLosesFile(name: string, content: Content, empty: Content)
    requires PlainName(name)
    ensures var layer := [Member(WHITEOUT_PREFIX + name, Regular(empty)), Member(name, Regular(content))];
            && WhitesOutOwnFile(layer, name)
            && OciContent(map[], layer, name) == Some(content) && CodeContent(map[], layer, name) == None
  {
    hide NormalizeName, IsRoot, IsMarker, IsPlain, IsOpaque, Target, Extracted, Covered, Doomed, Names, Written;
    hide HiddenBelow;
    var marker := WHITEOUT_PREFIX + name;
    var m, f := Member(marker, Regular(empty)), Member(name, Regular(content));
    PlainMarker(name);
    assert [m] + [f] == [m, f];
    NamesSnoc([m], f);
    ExtractedOne(m, name);
    assert marker in Names([m, f]);
    assert PlainlyHidden(Names([m, f]), name);
    ExtractedLast([m], f, name);
    hide PlainlyHidden;
    DoomedParts(Names([m, f]), name);
  }

  /** Of these entries only the marker hides anything, and it hides the directory it names. */
  lemma OneMarkerHides(marker: string, dir: string, file: string)
    requires IsPlain(marker) && !IsOpaque(marker) && Target(marker) == dir && '/' !in dir
    ensures var p := dir + "/" + file;
            HiddenBelow({marker}, p) && !PlainlyHidden({marker}, p) && !Covered({marker}, p)
  {
    hide IsPlain, IsOpaque, Target;
    var p := dir + "/" + file;
    assert p[..|dir| + 1] == dir + "/" && p != dir;
    assert marker in {marker} && StartsWith(p, Target(marker) + "/");
  }

  lemma NoMarkerHides(entries: set<string>, p: string)
    requires forall e :: e in entries ==> !IsMarker(e)
    ensures !PlainlyHidden(entries, p) && !Covered(entries, p)
  {
  }

  lemma ParentOf(dir: string, file: string)
    requires PlainName(dir) && PlainName(file)
    ensures var p := dir + "/" + file; Below(p, dir) && p != dir && !IsMarker(p)
  {
    hide IsMarker;
    var p := dir + "/" + file;
    assert p[..|dir| + 1] == dir + "/";
    assert dir[|dir| - 1] in dir;
    NotAMarker(dir, file);
  }

  /** A layer that holds ".wh.d" over a file "d/f": the file should be gone, and the merge keeps it. */
  lemma DirectoryWhiteoutKeepsFile(dir: string, file: string, content: Content, empty: Content)
    requires PlainName(dir) && PlainName(file)
    ensures var (p, layer) := (dir + "/" + file, [Member(WHITEOUT_PREFIX + dir, Regular(empty))]);
            var lower := map[p := content];
            && WhitesOutDirectory(lower, layer, p)
            && OciContent(lower, layer, p) == None && CodeContent(lower, layer, p) == Some(content)
  {
    hide NormalizeName, IsRoot, IsMarker, IsPlain, IsOpaque, Target, Extracted, Covered, Doomed, Names, Written;
    hide HiddenBelow, PlainlyHidden, Below;
    var p, marker := dir + "/" + file, WHITEOUT_PREFIX + dir;
    var m := Member(marker, Regular(empty));
    PlainMarker(dir);
    ParentOf(dir, file);
    ExtractedOne(m, p);
    OneMarkerHides(marker, dir, file);
    DoomedParts({marker}, p);
  }

  /** A layer that replaces the directory "d" by a file: "d/f" should be gone, and the merge keeps it. */
  lemma TypeChangeKeepsFile(dir: string, file: string, content: Content, other: Content)
    requires PlainName(dir) && PlainName(file)
    ensures var (p, layer) := (dir + "/" + file, [Member(dir, Regular(other))]);
            var lower := map[p := content];
            && ChangesType(lower, layer, p)
            && OciContent(lower, layer, p) == None && CodeContent(lower, layer, p) == Some(content)
  {
    hide NormalizeName, IsRoot, IsMarker, IsPlain, IsOpaque, Target, Extracted, Covered, Doomed, Names, Written;
    hide HiddenBelow, PlainlyHidden, Below;
    var p := dir + "/" + file;
    var m := Member(dir, Regular(other));
    PlainMarker(dir);
    ParentOf(dir, file);
    ExtractedOne(m, p);
    NoMarkerHides({dir}, p);
    DoomedParts({dir}, p);
  }

  // ----- whole images -----

  /** Files after k layers, as the specification has it, and nothing misplaced on the way. */
  ghost predicate OciStack(stack: seq<Files>, layers: seq<Layer>) {
    && |stack| == |layers| + 1 && stack[0] == map[]
    && forall k :: 0 <= k < |layers| ==> OciStep(stack[k], layers[k], stack[k + 1])
  }

  ghost predicate OciStep(lower: Files, layer: Layer, upper: Files) {
    && (forall p :: p in upper ==> OciContent(lower, layer, p) == Some(upper[p]))
    && (forall p :: OciContent(lower, layer, p).Some? ==> p in upper)
    && forall p :: !IsMarker(p) ==> !Misplaced(lower, layer, p)
  }

  /** An image in which nothing is misplaced is merged as the specification says. */
  lemma {:induction false} ImageFollowsOci(stack: seq<Files>, layers: seq<Layer>, sources: seq<Source>, k: nat)
    requires OciStack(stack, layers) && k <= |layers| == |sources|
    requires forall i :: 0 <= i < |layers| ==> sources[i] == Readable(layers[i])
    ensures Represents(stack[k], sources[..k])
  {
    if k > 0 {
      ImageFollowsOci(stack, layers, sources, k - 1);
      assert OciStep(stack[k - 1], layers[k - 1], stack[k]);
      RepresentedHasNoMarker(stack[k - 1], sources[..k - 1]);
      OciStepIsOnTop(stack[k - 1], layers[k - 1], stack[k]);
      LayerOnTop(stack[k - 1], stack[k], sources, k - 1);
    }
  }

  lemma RepresentedHasNoMarker(files: Files, sources: seq<Source>)
    requires Represents(files, sources) && forall i :: 0 <= i < |sources| ==> !sources[i].Broken?
    ensures forall p :: p in files ==> !IsMarker(p)
  {
    forall p | p in files
      ensures !IsMarker(p)
    {
      if IsMarker(p) {
        NoMarkerHasMeaning(sources, p);
      }
    }
  }

  lemma OciStepIsOnTop(lower: Files, layer: Layer, upper: Files)
    requires OciStep(lower, layer, upper) && forall p :: p in lower ==> !IsMarker(p)
    ensures OnTop(lower, upper, Readable(layer))
  {
    hide IsMarker, Misplaced, OciContent;
    forall p
      ensures OciContent(lower, layer, p) == CodeContent(lower, layer, p)
    {
      MergeFollowsOciExactly(lower, layer, p);
    }
  }
}
