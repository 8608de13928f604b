/** Applying one layer's whiteout markers to the files merged so far. */
module Whiteouts {
  import opened PosixPath

  type Content = seq<bv8>
  type Files = map<string, Content>

  const WHITEOUT_PREFIX := ".wh."
  const OPAQUE_WHITEOUT := ".wh..wh..opq"

  predicate IsOpaque(entry: string) {
    Basename(entry) == OPAQUE_WHITEOUT
  }

  predicate IsPlain(entry: string) {
    StartsWith(Basename(entry), WHITEOUT_PREFIX) && !IsOpaque(entry)
  }

  predicate IsMarker(entry: string) {
    IsOpaque(entry) || IsPlain(entry)
  }

  /** What an opaque marker covers: every path that starts with this. */
  function CoverPrefix(entry: string): string {
    if Dirname(entry) != "" then Dirname(entry) + "/" else ""
  }

  /** The path a plain marker hides. */
  function Target(entry: string): string
    requires IsPlain(entry)
  {
    var name := Basename(entry)[|WHITEOUT_PREFIX|..];
    if Dirname(entry) != "" then Join(Dirname(entry), name) else name
  }

  predicate DoomedBy(entry: string, entries: set<string>, key: string) {
    || (IsOpaque(entry) && StartsWith(key, CoverPrefix(entry)) && key !in entries)
    || (IsPlain(entry) && key == Target(entry))
    || (IsMarker(entry) && key == entry)
  }

  /** The keys a layer's entries remove; it depends on the set of entries only. */
  predicate Doomed(entries: set<string>, key: string) {
    exists e :: e in entries && DoomedBy(e, entries, key)
  }

  function Surviving(files: Files, entries: set<string>): (left: Files)
    ensures forall k :: k in left <==> k in files && !Doomed(entries, k)
    ensures forall k :: k in left ==> left[k] == files[k]
  {
    map k | k in files && !Doomed(entries, k) :: files[k]
  }

  class VirtualFilesystem {
    var files: Files

    constructor ()
      ensures files == map[]
    {
      files := map[];
    }

    /** Deletes in place, entry by entry; the outcome does not depend on their order or repetition. */
    method ApplyWhiteouts(layerEntries: seq<string>)
      modifies this
      ensures files == Surviving(old(files), set e | e in layerEntries)
    {
      hide Basename, Dirname, Join, CoverPrefix;
      var shielded := set e | e in layerEntries;
      for i := 0 to |layerEntries|
        invariant forall k :: k in files <==>
                    k in old(files) && forall j :: 0 <= j < i ==> !DoomedBy(layerEntries[j], shielded, k)
        invariant forall k :: k in files ==> files[k] == old(files)[k]
      {
        var entry := layerEntries[i];
        if Basename(entry) == OPAQUE_WHITEOUT {
          var prefix := CoverPrefix(entry);
          var doomed := set k | k in files && StartsWith(k, prefix) && k !in shielded;
          files := files - doomed;
          files := files - {entry};
        } else if StartsWith(Basename(entry), WHITEOUT_PREFIX) {
          var targetName := Basename(entry)[|WHITEOUT_PREFIX|..];
          var targetPath := if Dirname(entry) != "" then Join(Dirname(entry), targetName) else targetName;
          files := files - {targetPath};
          files := files - {entry};
        }
      }
      forall k
        ensures Doomed(shielded, k) <==> exists j :: 0 <= j < |layerEntries| && DoomedBy(layerEntries[j], shielded, k)
      {
        if e :| e in shielded && DoomedBy(e, shielded, k) {
          var j :| 0 <= j < |layerEntries| && layerEntries[j] == e;
        }
      }
    }
  }

  /** Applying the same whiteouts again changes nothing. */
  lemma ApplyingTwice(files: Files, entries: set<string>)
    ensures Surviving(Surviving(files, entries), entries) == Surviving(files, entries)
  {
  }

  /** If the layer lists every marker that is present, none is left. */
  lemma NoMarkerSurvives(files: Files, entries: set<string>)
    requires forall k :: k in files && IsMarker(k) ==> k in entries
    ensures forall k :: k in Surviving(files, entries) ==> !IsMarker(k)
  {
    forall k | k in files && IsMarker(k)
      ensures Doomed(entries, k)
    {
      assert DoomedBy(k, entries, k);
    }
  }

  // ----- what markers in a directory stand for -----

  predicate IsName(name: string) {
    name != "" && '/' !in name
  }

  /** "d/.wh.n" hides "d/n"; "d/.wh..wh..opq" covers everything below d; in the root both drop "d/". */
  lemma MarkersInDirectory(dir: string, name: string)
    requires IsName(name) && name != ".wh..opq" && dir != "" && dir[|dir| - 1] != '/'
    ensures var m := dir + "/" + (WHITEOUT_PREFIX + name); IsPlain(m) && Target(m) == dir + "/" + name
    ensures var m := WHITEOUT_PREFIX + name; IsPlain(m) && Target(m) == name
    ensures var m := dir + "/" + OPAQUE_WHITEOUT; IsOpaque(m) && CoverPrefix(m) == dir + "/"
    ensures IsOpaque(OPAQUE_WHITEOUT) && CoverPrefix(OPAQUE_WHITEOUT) == ""
  {
    hide Basename, Dirname;
    var hidden := WHITEOUT_PREFIX + name;
    assert hidden[..4] == WHITEOUT_PREFIX && hidden[4..] == name;
    assert OPAQUE_WHITEOUT[4..] == ".wh..opq";
    PartsOf(dir, hidden);
    PartsOf(dir, OPAQUE_WHITEOUT);
    assert !StartsWith(name, "/") by {
      assert name[0] in name;
    }
  }
}
