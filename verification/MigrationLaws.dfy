/** Which file names are migrations, and of which version. */
module MigrationLaws {
  import opened Results
  import opened Lines
  import opened Decimals
  import opened NumberLaws
  import opened Migrations

  predicate AllFigures(s: string) {
    s != "" && forall i :: 0 <= i < |s| ==> IsFigure(s[i])
  }

  /** "v", digits, "_", any text on one line, ".py", and at most one newline behind it. */
  predicate Names(name: string, digits: string, text: string) {
    && AllFigures(digits) && OneLine(text)
    && (name == "v" + digits + "_" + text + ".py" || name == "v" + digits + "_" + text + ".py" + "\n")
  }

  lemma {:induction false} FiguresAreDigits(s: string)
    requires AllFigures(s)
    ensures Ungrouped(s) == s && Grouped(s)
  {
    if |s| > 1 {
      FiguresAreDigits(s[..|s| - 1]);
    } else {
      assert s[..0] == "";
    }
  }

  lemma DigitsOf(s: string, v: nat)
    requires AllFigures(s)
    ensures DigitsValue(s) == Some(v) <==> v == Places(s)
    ensures DigitsValue(s).Some? && Places(s) >= 0
  {
    FiguresAreDigits(s);
    DigitsAre(s, v);
    DigitsAre(s, Places(s));
  }

  lemma {:induction false} RunEnds(s: string, i: nat, j: nat)
    requires i <= j < |s| && !IsDigit(s[j]) && forall k :: i <= k < j ==> IsDigit(s[k])
    ensures DigitRun(s, i) == j
    decreases j - i
  {
    if i < j {
      RunEnds(s, i + 1, j);
    }
  }

  /** The name without a newline at its end. */
  function Chomped(name: string): string {
    if name != "" && name[|name| - 1] == '\n' then name[..|name| - 1] else name
  }

  lemma ChompedIs(name: string, s: string)
    requires s == "" || s[|s| - 1] != '\n'
    ensures Chomped(name) == s <==> name == s || name == s + "\n"
  {
    if name != "" && name[|name| - 1] == '\n' {
      assert name == name[..|name| - 1] + "\n";
    }
    if name == s + "\n" {
      assert name[..|name| - 1] == s;
    }
  }

  /** What the text of a name looks like, its parts by position. */
  predicate Shape(s: string, j: nat) {
    && 1 < j && j + 4 <= |s| && s[0] == 'v' && (forall k :: 1 <= k < j ==> IsDigit(s[k])) && s[j] == '_'
    && s[|s| - 3..] == ".py" && OneLine(s)
  }

  lemma ShapeIs(s: string, digits: string, text: string)
    requires AllFigures(digits) && OneLine(text) && s == "v" + digits + "_" + text + ".py"
    ensures Shape(s, |digits| + 1) && s[1..|digits| + 1] == digits && DigitRun(s, 1) == |digits| + 1
    ensures s[|s| - 1] != '\n'
  {
    var j := |digits| + 1;
    assert forall k :: 1 <= k < j ==> s[k] == digits[k - 1];
    assert s[j] == '_';
    RunEnds(s, 1, j);
    assert forall k :: j < k < |s| - 3 ==> s[k] == text[k - j - 1] && text[k - j - 1] in text;
    assert s[|s| - 3..] == ".py";
    assert s[|s| - 3] == '.' && s[|s| - 2] == 'p' && s[|s| - 1] == 'y';
  }

  lemma PartsOfShape(s: string, j: nat)
    requires Shape(s, j)
    ensures var (digits, text) := (s[1..j], s[j + 1..|s| - 3]);
            AllFigures(digits) && OneLine(text) && s == "v" + digits + "_" + text + ".py"
  {
    assert s == s[..1] + s[1..j] + s[j..j + 1] + s[j + 1..|s| - 3] + s[|s| - 3..];
    assert s[..1] == "v" && s[j..j + 1] == "_";
    var text := s[j + 1..|s| - 3];
    assert forall k :: 0 <= k < |text| ==> text[k] in s;
  }

  lemma VersionOfShape(name: string)
    ensures var s := Chomped(name);
            VersionOf(name) == if s != "" && Shape(s, DigitRun(s, 1)) then DigitsValue(s[1..DigitRun(s, 1)]) else None
  {
    hide DigitsValue;
  }

  /** A file is a migration of a version exactly if its name says so. */
  lemma VersionIs(name: string, v: nat)
    ensures VersionOf(name) == Some(v) <==> exists digits: string, text: string :: Names(name, digits, text) && v == Places(digits)
  {
    hide VersionOf, Shape, Places, DigitsValue, DigitRun, AllFigures, Chomped;
    VersionOfShape(name);
    var s := Chomped(name);
    if VersionOf(name) == Some(v) {
      var j := DigitRun(s, 1);
      PartsOfShape(s, j);
      var digits, text := s[1..j], s[j + 1..|s| - 3];
      ShapeIs(s, digits, text);
      ChompedIs(name, s);
      DigitsOf(digits, v);
      assert Names(name, digits, text);
    }
    if digits: string, text: string :| Names(name, digits, text) && v == Places(digits) {
      var t := "v" + digits + "_" + text + ".py";
      ShapeIs(t, digits, text);
      ChompedIs(name, t);
      DigitsOf(digits, v);
    }
  }

  /** The files of a directory that are migrations, in their order. */
  lemma FoundIs(names: seq<string>, name: string, v: nat)
    ensures Found([]) == []
    ensures (exists digits: string, text: string :: Names(name, digits, text) && v == Places(digits)) ==>
              Found(names + [name]) == Found(names) + [Migration(v, name)]
    ensures (forall digits: string, text: string :: !Names(name, digits, text)) ==> Found(names + [name]) == Found(names)
  {
    hide VersionOf, Names, Places;
    assert (names + [name])[..|names|] == names;
    VersionIs(name, v);
    if VersionOf(name).Some? {
      VersionIs(name, VersionOf(name).value);
    }
    assert Found(names) + [] == Found(names);
  }

  /** What is still to be done: the migrations whose versions are not recorded, in their order. */
  lemma PendingIs(ms: seq<Migration>, m: Migration, history: set<nat>)
    ensures Pending([], history) == []
    ensures Pending(ms + [m], history) == Pending(ms, history) + if m.version in history then [] else [m]
  {
    assert (ms + [m])[..|ms|] == ms;
  }

  // ----- order -----

  /** The migrations of one version, in order. */
  function OfVersion(ms: seq<Migration>, v: nat): seq<Migration> {
    if ms == [] then []
    else OfVersion(ms[..|ms| - 1], v) + if ms[|ms| - 1].version == v then [ms[|ms| - 1]] else []
  }

  lemma {:induction false} InsertIsStable(ms: seq<Migration>, m: Migration, v: nat)
    requires Ascending(ms)
    ensures OfVersion(Insert(ms, m), v) == OfVersion(ms, v) + if m.version == v then [m] else []
  {
    if ms == [] || ms[|ms| - 1].version <= m.version {
      assert (ms + [m])[..|ms|] == ms;
    } else {
      var n := |ms| - 1;
      InsertIsStable(ms[..n], m, v);
      assert (Insert(ms[..n], m) + [ms[n]])[..|Insert(ms[..n], m)|] == Insert(ms[..n], m);
      if m.version == v && ms[n].version == v {
        assert false;
      }
    }
  }

  /** Sorting keeps the order among migrations of the same version. */
  lemma {:induction false} SortIsStable(ms: seq<Migration>, v: nat)
    ensures OfVersion(Sorted(ms), v) == OfVersion(ms, v)
  {
    if ms != [] {
      SortIsStable(ms[..|ms| - 1], v);
      SortedIsAscending(ms[..|ms| - 1]);
      InsertIsStable(Sorted(ms[..|ms| - 1]), ms[|ms| - 1], v);
    }
  }
}
