/** What a dictionary of fields holds, and what assigning to a key does to it. */
module DictionaryLaws {
  import opened Results
  import opened Stanzas
  import opened Dictionaries

  /** The first field with this key has the value. */
  predicate HoldsAt(fields: seq<Field>, key: string, value: string, i: nat) {
    i < |fields| && fields[i] == Field(key, value) && forall j :: 0 <= j < i ==> fields[j].name != key
  }

  ghost predicate Holds(fields: seq<Field>, key: string, value: string) {
    exists i: nat :: HoldsAt(fields, key, value, i)
  }

  predicate Lacks(fields: seq<Field>, key: string) {
    forall i :: 0 <= i < |fields| ==> fields[i].name != key
  }

  lemma {:induction false} FindIs(fields: seq<Field>, key: string, value: string)
    ensures Find(fields, key) == Some(value) <==> Holds(fields, key, value)
    ensures Find(fields, key) == None <==> Lacks(fields, key)
  {
    if fields != [] {
      var rest := fields[1..];
      FindIs(rest, key, value);
      assert forall i :: 1 <= i < |fields| ==> fields[i] == rest[i - 1];
      if fields[0].name == key {
        assert fields[0].value == value ==> HoldsAt(fields, key, value, 0);
      } else {
        if i: nat :| HoldsAt(rest, key, value, i) {
          assert HoldsAt(fields, key, value, i + 1) by {
            assert forall j :: 1 <= j < i + 1 ==> fields[j] == rest[j - 1];
          }
        }
        if i: nat :| HoldsAt(fields, key, value, i) {
          assert HoldsAt(rest, key, value, i - 1) by {
            assert forall j :: 0 <= j < i - 1 ==> rest[j] == fields[j + 1];
          }
        }
      }
    }
  }

  /** Find, told for all values of a key at once. */
  lemma FindHolds(fields: seq<Field>, key: string)
    ensures Find(fields, key) == None <==> Lacks(fields, key)
    ensures forall value: string :: Holds(fields, key, value) <==> Find(fields, key) == Some(value)
  {
    forall value: string
      ensures Holds(fields, key, value) <==> Find(fields, key) == Some(value)
    {
      FindIs(fields, key, value);
    }
    FindIs(fields, key, "");
    hide Holds, Find;
  }

  /** Assigning gives the key this value and leaves the others alone. */
  lemma {:induction false} PutIs(fields: seq<Field>, key: string, value: string, other: string)
    ensures var after := Put(fields, key, value);
            && Find(after, key) == Some(value)
            && (other != key ==> Find(after, other) == Find(fields, other))
  {
    if fields != [] {
      var after := Put(fields, key, value);
      PutIs(fields[1..], key, value, other);
      assert after[1..] == if fields[0].name == key then fields[1..] else Put(fields[1..], key, value);
    }
  }

  lemma {:induction false} PutKeepsPlaces(fields: seq<Field>, key: string, value: string)
    ensures var after := Put(fields, key, value);
            && |after| == |fields| + (if Find(fields, key).None? then 1 else 0)
            && forall i :: 0 <= i < |fields| ==>
                 after[i] == (if fields[i].name == key && Lacks(fields[..i], key) then Field(key, value) else fields[i])
  {
    if fields != [] {
      var rest := fields[1..];
      PutKeepsPlaces(rest, key, value);
      assert Put(fields, key, value)[0] == if fields[0].name == key then Field(key, value) else fields[0];
      if fields[0].name == key {
        forall i | 1 <= i < |fields|
          ensures !Lacks(fields[..i], key)
        {
          assert fields[..i][0].name == key;
        }
      } else {
        forall i | 1 <= i < |fields|
          ensures Lacks(fields[..i], key) <==> Lacks(rest[..i - 1], key)
        {
          assert forall j :: 1 <= j < i ==> fields[..i][j] == rest[..i - 1][j - 1];
        }
      }
    }
  }

  /** The fields that are not known, in order. */
  lemma ExtraIs(fields: seq<Field>, f: Field, known: seq<string>)
    ensures Extra(fields + [f], known) == Extra(fields, known) + (if f.name in known then [] else [f])
    ensures Extra([], known) == []
  {
    ExtraInTwo(fields, [f], known);
    assert [f][1..] == [];
  }
}
