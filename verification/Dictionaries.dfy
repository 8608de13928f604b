/** Ordered dictionaries of fields: a key comes once, in the place where it was first assigned. */
module Dictionaries {
  import opened Results
  import opened Stanzas

  function Find(fields: seq<Field>, key: string): Option<string> {
    if fields == [] then None
    else if fields[0].name == key then Some(fields[0].value)
    else Find(fields[1..], key)
  }

  /** Assign to a key: a new key comes last, an old one keeps its place. */
  function Put(fields: seq<Field>, key: string, value: string): seq<Field> {
    if fields == [] then [Field(key, value)]
    else if fields[0].name == key then [Field(key, value)] + fields[1..]
    else [fields[0]] + Put(fields[1..], key, value)
  }

  /** The fields whose names are not among the known ones, in order. */
  function Extra(fields: seq<Field>, known: seq<string>): seq<Field> {
    if fields == [] then []
    else (if fields[0].name in known then [] else [fields[0]]) + Extra(fields[1..], known)
  }

  predicate Distinct(fields: seq<Field>) {
    forall i, j :: 0 <= i < j < |fields| ==> fields[i].name != fields[j].name
  }

  function Optional(key: string, value: Option<string>): seq<Field> {
    if value.Some? then [Field(key, value.value)] else []
  }

  predicate NoneNamed(fields: seq<Field>, keys: seq<string>) {
    forall f :: f in fields ==> f.name !in keys
  }

  // ----- known keys followed by extra fields -----

  function Known(keys: seq<string>, values: seq<Option<string>>, i: nat): seq<Field>
    requires i <= |keys| == |values|
    decreases |keys| - i
  {
    if i == |keys| then [] else Optional(keys[i], values[i]) + Known(keys, values, i + 1)
  }

  /** The fields with the first so many keys. */
  function KnownTo(keys: seq<string>, values: seq<Option<string>>, n: nat): seq<Field>
    requires n <= |keys| == |values|
  {
    if n == 0 then [] else KnownTo(keys, values, n - 1) + Optional(keys[n - 1], values[n - 1])
  }

  lemma {:induction false} KnownToIsKnown(keys: seq<string>, values: seq<Option<string>>, n: nat)
    requires n <= |keys| == |values|
    ensures KnownTo(keys, values, n) + Known(keys, values, n) == Known(keys, values, 0)
  {
    if n == 0 {
      assert KnownTo(keys, values, 0) == [];
    } else {
      KnownToIsKnown(keys, values, n - 1);
      var o, rest := Optional(keys[n - 1], values[n - 1]), Known(keys, values, n);
      assert Known(keys, values, n - 1) == o + rest;
      assert KnownTo(keys, values, n) == KnownTo(keys, values, n - 1) + o;
      hide Known, KnownTo, Optional;
      assert (KnownTo(keys, values, n - 1) + o) + rest == KnownTo(keys, values, n - 1) + (o + rest);
    }
  }

  predicate DistinctKeys(keys: seq<string>) {
    forall i, j :: 0 <= i < j < |keys| ==> keys[i] != keys[j]
  }

  lemma LaterNamesDiffer(keys: seq<string>, values: seq<Option<string>>, extra: seq<Field>, i: nat)
    requires i < |keys| == |values| && DistinctKeys(keys) && NoneNamed(extra, keys)
    ensures forall f :: f in Known(keys, values, i + 1) + extra ==> f.name != keys[i]
  {
    KnownNames(keys, values, i + 1);
    assert keys[i] in keys;
  }

  lemma {:induction false} PutNew(fields: seq<Field>, key: string, value: string)
    requires NoneNamed(fields, [key])
    ensures Put(fields, key, value) == fields + [Field(key, value)]
  {
    if fields != [] {
      assert fields[0] in fields && forall f :: f in fields[1..] ==> f in fields;
      PutNew(fields[1..], key, value);
    }
  }

  lemma {:induction false} ExtraInTwo(a: seq<Field>, b: seq<Field>, known: seq<string>)
    ensures Extra(a + b, known) == Extra(a, known) + Extra(b, known)
  {
    if a == [] {
      assert a + b == b;
    } else {
      assert (a + b)[1..] == a[1..] + b;
      ExtraInTwo(a[1..], b, known);
    }
  }

  lemma {:induction false} KnownNames(keys: seq<string>, values: seq<Option<string>>, i: nat)
    requires i <= |keys| == |values|
    ensures forall f :: f in Known(keys, values, i) ==> exists j :: i <= j < |keys| && f.name == keys[j]
    decreases |keys| - i
  {
    if i < |keys| {
      KnownNames(keys, values, i + 1);
    }
  }

  lemma {:induction false} FindInTwo(a: seq<Field>, b: seq<Field>, key: string)
    ensures Find(a + b, key) == if Find(a, key).Some? then Find(a, key) else Find(b, key)
  {
    if a == [] {
      assert a + b == b;
    } else {
      assert (a + b)[1..] == a[1..] + b;
      FindInTwo(a[1..], b, key);
    }
  }

  lemma {:induction false} FindNone(fields: seq<Field>, key: string)
    requires forall f :: f in fields ==> f.name != key
    ensures Find(fields, key) == None
  {
    if fields != [] {
      assert fields[0] in fields && forall f :: f in fields[1..] ==> f in fields;
      FindNone(fields[1..], key);
    }
  }

  lemma {:induction false} FindKnown(keys: seq<string>, values: seq<Option<string>>, extra: seq<Field>, i: nat, j: nat)
    requires DistinctKeys(keys) && NoneNamed(extra, keys)
    requires i <= j < |keys| == |values|
    ensures Find(Known(keys, values, i) + extra, keys[j]) == values[j]
    decreases |keys| - i
  {
    var head, tail := Optional(keys[i], values[i]), Known(keys, values, i + 1);
    assert Known(keys, values, i) + extra == head + (tail + extra);
    FindInTwo(head, tail + extra, keys[j]);
    assert Find(head, keys[j]) == if i == j then values[j] else None;
    if i < j {
      FindKnown(keys, values, extra, i + 1, j);
    } else if values[j].None? {
      KnownNames(keys, values, i + 1);
      FindNone(tail + extra, keys[j]);
    }
  }

  lemma {:induction false} ExtraOnly(fields: seq<Field>, known: seq<string>)
    ensures NoneNamed(fields, known) ==> Extra(fields, known) == fields
    ensures (forall f :: f in fields ==> f.name in known) ==> Extra(fields, known) == []
  {
    if fields != [] {
      assert fields[0] in fields && forall f :: f in fields[1..] ==> f in fields;
      ExtraOnly(fields[1..], known);
    }
  }

  lemma ExtraOfKnown(keys: seq<string>, values: seq<Option<string>>, extra: seq<Field>)
    requires |keys| == |values| && NoneNamed(extra, keys)
    ensures Extra(Known(keys, values, 0) + extra, keys) == extra
  {
    KnownNames(keys, values, 0);
    ExtraInTwo(Known(keys, values, 0), extra, keys);
    ExtraOnly(Known(keys, values, 0), keys);
    ExtraOnly(extra, keys);
  }
}
