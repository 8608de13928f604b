/** One step of the walk over an archive, told from its bytes. */
module ArLaws {
  import opened Results
  import opened Letters
  import opened Lines
  import opened LineLaws
  import opened Decimals
  import opened NumberLaws
  import opened PosixPath
  import opened ArArchive

  function Most(a: int, b: int): int {
    if a < b then b else a
  }

  function Fewest(a: int, b: int): int {
    if a < b then a else b
  }

  /** Bounds below zero count from the end, and what lies outside the data is not there. */
  lemma SliceIs(data: seq<byte>, lo: int, hi: int)
    ensures var (from, to) := (if lo < 0 then lo + |data| else lo, if hi < 0 then hi + |data| else hi);
            var s := Slice(data, lo, hi);
            && |s| == Most(0, Fewest(to, |data|) - Most(from, 0))
            && forall i :: 0 <= i < |s| ==> s[i] == data[Most(from, 0) + i]
  {
  }

  /** ASCII text, with a replacement character for any other byte. */
  predicate TextOf(bytes: seq<byte>, t: string) {
    |t| == |bytes| && forall i :: 0 <= i < |t| ==> t[i] == if bytes[i] < 128 then bytes[i] as char else '\U{FFFD}'
  }

  /** A name field: the name, slashes and spacing, with as much of these as there is. */
  predicate NameField(t: string, name: string, slashes: string, blanks: string) {
    && t == name + slashes + blanks && OnlySpacing(blanks) && (forall i :: 0 <= i < |slashes| ==> slashes[i] == '/')
    && (name != "" ==> name[|name| - 1] != '/')
    && (name + slashes != "" ==> !Spacing((name + slashes)[|name + slashes| - 1]))
  }

  ghost predicate Names(field: seq<byte>, name: string) {
    exists t: string, slashes: string, blanks: string :: TextOf(field, t) && NameField(t, name, slashes, blanks)
  }

  /** A size field: an integer with spacing around it. */
  ghost predicate Sizes(field: seq<byte>, n: int) {
    exists t: string :: TextOf(field, t) && Writes(Strip(t), n)
  }

  lemma {:induction false} SlashesOf(name: string, slashes: string)
    requires (name != "" ==> name[|name| - 1] != '/') && forall i :: 0 <= i < |slashes| ==> slashes[i] == '/'
    ensures StripTrailingSlashes(name + slashes) == name
  {
    var s := name + slashes;
    if slashes == "" {
      assert s == name;
    } else {
      var n := |slashes| - 1;
      assert s[|s| - 1] == '/' && s[..|s| - 1] == name + slashes[..n];
      SlashesOf(name, slashes[..n]);
    }
  }

  lemma {:induction false} SlashesLeft(s: string)
    ensures var r := StripTrailingSlashes(s);
            r <= s && (forall i :: |r| <= i < |s| ==> s[i] == '/') && (r != "" ==> r[|r| - 1] != '/')
  {
    if s != "" && s[|s| - 1] == '/' {
      SlashesLeft(s[..|s| - 1]);
    }
  }

  lemma NameIsRead(t: string, name: string, slashes: string, blanks: string)
    requires NameField(t, name, slashes, blanks)
    ensures StripTrailingSlashes(StripRight(t)) == name
  {
    var s := name + slashes;
    BlankIs(blanks);
    if s != "" {
      SpaceIs(s[|s| - 1]);
    }
    hide Spacing, IsSpace;
    StripRightOf(s, blanks);
    SlashesOf(name, slashes);
  }

  lemma NameIsThere(t: string) returns (slashes: string, blanks: string)
    ensures NameField(t, StripTrailingSlashes(StripRight(t)), slashes, blanks)
  {
    hide Spacing, IsSpace, StripRight, StripTrailingSlashes, Blank, OnlySpacing;
    var s := StripRight(t);
    var name := StripTrailingSlashes(s);
    StripRightRemainder(t);
    SlashesLeft(s);
    slashes, blanks := s[|name|..], t[|s|..];
    BlankIs(blanks);
    if s != "" {
      SpaceIs(s[|s| - 1]);
    }
    assert s == name + slashes;
    assert t == s + blanks;
    assert forall i :: 0 <= i < |slashes| ==> slashes[i] == s[|name| + i];
  }

  lemma TextIs(bytes: seq<byte>, t: string)
    ensures TextOf(bytes, t) <==> t == Decode(bytes)
  {
  }

  lemma NamesIs(header: seq<byte>, name: string)
    requires |header| == 60
    ensures Names(header[0..16], name) <==> NameIn(header) == name
  {
    var t := Decode(header[0..16]);
    TextIs(header[0..16], t);
    hide Decode, StripRight, StripTrailingSlashes, NameField;
    var slashes, blanks := NameIsThere(t);
    if Names(header[0..16], name) {
      var u: string, s: string, b: string :| TextOf(header[0..16], u) && NameField(u, name, s, b);
      TextIs(header[0..16], u);
      NameIsRead(u, name, s, b);
    }
  }

  lemma SizesIs(header: seq<byte>, n: int)
    requires |header| == 60
    ensures Sizes(header[48..58], n) <==> SizeIn(header) == Some(n)
  {
    hide Decode, Writes, ParseInt, Strip, TextOf;
    var t := Decode(header[48..58]);
    TextIs(header[48..58], t);
    StrippedIntegerIs(t, n);
    if Sizes(header[48..58], n) {
      var u: string :| TextOf(header[48..58], u) && Writes(Strip(u), n);
      TextIs(header[48..58], u);
    }
  }

  /** What the walk does at an offset that is not negative. */
  ghost predicate StepSays(data: seq<byte>, prefix: string, offset: nat, step: Step) {
    if offset + 60 > |data| then step == Done(Err(NoMember))
    else
      var header := data[offset..offset + 60];
      if !(header[58] == 0x60 && header[59] == 0x0a) then step == Done(Err(InvalidHeader(offset)))
      else if forall n: int :: !Sizes(header[48..58], n) then step == Done(Err(InvalidSize(offset)))
      else
        exists n: int, name: string ::
          && Sizes(header[48..58], n) && Names(header[0..16], name)
          && step == if prefix <= name then Done(Ok(Member(name, Slice(data, offset + 60, offset + 60 + n))))
                     else Next(offset + 60 + n + n % 2)
  }

  /** At every offset that is not negative the walk does exactly this. */
  lemma StepIs(data: seq<byte>, prefix: string, offset: nat, step: Step)
    ensures StepAt(data, prefix, offset) == step <==> StepSays(data, prefix, offset, step)
  {
    hide Slice, NameIn, SizeIn, Header, Sizes, Names, StartsWith;
    if offset + 60 <= |data| {
      var header := data[offset..offset + 60];
      var name, size := NameIn(header), SizeIn(header);
      HeaderIs(data, offset);
      forall n: int ensures Sizes(header[48..58], n) <==> size == Some(n) { SizesIs(header, n); }
      forall x: string ensures Names(header[0..16], x) <==> name == x { NamesIs(header, x); }
      PrefixIs(name, prefix);
      assert Names(header[0..16], name);
      assert size.Some? ==> Sizes(header[48..58], size.value);
    }
  }

  lemma PrefixIs(s: string, prefix: string)
    ensures StartsWith(s, prefix) <==> prefix <= s
  {
  }

  lemma HeaderIs(data: seq<byte>, offset: nat)
    requires offset + 60 <= |data|
    ensures Header(data, offset) == data[offset..offset + 60]
    ensures Slice(Header(data, offset), 58, 60) == END_MAGIC
            <==> data[offset..offset + 60][58] == 0x60 && data[offset..offset + 60][59] == 0x0a
  {
    var h := data[offset..offset + 60];
    assert h[58..60] == [h[58], h[59]];
  }

  /** An archive begins with "!<arch>" and a newline. */
  lemma MagicIs()
    ensures TextOf(MAGIC, "!<arch>\n")
  {
  }
}
