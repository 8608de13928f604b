/** Finding a member of an ar archive by its name. */
module ArArchive {
  import opened Results
  import opened Lines
  import opened Decimals
  import opened PosixPath

  newtype byte = b: int | 0 <= b < 256

  const MAGIC: seq<byte> := [0x21, 0x3c, 0x61, 0x72, 0x63, 0x68, 0x3e, 0x0a]
  const HEADER_LEN := 60
  const END_MAGIC: seq<byte> := [0x60, 0x0a]

  datatype ArError = NotAnArchive | InvalidHeader(offset: int) | InvalidSize(offset: int) | NoMember

  datatype Selected = Magic(bytes: seq<byte>) | Member(name: string, bytes: seq<byte>)

  // ----- Python's bytes -----

  /** One end of a slice: from the end of the data when negative, and never outside it. */
  function Bound(i: int, n: nat): (r: nat)
    ensures r <= n
  {
    if i >= n then n else if i >= 0 then i else if n + i >= 0 then n + i else 0
  }

  /** data[lo:hi] */
  function Slice(data: seq<byte>, lo: int, hi: int): (s: seq<byte>)
    ensures 0 <= lo <= hi <= |data| ==> s == data[lo..hi]
  {
    var l, h := Bound(lo, |data|), Bound(hi, |data|);
    if l <= h then data[l..h] else []
  }

  /** ASCII with a replacement character for every other byte. */
  function Decode(bytes: seq<byte>): (s: string)
    ensures |s| == |bytes|
  {
    seq(|bytes|, i requires 0 <= i < |bytes| => if bytes[i] < 128 then bytes[i] as char else '\U{FFFD}')
  }

  // ----- one step of the walk -----

  function Header(data: seq<byte>, offset: int): seq<byte> {
    Slice(data, offset, offset + HEADER_LEN)
  }

  /** The name of a member, without the blanks and slashes at its end. */
  function NameIn(header: seq<byte>): string {
    StripTrailingSlashes(StripRight(Decode(Slice(header, 0, 16))))
  }

  function SizeIn(header: seq<byte>): Option<int> {
    ParseInt(Strip(Decode(Slice(header, 48, 58))))
  }

  function Padded(size: int): int {
    size + size % 2
  }

  datatype Step = Done(result: Result<Selected, ArError>) | Next(offset: int)

  function StepAt(data: seq<byte>, prefix: string, offset: int): Step {
    if offset >= |data| || offset + HEADER_LEN > |data| then Done(Err(NoMember))
    else
      var header := Header(data, offset);
      if Slice(header, 58, 60) != END_MAGIC then Done(Err(InvalidHeader(offset)))
      else
        match SizeIn(header)
        case None => Done(Err(InvalidSize(offset)))
        case Some(size) =>
          var start := offset + HEADER_LEN;
          if StartsWith(NameIn(header), prefix) then Done(Ok(Member(NameIn(header), Slice(data, start, start + size))))
          else Next(start + Padded(size))
  }

  /** The walk from an offset ends with a result after so many steps to another offset. */
  ghost predicate EndsAfter(data: seq<byte>, prefix: string, offset: int, steps: nat, r: Result<Selected, ArError>)
    decreases steps
  {
    match StepAt(data, prefix, offset)
    case Done(result) => steps == 0 && r == result
    case Next(next) => steps > 0 && EndsAfter(data, prefix, next, steps - 1, r)
  }

  ghost predicate Ends(data: seq<byte>, prefix: string, offset: int) {
    exists steps: nat, r :: EndsAfter(data, prefix, offset, steps, r)
  }

  /** The loop of the parser, which returns only when the walk ends. */
  method ParseArMember(data: seq<byte>, prefix: string) returns (r: Result<Selected, ArError>)
    requires prefix != "" && MAGIC <= data ==> Ends(data, prefix, |MAGIC|)
    ensures prefix == "" ==> r == Ok(Magic(Slice(data, 0, |MAGIC|)))
    ensures prefix != "" && !(MAGIC <= data) ==> r == Err(NotAnArchive)
    ensures prefix != "" && MAGIC <= data ==> exists steps: nat :: EndsAfter(data, prefix, |MAGIC|, steps, r)
  {
    hide StripRight, StripTrailingSlashes, Strip, ParseInt, Decode, Slice;
    if prefix == "" {
      return Ok(Magic(Slice(data, 0, |MAGIC|)));
    }
    if |data| < |MAGIC| || data[..|MAGIC|] != MAGIC {
      return Err(NotAnArchive);
    }
    var offset := |MAGIC|;
    ghost var steps: nat, outcome :| EndsAfter(data, prefix, |MAGIC|, steps, outcome);
    ghost var left := steps;
    while offset < |data|
      invariant EndsAfter(data, prefix, offset, left, outcome)
      decreases left
    {
      if offset + HEADER_LEN > |data| {
        break;
      }
      var header := Slice(data, offset, offset + HEADER_LEN);
      var nameRaw := StripRight(Decode(Slice(header, 0, 16)));
      var sizeRaw := Strip(Decode(Slice(header, 48, 58)));
      if Slice(header, 58, 60) != END_MAGIC {
        return Err(InvalidHeader(offset));
      }
      var memberSize := ParseInt(sizeRaw);
      if memberSize.None? {
        return Err(InvalidSize(offset));
      }
      var contentOffset := offset + HEADER_LEN;
      var contentEnd := contentOffset + memberSize.value;
      var memberName := StripTrailingSlashes(nameRaw);
      if StartsWith(memberName, prefix) {
        return Ok(Member(memberName, Slice(data, contentOffset, contentEnd)));
      }
      offset := contentEnd + memberSize.value % 2;
      left := left - 1;
    }
    r := Err(NoMember);
  }

  // ----- when the walk ends -----

  lemma {:induction false} OneEnd(data: seq<byte>, prefix: string, offset: int,
                                  m: nat, n: nat, r: Result<Selected, ArError>, q: Result<Selected, ArError>)
    requires EndsAfter(data, prefix, offset, m, r) && EndsAfter(data, prefix, offset, n, q)
    ensures m == n && r == q
    decreases m
  {
    hide StepAt;
    var step := StepAt(data, prefix, offset);
    if step.Next? {
      OneEnd(data, prefix, step.offset, m - 1, n - 1, r, q);
    }
  }

  /** A walk that goes on is at an offset inside the data, from either end. */
  lemma WalkStaysInside(data: seq<byte>, prefix: string, offset: int)
    requires StepAt(data, prefix, offset).Next?
    ensures -|data| <= offset < |data|
  {
    hide SizeIn, NameIn;
    var header := Header(data, offset);
    assert |Slice(header, 58, 60)| == 2;
    assert offset < -|data| ==> |header| < 60;
  }

  /** An offset inside the data from which the walk goes on and ends after at most so many steps. */
  ghost predicate OnTheWay(data: seq<byte>, prefix: string, offset: int, steps: nat, r: Result<Selected, ArError>) {
    -|data| <= offset < |data| && exists k: nat :: 1 <= k <= steps && EndsAfter(data, prefix, offset, k, r)
  }

  /** The offsets a walk that ends goes through before its last step are all different. */
  lemma {:induction false} VisitedOffsets(data: seq<byte>, prefix: string, offset: int, steps: nat,
                                          r: Result<Selected, ArError>)
    returns (visited: set<int>)
    requires EndsAfter(data, prefix, offset, steps, r)
    ensures |visited| == steps && forall o :: o in visited ==> OnTheWay(data, prefix, o, steps, r)
    decreases steps
  {
    hide StepAt;
    visited := {};
    if steps > 0 {
      var next := StepAt(data, prefix, offset).offset;
      var rest := VisitedOffsets(data, prefix, next, steps - 1, r);
      WalkStaysInside(data, prefix, offset);
      if OnTheWay(data, prefix, offset, steps - 1, r) {
        var k: nat :| 1 <= k <= steps - 1 && EndsAfter(data, prefix, offset, k, r);
        OneEnd(data, prefix, offset, k, steps, r, r);
        assert false;
      }
      visited := rest + {offset};
      assert OnTheWay(data, prefix, offset, steps, r);
      forall o | o in rest
        ensures OnTheWay(data, prefix, o, steps, r)
      {
        assert OnTheWay(data, prefix, o, steps - 1, r);
      }
    }
  }

  lemma {:induction false} Pigeonhole(s: set<int>, lo: int, hi: int)
    requires lo <= hi && forall x :: x in s ==> lo <= x < hi
    ensures |s| <= hi - lo
    decreases hi - lo
  {
    if lo < hi {
      Pigeonhole(s - {hi - 1}, lo, hi - 1);
    } else {
      assert s == {};
    }
  }

  /** A walk ends within twice as many steps as there are bytes, or never. */
  lemma WalkEndsSoon(data: seq<byte>, prefix: string, offset: int)
    ensures Ends(data, prefix, offset)
            <==> exists steps: nat, r :: steps <= 2 * |data| && EndsAfter(data, prefix, offset, steps, r)
  {
    hide EndsAfter;
    if Ends(data, prefix, offset) {
      var steps: nat, r :| EndsAfter(data, prefix, offset, steps, r);
      var visited := VisitedOffsets(data, prefix, offset, steps, r);
      Pigeonhole(visited, -|data|, |data|);
    }
  }

  /** A step goes forward exactly when the size is above -60, and stands still at -60 and -61. */
  lemma StepMoves(data: seq<byte>, prefix: string, offset: int)
    requires StepAt(data, prefix, offset).Next?
    ensures var size, next := SizeIn(Header(data, offset)), StepAt(data, prefix, offset).offset;
            && size.Some?
            && (next > offset <==> size.value > -60)
            && (next == offset <==> size.value == -60 || size.value == -61)
  {
    hide SizeIn, NameIn, Slice;
  }

  lemma {:induction false} StandingStillNeverEnds(data: seq<byte>, prefix: string, offset: int, steps: nat,
                                                  r: Result<Selected, ArError>)
    requires StepAt(data, prefix, offset) == Next(offset)
    ensures !EndsAfter(data, prefix, offset, steps, r)
  {
    hide StepAt;
    if steps > 0 {
      StandingStillNeverEnds(data, prefix, offset, steps - 1, r);
    }
  }

  /** Where the walk is after so many steps, as long as it goes on. */
  function OffsetAfter(data: seq<byte>, prefix: string, offset: int, steps: nat): Option<int>
    decreases steps
  {
    if steps == 0 then Some(offset)
    else
      match StepAt(data, prefix, offset)
      case Done(_) => None
      case Next(next) => OffsetAfter(data, prefix, next, steps - 1)
  }

  /** No header the walk goes on from has a size of -60 or less. */
  ghost predicate GoesForward(data: seq<byte>, prefix: string, offset: int) {
    forall steps: nat, o :: OffsetAfter(data, prefix, offset, steps) == Some(o) && StepAt(data, prefix, o).Next?
                            ==> SizeIn(Header(data, o)).Some? && SizeIn(Header(data, o)).value > -60
  }

  lemma GoesForwardOn(data: seq<byte>, prefix: string, offset: int, next: int)
    requires GoesForward(data, prefix, offset) && StepAt(data, prefix, offset) == Next(next)
    ensures SizeIn(Header(data, offset)).Some? && SizeIn(Header(data, offset)).value > -60
    ensures GoesForward(data, prefix, next)
  {
    hide StepAt, SizeIn, Header;
    assert OffsetAfter(data, prefix, offset, 0) == Some(offset);
    forall steps: nat, o | OffsetAfter(data, prefix, next, steps) == Some(o)
      ensures OffsetAfter(data, prefix, offset, steps + 1) == Some(o)
    {
    }
  }

  /** A walk that finds no size of -60 or less on its way ends. */
  lemma {:induction false} ForwardWalkEnds(data: seq<byte>, prefix: string, offset: int)
    requires GoesForward(data, prefix, offset)
    ensures Ends(data, prefix, offset)
    decreases |data| - offset
  {
    hide StepAt, SizeIn, Header, GoesForward;
    var step := StepAt(data, prefix, offset);
    match step
    case Done(r) => {
      assert EndsAfter(data, prefix, offset, 0, r);
    }
    case Next(next) => {
      StepMoves(data, prefix, offset);
      WalkStaysInside(data, prefix, offset);
      GoesForwardOn(data, prefix, offset, next);
      ForwardWalkEnds(data, prefix, next);
      var steps: nat, r :| EndsAfter(data, prefix, next, steps, r);
      assert EndsAfter(data, prefix, offset, steps + 1, r);
    }
  }

  // ----- well-formed archives -----

  predicate AllAscii(s: string) {
    forall i :: 0 <= i < |s| ==> s[i] < 128 as char
  }

  function Ascii(s: string): (bytes: seq<byte>)
    requires AllAscii(s)
    ensures |bytes| == |s|
  {
    seq(|s|, i requires 0 <= i < |s| => s[i] as int as byte)
  }

  /** Text with blanks up to the width of its field. */
  function Pad(s: string, width: nat): (t: string)
    requires |s| <= width
    ensures |t| == width
    decreases width
  {
    if |s| == width then s else Pad(s, width - 1) + " "
  }

  datatype Entry = Entry(title: string, meta: seq<byte>, content: seq<byte>)

  predicate WellFormed(e: Entry) {
    |e.title| <= 16 && AllAscii(e.title) && |e.meta| == 32 && |Decimal(|e.content|)| <= 10
  }

  lemma {:induction false} PadIsStripped(s: string, width: nat)
    requires |s| <= width
    ensures StripRight(Pad(s, width)) == StripRight(s)
    decreases width
  {
    hide StripRight;
    if |s| < width {
      PadIsStripped(s, width - 1);
      BlankIsStripped(Pad(s, width - 1));
    }
  }

  lemma BlankIsStripped(s: string)
    ensures StripRight(s + " ") == StripRight(s)
  {
    var t := s + " ";
    assert t[..|t| - 1] == s && IsSpace(t[|t| - 1]);
  }

  lemma {:induction false} PadIsAscii(s: string, width: nat)
    requires |s| <= width
    ensures AllAscii(s) ==> AllAscii(Pad(s, width))
    ensures |s| > 0 ==> Pad(s, width)[0] == s[0]
    decreases width
  {
    if |s| < width {
      PadIsAscii(s, width - 1);
    }
  }

  lemma DecodeAscii(s: string)
    requires AllAscii(s)
    ensures Decode(Ascii(s)) == s
  {
  }

  function RawHeader(title: string, meta: seq<byte>, size: string): (h: seq<byte>)
    requires |title| <= 16 && AllAscii(title) && |meta| == 32 && |size| <= 10 && AllAscii(size)
    ensures |h| == HEADER_LEN
  {
    PadIsAscii(title, 16);
    PadIsAscii(size, 10);
    Ascii(Pad(title, 16)) + meta + Ascii(Pad(size, 10)) + END_MAGIC
  }

  function HeaderOf(e: Entry): (h: seq<byte>)
    requires WellFormed(e)
    ensures |h| == HEADER_LEN
  {
    RawHeader(e.title, e.meta, Decimal(|e.content|))
  }

  /** A header, the content, and a newline after content of odd length. */
  function Encode(e: Entry): (bytes: seq<byte>)
    requires WellFormed(e)
    ensures |bytes| == HEADER_LEN + Padded(|e.content|)
  {
    HeaderOf(e) + e.content + if |e.content| % 2 == 1 then [0x0a] else []
  }

  function EncodeAll(es: seq<Entry>): seq<byte>
    requires forall e :: e in es ==> WellFormed(e)
  {
    if es == [] then [] else Encode(es[0]) + EncodeAll(es[1..])
  }

  function TrimmedName(title: string): string {
    StripTrailingSlashes(StripRight(title))
  }

  function Trimmed(e: Entry): string {
    TrimmedName(e.title)
  }

  /** The first entry whose trimmed name begins with the prefix. */
  function Choose(es: seq<Entry>, prefix: string): Result<Selected, ArError> {
    if es == [] then Err(NoMember)
    else if StartsWith(Trimmed(es[0]), prefix) then Ok(Member(Trimmed(es[0]), es[0].content))
    else Choose(es[1..], prefix)
  }

  lemma HeaderIsRead(title: string, meta: seq<byte>, size: string)
    requires |title| <= 16 && AllAscii(title) && |meta| == 32 && |size| <= 10 && AllAscii(size)
    requires size != "" && Stripped(size)
    ensures var h := RawHeader(title, meta, size);
            Slice(h, 58, 60) == END_MAGIC && NameIn(h) == TrimmedName(title) && SizeIn(h) == ParseInt(size)
  {
    hide StripRight, StripTrailingSlashes, ParseInt, Strip, Pad, Ascii, Decode;
    var h, titleField, sizeField := RawHeader(title, meta, size), Pad(title, 16), Pad(size, 10);
    PadIsStripped(title, 16);
    PadIsAscii(title, 16);
    PadIsAscii(size, 10);
    assert h[..16] == Ascii(titleField) && h[48..58] == Ascii(sizeField) && h[58..60] == END_MAGIC;
    DecodeAscii(titleField);
    DecodeAscii(sizeField);
    SizeIsRead(size);
    hide RawHeader;
  }

  lemma SizeIsRead(size: string)
    requires size != "" && Stripped(size) && |size| <= 10
    ensures Strip(Pad(size, 10)) == size
  {
    PadIsStripped(size, 10);
    PadIsAscii(size, 10);
    StripIsStripped(size);
    assert StripLeft(Pad(size, 10)) == Pad(size, 10);
    assert StripLeft(size) == size;
  }

  lemma StepWith(data: seq<byte>, prefix: string, offset: nat, header: seq<byte>, size: int)
    requires offset + HEADER_LEN <= |data| && data[offset..offset + HEADER_LEN] == header
    requires Slice(header, 58, 60) == END_MAGIC && SizeIn(header) == Some(size)
    ensures var start := offset + HEADER_LEN;
            StepAt(data, prefix, offset)
            == if StartsWith(NameIn(header), prefix) then Done(Ok(Member(NameIn(header), Slice(data, start, start + size))))
               else Next(start + Padded(size))
  {
    hide NameIn, SizeIn, Slice, StartsWith;
    assert Header(data, offset) == header;
    hide Header;
  }

  lemma EntryHeader(e: Entry)
    requires WellFormed(e)
    ensures var h := HeaderOf(e);
            Slice(h, 58, 60) == END_MAGIC && NameIn(h) == Trimmed(e) && SizeIn(h) == Some(|e.content|)
  {
    hide ParseInt, Decimal, NameIn, SizeIn, Slice, RawHeader, TrimmedName;
    var size := Decimal(|e.content|);
    HeaderIsRead(e.title, e.meta, size);
    DecimalIsStripped(|e.content|);
    NumeralIsRead(|e.content|, size);
  }

  lemma EntryBytes(data: seq<byte>, before: seq<byte>, e: Entry, after: seq<byte>)
    requires WellFormed(e) && data == before + Encode(e) + after
    ensures var start := |before| + HEADER_LEN;
            && start + |e.content| <= |data|
            && data[|before|..start] == HeaderOf(e)
            && data[start..start + |e.content|] == e.content
  {
    hide HeaderOf, WellFormed;
  }

  /** From the start of an entry the walk reads its header and content. */
  lemma EntryIsRead(data: seq<byte>, prefix: string, before: seq<byte>, e: Entry, after: seq<byte>)
    requires WellFormed(e) && data == before + Encode(e) + after
    ensures StepAt(data, prefix, |before|)
            == if StartsWith(Trimmed(e), prefix) then Done(Ok(Member(Trimmed(e), e.content)))
               else Next(|before + Encode(e)|)
  {
    hide HeaderOf, Encode, NameIn, SizeIn, Trimmed, Decimal, StepAt, Slice, WellFormed;
    EntryBytes(data, before, e, after);
    EntryHeader(e);
    StepWith(data, prefix, |before|, HeaderOf(e), |e.content|);
  }

  lemma EndIsReached(data: seq<byte>, prefix: string)
    ensures EndsAfter(data, prefix, |data|, 0, Err(NoMember))
  {
  }

  lemma {:induction false} EntriesAreWalked(data: seq<byte>, prefix: string, before: seq<byte>, es: seq<Entry>)
    returns (steps: nat)
    requires (forall e :: e in es ==> WellFormed(e)) && data == before + EncodeAll(es)
    ensures EndsAfter(data, prefix, |before|, steps, Choose(es, prefix))
    decreases |es|
  {
    hide StepAt, Encode, WellFormed, Trimmed, StartsWith;
    if es == [] {
      assert data == before;
      EndIsReached(data, prefix);
      steps := 0;
    } else {
      assert es[0] in es;
      var e, after := es[0], EncodeAll(es[1..]);
      assert data == before + Encode(e) + after;
      EntryIsRead(data, prefix, before, e, after);
      if StartsWith(Trimmed(e), prefix) {
        steps := 0;
      } else {
        var rest := EntriesAreWalked(data, prefix, before + Encode(e), es[1..]);
        steps := rest + 1;
      }
    }
  }

  function Archive(es: seq<Entry>): seq<byte>
    requires forall e :: e in es ==> WellFormed(e)
  {
    MAGIC + EncodeAll(es)
  }

  /** In a well-formed archive the walk ends and selects exactly the first entry with the prefix. */
  lemma ArchiveIsSearched(es: seq<Entry>, prefix: string, steps: nat, r: Result<Selected, ArError>)
    requires forall e :: e in es ==> WellFormed(e)
    ensures Ends(Archive(es), prefix, |MAGIC|)
    ensures EndsAfter(Archive(es), prefix, |MAGIC|, steps, r) ==> r == Choose(es, prefix)
  {
    hide EndsAfter;
    var data := Archive(es);
    var n := EntriesAreWalked(data, prefix, MAGIC, es);
    if EndsAfter(data, prefix, |MAGIC|, steps, r) {
      OneEnd(data, prefix, |MAGIC|, steps, n, r, Choose(es, prefix));
    }
  }

  // ----- a size that is negative -----

  lemma MinusSixty(text: string)
    requires text == "-60"
    ensures AllAscii(text) && Stripped(text) && ParseInt(text) == Some(-60)
  {
    StripIsStripped(text);
    hide Strip;
    assert text[1..] == "60" && "60"[..1] == "6";
  }

  lemma StuckHeader(header: seq<byte>, prefix: string)
    requires |header| == HEADER_LEN && Slice(header, 58, 60) == END_MAGIC
    requires SizeIn(header) == Some(-60) && !StartsWith(NameIn(header), prefix)
    ensures !Ends(MAGIC + header, prefix, |MAGIC|)
  {
    hide NameIn, SizeIn, StepAt, EndsAfter, Slice, StartsWith;
    var data := MAGIC + header;
    assert data[8..68] == header;
    StepWith(data, prefix, 8, header, -60);
    forall steps: nat, r
      ensures !EndsAfter(data, prefix, 8, steps, r)
    {
      StandingStillNeverEnds(data, prefix, 8, steps, r);
    }
  }

  /** An archive of one header whose size is -60: unless it has the name, the walk never ends. */
  lemma NegativeSizeNeverEnds(title: string, meta: seq<byte>, prefix: string, size: string)
    requires |title| <= 16 && AllAscii(title) && |meta| == 32 && !StartsWith(TrimmedName(title), prefix)
    requires size == "-60"
    ensures AllAscii(size) && !Ends(MAGIC + RawHeader(title, meta, size), prefix, |MAGIC|)
  {
    MinusSixty(size);
    hide NameIn, SizeIn, Ends, RawHeader, Stripped, ParseInt, TrimmedName, Slice, StartsWith, AllAscii;
    HeaderIsRead(title, meta, size);
    StuckHeader(RawHeader(title, meta, size), prefix);
  }
}
