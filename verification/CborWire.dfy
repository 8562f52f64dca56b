/** What the codecs put on the wire, and what they accept from it, in the terms of RFC 8949: section 3 for
    heads, section 3.1 for the major types and section 3.3 for booleans and null. */
module CborWire {
  import opened Wrappers
  import opened Cbor
  import opened CborStructs
  import opened CborPieces

  // ---------------------------------------------------------------- heads

  /** The head of an item: the major type in the high three bits, then the argument in the shortest form,
      most significant byte first. */
  function Head(major: nat, v: nat): seq<int> {
    if v < 24 then [32 * major + v]
    else if v < 0x100 then [32 * major + 24, v]
    else if v < 0x1_0000 then [32 * major + 25, v / 0x100, v % 0x100]
    else if v < 0x1_0000_0000 then
      [32 * major + 26, v / 0x100_0000, v / 0x1_0000 % 0x100, v / 0x100 % 0x100, v % 0x100]
    else
      [32 * major + 27, v / 0x100_0000_0000_0000, v / 0x1_0000_0000_0000 % 0x100, v / 0x100_0000_0000 % 0x100,
       v / 0x1_0000_0000 % 0x100, v / 0x100_0000 % 0x100, v / 0x1_0000 % 0x100, v / 0x100 % 0x100, v % 0x100]
  }

  lemma TwoDigits(v: nat)
    ensures BigEndian(v, 2) == [v / 0x100 % 0x100, v % 0x100]
  {
    assert BigEndian(v / 256, 1) == [v / 256 % 256];
  }

  lemma FourDigits(v: nat)
    ensures BigEndian(v, 4) == [v / 0x100_0000 % 0x100, v / 0x1_0000 % 0x100, v / 0x100 % 0x100, v % 0x100]
  {
    TwoDigits(v / 0x1_0000);
    assert v / 256 / 256 == v / 0x1_0000 && v / 0x1_0000 / 0x100 == v / 0x100_0000;
    assert BigEndian(v / 256, 3) == BigEndian(v / 0x1_0000, 2) + [v / 256 % 256];
  }

  lemma EightDigits(v: nat)
    ensures BigEndian(v, 8) ==
            [v / 0x100_0000_0000_0000 % 0x100, v / 0x1_0000_0000_0000 % 0x100, v / 0x100_0000_0000 % 0x100,
             v / 0x1_0000_0000 % 0x100, v / 0x100_0000 % 0x100, v / 0x1_0000 % 0x100, v / 0x100 % 0x100, v % 0x100]
  {
    var high := v / 0x1_0000_0000;
    FourDigits(high);
    assert v / 256 / 256 == v / 0x1_0000 && v / 0x1_0000 / 256 == v / 0x100_0000 && v / 0x100_0000 / 256 == high;
    assert high / 0x100 == v / 0x100_0000_0000 && high / 0x1_0000 == v / 0x1_0000_0000_0000;
    assert high / 0x100_0000 == v / 0x100_0000_0000_0000;
    assert BigEndian(v / 0x100_0000, 5) == BigEndian(high, 4) + [v / 0x100_0000 % 256];
    assert BigEndian(v / 0x1_0000, 6) == BigEndian(v / 0x100_0000, 5) + [v / 0x1_0000 % 256];
    assert BigEndian(v / 256, 7) == BigEndian(v / 0x1_0000, 6) + [v / 256 % 256];
  }

  lemma TopDigit(v: uint64)
    ensures v / 0x100_0000_0000_0000 % 0x100 == v / 0x100_0000_0000_0000
  {
  }

  lemma LongHead(major: Major, v: uint64)
    requires v >= 0x1_0000_0000
    ensures WriteHeader(Header(major, v)) == Head(major, v)
  {
    var digits := BigEndian(v, 8);
    assert WriteHeader(Header(major, v)) == [32 * major + 27] + digits;
    assert Head(major, v)[0] == 32 * major + 27;
    assert digits == Head(major, v)[1..] by {
      EightDigits(v);
      TopDigit(v);
    }
  }

  lemma MiddleHead(major: Major, v: uint64)
    requires 0x100 <= v < 0x1_0000_0000
    ensures WriteHeader(Header(major, v)) == Head(major, v)
  {
    if v >= 0x1_0000 {
      FourDigits(v);
      assert v / 0x100_0000 % 0x100 == v / 0x100_0000;
    } else {
      TwoDigits(v);
      assert v / 0x100 % 0x100 == v / 0x100;
    }
  }

  /** Every header is written as such a head. */
  lemma HeaderOnWire(major: Major, v: uint64)
    ensures WriteHeader(Header(major, v)) == Head(major, v)
  {
    if v >= 0x1_0000_0000 {
      LongHead(major, v);
    } else if v >= 0x100 {
      MiddleHead(major, v);
    } else if v >= 24 {
      assert BigEndian(v, 1) == [v];
    }
  }

  // ---------------------------------------------------------------- scalars and strings

  /** Unsigned integers are major type 0; negative ones are major type 1 with argument -1 - e. */
  lemma NumbersOnWire(v: uint64, e: int64)
    ensures WriteUint(v) == Head(0, v)
    ensures WriteInt(e) == if e >= 0 then Head(0, e) else Head(1, -1 - e)
  {
    HeaderOnWire(0, v);
    IntHeaderIs(e);
    HeaderOnWire(IntHeader(e).major, IntHeader(e).extra);
  }

  lemma IntHeaderIs(e: int64)
    ensures IntHeader(e) == if e >= 0 then Header(0, e) else Header(1, -1 - e)
  {
    if e < 0 {
      var least := e == -0x8000_0000_0000_0000;
      WrapInt64Is(0 - (e as int), if least then 1 else 0);
      WrapInt64Is(if least then e - 1 else -1 - e, if least then -1 else 0);
    }
  }

  /** Byte strings are major type 2, text strings 3, arrays 4 and maps 5. */
  lemma StringsOnWire(s: Bytes, n: uint64)
    requires |s| < 0x1_0000_0000_0000_0000
    ensures WriteString(BYTES, s) == Head(2, |s|) + s && WriteString(TEXT, s) == Head(3, |s|) + s
    ensures WriteHeader(Header(ARRAY, n)) == Head(4, n) && WriteHeader(Header(MAP, n)) == Head(5, n)
  {
    HeaderOnWire(2, |s|);
    HeaderOnWire(3, |s|);
    HeaderOnWire(4, n);
    HeaderOnWire(5, n);
  }

  lemma SimpleOnWire()
    ensures WriteBool(false) == [0xf4] && WriteBool(true) == [0xf5] && NULL == 0xf6
  {
  }

  /** A list is written element by element, first to last. */
  lemma {:induction false} ListOnWire<T>(xs: seq<T>, x: T, enc: T -> Bytes)
    ensures WriteList<T>([], enc) == [] && WriteList(xs + [x], enc) == WriteList(xs, enc) + enc(x)
  {
    if xs == [] {
      assert WriteList(([x])[1..], enc) == [];
    } else {
      ListOnWire(xs[1..], x, enc);
      assert (xs + [x])[1..] == xs[1..] + [x];
    }
  }

  // ---------------------------------------------------------------- what is accepted

  /** The readers of numbers accept nothing but what is written for the number they return. */
  lemma NumbersAccepted(bs: Bytes)
    ensures ReadUint(bs).Done? ==> bs == Head(0, ReadUint(bs).value) + ReadUint(bs).rest
    ensures ReadInt(bs).Done? ==> bs == WriteInt(ReadInt(bs).value) + ReadInt(bs).rest
  {
    HeaderCanonical(bs);
    if ReadHeader(bs).Done? {
      var h := ReadHeader(bs).value;
      HeaderOnWire(h.major, h.extra);
      if ReadInt(bs).Done? {
        WrapInt64Is(h.extra, if h.extra < 0x8000_0000_0000_0000 then 0 else 1);
        WrapInt64Is(-1 - ToInt64(h.extra), 0);
        IntHeaderIs(ReadInt(bs).value);
      }
    }
  }

  /** So do the readers of booleans and of strings, and a string is not over its limit. */
  lemma StringsAccepted(major: Major, max: nat, bs: Bytes)
    requires max < 0x1_0000_0000_0000_0000
    ensures ReadBool(bs).Done? ==> bs == WriteBool(ReadBool(bs).value) + ReadBool(bs).rest
    ensures var r := ReadString(major, max, bs);
            r.Done? ==> |r.value| <= max && bs == Head(major, |r.value|) + r.value + r.rest
  {
    HeaderCanonical(bs);
    if ReadHeader(bs).Done? {
      var h := ReadHeader(bs).value;
      HeaderOnWire(h.major, h.extra);
    }
  }

  /** A struct is read from a map of at most 8192 entries and from nothing else. */
  lemma MapAccepted<S>(bs: Bytes, zero: S, field: FieldReader<S>)
    ensures ReadMap(bs, zero, field).Done? ==>
              exists n: nat, body :: n <= 8192 && bs == Head(5, n) + body && ReadEntries(n, body, zero, field).Done?
  {
    HeaderCanonical(bs);
    if ReadMap(bs, zero, field).Done? {
      var h, body := ReadHeader(bs).value, ReadHeader(bs).rest;
      HeaderOnWire(h.major, h.extra);
      assert bs == Head(5, h.extra) + body;
    }
  }

  /** The list of a SealedRefs is read from an array of at most 8192 items. */
  lemma ListAccepted(skip: Skip, bs: Bytes, t: SealedRefs)
    ensures ReadRefs(skip, t, bs).Done? ==>
              exists n: uint64, body :: n <= 8192 && bs == WriteHeader(Header(4, n)) + body
  {
    HeaderCanonical(bs);
    if ReadRefs(skip, t, bs).Done? {
      assert bs == WriteHeader(Header(4, ReadHeader(bs).value.extra)) + ReadHeader(bs).rest;
    }
  }

  /** The bytes of a SealTicket or SealSeed, where there were none, are read as a byte string of at most
      2097152 bytes, so from nothing but such a string. */
  lemma BytesAccepted(bs: Bytes, v: Sealing)
    requires v.value == []
    ensures ReadValue(v, bs) ==
            match ReadString(2, 2097152, bs)
            case Fail => Fail
            case Done(value, rest) => Done(v.(value := value), rest)
  {
    if ReadHeader(bs).Done? && ReadHeader(bs).value.extra == 0 {
      assert ReadHeader(bs).rest[..0] == [];
    }
  }

  // ---------------------------------------------------------------- structs

  const SECTOR_ID: seq<int> := [0x68, 83, 101, 99, 116, 111, 114, 73, 68]
  const OFFSET: seq<int> := [0x66, 79, 102, 102, 115, 101, 116]
  const SIZE: seq<int> := [0x64, 83, 105, 122, 101]
  const REFS: seq<int> := [0x64, 82, 101, 102, 115]
  const VALUE: seq<int> := [0x65, 86, 97, 108, 117, 101]
  const EPOCH: seq<int> := [0x65, 69, 112, 111, 99, 104]
  const START_EPOCH: seq<int> := [0x6a, 83, 116, 97, 114, 116, 69, 112, 111, 99, 104]
  const END_EPOCH: seq<int> := [0x68, 69, 110, 100, 69, 112, 111, 99, 104]
  const PUBLISH_CID: seq<int> := [0x6a, 80, 117, 98, 108, 105, 115, 104, 67, 105, 100]
  const DEAL_ID: seq<int> := [0x66, 68, 101, 97, 108, 73, 68]
  const DEAL_PROPOSAL: seq<int> := [0x6c, 68, 101, 97, 108, 80, 114, 111, 112, 111, 115, 97, 108]
  const DEAL_SCHEDULE: seq<int> := [0x6c, 68, 101, 97, 108, 83, 99, 104, 101, 100, 117, 108, 101]
  const KEEP_UNSEALED: seq<int> := [0x6c, 75, 101, 101, 112, 85, 110, 115, 101, 97, 108, 101, 100]
  const PIECE: seq<int> := [0x65, 80, 105, 101, 99, 101]
  const DEAL_INFO: seq<int> := [0x68, 68, 101, 97, 108, 73, 110, 102, 111]

  /** A field: its name as a short text string, then its value. */
  lemma FieldOnWire(name: string, value: Bytes, text: seq<int>)
    requires |name| < 24 && |text| == |name| + 1 && text[0] == 0x60 + |name|
    requires forall i :: 0 <= i < |name| ==> name[i] as int < 128 && text[i + 1] == name[i] as int
    ensures Field(name, value) == text + value
  {
    assert WriteHeader(Header(3, |name|)) == [0x60 + |name|];
    assert WriteString(TEXT, Ascii(name)) == text;
  }

  lemma RefOnWire(v: SealedRef)
    ensures MarshalRef(v) ==
            [0xa3] + (SECTOR_ID + WriteUint(v.sectorId) + (OFFSET + WriteUint(v.offset) + (SIZE + WriteUint(v.size))))
  {
    FieldOnWire("SectorID", WriteUint(v.sectorId), SECTOR_ID);
    FieldOnWire("Offset", WriteUint(v.offset), OFFSET);
    FieldOnWire("Size", WriteUint(v.size), SIZE);
  }

  lemma SmallNumber(v: uint64)
    requires v < 24
    ensures WriteUint(v) == [v]
  {
  }

  lemma TwoByteNumber(high: byte, low: byte)
    requires high > 0
    ensures WriteUint(high * 256 + low) == [0x19, high, low]
  {
    var v := high * 256 + low;
    MiddleHead(0, v);
    assert v / 256 == high && v % 256 == low;
  }

  lemma RefExample()
    ensures MarshalRef(SealedRef(5, 0, 300)) == [0xa3] + (SECTOR_ID + [5] + (OFFSET + [0] + (SIZE + [0x19, 1, 44])))
  {
    SmallNumber(5);
    SmallNumber(0);
    TwoByteNumber(1, 44);
    RefOnWire(SealedRef(5, 0, 300));
  }

  /** A list of more than 8192 is not written. */
  lemma RefsOnWire(v: SealedRefs)
    ensures MarshalRefs(v) ==
            if |v.refs| > 8192 then None
            else Some([0xa1] + (REFS + (WriteHeader(Header(4, |v.refs|)) + WriteList(v.refs, MarshalRef))))
  {
    if |v.refs| <= 8192 {
      FieldOnWire("Refs", WriteRefs(v), REFS);
    }
  }

  /** More than 2097152 bytes are not written. */
  lemma SealingOnWire(v: Sealing)
    ensures MarshalSealing(v) ==
            if |v.value| > 2097152 then None
            else Some([0xa2] + (VALUE + WriteString(2, v.value) + (EPOCH + WriteInt(v.epoch))))
  {
    if |v.value| <= 2097152 {
      FieldOnWire("Value", WriteString(BYTES, v.value), VALUE);
      FieldOnWire("Epoch", WriteInt(v.epoch), EPOCH);
    }
  }

  lemma ScheduleOnWire(v: DealSchedule)
    ensures MarshalSchedule(v) == [0xa2] + (START_EPOCH + WriteInt(v.start) + (END_EPOCH + WriteInt(v.end)))
  {
    FieldOnWire("StartEpoch", WriteInt(v.start), START_EPOCH);
    FieldOnWire("EndEpoch", WriteInt(v.end), END_EPOCH);
  }

  function PointerOnWire<T>(enc: T -> Bytes, x: Option<T>): seq<int> {
    if x.Some? then enc(x.value) else [0xf6]
  }

  lemma PublishCidOnWire(value: Bytes)
    ensures Field("PublishCid", value) == PUBLISH_CID + value
  {
    FieldOnWire("PublishCid", value, PUBLISH_CID);
  }

  lemma DealIDOnWire(value: Bytes)
    ensures Field("DealID", value) == DEAL_ID + value
  {
    FieldOnWire("DealID", value, DEAL_ID);
  }

  lemma DealProposalOnWire(value: Bytes)
    ensures Field("DealProposal", value) == DEAL_PROPOSAL + value
  {
    FieldOnWire("DealProposal", value, DEAL_PROPOSAL);
  }

  lemma DealScheduleOnWire(value: Bytes)
    ensures Field("DealSchedule", value) == DEAL_SCHEDULE + value
  {
    FieldOnWire("DealSchedule", value, DEAL_SCHEDULE);
  }

  lemma KeepUnsealedOnWire(value: Bytes)
    ensures Field("KeepUnsealed", value) == KEEP_UNSEALED + value
  {
    FieldOnWire("KeepUnsealed", value, KEEP_UNSEALED);
  }

  lemma InfoOnWire<C, P>(f: Foreign<C, P>, v: PieceDealInfo<C, P>)
    ensures MarshalInfo(f, v) ==
            [0xa5] + (PUBLISH_CID + PointerOnWire(f.cid.enc, v.publishCid) +
                      (DEAL_ID + WriteUint(v.dealId) +
                       (DEAL_PROPOSAL + PointerOnWire(f.proposal.enc, v.proposal) +
                        (DEAL_SCHEDULE + MarshalSchedule(v.schedule) +
                         (KEEP_UNSEALED + WriteBool(v.keepUnsealed))))))
  {
    PublishCidOnWire(WriteOptional(f.cid.enc, v.publishCid));
    DealIDOnWire(WriteUint(v.dealId));
    DealProposalOnWire(WriteOptional(f.proposal.enc, v.proposal));
    DealScheduleOnWire(MarshalSchedule(v.schedule));
    KeepUnsealedOnWire(WriteBool(v.keepUnsealed));
  }

  lemma PieceOnWire<A, I>(pieces: Codec<A>, infos: Codec<I>, v: SectorPiece<A, I>)
    ensures MarshalPiece(pieces, infos, v) ==
            [0xa2] + (PIECE + pieces.enc(v.piece) + (DEAL_INFO + PointerOnWire(infos.enc, v.info)))
  {
    FieldOnWire("Piece", pieces.enc(v.piece), PIECE);
    FieldOnWire("DealInfo", WriteOptional(infos.enc, v.info), DEAL_INFO);
  }

  // ---------------------------------------------------------------- a field that comes twice

  function Twice(name: string, a: Bytes, b: Bytes): Bytes
    requires |name| <= MAX_LENGTH
  {
    [0xa2] + (Field(name, a) + Field(name, b))
  }

  lemma ReadEntry<S>(field: FieldReader<S>, name: string, n: nat, acc: S, value: Bytes)
    requires |name| <= MAX_LENGTH
    ensures ReadEntries(n + 1, Field(name, value), acc, field) ==
            match field(Ascii(name), acc, value)
            case Fail => Fail
            case Done(acc', rest) => ReadEntries(n, rest, acc', field)
  {
    StringRoundTrip(TEXT, MAX_LENGTH, Ascii(name), value);
  }

  /** The second reading starts from what the first one left. */
  lemma TwiceRead<S>(field: FieldReader<S>, name: string, zero: S, a: Bytes, b: Bytes, rest: Bytes, mid: S)
    requires |name| <= MAX_LENGTH
    requires field(Ascii(name), zero, a + Field(name, b + rest)) == Done(mid, Field(name, b + rest))
    ensures ReadMap(Twice(name, a, b) + rest, zero, field) == field(Ascii(name), mid, b + rest)
  {
    var tail := Field(name, b + rest);
    assert Field(name, a) + Field(name, b) + rest == Field(name, a + tail);
    MapHeaderByte(2);
    assert Twice(name, a, b) + rest == WriteHeader(Header(MAP, 2)) + Field(name, a + tail);
    ReadMapHeader(2, Field(name, a + tail), zero, field);
    ReadEntry(field, name, 1, zero, a + tail);
    ReadEntry(field, name, 0, mid, b + rest);
  }

  lemma RefsHead(v: SealedRefs, rest: Bytes)
    requires |v.refs| <= MAX_LENGTH
    ensures ReadHeader(WriteRefs(v) + rest) == Done(Header(ARRAY, |v.refs|), WriteList(v.refs, MarshalRef) + rest)
  {
    var body := WriteList(v.refs, MarshalRef) + rest;
    assert WriteRefs(v) + rest == WriteHeader(Header(ARRAY, |v.refs|)) + body;
    HeaderRoundTrip(Header(ARRAY, |v.refs|), body);
  }

  lemma ReadRefsStartsOver(skip: Skip, t: SealedRefs, t': SealedRefs, bs: Bytes)
    ensures ReadHeader(bs).Done? && ReadHeader(bs).value.extra > 0 ==> ReadRefs(skip, t, bs) == ReadRefs(skip, t', bs)
  {
  }

  lemma ReadRefsOver(skip: Skip, v: SealedRefs, t: SealedRefs, rest: Bytes)
    requires |v.refs| <= MAX_LENGTH
    ensures ReadRefs(skip, t, WriteRefs(v) + rest) == Done(if v.refs == [] then t else v, rest)
  {
    RefsHead(v, rest);
    if v.refs == [] {
      assert WriteList(v.refs, MarshalRef) + rest == rest;
    } else {
      ReadRefsBack(skip, v, ZeroRefs, rest);
      ReadRefsStartsOver(skip, t, ZeroRefs, WriteRefs(v) + rest);
    }
  }

  /** A list that comes twice is the second one, unless that is empty: an empty list changes nothing. */
  lemma RefsTwice(skip: Skip, v: SealedRefs, w: SealedRefs, rest: Bytes)
    requires |v.refs| <= MAX_LENGTH && |w.refs| <= MAX_LENGTH
    ensures UnmarshalRefs(skip)(Twice("Refs", WriteRefs(v), WriteRefs(w)) + rest) == Done(if w.refs == [] then v else w, rest)
  {
    ReadRefsBack(skip, v, ZeroRefs, Field("Refs", WriteRefs(w) + rest));
    TwiceRead(RefsField(skip), "Refs", ZeroRefs, WriteRefs(v), WriteRefs(w), rest, v);
    ReadRefsOver(skip, w, v, rest);
  }

  lemma ReadValueOver(t: Sealing, w: Bytes, rest: Bytes)
    requires |w| <= BYTE_ARRAY_MAX_LEN
    ensures ReadValue(t, WriteString(BYTES, w) + rest) ==
            if w != [] then Done(t.(value := w), rest)
            else if |rest| < |t.value| then Fail
            else Done(t.(value := rest[..|t.value|]), rest[|t.value|..])
  {
    assert WriteString(BYTES, w) + rest == WriteHeader(Header(BYTES, |w|)) + (w + rest);
    HeaderRoundTrip(Header(BYTES, |w|), w + rest);
    assert w == [] ==> w + rest == rest;
  }

  /** Bytes that come twice are the second ones, but an empty second string makes the reader take as many
      bytes as the first had from what follows the struct. */
  lemma ValueTwice(skip: Skip, v: Bytes, w: Bytes, rest: Bytes)
    requires |v| <= BYTE_ARRAY_MAX_LEN && |w| <= BYTE_ARRAY_MAX_LEN
    ensures UnmarshalSealing(skip)(Twice("Value", WriteString(BYTES, v), WriteString(BYTES, w)) + rest) ==
            if w != [] then Done(Sealing(w, 0), rest)
            else if |rest| < |v| then Fail
            else Done(Sealing(rest[..|v|], 0), rest[|v|..])
  {
    var a, b := WriteString(BYTES, v), WriteString(BYTES, w);
    ReadValueBack(Sealing(v, 0), ZeroSealing, Field("Value", b + rest));
    TwiceRead(SealingField(skip), "Value", ZeroSealing, a, b, rest, Sealing(v, 0));
    ReadValueOver(Sealing(v, 0), w, rest);
  }

  /** A pointer that comes twice is the second one, unless that is null: a null changes nothing. */
  lemma PointerTwice<A(!new), I(!new)>(zero: A, pieces: Codec<A>, infos: Codec<I>, skip: Skip, x: Option<I>, y: Option<I>,
                                       rest: Bytes)
    requires Lawful(infos)
    ensures UnmarshalPiece(zero, pieces, infos, skip)(
              Twice("DealInfo", WriteOptional(infos.enc, x), WriteOptional(infos.enc, y)) + rest)
            == Done(SectorPiece(zero, if y.None? then x else y), rest)
  {
    var a, b := WriteOptional(infos.enc, x), WriteOptional(infos.enc, y);
    var field := PieceField(pieces, infos, skip);
    assert |Ascii("DealInfo")| == 8 && |Ascii("Piece")| == 5;
    OptionalRoundTrip(infos, x, Field("DealInfo", b + rest));
    TwiceRead(field, "DealInfo", SectorPiece(zero, None), a, b, rest, SectorPiece(zero, x));
    OptionalRoundTrip(infos, y, rest);
    assert y.None? ==> (b + rest)[0] == NULL && (b + rest)[1..] == rest;
    assert y.Some? ==> (b + rest)[0] == b[0] != NULL;
  }
}
