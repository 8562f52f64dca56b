/** The generated codecs of api/cbor_gen.go. Each struct is a map from field names to values; decoding
    starts from the zero struct and reads the entries as they come. */
module CborStructs {
  import opened Wrappers
  import opened Cbor

  /** ScanForLinks as it is used on unknown fields: it moves past something, and its error is dropped. */
  type Skip = Bytes -> Bytes

  /** A codec of another package. */
  datatype Codec<!T> = Codec(enc: T -> Bytes, dec: Bytes -> Parsed<T>)

  ghost predicate Lawful<T(!new)>(c: Codec<T>) {
    && RoundTrips(c.enc, c.dec)
    && forall x :: c.enc(x) != [] && c.enc(x)[0] != NULL
  }

  function Field(name: string, value: Bytes): Bytes
    requires |name| <= MAX_LENGTH
  {
    WriteString(TEXT, Ascii(name)) + value
  }

  // ---------------------------------------------------------------- writing a few entries

  lemma MapHeaderByte(n: nat)
    requires n < 24
    ensures WriteHeader(Header(MAP, n)) == [160 + n]
  {
  }

  lemma UintRoundTrip(v: uint64, rest: Bytes)
    ensures ReadUint(WriteUint(v) + rest) == Done(v, rest)
  {
    HeaderRoundTrip(Header(UNSIGNED, v), rest);
  }

  function Written<S>(e: Entry<S>): Bytes
    requires |e.name| <= MAX_LENGTH
  {
    WriteString(TEXT, e.name) + e.bytes
  }

  lemma One<S>(es: seq<Entry<S>>, acc: S)
    requires |es| == 1 && |es[0].name| <= MAX_LENGTH
    ensures Fold(es, acc) == es[0].update(acc)
    ensures WriteMap(es) == [161] + (WriteString(TEXT, es[0].name) + es[0].bytes)
  {
    FoldAt(es, 0, acc);
    FoldAt(es, 1, es[0].update(acc));
    WriteEntriesAt(es, 0);
    WriteEntriesAt(es, 1);
    MapHeaderByte(1);
    assert es[0..] == es;
  }

  lemma Two<S>(es: seq<Entry<S>>, acc: S)
    requires |es| == 2 && |es[0].name| <= MAX_LENGTH && |es[1].name| <= MAX_LENGTH
    ensures Fold(es, acc) == es[1].update(es[0].update(acc))
    ensures WriteMap(es) ==
            [162] + (WriteString(TEXT, es[0].name) + es[0].bytes + (WriteString(TEXT, es[1].name) + es[1].bytes))
  {
    FoldAt(es, 0, acc);
    FoldAt(es, 1, es[0].update(acc));
    FoldAt(es, 2, es[1].update(es[0].update(acc)));
    WriteEntriesAt(es, 0);
    WriteEntriesAt(es, 1);
    WriteEntriesAt(es, 2);
    MapHeaderByte(2);
    assert es[0..] == es;
  }

  lemma Three<S>(es: seq<Entry<S>>, acc: S)
    requires |es| == 3 && forall i :: 0 <= i < 3 ==> |es[i].name| <= MAX_LENGTH
    ensures Fold(es, acc) == es[2].update(es[1].update(es[0].update(acc)))
    ensures WriteMap(es) == [163] + (Written(es[0]) + (Written(es[1]) + Written(es[2])))
  {
    var a := es[0].update(acc);
    var b := es[1].update(a);
    FoldAt(es, 0, acc);
    FoldAt(es, 1, a);
    FoldAt(es, 2, b);
    FoldAt(es, 3, es[2].update(b));
    WriteEntriesAt(es, 0);
    WriteEntriesAt(es, 1);
    WriteEntriesAt(es, 2);
    WriteEntriesAt(es, 3);
    MapHeaderByte(3);
    assert es[0..] == es;
    assert WriteEntries(es[2..]) == Written(es[2]);
  }

  // ---------------------------------------------------------------- SealedRef

  datatype SealedRef = SealedRef(sectorId: uint64, offset: uint64, size: uint64)

  const ZeroRef: SealedRef := SealedRef(0, 0, 0)

  function MarshalRef(v: SealedRef): Bytes {
    [163] + (Field("SectorID", WriteUint(v.sectorId)) +
             (Field("Offset", WriteUint(v.offset)) + Field("Size", WriteUint(v.size))))
  }

  function ReadRefField(skip: Skip, name: Bytes, t: SealedRef, bs: Bytes): Parsed<SealedRef> {
    if name == Ascii("SectorID") then
      (match ReadUint(bs) case Fail => Fail case Done(x, rest) => Done(t.(sectorId := x), rest))
    else if name == Ascii("Offset") then
      (match ReadUint(bs) case Fail => Fail case Done(x, rest) => Done(t.(offset := x), rest))
    else if name == Ascii("Size") then
      (match ReadUint(bs) case Fail => Fail case Done(x, rest) => Done(t.(size := x), rest))
    else Done(t, skip(bs))
  }

  function RefField(skip: Skip): FieldReader<SealedRef> {
    (name, t, bs) => ReadRefField(skip, name, t, bs)
  }

  function UnmarshalRef(skip: Skip): Bytes -> Parsed<SealedRef> {
    bs => ReadMap(bs, ZeroRef, RefField(skip))
  }

  function RefEntries(v: SealedRef): seq<Entry<SealedRef>> {
    [ Entry(Ascii("SectorID"), WriteUint(v.sectorId), (t: SealedRef) => t.(sectorId := v.sectorId), (t: SealedRef) => true),
      Entry(Ascii("Offset"), WriteUint(v.offset), (t: SealedRef) => t.(offset := v.offset), (t: SealedRef) => true),
      Entry(Ascii("Size"), WriteUint(v.size), (t: SealedRef) => t.(size := v.size), (t: SealedRef) => true) ]
  }

  lemma RefEntriesWellFormed(skip: Skip, v: SealedRef)
    ensures WellFormed(RefField(skip), ZeroRef, RefEntries(v))
  {
    var es := RefEntries(v);
    assert |Ascii("SectorID")| == 8 && |Ascii("Offset")| == 6 && |Ascii("Size")| == 4;
    forall acc, rest
      ensures ReadRefField(skip, es[0].name, acc, es[0].bytes + rest) == Done(acc.(sectorId := v.sectorId), rest)
      ensures ReadRefField(skip, es[1].name, acc, es[1].bytes + rest) == Done(acc.(offset := v.offset), rest)
      ensures ReadRefField(skip, es[2].name, acc, es[2].bytes + rest) == Done(acc.(size := v.size), rest)
    {
      UintRoundTrip(v.sectorId, rest);
      UintRoundTrip(v.offset, rest);
      UintRoundTrip(v.size, rest);
    }
    assert Handles(RefField(skip), es[0]) && Handles(RefField(skip), es[1]) && Handles(RefField(skip), es[2]);
  }

  lemma RefMarshal(v: SealedRef)
    ensures MarshalRef(v) == WriteMap(RefEntries(v))
    ensures Fold(RefEntries(v), ZeroRef) == v
  {
    Three(RefEntries(v), ZeroRef);
  }

  /** Decoding an encoding followed by anything returns the value and what follows. */
  lemma RefRoundTrip(skip: Skip, v: SealedRef, rest: Bytes)
    ensures UnmarshalRef(skip)(MarshalRef(v) + rest) == Done(v, rest)
  {
    RefEntriesWellFormed(skip, v);
    RefMarshal(v);
    MapRoundTrip(RefField(skip), ZeroRef, RefEntries(v), rest);
  }

  /** ... and so does decoding its fields in another order, with unknown fields between them. */
  lemma RefAnyOrder(skip: Skip, v: SealedRef, extras: seq<Entry<SealedRef>>, es': seq<Entry<SealedRef>>, rest: Bytes)
    requires AllIgnored(RefField(skip), extras) && 3 + |extras| <= MAX_LENGTH
    requires DistinctNames(RefEntries(v) + extras) && Reordered(RefEntries(v) + extras, es')
    ensures |es'| <= MAX_LENGTH && forall i :: 0 <= i < |es'| ==> |es'[i].name| <= MAX_LENGTH
    ensures UnmarshalRef(skip)(WriteMap(es') + rest) == Done(v, rest)
  {
    RefEntriesWellFormed(skip, v);
    RefMarshal(v);
    AnyOrderAnyExtras(RefField(skip), ZeroRef, RefEntries(v), extras, es', rest);
  }

  /** In particular with any one field that the struct does not have, at any place. */
  lemma RefUnknownField(skip: Skip, v: SealedRef, name: Bytes, item: Bytes, es': seq<Entry<SealedRef>>, rest: Bytes)
    requires |name| <= MAX_LENGTH && name !in {Ascii("SectorID"), Ascii("Offset"), Ascii("Size")}
    requires forall more :: skip(item + more) == more
    requires Reordered(RefEntries(v) + [Entry(name, item, (t: SealedRef) => t, (t: SealedRef) => true)], es')
    ensures |es'| <= MAX_LENGTH && forall i :: 0 <= i < |es'| ==> |es'[i].name| <= MAX_LENGTH
    ensures UnmarshalRef(skip)(WriteMap(es') + rest) == Done(v, rest)
  {
    var extra := Entry(name, item, (t: SealedRef) => t, (t: SealedRef) => true);
    UnknownIsIgnored(RefField(skip), skip, name, item);
    RefEntriesWellFormed(skip, v);
    RefAnyOrder(skip, v, [extra], es', rest);
  }

  // ---------------------------------------------------------------- SealedRefs

  datatype SealedRefs = SealedRefs(refs: seq<SealedRef>)

  const ZeroRefs: SealedRefs := SealedRefs([])

  function WriteRefs(v: SealedRefs): Bytes
    requires |v.refs| <= MAX_LENGTH
  {
    WriteHeader(Header(ARRAY, |v.refs|)) + WriteList(v.refs, MarshalRef)
  }

  /** None when the slice is too long to be written. */
  function MarshalRefs(v: SealedRefs): Option<Bytes> {
    if |v.refs| > MAX_LENGTH then None else Some([161] + Field("Refs", WriteRefs(v)))
  }

  /** An empty list leaves the field as it is. */
  function ReadRefs(skip: Skip, t: SealedRefs, bs: Bytes): Parsed<SealedRefs> {
    match ReadHeader(bs)
    case Fail => Fail
    case Done(h, rest) =>
      if h.extra > MAX_LENGTH || h.major != ARRAY then Fail
      else if h.extra == 0 then Done(t, rest)
      else
        match ReadList(h.extra, rest, UnmarshalRef(skip))
        case Fail => Fail
        case Done(refs, rest') => Done(SealedRefs(refs), rest')
  }

  function RefsField(skip: Skip): FieldReader<SealedRefs> {
    (name, t, bs) => if name == Ascii("Refs") then ReadRefs(skip, t, bs) else Done(t, skip(bs))
  }

  function UnmarshalRefs(skip: Skip): Bytes -> Parsed<SealedRefs> {
    bs => ReadMap(bs, ZeroRefs, RefsField(skip))
  }

  function RefsEntries(v: SealedRefs): seq<Entry<SealedRefs>>
    requires |v.refs| <= MAX_LENGTH
  {
    [Entry(Ascii("Refs"), WriteRefs(v), (t: SealedRefs) => v, (t: SealedRefs) => t.refs == [])]
  }

  lemma ReadRefsBack(skip: Skip, v: SealedRefs, t: SealedRefs, rest: Bytes)
    requires |v.refs| <= MAX_LENGTH && t.refs == []
    ensures ReadRefs(skip, t, WriteRefs(v) + rest) == Done(v, rest)
  {
    var body := WriteList(v.refs, MarshalRef) + rest;
    assert WriteRefs(v) + rest == WriteHeader(Header(ARRAY, |v.refs|)) + body;
    HeaderRoundTrip(Header(ARRAY, |v.refs|), body);
    forall x, r
      ensures UnmarshalRef(skip)(MarshalRef(x) + r) == Done(x, r)
    {
      RefRoundTrip(skip, x, r);
    }
    ListRoundTrip(v.refs, MarshalRef, UnmarshalRef(skip), rest);
  }

  lemma RefsWellFormed(skip: Skip, v: SealedRefs)
    requires |v.refs| <= MAX_LENGTH
    ensures WellFormed(RefsField(skip), ZeroRefs, RefsEntries(v))
    ensures Fold(RefsEntries(v), ZeroRefs) == v && MarshalRefs(v) == Some(WriteMap(RefsEntries(v)))
  {
    var es := RefsEntries(v);
    One(es, ZeroRefs);
    forall acc: SealedRefs, rest | acc.refs == []
      ensures RefsField(skip)(es[0].name, acc, es[0].bytes + rest) == Done(v, rest)
    {
      ReadRefsBack(skip, v, acc, rest);
    }
    assert Handles(RefsField(skip), es[0]);
  }

  /** A list of structs comes back; a list over the limit is refused by the writer. */
  lemma RefsRoundTrip(skip: Skip, v: SealedRefs, rest: Bytes)
    ensures MarshalRefs(v).Some? <==> |v.refs| <= MAX_LENGTH
    ensures MarshalRefs(v).Some? ==> UnmarshalRefs(skip)(MarshalRefs(v).value + rest) == Done(v, rest)
  {
    if |v.refs| <= MAX_LENGTH {
      RefsWellFormed(skip, v);
      MapRoundTrip(RefsField(skip), ZeroRefs, RefsEntries(v), rest);
    }
  }

  lemma RefsAnyOrder(skip: Skip, v: SealedRefs, extras: seq<Entry<SealedRefs>>, es': seq<Entry<SealedRefs>>, rest: Bytes)
    requires |v.refs| <= MAX_LENGTH
    requires AllIgnored(RefsField(skip), extras) && 1 + |extras| <= MAX_LENGTH
    requires DistinctNames(RefsEntries(v) + extras) && Reordered(RefsEntries(v) + extras, es')
    ensures |es'| <= MAX_LENGTH && forall i :: 0 <= i < |es'| ==> |es'[i].name| <= MAX_LENGTH
    ensures UnmarshalRefs(skip)(WriteMap(es') + rest) == Done(v, rest)
  {
    RefsWellFormed(skip, v);
    AnyOrderAnyExtras(RefsField(skip), ZeroRefs, RefsEntries(v), extras, es', rest);
  }

  // ---------------------------------------------------------------- SealTicket and SealSeed

  /** Both structs: randomness and the epoch it is from. */
  datatype Sealing = Sealing(value: Bytes, epoch: int64)

  const ZeroSealing: Sealing := Sealing([], 0)

  function MarshalSealing(v: Sealing): Option<Bytes> {
    if |v.value| > BYTE_ARRAY_MAX_LEN then None
    else Some([162] + (Field("Value", WriteString(BYTES, v.value)) + Field("Epoch", WriteInt(v.epoch))))
  }

  /** An empty byte string allocates nothing, so the bytes already there are filled again. */
  function ReadValue(t: Sealing, bs: Bytes): Parsed<Sealing> {
    match ReadHeader(bs)
    case Fail => Fail
    case Done(h, rest) =>
      if h.extra > BYTE_ARRAY_MAX_LEN || h.major != BYTES then Fail
      else
        var n: nat := if h.extra > 0 then h.extra else |t.value|;
        if |rest| < n then Fail else Done(t.(value := rest[..n]), rest[n..])
  }

  function ReadSealingField(skip: Skip, name: Bytes, t: Sealing, bs: Bytes): Parsed<Sealing> {
    if name == Ascii("Value") then ReadValue(t, bs)
    else if name == Ascii("Epoch") then
      (match ReadInt(bs) case Fail => Fail case Done(x, rest) => Done(t.(epoch := x), rest))
    else Done(t, skip(bs))
  }

  function SealingField(skip: Skip): FieldReader<Sealing> {
    (name, t, bs) => ReadSealingField(skip, name, t, bs)
  }

  function UnmarshalSealing(skip: Skip): Bytes -> Parsed<Sealing> {
    bs => ReadMap(bs, ZeroSealing, SealingField(skip))
  }

  function SealingEntries(v: Sealing): seq<Entry<Sealing>>
    requires |v.value| <= BYTE_ARRAY_MAX_LEN
  {
    [ Entry(Ascii("Value"), WriteString(BYTES, v.value), (t: Sealing) => t.(value := v.value), (t: Sealing) => t.value == []),
      Entry(Ascii("Epoch"), WriteInt(v.epoch), (t: Sealing) => t.(epoch := v.epoch), (t: Sealing) => true) ]
  }

  lemma ReadValueBack(v: Sealing, t: Sealing, rest: Bytes)
    requires |v.value| <= BYTE_ARRAY_MAX_LEN && t.value == []
    ensures ReadValue(t, WriteString(BYTES, v.value) + rest) == Done(t.(value := v.value), rest)
  {
    assert WriteString(BYTES, v.value) + rest == WriteHeader(Header(BYTES, |v.value|)) + (v.value + rest);
    HeaderRoundTrip(Header(BYTES, |v.value|), v.value + rest);
  }

  lemma SealingWellFormed(skip: Skip, v: Sealing)
    requires |v.value| <= BYTE_ARRAY_MAX_LEN
    ensures WellFormed(SealingField(skip), ZeroSealing, SealingEntries(v))
    ensures Fold(SealingEntries(v), ZeroSealing) == v && MarshalSealing(v) == Some(WriteMap(SealingEntries(v)))
  {
    var es := SealingEntries(v);
    assert Ascii("Value")[0] != Ascii("Epoch")[0];
    forall acc: Sealing, rest
      ensures acc.value == [] ==>
                ReadSealingField(skip, es[0].name, acc, es[0].bytes + rest) == Done(acc.(value := v.value), rest)
      ensures ReadSealingField(skip, es[1].name, acc, es[1].bytes + rest) == Done(acc.(epoch := v.epoch), rest)
    {
      if acc.value == [] {
        ReadValueBack(v, acc, rest);
      }
      IntRoundTrip(v.epoch, rest);
    }
    assert Handles(SealingField(skip), es[0]) && Handles(SealingField(skip), es[1]);
    Two(es, ZeroSealing);
  }

  /** The randomness and every int64 epoch come back. */
  lemma SealingRoundTrip(skip: Skip, v: Sealing, rest: Bytes)
    ensures MarshalSealing(v).Some? <==> |v.value| <= BYTE_ARRAY_MAX_LEN
    ensures MarshalSealing(v).Some? ==> UnmarshalSealing(skip)(MarshalSealing(v).value + rest) == Done(v, rest)
  {
    if |v.value| <= BYTE_ARRAY_MAX_LEN {
      SealingWellFormed(skip, v);
      MapRoundTrip(SealingField(skip), ZeroSealing, SealingEntries(v), rest);
    }
  }

  lemma SealingAnyOrder(skip: Skip, v: Sealing, extras: seq<Entry<Sealing>>, es': seq<Entry<Sealing>>, rest: Bytes)
    requires |v.value| <= BYTE_ARRAY_MAX_LEN
    requires AllIgnored(SealingField(skip), extras) && 2 + |extras| <= MAX_LENGTH
    requires DistinctNames(SealingEntries(v) + extras) && Reordered(SealingEntries(v) + extras, es')
    ensures |es'| <= MAX_LENGTH && forall i :: 0 <= i < |es'| ==> |es'[i].name| <= MAX_LENGTH
    ensures UnmarshalSealing(skip)(WriteMap(es') + rest) == Done(v, rest)
  {
    SealingWellFormed(skip, v);
    AnyOrderAnyExtras(SealingField(skip), ZeroSealing, SealingEntries(v), extras, es', rest);
  }

  // ---------------------------------------------------------------- DealSchedule

  datatype DealSchedule = DealSchedule(start: int64, end: int64)

  const ZeroSchedule: DealSchedule := DealSchedule(0, 0)

  function MarshalSchedule(v: DealSchedule): Bytes {
    [162] + (Field("StartEpoch", WriteInt(v.start)) + Field("EndEpoch", WriteInt(v.end)))
  }

  function ReadScheduleField(skip: Skip, name: Bytes, t: DealSchedule, bs: Bytes): Parsed<DealSchedule> {
    if name == Ascii("StartEpoch") then
      (match ReadInt(bs) case Fail => Fail case Done(x, rest) => Done(t.(start := x), rest))
    else if name == Ascii("EndEpoch") then
      (match ReadInt(bs) case Fail => Fail case Done(x, rest) => Done(t.(end := x), rest))
    else Done(t, skip(bs))
  }

  function ScheduleField(skip: Skip): FieldReader<DealSchedule> {
    (name, t, bs) => ReadScheduleField(skip, name, t, bs)
  }

  function UnmarshalSchedule(skip: Skip): Bytes -> Parsed<DealSchedule> {
    bs => ReadMap(bs, ZeroSchedule, ScheduleField(skip))
  }

  function ScheduleEntries(v: DealSchedule): seq<Entry<DealSchedule>> {
    [ Entry(Ascii("StartEpoch"), WriteInt(v.start), (t: DealSchedule) => t.(start := v.start), (t: DealSchedule) => true),
      Entry(Ascii("EndEpoch"), WriteInt(v.end), (t: DealSchedule) => t.(end := v.end), (t: DealSchedule) => true) ]
  }

  lemma ScheduleWellFormed(skip: Skip, v: DealSchedule)
    ensures WellFormed(ScheduleField(skip), ZeroSchedule, ScheduleEntries(v))
    ensures Fold(ScheduleEntries(v), ZeroSchedule) == v && MarshalSchedule(v) == WriteMap(ScheduleEntries(v))
  {
    var es := ScheduleEntries(v);
    assert |Ascii("StartEpoch")| == 10 && |Ascii("EndEpoch")| == 8;
    forall acc: DealSchedule, rest
      ensures ReadScheduleField(skip, es[0].name, acc, es[0].bytes + rest) == Done(acc.(start := v.start), rest)
      ensures ReadScheduleField(skip, es[1].name, acc, es[1].bytes + rest) == Done(acc.(end := v.end), rest)
    {
      IntRoundTrip(v.start, rest);
      IntRoundTrip(v.end, rest);
    }
    assert Handles(ScheduleField(skip), es[0]) && Handles(ScheduleField(skip), es[1]);
    Two(es, ZeroSchedule);
  }

  lemma ScheduleRoundTrip(skip: Skip, v: DealSchedule, rest: Bytes)
    ensures UnmarshalSchedule(skip)(MarshalSchedule(v) + rest) == Done(v, rest)
  {
    ScheduleWellFormed(skip, v);
    MapRoundTrip(ScheduleField(skip), ZeroSchedule, ScheduleEntries(v), rest);
  }

  lemma ScheduleAnyOrder(skip: Skip, v: DealSchedule, extras: seq<Entry<DealSchedule>>, es': seq<Entry<DealSchedule>>,
                         rest: Bytes)
    requires AllIgnored(ScheduleField(skip), extras) && 2 + |extras| <= MAX_LENGTH
    requires DistinctNames(ScheduleEntries(v) + extras) && Reordered(ScheduleEntries(v) + extras, es')
    ensures |es'| <= MAX_LENGTH && forall i :: 0 <= i < |es'| ==> |es'[i].name| <= MAX_LENGTH
    ensures UnmarshalSchedule(skip)(WriteMap(es') + rest) == Done(v, rest)
  {
    ScheduleWellFormed(skip, v);
    AnyOrderAnyExtras(ScheduleField(skip), ZeroSchedule, ScheduleEntries(v), extras, es', rest);
  }
}
