/** The codecs of api/cbor_gen.go that nest other codecs and hold pointers, which are null on the wire
    when they are nil. */
module CborPieces {
  import opened Wrappers
  import opened Cbor
  import opened CborStructs

  // ---------------------------------------------------------------- pointers

  function WriteOptional<T>(enc: T -> Bytes, x: Option<T>): Bytes {
    match x
    case None => [NULL]
    case Some(v) => enc(v)
  }

  /** A null leaves the field as it is. */
  function ReadOptional<T>(dec: Bytes -> Parsed<T>, t: Option<T>, bs: Bytes): Parsed<Option<T>> {
    if bs == [] then Fail
    else if bs[0] == NULL then Done(t, bs[1..])
    else
      match dec(bs)
      case Fail => Fail
      case Done(v, rest) => Done(Some(v), rest)
  }

  lemma OptionalRoundTrip<T(!new)>(c: Codec<T>, x: Option<T>, rest: Bytes)
    requires Lawful(c)
    ensures ReadOptional(c.dec, None, WriteOptional(c.enc, x) + rest) == Done(x, rest)
  {
    match x
    case None => assert ([NULL] + rest)[1..] == rest;
    case Some(v) => assert (c.enc(v) + rest)[0] == c.enc(v)[0] != NULL;
  }

  // ---------------------------------------------------------------- PieceDealInfo

  datatype PieceDealInfo<C, P> = PieceDealInfo(
    publishCid: Option<C>, dealId: uint64, proposal: Option<P>, schedule: DealSchedule, keepUnsealed: bool)

  /** The codecs of cid.Cid and of the market actor's DealProposal. */
  datatype Foreign<!C, !P> = Foreign(cid: Codec<C>, proposal: Codec<P>)

  ghost predicate LawfulForeign<C(!new), P(!new)>(f: Foreign<C, P>) {
    Lawful(f.cid) && Lawful(f.proposal)
  }

  function ZeroInfo<C, P>(): PieceDealInfo<C, P> {
    PieceDealInfo(None, 0, None, ZeroSchedule, false)
  }

  function MarshalInfo<C, P>(f: Foreign<C, P>, v: PieceDealInfo<C, P>): Bytes {
    [165] + (Field("PublishCid", WriteOptional(f.cid.enc, v.publishCid)) +
             (Field("DealID", WriteUint(v.dealId)) +
              (Field("DealProposal", WriteOptional(f.proposal.enc, v.proposal)) +
               (Field("DealSchedule", MarshalSchedule(v.schedule)) +
                Field("KeepUnsealed", WriteBool(v.keepUnsealed))))))
  }

  function ReadInfoField<C, P>(f: Foreign<C, P>, skip: Skip, name: Bytes, t: PieceDealInfo<C, P>, bs: Bytes)
    : Parsed<PieceDealInfo<C, P>>
  {
    if name == Ascii("PublishCid") then
      (match ReadOptional(f.cid.dec, t.publishCid, bs) case Fail => Fail case Done(x, rest) => Done(t.(publishCid := x), rest))
    else if name == Ascii("DealID") then
      (match ReadUint(bs) case Fail => Fail case Done(x, rest) => Done(t.(dealId := x), rest))
    else if name == Ascii("DealProposal") then
      (match ReadOptional(f.proposal.dec, t.proposal, bs) case Fail => Fail case Done(x, rest) => Done(t.(proposal := x), rest))
    else if name == Ascii("DealSchedule") then
      (match UnmarshalSchedule(skip)(bs) case Fail => Fail case Done(x, rest) => Done(t.(schedule := x), rest))
    else if name == Ascii("KeepUnsealed") then
      (match ReadBool(bs) case Fail => Fail case Done(x, rest) => Done(t.(keepUnsealed := x), rest))
    else Done(t, skip(bs))
  }

  function InfoField<C, P>(f: Foreign<C, P>, skip: Skip): FieldReader<PieceDealInfo<C, P>> {
    (name, t, bs) => ReadInfoField(f, skip, name, t, bs)
  }

  function UnmarshalInfo<C, P>(f: Foreign<C, P>, skip: Skip): Bytes -> Parsed<PieceDealInfo<C, P>> {
    bs => ReadMap(bs, ZeroInfo(), InfoField(f, skip))
  }

  function InfoEntries<C, P>(f: Foreign<C, P>, v: PieceDealInfo<C, P>): seq<Entry<PieceDealInfo<C, P>>> {
    [ Entry(Ascii("PublishCid"), WriteOptional(f.cid.enc, v.publishCid),
            (t: PieceDealInfo<C, P>) => t.(publishCid := v.publishCid), (t: PieceDealInfo<C, P>) => t.publishCid.None?),
      Entry(Ascii("DealID"), WriteUint(v.dealId),
            (t: PieceDealInfo<C, P>) => t.(dealId := v.dealId), (t: PieceDealInfo<C, P>) => true),
      Entry(Ascii("DealProposal"), WriteOptional(f.proposal.enc, v.proposal),
            (t: PieceDealInfo<C, P>) => t.(proposal := v.proposal), (t: PieceDealInfo<C, P>) => t.proposal.None?),
      Entry(Ascii("DealSchedule"), MarshalSchedule(v.schedule),
            (t: PieceDealInfo<C, P>) => t.(schedule := v.schedule), (t: PieceDealInfo<C, P>) => true),
      Entry(Ascii("KeepUnsealed"), WriteBool(v.keepUnsealed),
            (t: PieceDealInfo<C, P>) => t.(keepUnsealed := v.keepUnsealed), (t: PieceDealInfo<C, P>) => true) ]
  }

  lemma InfoNames()
    ensures |Ascii("PublishCid")| == 10 && |Ascii("DealID")| == 6 && |Ascii("DealProposal")| == 12
    ensures |Ascii("DealSchedule")| == 12 && |Ascii("KeepUnsealed")| == 12
    ensures Ascii("DealProposal") != Ascii("DealSchedule") && Ascii("KeepUnsealed") != Ascii("DealSchedule")
    ensures Ascii("DealProposal") != Ascii("KeepUnsealed")
  {
    assert Ascii("DealProposal")[4] != Ascii("DealSchedule")[4];
    assert Ascii("KeepUnsealed")[0] != Ascii("DealSchedule")[0] == Ascii("DealProposal")[0];
  }

  lemma InfoPointersHandled<C(!new), P(!new)>(f: Foreign<C, P>, skip: Skip, v: PieceDealInfo<C, P>)
    requires LawfulForeign(f)
    ensures Handles(InfoField(f, skip), InfoEntries(f, v)[0]) && Handles(InfoField(f, skip), InfoEntries(f, v)[2])
  {
    var es := InfoEntries(f, v);
    InfoNames();
    forall acc: PieceDealInfo<C, P>, rest
      ensures acc.publishCid.None? ==>
                ReadInfoField(f, skip, es[0].name, acc, es[0].bytes + rest) == Done(acc.(publishCid := v.publishCid), rest)
      ensures acc.proposal.None? ==>
                ReadInfoField(f, skip, es[2].name, acc, es[2].bytes + rest) == Done(acc.(proposal := v.proposal), rest)
    {
      OptionalRoundTrip(f.cid, v.publishCid, rest);
      OptionalRoundTrip(f.proposal, v.proposal, rest);
    }
  }

  lemma InfoValuesHandled<C(!new), P(!new)>(f: Foreign<C, P>, skip: Skip, v: PieceDealInfo<C, P>)
    ensures Handles(InfoField(f, skip), InfoEntries(f, v)[1]) && Handles(InfoField(f, skip), InfoEntries(f, v)[3])
    ensures Handles(InfoField(f, skip), InfoEntries(f, v)[4])
  {
    var es := InfoEntries(f, v);
    InfoNames();
    forall acc: PieceDealInfo<C, P>, rest
      ensures ReadInfoField(f, skip, es[1].name, acc, es[1].bytes + rest) == Done(acc.(dealId := v.dealId), rest)
      ensures ReadInfoField(f, skip, es[3].name, acc, es[3].bytes + rest) == Done(acc.(schedule := v.schedule), rest)
      ensures ReadInfoField(f, skip, es[4].name, acc, es[4].bytes + rest) == Done(acc.(keepUnsealed := v.keepUnsealed), rest)
    {
      UintRoundTrip(v.dealId, rest);
      ScheduleRoundTrip(skip, v.schedule, rest);
      BoolRoundTrip(v.keepUnsealed, rest);
    }
  }

  lemma InfoIndependent<C(!new), P(!new)>(f: Foreign<C, P>, v: PieceDealInfo<C, P>)
    ensures AllIndependent(InfoEntries(f, v))
  {
    var es := InfoEntries(f, v);
    InfoNames();
    forall i, j | 0 <= i < j < 5
      ensures Independent(es[i], es[j]) && es[i].name != es[j].name
    {
      if i == 0 {
      } else if i == 1 {
      } else if i == 2 {
      } else {
        assert i == 3 && j == 4;
      }
    }
  }

  lemma InfoWellFormed<C(!new), P(!new)>(f: Foreign<C, P>, skip: Skip, v: PieceDealInfo<C, P>)
    requires LawfulForeign(f)
    ensures WellFormed(InfoField(f, skip), ZeroInfo(), InfoEntries(f, v))
  {
    var es := InfoEntries(f, v);
    InfoPointersHandled(f, skip, v);
    InfoValuesHandled(f, skip, v);
    InfoIndependent(f, v);
    forall i | 0 <= i < 5
      ensures |es[i].name| <= MAX_LENGTH && Handles(InfoField(f, skip), es[i]) && es[i].pre(ZeroInfo())
    {
      InfoNames();
      assert i == 0 || i == 1 || i == 2 || i == 3 || i == 4;
    }
  }

  lemma Five<S>(es: seq<Entry<S>>, acc: S)
    requires |es| == 5 && forall i :: 0 <= i < 5 ==> |es[i].name| <= MAX_LENGTH
    ensures Fold(es, acc) == es[4].update(es[3].update(es[2].update(es[1].update(es[0].update(acc)))))
    ensures WriteMap(es) ==
            [165] + (Written(es[0]) + (Written(es[1]) + (Written(es[2]) + (Written(es[3]) + Written(es[4])))))
  {
    var a := es[0].update(acc);
    var b := es[1].update(a);
    var c := es[2].update(b);
    var d := es[3].update(c);
    FoldAt(es, 0, acc);
    FoldAt(es, 1, a);
    FoldAt(es, 2, b);
    FoldAt(es, 3, c);
    FoldAt(es, 4, d);
    FoldAt(es, 5, es[4].update(d));
    WriteEntriesAt(es, 0);
    WriteEntriesAt(es, 1);
    WriteEntriesAt(es, 2);
    WriteEntriesAt(es, 3);
    WriteEntriesAt(es, 4);
    WriteEntriesAt(es, 5);
    MapHeaderByte(5);
    assert es[0..] == es;
    assert WriteEntries(es[4..]) == Written(es[4]);
  }

  lemma InfoMarshal<C, P>(f: Foreign<C, P>, v: PieceDealInfo<C, P>)
    ensures Fold(InfoEntries(f, v), ZeroInfo()) == v
    ensures MarshalInfo(f, v) == WriteMap(InfoEntries(f, v))
  {
    InfoNames();
    Five(InfoEntries(f, v), ZeroInfo());
  }

  /** Nil pointers, the nested schedule and the flag all come back. */
  lemma InfoRoundTrip<C(!new), P(!new)>(f: Foreign<C, P>, skip: Skip, v: PieceDealInfo<C, P>, rest: Bytes)
    requires LawfulForeign(f)
    ensures UnmarshalInfo(f, skip)(MarshalInfo(f, v) + rest) == Done(v, rest)
  {
    InfoWellFormed(f, skip, v);
    InfoMarshal(f, v);
    MapRoundTrip(InfoField(f, skip), ZeroInfo(), InfoEntries(f, v), rest);
  }

  lemma InfoAnyOrder<C(!new), P(!new)>(f: Foreign<C, P>, skip: Skip, v: PieceDealInfo<C, P>,
                                       extras: seq<Entry<PieceDealInfo<C, P>>>, es': seq<Entry<PieceDealInfo<C, P>>>,
                                       rest: Bytes)
    requires LawfulForeign(f)
    requires AllIgnored(InfoField(f, skip), extras) && 5 + |extras| <= MAX_LENGTH
    requires DistinctNames(InfoEntries(f, v) + extras) && Reordered(InfoEntries(f, v) + extras, es')
    ensures |es'| <= MAX_LENGTH && forall i :: 0 <= i < |es'| ==> |es'[i].name| <= MAX_LENGTH
    ensures UnmarshalInfo(f, skip)(WriteMap(es') + rest) == Done(v, rest)
  {
    InfoWellFormed(f, skip, v);
    InfoMarshal(f, v);
    AnyOrderAnyExtras(InfoField(f, skip), ZeroInfo(), InfoEntries(f, v), extras, es', rest);
  }

  /** So the codec of PieceDealInfo is one that a pointer may use. */
  function InfoCodec<C, P>(f: Foreign<C, P>, skip: Skip): Codec<PieceDealInfo<C, P>> {
    Codec((v: PieceDealInfo<C, P>) => MarshalInfo(f, v), UnmarshalInfo(f, skip))
  }

  lemma InfoCodecLawful<C(!new), P(!new)>(f: Foreign<C, P>, skip: Skip)
    requires LawfulForeign(f)
    ensures Lawful(InfoCodec(f, skip))
  {
    forall v: PieceDealInfo<C, P>, rest
      ensures UnmarshalInfo(f, skip)(MarshalInfo(f, v) + rest) == Done(v, rest)
    {
      InfoRoundTrip(f, skip, v, rest);
    }
    forall v: PieceDealInfo<C, P>
      ensures MarshalInfo(f, v) != [] && MarshalInfo(f, v)[0] != NULL
    {
      assert MarshalInfo(f, v)[0] == 165;
    }
  }

  // ---------------------------------------------------------------- SectorPiece

  datatype SectorPiece<A, I> = SectorPiece(piece: A, info: Option<I>)

  function MarshalPiece<A, I>(pieces: Codec<A>, infos: Codec<I>, v: SectorPiece<A, I>): Bytes {
    [162] + (Field("Piece", pieces.enc(v.piece)) + Field("DealInfo", WriteOptional(infos.enc, v.info)))
  }

  function ReadPieceField<A, I>(pieces: Codec<A>, infos: Codec<I>, skip: Skip, name: Bytes, t: SectorPiece<A, I>, bs: Bytes)
    : Parsed<SectorPiece<A, I>>
  {
    if name == Ascii("Piece") then
      (match pieces.dec(bs) case Fail => Fail case Done(x, rest) => Done(t.(piece := x), rest))
    else if name == Ascii("DealInfo") then
      (match ReadOptional(infos.dec, t.info, bs) case Fail => Fail case Done(x, rest) => Done(t.(info := x), rest))
    else Done(t, skip(bs))
  }

  function PieceField<A, I>(pieces: Codec<A>, infos: Codec<I>, skip: Skip): FieldReader<SectorPiece<A, I>> {
    (name, t, bs) => ReadPieceField(pieces, infos, skip, name, t, bs)
  }

  /** Decoding starts from a struct whose piece is that package's zero value. */
  function UnmarshalPiece<A, I>(zero: A, pieces: Codec<A>, infos: Codec<I>, skip: Skip): Bytes -> Parsed<SectorPiece<A, I>> {
    bs => ReadMap(bs, SectorPiece(zero, None), PieceField(pieces, infos, skip))
  }

  function PieceEntries<A, I>(pieces: Codec<A>, infos: Codec<I>, v: SectorPiece<A, I>): seq<Entry<SectorPiece<A, I>>> {
    [ Entry(Ascii("Piece"), pieces.enc(v.piece),
            (t: SectorPiece<A, I>) => t.(piece := v.piece), (t: SectorPiece<A, I>) => true),
      Entry(Ascii("DealInfo"), WriteOptional(infos.enc, v.info),
            (t: SectorPiece<A, I>) => t.(info := v.info), (t: SectorPiece<A, I>) => t.info.None?) ]
  }

  lemma PieceWellFormed<A(!new), I(!new)>(zero: A, pieces: Codec<A>, infos: Codec<I>, skip: Skip, v: SectorPiece<A, I>)
    requires Lawful(pieces) && Lawful(infos)
    ensures WellFormed(PieceField(pieces, infos, skip), SectorPiece(zero, None), PieceEntries(pieces, infos, v))
    ensures Fold(PieceEntries(pieces, infos, v), SectorPiece(zero, None)) == v
    ensures MarshalPiece(pieces, infos, v) == WriteMap(PieceEntries(pieces, infos, v))
  {
    var es := PieceEntries(pieces, infos, v);
    assert |Ascii("Piece")| == 5 && |Ascii("DealInfo")| == 8;
    forall acc: SectorPiece<A, I>, rest
      ensures ReadPieceField(pieces, infos, skip, es[0].name, acc, es[0].bytes + rest) == Done(acc.(piece := v.piece), rest)
      ensures acc.info.None? ==>
                ReadPieceField(pieces, infos, skip, es[1].name, acc, es[1].bytes + rest) == Done(acc.(info := v.info), rest)
    {
      OptionalRoundTrip(infos, v.info, rest);
    }
    assert Handles(PieceField(pieces, infos, skip), es[0]) && Handles(PieceField(pieces, infos, skip), es[1]);
    Two(es, SectorPiece(zero, None));
  }

  /** A sector piece with its deal, or with none, comes back through the three nested codecs. */
  lemma PieceRoundTrip<A(!new), C(!new), P(!new)>(zero: A, pieces: Codec<A>, f: Foreign<C, P>, skip: Skip,
                                                  v: SectorPiece<A, PieceDealInfo<C, P>>, rest: Bytes)
    requires Lawful(pieces) && LawfulForeign(f)
    ensures UnmarshalPiece(zero, pieces, InfoCodec(f, skip), skip)(MarshalPiece(pieces, InfoCodec(f, skip), v) + rest)
         == Done(v, rest)
  {
    var infos := InfoCodec(f, skip);
    InfoCodecLawful(f, skip);
    PieceWellFormed(zero, pieces, infos, skip, v);
    MapRoundTrip(PieceField(pieces, infos, skip), SectorPiece(zero, None), PieceEntries(pieces, infos, v), rest);
  }

  lemma PieceAnyOrder<A(!new), I(!new)>(zero: A, pieces: Codec<A>, infos: Codec<I>, skip: Skip, v: SectorPiece<A, I>,
                                        extras: seq<Entry<SectorPiece<A, I>>>, es': seq<Entry<SectorPiece<A, I>>>,
                                        rest: Bytes)
    requires Lawful(pieces) && Lawful(infos)
    requires AllIgnored(PieceField(pieces, infos, skip), extras) && 2 + |extras| <= MAX_LENGTH
    requires DistinctNames(PieceEntries(pieces, infos, v) + extras) && Reordered(PieceEntries(pieces, infos, v) + extras, es')
    ensures |es'| <= MAX_LENGTH && forall i :: 0 <= i < |es'| ==> |es'[i].name| <= MAX_LENGTH
    ensures UnmarshalPiece(zero, pieces, infos, skip)(WriteMap(es') + rest) == Done(v, rest)
  {
    PieceWellFormed(zero, pieces, infos, skip, v);
    AnyOrderAnyExtras(PieceField(pieces, infos, skip), SectorPiece(zero, None), PieceEntries(pieces, infos, v), extras, es', rest);
  }
}
