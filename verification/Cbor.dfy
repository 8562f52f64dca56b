/** CBOR items as the generated codecs write and read them: headers (section 3 of RFC 8949, shortest
    form), strings, and maps from field names to values. */
module Cbor {

  type byte = x: int | 0 <= x < 256
  type Bytes = seq<byte>
  type uint64 = x: int | 0 <= x < 0x1_0000_0000_0000_0000
  type int64 = x: int | -0x8000_0000_0000_0000 <= x < 0x8000_0000_0000_0000
  type Major = x: int | 0 <= x < 8

  const UNSIGNED: Major := 0
  const NEGATIVE: Major := 1
  const BYTES: Major := 2
  const TEXT: Major := 3
  const ARRAY: Major := 4
  const MAP: Major := 5
  const OTHER: Major := 7

  const MAX_LENGTH: nat := 8192
  const BYTE_ARRAY_MAX_LEN: nat := 2097152
  const NULL: byte := 0xf6

  /** What a reader returns: a value and the bytes after it. */
  datatype Parsed<+T> = Fail | Done(value: T, rest: Bytes)

  datatype Header = Header(major: Major, extra: uint64)

  // ---------------------------------------------------------------- big-endian numbers

  function BigEndian(v: nat, n: nat): (r: Bytes)
    ensures |r| == n
  {
    if n == 0 then [] else BigEndian(v / 256, n - 1) + [v % 256]
  }

  function FromBigEndian(bs: Bytes): nat {
    if bs == [] then 0 else FromBigEndian(bs[..|bs| - 1]) * 256 + bs[|bs| - 1]
  }

  function Pow256(n: nat): nat {
    if n == 0 then 1 else 256 * Pow256(n - 1)
  }

  lemma {:induction false} BigEndianRoundTrip(v: nat, n: nat)
    requires v < Pow256(n)
    ensures FromBigEndian(BigEndian(v, n)) == v
  {
    if n > 0 {
      BigEndianRoundTrip(v / 256, n - 1);
      assert BigEndian(v, n)[..n - 1] == BigEndian(v / 256, n - 1);
    }
  }

  lemma {:induction false} BigEndianInverse(bs: Bytes)
    ensures FromBigEndian(bs) < Pow256(|bs|)
    ensures BigEndian(FromBigEndian(bs), |bs|) == bs
  {
    if bs != [] {
      BigEndianInverse(bs[..|bs| - 1]);
      assert bs == bs[..|bs| - 1] + [bs[|bs| - 1]];
    }
  }

  lemma Pow256Values()
    ensures Pow256(1) == 0x100 && Pow256(2) == 0x1_0000 && Pow256(4) == 0x1_0000_0000
    ensures Pow256(8) == 0x1_0000_0000_0000_0000
  {
  }

  // ---------------------------------------------------------------- headers

  /** How many bytes follow the first byte of a header whose low bits are these. */
  function Extra(low: nat): nat {
    if low == 24 then 1 else if low == 25 then 2 else if low == 26 then 4 else if low == 27 then 8 else 0
  }

  /** The low bits for a value: itself, or the code for its size. */
  function Low(v: uint64): nat {
    if v < 24 then v else if v < 0x100 then 24 else if v < 0x1_0000 then 25 else if v < 0x1_0000_0000 then 26 else 27
  }

  function WriteHeader(h: Header): Bytes {
    var low := Low(h.extra);
    [h.major * 32 + low] + BigEndian(h.extra, Extra(low))
  }

  /** Reads a header; a value that a shorter header could hold is refused. */
  function ReadHeader(bs: Bytes): Parsed<Header> {
    if bs == [] then Fail
    else
      var major, low := bs[0] / 32, bs[0] % 32;
      var n := Extra(low);
      if low > 27 || |bs| < 1 + n then Fail
      else
        var v := if low < 24 then low else FromBigEndian(bs[1..1 + n]);
        if v >= 0x1_0000_0000_0000_0000 || Low(v) != low then Fail
        else Done(Header(major, v), bs[1 + n..])
  }

  lemma FirstByte(major: Major, low: nat)
    requires low < 32
    ensures major * 32 + low < 256 && (major * 32 + low) / 32 == major && (major * 32 + low) % 32 == low
  {
  }

  lemma ExtraFits(v: uint64)
    ensures Low(v) <= 27 && (Low(v) < 24 ==> Low(v) == v && Extra(Low(v)) == 0)
    ensures Low(v) >= 24 ==> v < Pow256(Extra(Low(v)))
  {
    Pow256Values();
  }

  lemma HeaderRoundTrip(h: Header, rest: Bytes)
    ensures ReadHeader(WriteHeader(h) + rest) == Done(h, rest)
  {
    var low := Low(h.extra);
    var n := Extra(low);
    var bs := WriteHeader(h) + rest;
    ExtraFits(h.extra);
    FirstByte(h.major, low);
    assert bs[0] == h.major * 32 + low;
    assert bs[1..1 + n] == BigEndian(h.extra, n);
    assert bs[1 + n..] == rest;
    if low >= 24 {
      BigEndianRoundTrip(h.extra, n);
    }
  }

  /** The reader accepts nothing but what the writer writes. */
  lemma HeaderCanonical(bs: Bytes)
    ensures ReadHeader(bs).Done? ==> bs == WriteHeader(ReadHeader(bs).value) + ReadHeader(bs).rest
  {
    if ReadHeader(bs).Done? {
      var h := ReadHeader(bs).value;
      var low := bs[0] % 32;
      var n := Extra(low);
      if low >= 24 {
        BigEndianInverse(bs[1..1 + n]);
      }
      assert BigEndian(h.extra, n) == bs[1..1 + n];
      assert bs == [bs[0]] + bs[1..1 + n] + bs[1 + n..];
    }
  }

  // ---------------------------------------------------------------- scalars and strings

  function WriteUint(v: uint64): Bytes { WriteHeader(Header(UNSIGNED, v)) }

  function ReadUint(bs: Bytes): Parsed<uint64> {
    match ReadHeader(bs)
    case Fail => Fail
    case Done(h, rest) => if h.major == UNSIGNED then Done(h.extra, rest) else Fail
  }

  /** Arithmetic of the source's int64. */
  function WrapInt64(x: int): int64 {
    (x + 0x8000_0000_0000_0000) % 0x1_0000_0000_0000_0000 - 0x8000_0000_0000_0000
  }

  function ToUint64(x: int64): uint64 {
    if x < 0 then x + 0x1_0000_0000_0000_0000 else x
  }

  function ToInt64(x: uint64): int64 { WrapInt64(x) }

  function IntHeader(e: int64): Header {
    if e >= 0 then Header(UNSIGNED, ToUint64(e))
    else Header(NEGATIVE, ToUint64(WrapInt64(WrapInt64(0 - (e as int)) - 1)))
  }

  function IntOf(h: Header, rest: Bytes): Parsed<int64> {
    var extraI := ToInt64(h.extra);
    if h.major == UNSIGNED then (if extraI < 0 then Fail else Done(extraI, rest))
    else if h.major == NEGATIVE then (if extraI < 0 then Fail else Done(WrapInt64(-1 - extraI), rest))
    else Fail
  }

  function WriteInt(e: int64): Bytes { WriteHeader(IntHeader(e)) }

  function ReadInt(bs: Bytes): Parsed<int64> {
    match ReadHeader(bs)
    case Fail => Fail
    case Done(h, rest) => IntOf(h, rest)
  }

  /** Every int64 comes back, the least one included, whose negation overflows. */
  lemma IntRoundTrip(e: int64, rest: Bytes)
    ensures ReadInt(WriteInt(e) + rest) == Done(e, rest)
  {
    HeaderRoundTrip(IntHeader(e), rest);
    IntHeaderRoundTrip(e, rest);
  }

  lemma WrapInt64Is(x: int, k: int)
    requires -0x8000_0000_0000_0000 <= x - k * 0x1_0000_0000_0000_0000 < 0x8000_0000_0000_0000
    ensures WrapInt64(x) == x - k * 0x1_0000_0000_0000_0000
  {
  }

  lemma IntHeaderRoundTrip(e: int64, rest: Bytes)
    ensures IntOf(IntHeader(e), rest) == Done(e, rest)
  {
    if e >= 0 {
      WrapInt64Is(e, 0);
    } else {
      var least := e == -0x8000_0000_0000_0000;
      WrapInt64Is(0 - (e as int), if least then 1 else 0);
      WrapInt64Is(if least then e - 1 else -1 - e, if least then -1 else 0);
      WrapInt64Is(-1 - e, 0);
      WrapInt64Is(e, 0);
      assert IntHeader(e).extra == -1 - e;
    }
  }

  function WriteBool(b: bool): Bytes { [if b then 0xf5 else 0xf4] }

  function ReadBool(bs: Bytes): Parsed<bool> {
    match ReadHeader(bs)
    case Fail => Fail
    case Done(h, rest) =>
      if h.major != OTHER then Fail
      else if h.extra == 20 then Done(false, rest)
      else if h.extra == 21 then Done(true, rest)
      else Fail
  }

  lemma BoolRoundTrip(b: bool, rest: Bytes)
    ensures ReadBool(WriteBool(b) + rest) == Done(b, rest)
  {
  }

  function WriteString(major: Major, s: Bytes): Bytes
    requires |s| < 0x1_0000_0000_0000_0000
  {
    WriteHeader(Header(major, |s|)) + s
  }

  /** A string of the given major type, not longer than max. */
  function ReadString(major: Major, max: nat, bs: Bytes): Parsed<Bytes> {
    match ReadHeader(bs)
    case Fail => Fail
    case Done(h, rest) =>
      if h.major != major || h.extra > max || |rest| < h.extra then Fail
      else Done(rest[..h.extra], rest[h.extra..])
  }

  lemma StringRoundTrip(major: Major, max: nat, s: Bytes, rest: Bytes)
    requires |s| <= max && |s| < 0x1_0000_0000_0000_0000
    ensures ReadString(major, max, WriteString(major, s) + rest) == Done(s, rest)
  {
    HeaderRoundTrip(Header(major, |s|), s + rest);
    assert WriteString(major, s) + rest == WriteHeader(Header(major, |s|)) + (s + rest);
  }

  /** The bytes of an ASCII literal. */
  function Ascii(s: string): (r: Bytes)
    ensures |r| == |s| && forall i :: 0 <= i < |s| ==> r[i] == s[i] as int % 256
  {
    seq(|s|, i requires 0 <= i < |s| => s[i] as int % 256)
  }

  // ---------------------------------------------------------------- lists

  function WriteList<T>(xs: seq<T>, enc: T -> Bytes): Bytes {
    if xs == [] then [] else enc(xs[0]) + WriteList(xs[1..], enc)
  }

  function ReadList<T>(n: nat, bs: Bytes, dec: Bytes -> Parsed<T>): Parsed<seq<T>> {
    if n == 0 then Done([], bs)
    else
      match dec(bs)
      case Fail => Fail
      case Done(x, rest) =>
        match ReadList(n - 1, rest, dec)
        case Fail => Fail
        case Done(xs, rest') => Done([x] + xs, rest')
  }

  ghost predicate RoundTrips<T(!new)>(enc: T -> Bytes, dec: Bytes -> Parsed<T>) {
    forall x, rest :: dec(enc(x) + rest) == Done(x, rest)
  }

  lemma {:induction false} ListRoundTrip<T(!new)>(xs: seq<T>, enc: T -> Bytes, dec: Bytes -> Parsed<T>, rest: Bytes)
    requires RoundTrips(enc, dec)
    ensures ReadList(|xs|, WriteList(xs, enc) + rest, dec) == Done(xs, rest)
  {
    if xs == [] {
      assert WriteList(xs, enc) + rest == rest;
    } else {
      var tail := WriteList(xs[1..], enc) + rest;
      assert WriteList(xs, enc) + rest == enc(xs[0]) + tail;
      assert dec(enc(xs[0]) + tail) == Done(xs[0], tail);
      ListRoundTrip(xs[1..], enc, dec, rest);
      assert xs == [xs[0]] + xs[1..];
    }
  }

  // ---------------------------------------------------------------- maps of fields

  /** Reads the value of the named field into the struct; unknown names are skipped. */
  type FieldReader<!S> = (Bytes, S, Bytes) -> Parsed<S>

  function ReadEntries<S>(n: nat, bs: Bytes, acc: S, field: FieldReader<S>): Parsed<S>
    decreases n
  {
    if n == 0 then Done(acc, bs)
    else
      match ReadString(TEXT, MAX_LENGTH, bs)
      case Fail => Fail
      case Done(name, rest) =>
        match field(name, acc, rest)
        case Fail => Fail
        case Done(acc', rest') => ReadEntries(n - 1, rest', acc', field)
  }

  function ReadMap<S>(bs: Bytes, zero: S, field: FieldReader<S>): Parsed<S> {
    match ReadHeader(bs)
    case Fail => Fail
    case Done(h, rest) =>
      if h.major != MAP || h.extra > MAX_LENGTH then Fail else ReadEntries(h.extra, rest, zero, field)
  }

  /** The unmarshal loop of every generated struct. */
  method UnmarshalMap<S>(bs: Bytes, zero: S, field: FieldReader<S>) returns (r: Parsed<S>)
    ensures r == ReadMap(bs, zero, field)
  {
    var header := ReadHeader(bs);
    if header.Fail? || header.value.major != MAP || header.value.extra > MAX_LENGTH {
      return Fail;
    }
    var n := header.value.extra;
    var t, rest := zero, header.rest;
    for i := 0 to n
      invariant ReadEntries(n - i, rest, t, field) == ReadMap(bs, zero, field)
    {
      var name := ReadString(TEXT, MAX_LENGTH, rest);
      if name.Fail? {
        return Fail;
      }
      var value := field(name.value, t, name.rest);
      if value.Fail? {
        return Fail;
      }
      t, rest := value.value, value.rest;
    }
    return Done(t, rest);
  }

  /** One entry of a map: the bytes of its value, what reading it does to the struct, and on which
      structs it does that (some fields read differently when they were set before). */
  datatype Entry<!S> = Entry(name: Bytes, bytes: Bytes, update: S -> S, pre: S -> bool)

  function WriteEntries<S>(es: seq<Entry<S>>): Bytes
    requires forall i :: 0 <= i < |es| ==> |es[i].name| <= MAX_LENGTH
  {
    if es == [] then [] else WriteString(TEXT, es[0].name) + es[0].bytes + WriteEntries(es[1..])
  }

  function WriteMap<S>(es: seq<Entry<S>>): Bytes
    requires |es| <= MAX_LENGTH && forall i :: 0 <= i < |es| ==> |es[i].name| <= MAX_LENGTH
  {
    WriteHeader(Header(MAP, |es|)) + WriteEntries(es)
  }

  function Fold<S>(es: seq<Entry<S>>, acc: S): S
    decreases es
  {
    if es == [] then acc else Fold(es[1..], es[0].update(acc))
  }

  ghost predicate Handles<S(!new)>(field: FieldReader<S>, e: Entry<S>) {
    forall acc, rest :: e.pre(acc) ==> field(e.name, acc, e.bytes + rest) == Done(e.update(acc), rest)
  }

  /** Reading e and f commutes, and reading one leaves the other readable. */
  ghost predicate Independent<S(!new)>(e: Entry<S>, f: Entry<S>) {
    && (forall acc {:trigger e.update(f.update(acc))} :: e.update(f.update(acc)) == f.update(e.update(acc)))
    && (forall acc {:trigger e.pre(f.update(acc))} :: e.pre(acc) ==> e.pre(f.update(acc)))
    && (forall acc {:trigger f.pre(e.update(acc))} :: f.pre(acc) ==> f.pre(e.update(acc)))
  }

  /** Entries of different fields, each once. */
  ghost predicate WellFormed<S(!new)>(field: FieldReader<S>, zero: S, es: seq<Entry<S>>) {
    && |es| <= MAX_LENGTH
    && (forall i :: 0 <= i < |es| ==> |es[i].name| <= MAX_LENGTH && Handles(field, es[i]) && es[i].pre(zero))
    && (forall i, j :: 0 <= i < j < |es| ==> Independent(es[i], es[j]) && es[i].name != es[j].name)
  }

  lemma {:induction false} ReadEntriesFolds<S(!new)>(field: FieldReader<S>, es: seq<Entry<S>>, acc: S, rest: Bytes)
    requires WellFormed(field, acc, es)
    ensures ReadEntries(|es|, WriteEntries(es) + rest, acc, field) == Done(Fold(es, acc), rest)
    decreases es
  {
    if es == [] {
      assert WriteEntries(es) + rest == rest;
    } else {
      var e, n, tail := es[0], |es| - 1, WriteEntries(es[1..]) + rest;
      assert Handles(field, e);
      calc {
        ReadEntries(n + 1, WriteEntries(es) + rest, acc, field);
        { WriteEntriesCons(es, rest); }
        ReadEntries(n + 1, WriteString(TEXT, e.name) + (e.bytes + tail), acc, field);
        { ReadEntriesStep(field, e, n, acc, tail); }
        ReadEntries(n, tail, e.update(acc), field);
        { WellFormedTail(field, es, acc); ReadEntriesFolds(field, es[1..], e.update(acc), rest); }
        Done(Fold(es[1..], e.update(acc)), rest);
      }
    }
  }

  lemma WriteEntriesCons<S>(es: seq<Entry<S>>, rest: Bytes)
    requires es != [] && forall i :: 0 <= i < |es| ==> |es[i].name| <= MAX_LENGTH
    ensures WriteEntries(es) + rest == WriteString(TEXT, es[0].name) + (es[0].bytes + (WriteEntries(es[1..]) + rest))
  {
    Regroup(WriteString(TEXT, es[0].name), es[0].bytes, WriteEntries(es[1..]), rest);
  }

  lemma Regroup(a: Bytes, b: Bytes, c: Bytes, d: Bytes)
    ensures a + b + c + d == a + (b + (c + d))
  {
  }

  lemma ReadEntriesStep<S(!new)>(field: FieldReader<S>, e: Entry<S>, n: nat, acc: S, tail: Bytes)
    requires |e.name| <= MAX_LENGTH && Handles(field, e) && e.pre(acc)
    ensures ReadEntries(n + 1, WriteString(TEXT, e.name) + (e.bytes + tail), acc, field) ==
            ReadEntries(n, tail, e.update(acc), field)
  {
    StringRoundTrip(TEXT, MAX_LENGTH, e.name, e.bytes + tail);
    assert field(e.name, acc, e.bytes + tail) == Done(e.update(acc), tail);
  }

  lemma WellFormedTail<S(!new)>(field: FieldReader<S>, es: seq<Entry<S>>, acc: S)
    requires es != [] && WellFormed(field, acc, es)
    ensures WellFormed(field, es[0].update(acc), es[1..])
  {
  }

  lemma ReadMapHeader<S>(n: nat, body: Bytes, zero: S, field: FieldReader<S>)
    requires n <= MAX_LENGTH
    ensures ReadMap(WriteHeader(Header(MAP, n)) + body, zero, field) == ReadEntries(n, body, zero, field)
  {
    HeaderRoundTrip(Header(MAP, n), body);
  }

  /** A well-formed map reads back as the fold of its entries. */
  lemma MapRoundTrip<S(!new)>(field: FieldReader<S>, zero: S, es: seq<Entry<S>>, rest: Bytes)
    requires WellFormed(field, zero, es)
    ensures ReadMap(WriteMap(es) + rest, zero, field) == Done(Fold(es, zero), rest)
  {
    var body := WriteEntries(es) + rest;
    assert WriteMap(es) + rest == WriteHeader(Header(MAP, |es|)) + body;
    ReadMapHeader(|es|, body, zero, field);
    ReadEntriesFolds(field, es, zero, rest);
  }

  // ---------------------------------------------------------------- the order of entries does not matter

  lemma {:induction false} FoldConcat<S>(a: seq<Entry<S>>, b: seq<Entry<S>>, acc: S)
    ensures Fold(a + b, acc) == Fold(b, Fold(a, acc))
    decreases a
  {
    if a == [] {
      assert a + b == b;
    } else {
      assert (a + b)[1..] == a[1..] + b;
      FoldConcat(a[1..], b, a[0].update(acc));
    }
  }

  lemma {:induction false} FoldCommutes<S(!new)>(a: seq<Entry<S>>, e: Entry<S>, acc: S)
    requires forall i :: 0 <= i < |a| ==> Independent(a[i], e)
    ensures Fold(a, e.update(acc)) == e.update(Fold(a, acc))
    decreases a
  {
    if a != [] {
      assert Independent(a[0], e);
      assert a[0].update(e.update(acc)) == e.update(a[0].update(acc));
      forall i | 0 <= i < |a[1..]|
        ensures Independent(a[1..][i], e)
      {
        assert Independent(a[i + 1], e);
      }
      FoldCommutes(a[1..], e, a[0].update(acc));
    }
  }

  ghost predicate AllIndependent<S(!new)>(es: seq<Entry<S>>) {
    forall i, j :: 0 <= i < j < |es| ==> Independent(es[i], es[j]) && es[i].name != es[j].name
  }

  /** The same entries in another order. */
  ghost predicate Reordered<S>(es: seq<Entry<S>>, es': seq<Entry<S>>) {
    && |es| == |es'|
    && (forall i :: 0 <= i < |es| ==> es[i] in es')
    && (forall i :: 0 <= i < |es'| ==> es'[i] in es)
    && (forall i, j :: 0 <= i < j < |es'| ==> es'[i].name != es'[j].name)
  }

  lemma FoldMoveFront<S(!new)>(a: seq<Entry<S>>, e: Entry<S>, b: seq<Entry<S>>, acc: S)
    requires forall i :: 0 <= i < |a| ==> Independent(a[i], e)
    ensures Fold(a + [e] + b, acc) == Fold(a + b, e.update(acc))
  {
    FoldConcat(a + [e], b, acc);
    FoldConcat(a, [e], acc);
    FoldConcat(a, b, e.update(acc));
    FoldCommutes(a, e, acc);
    assert Fold([e], Fold(a, acc)) == e.update(Fold(a, acc));
  }

  /** Taking the first entry of the new order out of both. */
  lemma WithoutKeepsIndependent<S(!new)>(es: seq<Entry<S>>, k: nat)
    requires AllIndependent(es) && k < |es|
    ensures AllIndependent(es[..k] + es[k + 1..])
  {
  }

  lemma WithoutFirst<S(!new)>(es: seq<Entry<S>>, es': seq<Entry<S>>, k: nat)
    requires AllIndependent(es) && Reordered(es, es') && k < |es| && es'[0] == es[k]
    ensures Reordered(es[..k] + es[k + 1..], es'[1..])
  {
  }

  /** Reordering the entries does not change what is read. */
  lemma {:induction false} FoldReordered<S(!new)>(es: seq<Entry<S>>, es': seq<Entry<S>>, acc: S)
    requires AllIndependent(es) && Reordered(es, es')
    ensures Fold(es, acc) == Fold(es', acc)
    decreases |es'|
  {
    if es' != [] {
      var e := es'[0];
      assert e in es;
      var k :| 0 <= k < |es| && es[k] == e;
      var a, b := es[..k], es[k + 1..];
      assert es == a + [e] + b;
      forall i | 0 <= i < |a|
        ensures Independent(a[i], e)
      {
        assert Independent(es[i], es[k]);
      }
      FoldMoveFront(a, e, b, acc);
      WithoutKeepsIndependent(es, k);
      WithoutFirst(es, es', k);
      FoldReordered(a + b, es'[1..], e.update(acc));
    }
  }

  lemma WellFormedReordered<S(!new)>(field: FieldReader<S>, zero: S, es: seq<Entry<S>>, es': seq<Entry<S>>)
    requires WellFormed(field, zero, es) && Reordered(es, es')
    ensures WellFormed(field, zero, es')
  {
  }

  /** Whatever the order of its entries, a well-formed map reads back as the same struct. */
  lemma MapOrderIrrelevant<S(!new)>(field: FieldReader<S>, zero: S, es: seq<Entry<S>>, es': seq<Entry<S>>, rest: Bytes)
    requires WellFormed(field, zero, es) && Reordered(es, es')
    ensures forall i :: 0 <= i < |es'| ==> |es'[i].name| <= MAX_LENGTH
    ensures |es'| <= MAX_LENGTH && ReadMap(WriteMap(es') + rest, zero, field) == Done(Fold(es, zero), rest)
  {
    WellFormedReordered(field, zero, es, es');
    MapRoundTrip(field, zero, es', rest);
    FoldReordered(es, es', zero);
  }

  lemma FoldAt<S>(es: seq<Entry<S>>, i: nat, acc: S)
    requires i <= |es|
    ensures Fold(es[i..], acc) == if i == |es| then acc else Fold(es[i + 1..], es[i].update(acc))
  {
  }

  lemma WriteEntriesAt<S>(es: seq<Entry<S>>, i: nat)
    requires i <= |es| && forall i :: 0 <= i < |es| ==> |es[i].name| <= MAX_LENGTH
    ensures WriteEntries(es[i..]) ==
            if i == |es| then [] else WriteString(TEXT, es[i].name) + es[i].bytes + WriteEntries(es[i + 1..])
  {
  }

  // ---------------------------------------------------------------- unknown fields

  /** An entry whose value is read and forgotten. */
  ghost predicate Ignored<S(!new)>(field: FieldReader<S>, e: Entry<S>) {
    |e.name| <= MAX_LENGTH && Handles(field, e) && forall acc :: e.update(acc) == acc && e.pre(acc)
  }

  /** A name the struct does not have, with any value that the skipper moves past, is such an entry. */
  lemma UnknownIsIgnored<S(!new)>(field: FieldReader<S>, skip: Bytes -> Bytes, name: Bytes, item: Bytes)
    requires |name| <= MAX_LENGTH
    requires forall acc, bs :: field(name, acc, bs) == Done(acc, skip(bs))
    requires forall rest :: skip(item + rest) == rest
    ensures Ignored(field, Entry(name, item, (t: S) => t, (t: S) => true))
  {
  }

  ghost predicate AllIgnored<S(!new)>(field: FieldReader<S>, extras: seq<Entry<S>>) {
    forall i :: 0 <= i < |extras| ==> Ignored(field, extras[i])
  }

  ghost predicate DistinctNames<S>(es: seq<Entry<S>>) {
    forall i, j :: 0 <= i < j < |es| ==> es[i].name != es[j].name
  }

  lemma WellFormedWithExtras<S(!new)>(field: FieldReader<S>, zero: S, es: seq<Entry<S>>, extras: seq<Entry<S>>)
    requires WellFormed(field, zero, es) && AllIgnored(field, extras)
    requires |es| + |extras| <= MAX_LENGTH && DistinctNames(es + extras)
    ensures WellFormed(field, zero, es + extras)
  {
  }

  lemma {:induction false} FoldIgnores<S(!new)>(field: FieldReader<S>, extras: seq<Entry<S>>, acc: S)
    requires AllIgnored(field, extras)
    ensures Fold(extras, acc) == acc
    decreases extras
  {
    if extras != [] {
      assert Ignored(field, extras[0]);
      FoldIgnores(field, extras[1..], acc);
    }
  }

  /** The fields of a struct, with unknown fields among them, in any order, read back as the struct. */
  lemma AnyOrderAnyExtras<S(!new)>(field: FieldReader<S>, zero: S, es: seq<Entry<S>>, extras: seq<Entry<S>>,
                                   es': seq<Entry<S>>, rest: Bytes)
    requires WellFormed(field, zero, es) && AllIgnored(field, extras)
    requires |es| + |extras| <= MAX_LENGTH && DistinctNames(es + extras) && Reordered(es + extras, es')
    ensures |es'| <= MAX_LENGTH && forall i :: 0 <= i < |es'| ==> |es'[i].name| <= MAX_LENGTH
    ensures ReadMap(WriteMap(es') + rest, zero, field) == Done(Fold(es, zero), rest)
  {
    WellFormedWithExtras(field, zero, es, extras);
    MapOrderIrrelevant(field, zero, es + extras, es', rest);
    FoldConcat(es, extras, zero);
    FoldIgnores(field, extras, Fold(es, zero));
  }
}
