/** Blockstores layered over one another: memory stores at the leaves, and identity, buffered and union
    stores, nested in any way. */
module Layers {
  import opened Blocks

  datatype Store =
    | Mem(blocks: map<Multihash, Block>)
    | Id(inner: Store)
    | Buffered(read: Store, write: Store)
    | Union(stores: seq<Store>)

  /** A block to be put; the memory store treats values that are no basic blocks differently. */
  datatype Item = Item(block: Block, basic: bool)

  // ---------------------------------------------------------------- decodeCid

  datatype Decoded = NotInline | Inline(data: Data) | Undecodable

  function DecodeCid(c: Cid): Decoded {
    if c.hash.code != IDENTITY then NotInline
    else if !c.hash.decodes then Undecodable
    else Inline(c.hash.digest)
  }

  // ---------------------------------------------------------------- reads

  datatype HasReply = Yes | No | HasError

  /** Nil: no block and no error, which a union of no stores returns. */
  datatype GetReply = Found(b: Block) | Missing | GetError | Nil

  datatype SizeReply = Size(n: nat) | SizeMissing | SizeError | SizeNil

  function Has(s: Store, c: Cid): HasReply
    decreases s, 1
  {
    match s
    case Mem(m) => if c.hash in m then Yes else No
    case Id(inner) =>
      (match DecodeCid(c)
       case Undecodable => HasError
       case Inline(_) => Yes
       case NotInline => Has(inner, c))
    case Buffered(read, write) =>
      (match Has(write, c)
       case HasError => HasError
       case Yes => Yes
       case No => Has(read, c))
    case Union(ss) => HasFirst(ss, c)
  }

  function HasFirst(ss: seq<Store>, c: Cid): HasReply
    decreases ss, 0
  {
    if ss == [] then No
    else
      var r := Has(ss[0], c);
      if r != No then r else HasFirst(ss[1..], c)
  }

  function Get(s: Store, c: Cid): GetReply
    decreases s, 1
  {
    match s
    case Mem(m) => if c.hash in m then Found(m[c.hash]) else Missing
    case Id(inner) =>
      (match DecodeCid(c)
       case Undecodable => GetError
       case Inline(data) => Found(Block(c, data))
       case NotInline => Get(inner, c))
    case Buffered(read, write) =>
      var r := Get(write, c);
      if r == Missing then Get(read, c) else r
    case Union(ss) => GetFirst(ss, c)
  }

  /** A union returns what the last store it asked returned; it goes on after not-found only. */
  function GetFirst(ss: seq<Store>, c: Cid): GetReply
    decreases ss, 0
  {
    if ss == [] then Nil
    else
      var r := Get(ss[0], c);
      if r == Missing && |ss| > 1 then GetFirst(ss[1..], c) else r
  }

  function GetSize(s: Store, c: Cid): SizeReply
    decreases s, 1
  {
    match s
    case Mem(m) => if c.hash in m then Size(|m[c.hash].data|) else SizeMissing
    case Id(inner) =>
      (match DecodeCid(c)
       case Undecodable => SizeError
       case Inline(data) => Size(|data|)
       case NotInline => GetSize(inner, c))
    case Buffered(read, write) =>
      // a size of 0, which is also what comes with an error, falls through to the write store
      (match GetSize(read, c)
       case Size(n) => if n == 0 then GetSize(write, c) else Size(n)
       case _ => GetSize(write, c))
    case Union(ss) => GetSizeFirst(ss, c)
  }

  function GetSizeFirst(ss: seq<Store>, c: Cid): SizeReply
    decreases ss, 0
  {
    if ss == [] then SizeNil
    else
      var r := GetSize(ss[0], c);
      if r == SizeMissing && |ss| > 1 then GetSizeFirst(ss[1..], c) else r
  }

  // ---------------------------------------------------------------- writes

  datatype Written = Written(store: Store, ok: bool)
  datatype WrittenAll = WrittenAll(stores: seq<Store>, ok: bool)

  function MemPut(m: map<Multihash, Block>, it: Item): map<Multihash, Block> {
    var k := it.block.cid.hash;
    if !it.basic && k in m then m else m[k := it.block]
  }

  function Put(s: Store, it: Item): Written
    decreases s, 1
  {
    match s
    case Mem(m) => Written(Mem(MemPut(m, it)), true)
    case Id(inner) =>
      (match DecodeCid(it.block.cid)
       case Undecodable => Written(s, false)
       case Inline(_) => Written(s, true)
       case NotInline => var w := Put(inner, it); Written(Id(w.store), w.ok))
    case Buffered(read, write) =>
      (match Has(read, it.block.cid)
       case HasError => Written(s, false)
       case Yes => Written(s, true)
       case No => var w := Put(write, it); Written(Buffered(read, w.store), w.ok))
    case Union(ss) => var w := PutEach(ss, it); Written(Union(w.stores), w.ok)
  }

  function PutEach(ss: seq<Store>, it: Item): (r: WrittenAll)
    ensures |r.stores| == |ss|
    decreases ss, 0
  {
    if ss == [] then WrittenAll([], true)
    else
      var w := Put(ss[0], it);
      if !w.ok then WrittenAll([w.store] + ss[1..], false)
      else
        var r := PutEach(ss[1..], it);
        WrittenAll([w.store] + r.stores, r.ok)
  }

  function MemPutMany(m: map<Multihash, Block>, its: seq<Item>): map<Multihash, Block>
    decreases its
  {
    if its == [] then m else MemPutMany(MemPut(m, its[0]), its[1..])
  }

  predicate AllDecodable(its: seq<Item>) {
    forall i :: 0 <= i < |its| ==> DecodeCid(its[i].block.cid) != Undecodable
  }

  /** The items that are not inlined in their own cid. */
  function NotInlined(its: seq<Item>): seq<Item> {
    if its == [] then []
    else (if DecodeCid(its[0].block.cid) == NotInline then [its[0]] else []) + NotInlined(its[1..])
  }

  function PutMany(s: Store, its: seq<Item>): Written
    decreases s, 1
  {
    match s
    case Mem(m) => Written(Mem(MemPutMany(m, its)), true)
    case Id(inner) =>
      if !AllDecodable(its) then Written(s, false)
      else if NotInlined(its) == [] then Written(s, true)
      else var w := PutMany(inner, NotInlined(its)); Written(Id(w.store), w.ok)
    case Buffered(read, write) => var w := PutMany(write, its); Written(Buffered(read, w.store), w.ok)
    case Union(ss) => var w := PutManyEach(ss, its); Written(Union(w.stores), w.ok)
  }

  function PutManyEach(ss: seq<Store>, its: seq<Item>): (r: WrittenAll)
    ensures |r.stores| == |ss|
    decreases ss, 0
  {
    if ss == [] then WrittenAll([], true)
    else
      var w := PutMany(ss[0], its);
      if !w.ok then WrittenAll([w.store] + ss[1..], false)
      else
        var r := PutManyEach(ss[1..], its);
        WrittenAll([w.store] + r.stores, r.ok)
  }

  // ---------------------------------------------------------------- what stores are

  ghost predicate SoundStore(content: Content, s: Store)
    decreases s
  {
    match s
    case Mem(m) => forall h :: h in m ==> m[h].cid.hash == h && Sound(content, m[h])
    case Id(inner) => SoundStore(content, inner)
    case Buffered(read, write) => SoundStore(content, read) && SoundStore(content, write)
    case Union(ss) => forall i :: 0 <= i < |ss| ==> SoundStore(content, ss[i])
  }

  /** Identity multihashes hold their content. */
  ghost predicate IdentityContent(content: Content) {
    forall h: Multihash :: h.code == IDENTITY && h.decodes ==> content(h) == h.digest
  }

  predicate NoEmptyUnion(s: Store)
    decreases s
  {
    match s
    case Mem(_) => true
    case Id(inner) => NoEmptyUnion(inner)
    case Buffered(read, write) => NoEmptyUnion(read) && NoEmptyUnion(write)
    case Union(ss) => ss != [] && forall i :: 0 <= i < |ss| ==> NoEmptyUnion(ss[i])
  }

  // ---------------------------------------------------------------- Has and Get agree

  predicate Agree(h: HasReply, g: GetReply) {
    (h == Yes <==> g.Found?) && (h == No <==> g == Missing) && (h == HasError <==> g == GetError)
  }

  lemma {:induction false} HasAgreesWithGet(s: Store, c: Cid)
    requires NoEmptyUnion(s)
    ensures Agree(Has(s, c), Get(s, c))
    decreases s, 1
  {
    match s
    case Mem(_) =>
    case Id(inner) => HasAgreesWithGet(inner, c);
    case Buffered(read, write) =>
      HasAgreesWithGet(read, c);
      HasAgreesWithGet(write, c);
    case Union(ss) => HasAgreesWithGetFirst(ss, c);
  }

  lemma {:induction false} HasAgreesWithGetFirst(ss: seq<Store>, c: Cid)
    requires ss != [] && forall i :: 0 <= i < |ss| ==> NoEmptyUnion(ss[i])
    ensures Agree(HasFirst(ss, c), GetFirst(ss, c))
    decreases ss, 0
  {
    HasAgreesWithGet(ss[0], c);
    if |ss| > 1 {
      HasAgreesWithGetFirst(ss[1..], c);
    } else {
      assert ss[1..] == [];
      assert HasFirst(ss[1..], c) == No;
    }
  }

  /** What is read is the content of the multihash asked for. */
  lemma {:induction false} GetIsSound(content: Content, s: Store, c: Cid)
    requires SoundStore(content, s) && IdentityContent(content)
    ensures Get(s, c).Found? ==> Get(s, c).b.data == content(c.hash)
    decreases s, 1
  {
    match s
    case Mem(_) =>
    case Id(inner) => GetIsSound(content, inner, c);
    case Buffered(read, write) =>
      GetIsSound(content, read, c);
      GetIsSound(content, write, c);
    case Union(ss) => GetFirstIsSound(content, ss, c);
  }

  lemma {:induction false} GetFirstIsSound(content: Content, ss: seq<Store>, c: Cid)
    requires IdentityContent(content) && forall i :: 0 <= i < |ss| ==> SoundStore(content, ss[i])
    ensures GetFirst(ss, c).Found? ==> GetFirst(ss, c).b.data == content(c.hash)
    decreases ss, 0
  {
    if ss != [] {
      GetIsSound(content, ss[0], c);
      GetFirstIsSound(content, ss[1..], c);
    }
  }

  // ---------------------------------------------------------------- one put

  /** After a put of a decodable cid, exactly its multihash has been added to what the store has. */
  lemma {:induction false} HasAfterPut(s: Store, it: Item, c: Cid)
    requires NoEmptyUnion(s) && DecodeCid(it.block.cid) != Undecodable
    ensures Put(s, it).ok && NoEmptyUnion(Put(s, it).store)
    ensures Has(Put(s, it).store, c) == if c.hash == it.block.cid.hash then Yes else Has(s, c)
    decreases s, 1
  {
    match s
    case Mem(_) =>
    case Id(inner) => HasAfterPut(inner, it, c);
    case Buffered(read, write) =>
      DecodableHas(read, it.block.cid);
      HasDependsOnHash(read, it.block.cid, c);
      if c.hash == it.block.cid.hash {
        DecodableHas(write, c);
      }
      HasAfterPut(write, it, c);
    case Union(ss) => HasFirstAfterPut(ss, it, c);
  }

  lemma {:induction false} HasFirstAfterPut(ss: seq<Store>, it: Item, c: Cid)
    requires ss != [] && (forall i :: 0 <= i < |ss| ==> NoEmptyUnion(ss[i])) && DecodeCid(it.block.cid) != Undecodable
    ensures var r := PutEach(ss, it);
            && r.ok && |r.stores| == |ss| && (forall i :: 0 <= i < |ss| ==> NoEmptyUnion(r.stores[i]))
            && HasFirst(r.stores, c) == if c.hash == it.block.cid.hash then Yes else HasFirst(ss, c)
    decreases ss, 0
  {
    HasAfterPut(ss[0], it, c);
    var r := PutEach(ss, it);
    if |ss| > 1 {
      HasFirstAfterPut(ss[1..], it, c);
      assert r.stores[1..] == PutEach(ss[1..], it).stores;
    } else {
      assert ss[1..] == [] && r.stores[1..] == [];
    }
  }

  lemma {:induction false} DecodableHas(s: Store, c: Cid)
    requires DecodeCid(c) != Undecodable
    ensures Has(s, c) != HasError
    decreases s, 1
  {
    match s
    case Mem(_) =>
    case Id(inner) => DecodableHas(inner, c);
    case Buffered(read, write) =>
      DecodableHas(read, c);
      DecodableHas(write, c);
    case Union(ss) => DecodableHasFirst(ss, c);
  }

  lemma {:induction false} DecodableHasFirst(ss: seq<Store>, c: Cid)
    requires DecodeCid(c) != Undecodable
    ensures HasFirst(ss, c) != HasError
    decreases ss, 0
  {
    if ss != [] {
      DecodableHas(ss[0], c);
      DecodableHasFirst(ss[1..], c);
    }
  }

  lemma {:induction false} HasDependsOnHash(s: Store, c: Cid, d: Cid)
    ensures c.hash == d.hash ==> Has(s, c) == Has(s, d)
    decreases s, 1
  {
    match s
    case Mem(_) =>
    case Id(inner) => HasDependsOnHash(inner, c, d);
    case Buffered(read, write) =>
      HasDependsOnHash(read, c, d);
      HasDependsOnHash(write, c, d);
    case Union(ss) => HasFirstDependsOnHash(ss, c, d);
  }

  lemma {:induction false} HasFirstDependsOnHash(ss: seq<Store>, c: Cid, d: Cid)
    ensures c.hash == d.hash ==> HasFirst(ss, c) == HasFirst(ss, d)
    decreases ss, 0
  {
    if ss != [] {
      HasDependsOnHash(ss[0], c, d);
      HasFirstDependsOnHash(ss[1..], c, d);
    }
  }

  /** Other multihashes are undisturbed by a put, whether it succeeds or not. */
  lemma {:induction false} OthersUndisturbed(s: Store, it: Item, c: Cid)
    requires c.hash != it.block.cid.hash
    ensures Get(Put(s, it).store, c) == Get(s, c)
    decreases s, 1
  {
    match s
    case Mem(_) =>
    case Id(inner) => OthersUndisturbed(inner, it, c);
    case Buffered(read, write) => OthersUndisturbed(write, it, c);
    case Union(ss) => OthersUndisturbedEach(ss, it, c);
  }

  lemma {:induction false} OthersUndisturbedEach(ss: seq<Store>, it: Item, c: Cid)
    requires c.hash != it.block.cid.hash
    ensures GetFirst(PutEach(ss, it).stores, c) == GetFirst(ss, c)
    decreases ss, 0
  {
    if ss != [] {
      OthersUndisturbed(ss[0], it, c);
      OthersUndisturbedEach(ss[1..], it, c);
      var r := PutEach(ss, it);
      assert r.stores[1..] == if r.stores[1..] == ss[1..] then ss[1..] else PutEach(ss[1..], it).stores;
    }
  }

  lemma {:induction false} PutKeepsSound(content: Content, s: Store, it: Item)
    requires SoundStore(content, s) && Sound(content, it.block)
    ensures SoundStore(content, Put(s, it).store)
    decreases s, 1
  {
    match s
    case Mem(_) =>
    case Id(inner) => PutKeepsSound(content, inner, it);
    case Buffered(read, write) => PutKeepsSound(content, write, it);
    case Union(ss) => PutEachKeepsSound(content, ss, it);
  }

  lemma {:induction false} PutEachKeepsSound(content: Content, ss: seq<Store>, it: Item)
    requires (forall i :: 0 <= i < |ss| ==> SoundStore(content, ss[i])) && Sound(content, it.block)
    ensures forall i :: 0 <= i < |ss| ==> SoundStore(content, PutEach(ss, it).stores[i])
    decreases ss, 0
  {
    if ss != [] {
      PutKeepsSound(content, ss[0], it);
      PutEachKeepsSound(content, ss[1..], it);
    }
  }

  /** Put then get, at any depth of layers: the block's data comes back, under every cid with its multihash. */
  lemma PutThenGet(content: Content, s: Store, it: Item, c: Cid)
    requires NoEmptyUnion(s) && SoundStore(content, s) && IdentityContent(content)
    requires Sound(content, it.block) && DecodeCid(it.block.cid) != Undecodable && c.hash == it.block.cid.hash
    ensures Put(s, it).ok
    ensures Get(Put(s, it).store, c).Found? && Get(Put(s, it).store, c).b.data == it.block.data
  {
    HasAfterPut(s, it, c);
    HasAgreesWithGet(Put(s, it).store, c);
    PutKeepsSound(content, s, it);
    GetIsSound(content, Put(s, it).store, c);
  }

  // ---------------------------------------------------------------- many puts

  ghost predicate Among(its: seq<Item>, h: Multihash) {
    exists i :: 0 <= i < |its| && its[i].block.cid.hash == h
  }

  lemma AmongCons(its: seq<Item>, h: Multihash)
    requires its != []
    ensures Among(its, h) <==> its[0].block.cid.hash == h || Among(its[1..], h)
  {
  }

  lemma {:induction false} MemHasAfterPutMany(m: map<Multihash, Block>, its: seq<Item>, h: Multihash)
    ensures h in MemPutMany(m, its) <==> h in m || Among(its, h)
    decreases its
  {
    if its != [] {
      MemHasAfterPutMany(MemPut(m, its[0]), its[1..], h);
      AmongCons(its, h);
    }
  }

  /** Dropping inlined items drops no other multihash, and only decodable ones remain. */
  lemma {:induction false} NotInlinedAmong(its: seq<Item>, c: Cid)
    ensures DecodeCid(c) == NotInline ==> (Among(NotInlined(its), c.hash) <==> Among(its, c.hash))
    ensures AllDecodable(NotInlined(its))
  {
    if its != [] {
      NotInlinedAmong(its[1..], c);
      AmongCons(its, c.hash);
      if DecodeCid(its[0].block.cid) == NotInline {
        var r := NotInlined(its);
        assert r[0] == its[0] && r[1..] == NotInlined(its[1..]);
        AmongCons(r, c.hash);
      } else {
        assert NotInlined(its) == NotInlined(its[1..]);
      }
    }
  }

  /** What the store has once these have been added. */
  ghost function HasWith(its: seq<Item>, c: Cid, before: HasReply): HasReply {
    if Among(its, c.hash) then Yes else before
  }

  lemma {:induction false} HasAfterPutMany(s: Store, its: seq<Item>, c: Cid)
    requires NoEmptyUnion(s) && AllDecodable(its)
    ensures PutMany(s, its).ok && NoEmptyUnion(PutMany(s, its).store)
    ensures Has(PutMany(s, its).store, c) == HasWith(its, c, Has(s, c))
    decreases s, 1
  {
    match s
    case Mem(m) => MemHasAfterPutMany(m, its, c.hash);
    case Id(inner) =>
      NotInlinedAmong(its, c);
      HasAfterPutMany(inner, NotInlined(its), c);
    case Buffered(read, write) => HasAfterPutMany(write, its, c);
    case Union(ss) => HasFirstAfterPutMany(ss, its, c);
  }

  lemma {:induction false} HasFirstAfterPutMany(ss: seq<Store>, its: seq<Item>, c: Cid)
    requires ss != [] && (forall i :: 0 <= i < |ss| ==> NoEmptyUnion(ss[i])) && AllDecodable(its)
    ensures var r := PutManyEach(ss, its);
            && r.ok && |r.stores| == |ss| && (forall i :: 0 <= i < |ss| ==> NoEmptyUnion(r.stores[i]))
            && HasFirst(r.stores, c) == HasWith(its, c, HasFirst(ss, c))
    decreases ss, 0
  {
    HasAfterPutMany(ss[0], its, c);
    var r := PutManyEach(ss, its);
    if |ss| > 1 {
      HasFirstAfterPutMany(ss[1..], its, c);
      assert r.stores[1..] == PutManyEach(ss[1..], its).stores;
    } else {
      assert ss[1..] == [] && r.stores[1..] == [];
    }
  }

  /** One Put after the other. */
  function PutSeq(s: Store, its: seq<Item>): Store
    decreases its
  {
    if its == [] then s else PutSeq(Put(s, its[0]).store, its[1..])
  }

  lemma {:induction false} HasAfterPutSeq(s: Store, its: seq<Item>, c: Cid)
    requires NoEmptyUnion(s) && AllDecodable(its)
    ensures NoEmptyUnion(PutSeq(s, its)) && Has(PutSeq(s, its), c) == HasWith(its, c, Has(s, c))
    decreases its
  {
    if its != [] {
      assert DecodeCid(its[0].block.cid) != Undecodable;
      HasAfterPut(s, its[0], c);
      HasAfterPutSeq(Put(s, its[0]).store, its[1..], c);
      AmongCons(its, c.hash);
    }
  }

  ghost predicate AllSound(content: Content, its: seq<Item>) {
    forall i :: 0 <= i < |its| ==> Sound(content, its[i].block)
  }

  lemma {:induction false} PutSeqKeepsSound(content: Content, s: Store, its: seq<Item>)
    requires SoundStore(content, s) && AllSound(content, its)
    ensures SoundStore(content, PutSeq(s, its))
    decreases its
  {
    if its != [] {
      PutKeepsSound(content, s, its[0]);
      PutSeqKeepsSound(content, Put(s, its[0]).store, its[1..]);
    }
  }

  lemma {:induction false} MemPutManyKeepsSound(content: Content, m: map<Multihash, Block>, its: seq<Item>)
    requires SoundStore(content, Mem(m)) && AllSound(content, its)
    ensures SoundStore(content, Mem(MemPutMany(m, its)))
    decreases its
  {
    if its != [] {
      MemPutManyKeepsSound(content, MemPut(m, its[0]), its[1..]);
    }
  }

  lemma {:induction false} NotInlinedSound(content: Content, its: seq<Item>)
    requires AllSound(content, its)
    ensures AllSound(content, NotInlined(its))
  {
    if its != [] {
      NotInlinedSound(content, its[1..]);
    }
  }

  lemma {:induction false} PutManyKeepsSound(content: Content, s: Store, its: seq<Item>)
    requires SoundStore(content, s) && AllSound(content, its)
    ensures SoundStore(content, PutMany(s, its).store)
    decreases s, 1
  {
    match s
    case Mem(m) => MemPutManyKeepsSound(content, m, its);
    case Id(inner) =>
      NotInlinedSound(content, its);
      PutManyKeepsSound(content, inner, NotInlined(its));
    case Buffered(read, write) => PutManyKeepsSound(content, write, its);
    case Union(ss) => PutManyEachKeepsSound(content, ss, its);
  }

  lemma {:induction false} PutManyEachKeepsSound(content: Content, ss: seq<Store>, its: seq<Item>)
    requires (forall i :: 0 <= i < |ss| ==> SoundStore(content, ss[i])) && AllSound(content, its)
    ensures forall i :: 0 <= i < |ss| ==> SoundStore(content, PutManyEach(ss, its).stores[i])
    decreases ss, 0
  {
    if ss != [] {
      PutManyKeepsSound(content, ss[0], its);
      PutManyEachKeepsSound(content, ss[1..], its);
    }
  }

  /** A reader sees the same: the same data, or the same failure. */
  ghost predicate SameReads(a: GetReply, b: GetReply) {
    if a.Found? then b.Found? && a.b.data == b.b.data else a == b
  }

  /** PutMany of decodable cids cannot be told from putting one after the other, although a buffered
      store asks its read side for each Put and not for PutMany. */
  lemma PutManyIsPuts(content: Content, s: Store, its: seq<Item>, c: Cid)
    requires NoEmptyUnion(s) && SoundStore(content, s) && IdentityContent(content)
    requires AllDecodable(its) && AllSound(content, its)
    ensures PutMany(s, its).ok
    ensures SameReads(Get(PutMany(s, its).store, c), Get(PutSeq(s, its), c))
  {
    var a, b := PutMany(s, its).store, PutSeq(s, its);
    HasAfterPutMany(s, its, c);
    HasAfterPutSeq(s, its, c);
    HasAgreesWithGet(a, c);
    HasAgreesWithGet(b, c);
    PutManyKeepsSound(content, s, its);
    PutSeqKeepsSound(content, s, its);
    GetIsSound(content, a, c);
    GetIsSound(content, b, c);
  }

  // ---------------------------------------------------------------- unions of nothing

  ghost function Stored(s: Store): set<Multihash>
    decreases s, 1
  {
    match s
    case Mem(m) => m.Keys
    case Id(inner) => Stored(inner)
    case Buffered(read, write) => Stored(read) + Stored(write)
    case Union(ss) => StoredIn(ss)
  }

  ghost function StoredIn(ss: seq<Store>): set<Multihash>
    decreases ss, 0
  {
    if ss == [] then {} else Stored(ss[0]) + StoredIn(ss[1..])
  }

  lemma {:induction false} AbsentReads(s: Store, c: Cid)
    requires c.hash !in Stored(s) && c.hash.code != IDENTITY
    ensures Has(s, c) == No
    ensures Get(s, c) == if NoEmptyUnion(s) then Missing else Nil
    decreases s, 1
  {
    match s
    case Mem(_) =>
    case Id(inner) => AbsentReads(inner, c);
    case Buffered(read, write) =>
      AbsentReads(read, c);
      AbsentReads(write, c);
    case Union(ss) => AbsentReadsFirst(ss, c);
  }

  lemma {:induction false} AbsentReadsFirst(ss: seq<Store>, c: Cid)
    requires c.hash !in StoredIn(ss) && c.hash.code != IDENTITY
    ensures HasFirst(ss, c) == No
    ensures GetFirst(ss, c) == if ss != [] && (forall i :: 0 <= i < |ss| ==> NoEmptyUnion(ss[i])) then Missing else Nil
    decreases ss, 0
  {
    if ss != [] {
      AbsentReads(ss[0], c);
      AbsentReadsFirst(ss[1..], c);
      assert ss == [ss[0]] + ss[1..];
      if |ss| > 1 && NoEmptyUnion(ss[0]) {
        assert (forall i :: 0 <= i < |ss| ==> NoEmptyUnion(ss[i])) <==>
               (forall i :: 0 <= i < |ss[1..]| ==> NoEmptyUnion(ss[1..][i])) by {
          if forall i :: 0 <= i < |ss[1..]| ==> NoEmptyUnion(ss[1..][i]) {
            forall i | 0 <= i < |ss|
              ensures NoEmptyUnion(ss[i])
            {
              assert i == 0 || NoEmptyUnion(ss[1..][i - 1]);
            }
          }
        }
      }
    }
  }

  lemma {:induction false} FreshCode(hashes: set<Multihash>) returns (n: nat)
    ensures n > IDENTITY && forall h :: h in hashes ==> h.code < n
  {
    n := 1;
    if hashes != {} {
      var h :| h in hashes;
      var m := FreshCode(hashes - {h});
      n := if h.code < m then m else h.code + 1;
    }
  }

  /** Has and Get agree on every cid exactly when no union of no stores is nested anywhere. */
  lemma AgreementIff(s: Store)
    ensures (forall c :: Agree(Has(s, c), Get(s, c))) <==> NoEmptyUnion(s)
  {
    if NoEmptyUnion(s) {
      forall c
        ensures Agree(Has(s, c), Get(s, c))
      {
        HasAgreesWithGet(s, c);
      }
    } else {
      var n := FreshCode(Stored(s));
      var c := Cid(0, Multihash(n, "", true));
      AbsentReads(s, c);
      assert !Agree(Has(s, c), Get(s, c));
    }
  }

  // ---------------------------------------------------------------- sizes

  /** The store without the read sides of its buffered layers. */
  function WriteSide(s: Store): Store
    decreases s, 1
  {
    match s
    case Mem(_) => s
    case Id(inner) => Id(WriteSide(inner))
    case Buffered(_, write) => WriteSide(write)
    case Union(ss) => Union(WriteSides(ss))
  }

  function WriteSides(ss: seq<Store>): (r: seq<Store>)
    ensures |r| == |ss|
    decreases ss, 0
  {
    if ss == [] then [] else [WriteSide(ss[0])] + WriteSides(ss[1..])
  }

  function SizeOf(g: GetReply): SizeReply {
    match g
    case Found(b) => Size(|b.data|)
    case Missing => SizeMissing
    case GetError => SizeError
    case Nil => SizeNil
  }

  /** GetSize agrees with Get for decodable cids of content that is not empty. For empty content, and for
      an undecodable cid that no memory store holds, it answers for the write sides only: a block of
      size 0 on a read side is reported missing, and so is a cid that a read side fails on. */
  lemma {:induction false} SizeAgrees(content: Content, s: Store, c: Cid)
    requires NoEmptyUnion(s) && SoundStore(content, s) && IdentityContent(content)
    requires DecodeCid(c) != Undecodable || c.hash !in Stored(s)
    ensures GetSize(s, c) == SizeOf(Get(if Sized(content, c) then s else WriteSide(s), c))
    decreases s, 1
  {
    HasAgreesWithGet(s, c);
    GetIsSound(content, s, c);
    match s
    case Mem(_) =>
    case Id(inner) =>
      if DecodeCid(c) == NotInline {
        SizeAgrees(content, inner, c);
      }
    case Buffered(read, write) =>
      SizeAgrees(content, read, c);
      SizeAgrees(content, write, c);
      WriteSideSound(content, read);
      GetIsSound(content, WriteSide(read), c);
      GetIsSound(content, read, c);
      GetIsSound(content, write, c);
      if DecodeCid(c) == Undecodable {
        UnstoredIsNotFound(read, c);
        WriteSideStores(read);
        UnstoredIsNotFound(WriteSide(read), c);
      } else {
        DecodableHas(read, c);
        HasAgreesWithGet(read, c);
        DecodableHas(s, c);
      }
    case Union(ss) => SizeAgreesFirst(content, ss, c);
  }

  /** The cids for which a size of 0 is no answer and there is no error to hide. */
  ghost predicate Sized(content: Content, c: Cid) {
    DecodeCid(c) != Undecodable && content(c.hash) != ""
  }

  lemma {:induction false} SizeAgreesFirst(content: Content, ss: seq<Store>, c: Cid)
    requires ss != [] && IdentityContent(content)
    requires DecodeCid(c) != Undecodable || c.hash !in StoredIn(ss)
    requires forall i :: 0 <= i < |ss| ==> NoEmptyUnion(ss[i]) && SoundStore(content, ss[i])
    ensures GetSizeFirst(ss, c) == SizeOf(GetFirst(if Sized(content, c) then ss else WriteSides(ss), c))
    decreases ss, 0
  {
    SizeAgrees(content, ss[0], c);
    var w := WriteSides(ss);
    assert w[0] == WriteSide(ss[0]) && w[1..] == WriteSides(ss[1..]);
    if |ss| > 1 {
      SizeAgreesFirst(content, ss[1..], c);
    }
  }

  lemma {:induction false} UnstoredIsNotFound(s: Store, c: Cid)
    requires DecodeCid(c) == Undecodable && c.hash !in Stored(s)
    ensures !Get(s, c).Found?
    decreases s, 1
  {
    match s
    case Mem(_) =>
    case Id(_) =>
    case Buffered(read, write) =>
      UnstoredIsNotFound(read, c);
      UnstoredIsNotFound(write, c);
    case Union(ss) => UnstoredIsNotFoundFirst(ss, c);
  }

  lemma {:induction false} UnstoredIsNotFoundFirst(ss: seq<Store>, c: Cid)
    requires DecodeCid(c) == Undecodable && c.hash !in StoredIn(ss)
    ensures !GetFirst(ss, c).Found?
    decreases ss, 0
  {
    if ss != [] {
      UnstoredIsNotFound(ss[0], c);
      UnstoredIsNotFoundFirst(ss[1..], c);
    }
  }

  lemma {:induction false} WriteSideStores(s: Store)
    ensures Stored(WriteSide(s)) <= Stored(s)
    decreases s, 1
  {
    match s
    case Mem(_) =>
    case Id(inner) => WriteSideStores(inner);
    case Buffered(_, write) => WriteSideStores(write);
    case Union(ss) => WriteSidesStore(ss);
  }

  lemma {:induction false} WriteSidesStore(ss: seq<Store>)
    ensures StoredIn(WriteSides(ss)) <= StoredIn(ss)
    decreases ss, 0
  {
    if ss != [] {
      WriteSideStores(ss[0]);
      WriteSidesStore(ss[1..]);
      assert WriteSides(ss)[1..] == WriteSides(ss[1..]);
    }
  }

  ghost predicate SizesAgree(s: Store, c: Cid) {
    GetSize(s, c) == SizeOf(Get(s, c))
  }

  /** What Get would return if every buffered layer asked its read side first, took nothing but non-empty
      content from it, and otherwise asked its write side. */
  function ReadFirst(s: Store, c: Cid): GetReply
    decreases s, 1
  {
    match s
    case Buffered(read, write) =>
      var r := ReadFirst(read, c);
      if r.Found? && r.b.data != "" then r else ReadFirst(write, c)
    case Id(inner) => if DecodeCid(c) == NotInline then ReadFirst(inner, c) else Get(s, c)
    case Mem(_) => Get(s, c)
    case Union(ss) => ReadFirstOf(ss, c)
  }

  function ReadFirstOf(ss: seq<Store>, c: Cid): GetReply
    decreases ss, 0
  {
    if ss == [] then Nil
    else
      var r := ReadFirst(ss[0], c);
      if r == Missing && |ss| > 1 then ReadFirstOf(ss[1..], c) else r
  }

  /** That is what GetSize gives the size of, for every store and every cid. */
  lemma {:induction false} SizeIsReadFirst(s: Store, c: Cid)
    ensures GetSize(s, c) == SizeOf(ReadFirst(s, c))
    decreases s, 1
  {
    match s
    case Mem(_) =>
    case Id(inner) =>
      if DecodeCid(c) == NotInline {
        SizeIsReadFirst(inner, c);
      }
    case Buffered(read, write) =>
      SizeIsReadFirst(read, c);
      SizeIsReadFirst(write, c);
    case Union(ss) => SizeIsReadFirstOf(ss, c);
  }

  lemma {:induction false} SizeIsReadFirstOf(ss: seq<Store>, c: Cid)
    ensures GetSizeFirst(ss, c) == SizeOf(ReadFirstOf(ss, c))
    decreases ss, 0
  {
    if ss != [] {
      SizeIsReadFirst(ss[0], c);
      SizeIsReadFirstOf(ss[1..], c);
    }
  }

  lemma {:induction false} ReadFirstIsSound(content: Content, s: Store, c: Cid)
    requires SoundStore(content, s) && IdentityContent(content)
    ensures ReadFirst(s, c).Found? ==> ReadFirst(s, c).b.data == content(c.hash)
    decreases s, 1
  {
    match s
    case Mem(_) => GetIsSound(content, s, c);
    case Id(inner) =>
      if DecodeCid(c) == NotInline {
        ReadFirstIsSound(content, inner, c);
      } else {
        GetIsSound(content, s, c);
      }
    case Buffered(read, write) =>
      ReadFirstIsSound(content, read, c);
      ReadFirstIsSound(content, write, c);
    case Union(ss) => ReadFirstOfIsSound(content, ss, c);
  }

  lemma {:induction false} ReadFirstOfIsSound(content: Content, ss: seq<Store>, c: Cid)
    requires IdentityContent(content) && forall i :: 0 <= i < |ss| ==> SoundStore(content, ss[i])
    ensures ReadFirstOf(ss, c).Found? ==> ReadFirstOf(ss, c).b.data == content(c.hash)
    decreases ss, 0
  {
    if ss != [] {
      ReadFirstIsSound(content, ss[0], c);
      ReadFirstOfIsSound(content, ss[1..], c);
    }
  }

  /** A size that GetSize reports is the right one, for every cid and any nesting; GetSize agrees with Get
      if and only if the order in which the sides are asked makes no difference to whether there is
      a block, none, or an error. */
  lemma SizesAgreeIff(content: Content, s: Store, c: Cid)
    requires SoundStore(content, s) && IdentityContent(content)
    ensures GetSize(s, c).Size? ==> GetSize(s, c).n == |content(c.hash)|
    ensures SizesAgree(s, c) <==> (ReadFirst(s, c) == Get(s, c) || (ReadFirst(s, c).Found? && Get(s, c).Found?))
  {
    SizeIsReadFirst(s, c);
    ReadFirstIsSound(content, s, c);
    GetIsSound(content, s, c);
  }

  /** What a buffered layer's sides may answer for its GetSize to be that of what its Get returns: where
      the write side has nothing, the read side does not fail and is not empty; where the write side
      fails, the read side has nothing but empty content. */
  predicate SidesFit(write: GetReply, read: GetReply) {
    var readable := read.Found? && read.b.data != "";
    match write
    case Found(_) => true
    case Missing => readable || read == Missing
    case _ => !readable
  }

  /** At every buffered layer that is asked for c the sides fit. */
  predicate Calm(s: Store, c: Cid)
    decreases s
  {
    match s
    case Mem(_) => true
    case Id(inner) => DecodeCid(c) != NotInline || Calm(inner, c)
    case Buffered(read, write) => Calm(read, c) && Calm(write, c) && SidesFit(Get(write, c), Get(read, c))
    case Union(ss) => forall i :: 0 <= i < |ss| ==> Calm(ss[i], c)
  }

  /** For every cid, decodable or not, and every nesting: one buffered layer on top of calm sides gets
      the size right if and only if its sides fit. */
  lemma BufferedSizeIff(content: Content, read: Store, write: Store, c: Cid)
    requires SoundStore(content, read) && SoundStore(content, write) && IdentityContent(content)
    requires Calm(read, c) && Calm(write, c)
    ensures SizesAgree(Buffered(read, write), c) <==> SidesFit(Get(write, c), Get(read, c))
  {
    assert SizesAgree(read, c) by {
      CalmSizes(content, read, c);
    }
    assert SizesAgree(write, c) by {
      CalmSizes(content, write, c);
    }
    assert SameData(Get(write, c), Get(read, c)) by {
      GetIsSound(content, read, c);
      GetIsSound(content, write, c);
    }
    FittingReplies(Get(read, c), Get(write, c));
    assert Get(Buffered(read, write), c) == OverlayGet(Get(read, c), Get(write, c));
    assert GetSize(Buffered(read, write), c) == OverlaySize(GetSize(read, c), GetSize(write, c));
  }

  /** The two rules of a buffered layer, on the answers of its sides. */
  function OverlayGet(read: GetReply, write: GetReply): GetReply {
    if write == Missing then read else write
  }

  function OverlaySize(read: SizeReply, write: SizeReply): SizeReply {
    if read.Size? && read.n > 0 then read else write
  }

  lemma FittingReplies(read: GetReply, write: GetReply)
    requires SameData(write, read)
    ensures OverlaySize(SizeOf(read), SizeOf(write)) == SizeOf(OverlayGet(read, write)) <==> SidesFit(write, read)
  {
  }

  predicate SameData(a: GetReply, b: GetReply) {
    a.Found? && b.Found? ==> a.b.data == b.b.data
  }

  lemma {:induction false} CalmSizes(content: Content, s: Store, c: Cid)
    requires SoundStore(content, s) && IdentityContent(content) && Calm(s, c)
    ensures SizesAgree(s, c)
    decreases s, 1
  {
    match s
    case Mem(_) =>
    case Id(inner) =>
      if DecodeCid(c) == NotInline {
        CalmSizes(content, inner, c);
      }
    case Buffered(read, write) =>
      CalmSizes(content, read, c);
      CalmSizes(content, write, c);
      assert SameData(Get(write, c), Get(read, c)) by {
        GetIsSound(content, read, c);
        GetIsSound(content, write, c);
      }
    case Union(ss) => CalmSizesFirst(content, ss, c);
  }

  lemma {:induction false} CalmSizesFirst(content: Content, ss: seq<Store>, c: Cid)
    requires IdentityContent(content)
    requires forall i :: 0 <= i < |ss| ==> SoundStore(content, ss[i]) && Calm(ss[i], c)
    ensures GetSizeFirst(ss, c) == SizeOf(GetFirst(ss, c))
    decreases ss, 0
  {
    if ss != [] {
      CalmSizes(content, ss[0], c);
      CalmSizesFirst(content, ss[1..], c);
    }
  }

  /** Two stores whose GetSize is wrong: an empty block on the read side is reported missing, and so is
      an undecodable cid that Get fails on. */
  lemma WrongSizes(c: Cid, d: Cid)
    requires DecodeCid(d) == Undecodable
    ensures var s := Buffered(Mem(map[c.hash := Block(c, "")]), Mem(map[]));
            Get(s, c) == Found(Block(c, "")) && GetSize(s, c) == SizeMissing
    ensures var s := Buffered(Id(Mem(map[])), Mem(map[]));
            Get(s, d) == GetError && GetSize(s, d) == SizeMissing
  {
    var read, write := Mem(map[c.hash := Block(c, "")]), Mem(map[]);
    assert Get(write, c) == Missing && GetSize(read, c) == Size(0);
    assert GetSize(Id(Mem(map[])), d) == SizeError;
  }

  lemma {:induction false} WriteSideSound(content: Content, s: Store)
    requires SoundStore(content, s)
    ensures SoundStore(content, WriteSide(s))
    decreases s, 1
  {
    match s
    case Mem(_) =>
    case Id(inner) => WriteSideSound(content, inner);
    case Buffered(_, write) => WriteSideSound(content, write);
    case Union(ss) => WriteSidesSound(content, ss);
  }

  lemma {:induction false} WriteSidesSound(content: Content, ss: seq<Store>)
    requires forall i :: 0 <= i < |ss| ==> SoundStore(content, ss[i])
    ensures forall i :: 0 <= i < |ss| ==> SoundStore(content, WriteSides(ss)[i])
    decreases ss, 0
  {
    if ss != [] {
      WriteSideSound(content, ss[0]);
      WriteSidesSound(content, ss[1..]);
    }
  }
}
