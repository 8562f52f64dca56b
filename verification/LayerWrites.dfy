/** Where writes end up, store by store, and which store answers a read. */
module LayerWrites {
  import opened Blocks
  import opened Layers

  // ---------------------------------------------------------------- union stores

  /** A put of a decodable cid is broadcast: every store of a union has it afterwards. */
  lemma {:induction false} UnionPutReachesAll(ss: seq<Store>, it: Item, i: nat, c: Cid)
    requires (forall j :: 0 <= j < |ss| ==> NoEmptyUnion(ss[j])) && DecodeCid(it.block.cid) != Undecodable && i < |ss|
    ensures PutEach(ss, it).ok
    ensures Has(PutEach(ss, it).stores[i], c) == if c.hash == it.block.cid.hash then Yes else Has(ss[i], c)
  {
    HasAfterPut(ss[0], it, c);
    if |ss| > 1 {
      UnionPutReachesAll(ss[1..], it, if i > 0 then i - 1 else 0, c);
    }
  }

  /** ... and so is a PutMany. */
  lemma {:induction false} UnionPutManyReachesAll(ss: seq<Store>, its: seq<Item>, i: nat, c: Cid)
    requires (forall j :: 0 <= j < |ss| ==> NoEmptyUnion(ss[j])) && AllDecodable(its) && i < |ss|
    ensures PutManyEach(ss, its).ok
    ensures Has(PutManyEach(ss, its).stores[i], c) == HasWith(its, c, Has(ss[i], c))
  {
    HasAfterPutMany(ss[0], its, c);
    if |ss| > 1 {
      UnionPutManyReachesAll(ss[1..], its, if i > 0 then i - 1 else 0, c);
    }
  }

  /** The first store of a union that has the block, or fails, answers. */
  lemma {:induction false} FirstAnswerWins(ss: seq<Store>, i: nat, c: Cid)
    requires i < |ss| && forall j :: 0 <= j < i ==> Get(ss[j], c) == Missing
    ensures Get(ss[i], c) != Missing || i == |ss| - 1 ==> Get(Union(ss), c) == Get(ss[i], c)
  {
    if i > 0 {
      FirstAnswerWins(ss[1..], i - 1, c);
    }
  }

  lemma {:induction false} FirstHolderWins(ss: seq<Store>, i: nat, c: Cid)
    requires i < |ss| && forall j :: 0 <= j < i ==> Has(ss[j], c) == No
    ensures Has(ss[i], c) != No || i == |ss| - 1 ==> Has(Union(ss), c) == Has(ss[i], c)
  {
    if i > 0 {
      FirstHolderWins(ss[1..], i - 1, c);
    } else if |ss| == 1 {
      assert HasFirst(ss[1..], c) == No;
    }
  }

  // ---------------------------------------------------------------- buffered stores

  /** The read side is never written. A put changes nothing when the read side has the block, fails when it
      cannot tell, and otherwise goes to the write side. */
  lemma BufferedPut(read: Store, write: Store, it: Item, c: Cid)
    requires NoEmptyUnion(write)
    ensures var w := Put(Buffered(read, write), it);
            match Has(read, it.block.cid)
            case Yes => w == Written(Buffered(read, write), true)
            case HasError => w == Written(Buffered(read, write), false)
            case No =>
              && w.store.Buffered? && w.store.read == read
              && (DecodeCid(it.block.cid) != Undecodable ==>
                    w.ok && Has(w.store.write, c) == if c.hash == it.block.cid.hash then Yes else Has(write, c))
  {
    if DecodeCid(it.block.cid) != Undecodable {
      HasAfterPut(write, it, c);
    }
  }

  /** A PutMany goes to the write side whole, whatever the read side has. */
  lemma BufferedPutMany(read: Store, write: Store, its: seq<Item>, c: Cid)
    requires NoEmptyUnion(write)
    ensures var w := PutMany(Buffered(read, write), its);
            && w.store.Buffered? && w.store.read == read
            && (AllDecodable(its) ==> w.ok && Has(w.store.write, c) == HasWith(its, c, Has(write, c)))
  {
    if AllDecodable(its) {
      HasAfterPutMany(write, its, c);
    }
  }

  /** The write side answers unless it has nothing. */
  lemma WriteSideFirst(read: Store, write: Store, c: Cid)
    ensures Get(write, c) != Missing ==> Get(Buffered(read, write), c) == Get(write, c)
    ensures Get(write, c) == Missing ==> Get(Buffered(read, write), c) == Get(read, c)
    ensures Has(write, c) != No ==> Has(Buffered(read, write), c) == Has(write, c)
    ensures Has(write, c) == No ==> Has(Buffered(read, write), c) == Has(read, c)
  {
  }

  // ---------------------------------------------------------------- identity stores

  /** What an identity store answers for a cid with an identity hash comes from the cid alone: the block it
      holds, or an error if it does not decode. For any other cid it answers as the inner store does. */
  lemma IdAnswers(inner: Store, c: Cid)
    ensures c.hash.code == 0 && c.hash.decodes ==>
              && Has(Id(inner), c) == Yes && Get(Id(inner), c) == Found(Block(c, c.hash.digest))
              && GetSize(Id(inner), c) == Size(|c.hash.digest|)
    ensures c.hash.code == 0 && !c.hash.decodes ==>
              Has(Id(inner), c) == HasError && Get(Id(inner), c) == GetError && GetSize(Id(inner), c) == SizeError
    ensures c.hash.code != 0 ==>
              && Has(Id(inner), c) == Has(inner, c) && Get(Id(inner), c) == Get(inner, c)
              && GetSize(Id(inner), c) == GetSize(inner, c)
  {
  }

  /** A block that its own cid holds is not stored; one whose cid does not decode is refused; any other goes
      to the inner store. */
  lemma IdPut(inner: Store, it: Item, c: Cid)
    requires NoEmptyUnion(inner)
    ensures var w := Put(Id(inner), it);
            match DecodeCid(it.block.cid)
            case Inline(_) => w == Written(Id(inner), true)
            case Undecodable => w == Written(Id(inner), false)
            case NotInline =>
              w.ok && w.store.Id? && Has(w.store.inner, c) == if c.hash == it.block.cid.hash then Yes else Has(inner, c)
  {
    if DecodeCid(it.block.cid) == NotInline {
      HasAfterPut(inner, it, c);
    }
  }

  /** A PutMany with an undecodable cid stores nothing; otherwise the inner store gets exactly the blocks
      that their cids do not hold. */
  lemma IdPutMany(inner: Store, its: seq<Item>, c: Cid)
    requires NoEmptyUnion(inner)
    ensures var w := PutMany(Id(inner), its);
            if !AllDecodable(its) then w == Written(Id(inner), false)
            else
              && w.ok && w.store.Id?
              && (DecodeCid(c) == NotInline ==> Has(w.store.inner, c) == HasWith(its, c, Has(inner, c)))
              && (DecodeCid(c).Inline? ==> Has(w.store.inner, c) == Has(inner, c))
  {
    if AllDecodable(its) {
      NotInlinedAmong(its, c);
      NotInlinedOnly(its, c);
      if NotInlined(its) != [] {
        HasAfterPutMany(inner, NotInlined(its), c);
      }
    }
  }

  lemma {:induction false} NotInlinedOnly(its: seq<Item>, c: Cid)
    ensures DecodeCid(c).Inline? ==> !Among(NotInlined(its), c.hash)
  {
    if its != [] {
      NotInlinedOnly(its[1..], c);
      if DecodeCid(its[0].block.cid) == NotInline {
        AmongCons(NotInlined(its), c.hash);
      }
    }
  }

  // ---------------------------------------------------------------- memory stores

  /** A basic block replaces what is there; any other does not. */
  lemma MemPutReplaces(m: map<Multihash, Block>, it: Item, c: Cid)
    requires c.hash == it.block.cid.hash
    ensures Get(Mem(MemPut(m, it)), c) == Found(if it.basic || c.hash !in m then it.block else m[c.hash])
  {
  }
}
