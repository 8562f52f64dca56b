/** The loops of the layered blockstores: the memory store's map changed in place, the union's early
    exits, the identity store's filter. Each computes the function Layers.dfy reasons about. */
module LayerLoops {
  import opened Blocks
  import opened Layers

  class MemBlockstore {
    var blocks: map<Multihash, Block>

    constructor ()
      ensures blocks == map[]
    {
      blocks := map[];
    }

    method Put(it: Item)
      modifies this
      ensures blocks == MemPut(old(blocks), it)
    {
      var k := it.block.cid.hash;
      if !it.basic {
        if k in blocks {
          return;
        }
      }
      blocks := blocks[k := it.block];
    }

    method PutMany(its: seq<Item>)
      modifies this
      ensures blocks == MemPutMany(old(blocks), its)
    {
      for i := 0 to |its|
        invariant MemPutMany(blocks, its[i..]) == MemPutMany(old(blocks), its)
      {
        assert its[i..][1..] == its[i + 1..];
        Put(its[i]);
      }
    }

    method DeleteMany(cids: seq<Cid>)
      modifies this
      ensures forall h :: h in blocks <==> h in old(blocks) && forall i :: 0 <= i < |cids| ==> cids[i].hash != h
      ensures forall h :: h in blocks ==> blocks[h] == old(blocks)[h]
    {
      for i := 0 to |cids|
        invariant forall h :: h in blocks <==> h in old(blocks) && forall j :: 0 <= j < i ==> cids[j].hash != h
        invariant forall h :: h in blocks ==> blocks[h] == old(blocks)[h]
      {
        blocks := blocks - {cids[i].hash};
      }
    }
  }

  method UnionHas(ss: seq<Store>, c: Cid) returns (r: HasReply)
    ensures r == HasFirst(ss, c)
  {
    r := No;
    for i := 0 to |ss|
      invariant r == No && HasFirst(ss, c) == HasFirst(ss[i..], c)
    {
      r := Has(ss[i], c);
      assert ss[i..][1..] == ss[i + 1..];
      if r != No {
        break;
      }
    }
  }

  method UnionGet(ss: seq<Store>, c: Cid) returns (r: GetReply)
    ensures r == GetFirst(ss, c)
  {
    r := Nil;
    for i := 0 to |ss|
      invariant if i == 0 then r == Nil else r == Missing
      invariant GetFirst(ss, c) == if i < |ss| then GetFirst(ss[i..], c) else r
    {
      r := Get(ss[i], c);
      assert ss[i..][1..] == ss[i + 1..];
      if r != Missing {
        break;
      }
    }
  }

  /** A broadcast that gets as far as store k: everything before k is written, nothing after it. */
  lemma {:induction false} PutEachReaches(ss: seq<Store>, it: Item, k: nat, done: seq<Store>)
    requires k <= |ss| && |done| == k
    requires forall j :: 0 <= j < k ==> Put(ss[j], it) == Written(done[j], true)
    requires k < |ss| ==> !Put(ss[k], it).ok
    ensures PutEach(ss, it) ==
            if k == |ss| then WrittenAll(done, true)
            else WrittenAll(done + [Put(ss[k], it).store] + ss[k + 1..], false)
  {
    if k > 0 {
      PutEachReaches(ss[1..], it, k - 1, done[1..]);
      assert done == [done[0]] + done[1..];
    }
  }

  method UnionPut(ss: seq<Store>, it: Item) returns (stores: seq<Store>, ok: bool)
    ensures WrittenAll(stores, ok) == PutEach(ss, it)
  {
    stores, ok := [], true;
    for i := 0 to |ss|
      invariant ok && |stores| == i
      invariant forall j :: 0 <= j < i ==> Put(ss[j], it) == Written(stores[j], true)
    {
      var w := Put(ss[i], it);
      if !w.ok {
        PutEachReaches(ss, it, i, stores);
        stores, ok := stores + [w.store] + ss[i + 1..], false;
        return;
      }
      stores := stores + [w.store];
    }
    PutEachReaches(ss, it, |ss|, stores);
  }

  /** The same for a PutMany. */
  lemma {:induction false} PutManyEachReaches(ss: seq<Store>, its: seq<Item>, k: nat, done: seq<Store>)
    requires k <= |ss| && |done| == k
    requires forall j :: 0 <= j < k ==> PutMany(ss[j], its) == Written(done[j], true)
    requires k < |ss| ==> !PutMany(ss[k], its).ok
    ensures PutManyEach(ss, its) ==
            if k == |ss| then WrittenAll(done, true)
            else WrittenAll(done + [PutMany(ss[k], its).store] + ss[k + 1..], false)
  {
    if k > 0 {
      PutManyEachReaches(ss[1..], its, k - 1, done[1..]);
      assert done == [done[0]] + done[1..];
    }
  }

  method UnionPutMany(ss: seq<Store>, its: seq<Item>) returns (stores: seq<Store>, ok: bool)
    ensures WrittenAll(stores, ok) == PutManyEach(ss, its)
  {
    stores, ok := [], true;
    for i := 0 to |ss|
      invariant ok && |stores| == i
      invariant forall j :: 0 <= j < i ==> PutMany(ss[j], its) == Written(stores[j], true)
    {
      var w := PutMany(ss[i], its);
      if !w.ok {
        PutManyEachReaches(ss, its, i, stores);
        stores, ok := stores + [w.store] + ss[i + 1..], false;
        return;
      }
      stores := stores + [w.store];
    }
    PutManyEachReaches(ss, its, |ss|, stores);
  }

  /** The identity store's PutMany up to the call of the inner store: what is left to put, or an error. */
  method ToPut(its: seq<Item>) returns (ok: bool, toPut: seq<Item>)
    ensures ok == AllDecodable(its)
    ensures ok ==> toPut == NotInlined(its)
  {
    toPut := [];
    for i := 0 to |its|
      invariant forall j :: 0 <= j < i ==> DecodeCid(its[j].block.cid) != Undecodable
      invariant NotInlined(its) == toPut + NotInlined(its[i..])
    {
      assert its[i..][1..] == its[i + 1..];
      var d := DecodeCid(its[i].block.cid);
      if d == Undecodable {
        return false, [];
      }
      if d.Inline? {
        continue;
      }
      toPut := toPut + [its[i]];
    }
    return true, toPut;
  }
}
