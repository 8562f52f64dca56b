/** Messages of a tipset in compacted form, and their check against the roots in the block headers. */
module Messages {
  import opened Wrappers
  import opened Tipsets

  const BLOCK_MESSAGE_LIMIT: nat := 10000

  datatype Msg = Msg(cid: Cid, body: string)

  /** All messages of a tipset once, and per block the indices of its messages. */
  datatype Compacted = Compacted(bls: seq<Msg>, blsIncludes: seq<seq<nat>>,
                                 secpk: seq<Msg>, secpkIncludes: seq<seq<nat>>)

  datatype FullTipSet = FullTipSet(header: TipSet, bls: seq<seq<Msg>>, secpk: seq<seq<Msg>>)

  /** computeMsgMeta: the root of the two lists of message cids. */
  type MetaRoot = (seq<Cid>, seq<Cid>) -> Cid

  ghost predicate Injective(meta: MetaRoot) {
    forall b1, s1, b2, s2 {:trigger meta(b1, s1), meta(b2, s2)} :: meta(b1, s1) == meta(b2, s2) ==> b1 == b2 && s1 == s2
  }

  /** What the exchange client checks of a response: one index list per block, every index in range. */
  ghost predicate Indexed(ts: TipSet, cm: Compacted) {
    && |cm.blsIncludes| == |ts.cids| && |cm.secpkIncludes| == |ts.cids|
    && (forall b :: 0 <= b < |ts.cids| ==> InRange(cm.blsIncludes[b], |cm.bls|))
    && (forall b :: 0 <= b < |ts.cids| ==> InRange(cm.secpkIncludes[b], |cm.secpk|))
  }

  predicate InRange(indices: seq<nat>, n: nat) {
    forall i :: 0 <= i < |indices| ==> indices[i] < n
  }

  function Pick(msgs: seq<Msg>, indices: seq<nat>): seq<Msg>
    requires InRange(indices, |msgs|)
  {
    seq(|indices|, i requires 0 <= i < |indices| => msgs[indices[i]])
  }

  function Cids(msgs: seq<Msg>): seq<Cid> {
    seq(|msgs|, i requires 0 <= i < |msgs| => msgs[i].cid)
  }

  /** The messages at these indices are the ones block b of the tipset commits to. */
  ghost predicate BlockCommits(meta: MetaRoot, ts: TipSet, bls: seq<Msg>, secpk: seq<Msg>, b: nat)
    requires b < |ts.messageRoots|
  {
    && |bls| + |secpk| <= BLOCK_MESSAGE_LIMIT
    && ts.messageRoots[b] == meta(Cids(bls), Cids(secpk))
  }

  ghost predicate Passes(meta: MetaRoot, ts: TipSet, cm: Compacted) {
    && ts.WellFormed() && Indexed(ts, cm)
    && forall b: nat :: b < |ts.cids| ==>
         BlockCommits(meta, ts, Pick(cm.bls, cm.blsIncludes[b]), Pick(cm.secpk, cm.secpkIncludes[b]), b)
  }

  /** A full tipset holds, block by block, the messages its header commits to. */
  ghost predicate Genuine(meta: MetaRoot, fts: FullTipSet) {
    && fts.header.WellFormed()
    && |fts.bls| == |fts.header.cids| && |fts.secpk| == |fts.header.cids|
    && forall b: nat :: b < |fts.header.cids| ==> BlockCommits(meta, fts.header, fts.bls[b], fts.secpk[b], b)
  }

  /** With a collision-free root, a header determines its messages. */
  lemma GenuineDetermined(meta: MetaRoot, f: FullTipSet, g: FullTipSet, b: nat)
    requires Injective(meta) && Genuine(meta, f) && Genuine(meta, g) && f.header == g.header && b < |f.header.cids|
    ensures Cids(f.bls[b]) == Cids(g.bls[b]) && Cids(f.secpk[b]) == Cids(g.secpk[b])
  {
  }

  method PickCids(msgs: seq<Msg>, indices: seq<nat>) returns (r: seq<Cid>)
    requires InRange(indices, |msgs|)
    ensures r == Cids(Pick(msgs, indices))
  {
    r := [];
    for i := 0 to |indices|
      invariant |r| == i
      invariant forall k :: 0 <= k < i ==> r[k] == msgs[indices[k]].cid
    {
      r := r + [msgs[indices[i]].cid];
    }
  }

  method CheckMsgMeta(meta: MetaRoot, ts: TipSet, cm: Compacted) returns (ok: bool)
    requires ts.WellFormed() && Indexed(ts, cm)
    ensures ok <==> Passes(meta, ts, cm)
  {
    for b := 0 to |ts.cids|
      invariant forall k: nat :: k < b ==>
                  BlockCommits(meta, ts, Pick(cm.bls, cm.blsIncludes[k]), Pick(cm.secpk, cm.secpkIncludes[k]), k)
    {
      if |cm.blsIncludes[b]| + |cm.secpkIncludes[b]| > BLOCK_MESSAGE_LIMIT {
        return false;
      }
      var smsgCids := PickCids(cm.secpk, cm.secpkIncludes[b]);
      var bmsgCids := PickCids(cm.bls, cm.blsIncludes[b]);
      if ts.messageRoots[b] != meta(bmsgCids, smsgCids) {
        return false;
      }
    }
    return true;
  }

  method PickMsgs(msgs: seq<Msg>, indices: seq<nat>) returns (r: seq<Msg>)
    requires InRange(indices, |msgs|)
    ensures r == Pick(msgs, indices)
  {
    r := [];
    for i := 0 to |indices|
      invariant |r| == i
      invariant forall k :: 0 <= k < i ==> r[k] == msgs[indices[k]]
    {
      r := r + [msgs[indices[i]]];
    }
  }

  /** Messages pass when no block has more than 10000 of them and each block's root is that of its messages. */
  lemma PassesMeans(meta: MetaRoot, ts: TipSet, cm: Compacted)
    requires ts.WellFormed() && Indexed(ts, cm)
    ensures Passes(meta, ts, cm) <==>
              forall b :: 0 <= b < |ts.cids| ==>
                && |cm.blsIncludes[b]| + |cm.secpkIncludes[b]| <= 10000
                && ts.messageRoots[b] == meta(seq(|cm.blsIncludes[b]|, k requires 0 <= k < |cm.blsIncludes[b]| =>
                                                    cm.bls[cm.blsIncludes[b][k]].cid),
                                              seq(|cm.secpkIncludes[b]|, k requires 0 <= k < |cm.secpkIncludes[b]| =>
                                                    cm.secpk[cm.secpkIncludes[b][k]].cid))
  {
    forall b: nat | b < |ts.cids|
      ensures Cids(Pick(cm.bls, cm.blsIncludes[b])) ==
              seq(|cm.blsIncludes[b]|, k requires 0 <= k < |cm.blsIncludes[b]| => cm.bls[cm.blsIncludes[b][k]].cid)
      ensures Cids(Pick(cm.secpk, cm.secpkIncludes[b])) ==
              seq(|cm.secpkIncludes[b]|, k requires 0 <= k < |cm.secpkIncludes[b]| => cm.secpk[cm.secpkIncludes[b][k]].cid)
    {
    }
  }

  /** The full tipset has, block by block and in order, the messages that the indices name. */
  ghost predicate Zipped(fts: FullTipSet, ts: TipSet, cm: Compacted) {
    && fts.header == ts && Indexed(ts, cm) && |fts.bls| == |ts.cids| == |fts.secpk|
    && forall b: nat :: b < |ts.cids| ==>
         Unpacked(fts.bls[b], cm.bls, cm.blsIncludes[b]) && Unpacked(fts.secpk[b], cm.secpk, cm.secpkIncludes[b])
  }

  ghost predicate Unpacked(block: seq<Msg>, msgs: seq<Msg>, indices: seq<nat>) {
    |block| == |indices| && forall k :: 0 <= k < |block| ==> indices[k] < |msgs| && block[k] == msgs[indices[k]]
  }

  /** zipTipSetAndMessages: succeeds exactly on messages that fit the header, and then puts each
      block's messages with it. */
  method Zip(meta: MetaRoot, ts: TipSet, cm: Compacted) returns (r: Option<FullTipSet>)
    requires ts.WellFormed()
    requires |cm.blsIncludes| == |ts.cids| && |cm.secpkIncludes| == |ts.cids| ==> Indexed(ts, cm)
    ensures r.Some? <==> Passes(meta, ts, cm)
    ensures r.Some? ==> Zipped(r.value, ts, cm) && Genuine(meta, r.value)
  {
    if |ts.cids| != |cm.secpkIncludes| || |ts.cids| != |cm.blsIncludes| {
      return None;
    }
    var ok := CheckMsgMeta(meta, ts, cm);
    if !ok {
      return None;
    }
    var bls: seq<seq<Msg>>, secpk: seq<seq<Msg>> := [], [];
    for b := 0 to |ts.cids|
      invariant |bls| == b && |secpk| == b
      invariant forall k: nat :: k < b ==> BlockCommits(meta, ts, bls[k], secpk[k], k)
      invariant forall k: nat :: k < b ==>
                  Unpacked(bls[k], cm.bls, cm.blsIncludes[k]) && Unpacked(secpk[k], cm.secpk, cm.secpkIncludes[k])
    {
      var smsgs := PickMsgs(cm.secpk, cm.secpkIncludes[b]);
      var bmsgs := PickMsgs(cm.bls, cm.blsIncludes[b]);
      bls, secpk := bls + [bmsgs], secpk + [smsgs];
    }
    return Some(FullTipSet(ts, bls, secpk));
  }
}
