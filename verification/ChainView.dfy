/** The block tree: a content-addressed universe of tipsets, of which the local store and the network
    each show a part. */
module ChainView {
  import opened Wrappers
  import opened Tipsets

  type View = map<Key, TipSet>

  /** Content addressing, and heights that fall towards the parents. */
  ghost predicate IsUniverse(u: View) {
    forall k {:trigger Proper(u, k)} :: k in u ==> Proper(u, k)
  }

  predicate Proper(u: View, k: Key)
    requires k in u
  {
    && u[k].cids == k && u[k].WellFormed()
    && (u[k].parents in u ==> u[u[k].parents].height < u[k].height)
  }

  predicate Member(u: View, ts: TipSet) {
    ts.cids in u && u[ts.cids] == ts
  }

  ghost predicate PartOf(v: View, u: View) {
    forall k :: k in v ==> k in u && v[k] == u[k]
  }

  /** The n-th ancestor of ts, as far as the view knows the way. */
  function Back(v: View, ts: TipSet, n: nat): Option<TipSet> {
    if n == 0 then Some(ts)
    else
      match Back(v, ts, n - 1)
      case None => None
      case Some(t) => if t.parents in v then Some(v[t.parents]) else None
  }

  ghost predicate Descends(u: View, ts: TipSet, ancestor: TipSet) {
    exists n: nat :: Back(u, ts, n) == Some(ancestor)
  }

  ghost predicate ProperAncestor(u: View, ancestor: TipSet, ts: TipSet) {
    exists n: nat :: n > 0 && Back(u, ts, n) == Some(ancestor)
  }

  /** Each tipset is the child of the next: parents linked, heights strictly falling. */
  ghost predicate IsChain(tss: seq<TipSet>) {
    forall i :: 0 < i < |tss| ==> tss[i - 1].IsChildOf(tss[i])
  }

  ghost predicate Members(u: View, tss: seq<TipSet>) {
    forall i :: 0 <= i < |tss| ==> Member(u, tss[i])
  }

  // ---------------------------------------------------------------- walking back

  lemma {:induction false} BackMember(u: View, ts: TipSet, n: nat)
    requires IsUniverse(u) && Member(u, ts) && Back(u, ts, n).Some?
    ensures Member(u, Back(u, ts, n).value)
  {
    if n > 0 {
      BackMember(u, ts, n - 1);
      var t := Back(u, ts, n - 1).value;
      assert Proper(u, t.parents);
    }
  }

  lemma {:induction false} BackAdds(v: View, ts: TipSet, n: nat, m: nat)
    requires Back(v, ts, n).Some?
    ensures Back(v, ts, n + m) == Back(v, Back(v, ts, n).value, m)
  {
    if m > 0 {
      BackAdds(v, ts, n, m - 1);
    }
  }

  lemma {:induction false} BackDefined(v: View, ts: TipSet, n: nat, m: nat)
    requires n <= m && Back(v, ts, m).Some?
    ensures Back(v, ts, n).Some?
  {
    if n < m {
      BackDefined(v, ts, n, m - 1);
    }
  }

  /** Farther back is strictly lower. */
  lemma {:induction false} BackFalls(u: View, ts: TipSet, n: nat, m: nat)
    requires IsUniverse(u) && Member(u, ts) && n < m && Back(u, ts, m).Some?
    ensures Back(u, ts, n).Some? && Back(u, ts, m).value.height < Back(u, ts, n).value.height
  {
    BackDefined(u, ts, n, m);
    BackDefined(u, ts, m - 1, m);
    BackMember(u, ts, m - 1);
    var t := Back(u, ts, m - 1).value;
    assert Proper(u, t.cids);
    if n < m - 1 {
      BackFalls(u, ts, n, m - 1);
    }
  }

  lemma {:induction false} BackInPart(v: View, u: View, ts: TipSet, n: nat)
    requires PartOf(v, u) && Back(v, ts, n).Some?
    ensures Back(u, ts, n) == Back(v, ts, n)
  {
    if n > 0 {
      BackInPart(v, u, ts, n - 1);
    }
  }

  lemma {:induction false} ChainIsBack(u: View, tss: seq<TipSet>, i: nat)
    requires IsUniverse(u) && Members(u, tss) && IsChain(tss) && i < |tss|
    ensures Back(u, tss[0], i) == Some(tss[i])
  {
    if i > 0 {
      ChainIsBack(u, tss, i - 1);
      assert tss[i - 1].IsChildOf(tss[i]);
      assert Member(u, tss[i]);
    }
  }

  lemma {:induction false} ChainFalls(tss: seq<TipSet>, i: nat, j: nat)
    requires IsChain(tss) && i <= j < |tss|
    ensures tss[j].height <= tss[i].height && (i < j ==> tss[j].height < tss[i].height)
    decreases j
  {
    if i < j {
      ChainFalls(tss, i, j - 1);
      assert tss[j - 1].IsChildOf(tss[j]);
    }
  }

  lemma ParentIsChain(u: View, tss: seq<TipSet>, parent: TipSet)
    requires IsUniverse(u) && Members(u, tss) && tss != [] && IsChain(tss)
    requires Member(u, parent) && tss[|tss| - 1].parents == parent.cids
    ensures IsChain(tss + [parent]) && Members(u, tss + [parent])
  {
    var last := tss[|tss| - 1];
    assert Proper(u, last.cids);
    var all := tss + [parent];
    forall i | 0 < i < |all|
      ensures all[i - 1].IsChildOf(all[i])
    {
      if i < |tss| {
        assert tss[i - 1].IsChildOf(tss[i]);
      }
    }
  }

  // ---------------------------------------------------------------- the network

  /** What a successful exchange request for n tipsets from key on returns. */
  ghost predicate IsSegment(u: View, key: Key, n: int, seg: seq<TipSet>) {
    && 0 < |seg| <= n
    && seg[0].cids == key
    && IsChain(seg) && Members(u, seg)
  }

  /** The exchange client: the answer may depend on the call, and no answer means every peer failed. */
  type Exchange = (nat, Key, int) -> Option<seq<TipSet>>

  ghost predicate IsExchange(u: View, ex: Exchange) {
    forall call, key, n {:trigger ex(call, key, n)} ::
      ex(call, key, n).Some? ==> IsSegment(u, key, n, ex(call, key, n).value)
  }
}
