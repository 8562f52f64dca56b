/** Sync buckets: the queues of candidate targets, grouped by chain. */
module SyncBuckets {
  import opened Wrappers
  import opened Tipsets

  datatype Bucket = Bucket(tips: seq<TipSet>)

  // ---------------------------------------------------------------- relations

  /** Parent and child, in either direction. */
  predicate Linked(a: TipSet, b: TipSet) {
    a.cids == b.parents || a.parents == b.cids
  }

  predicate Related(t: TipSet, ts: TipSet) {
    ts.Equals(t) || Linked(ts, t)
  }

  predicate SameChain(b: Bucket, ts: TipSet) {
    exists i :: 0 <= i < |b.tips| && Related(b.tips[i], ts)
  }

  predicate AnyRelated(bs: seq<Bucket>, ts: TipSet) {
    exists i :: 0 <= i < |bs| && SameChain(bs[i], ts)
  }

  predicate Holds(b: Bucket, ts: TipSet) {
    exists i :: 0 <= i < |b.tips| && b.tips[i].Equals(ts)
  }

  /** A graph on 0..|tips| is connected when every way of cutting it in two cuts a link. */
  ghost predicate Connected(tips: seq<TipSet>) {
    forall cut: set<nat> :: IsCut(cut, |tips|) ==> Crossed(tips, cut)
  }

  ghost predicate IsCut(cut: set<nat>, n: nat) {
    && (forall i :: i in cut ==> i < n)
    && (exists i: nat :: i in cut)
    && (exists i: nat :: i < n && i !in cut)
  }

  ghost predicate Crossed(tips: seq<TipSet>, cut: set<nat>) {
    exists i: nat, j: nat :: i < |tips| && j < |tips| && i in cut && j !in cut && Linked(tips[i], tips[j])
  }

  ghost predicate Distinct(tips: seq<TipSet>) {
    forall i, j :: 0 <= i < j < |tips| ==> !tips[i].Equals(tips[j])
  }

  /** What every bucket of a bucket set is, whatever was inserted. */
  ghost predicate GoodBucket(b: Bucket) {
    b.tips != [] && Connected(b.tips) && Distinct(b.tips)
  }

  ghost predicate GoodBuckets(bs: seq<Bucket>) {
    forall i :: 0 <= i < |bs| ==> GoodBucket(bs[i])
  }

  /** The first of the heaviest. */
  ghost predicate IsHeaviest(tips: seq<TipSet>, best: TipSet) {
    exists i :: 0 <= i < |tips| && FirstMax(tips, i) && tips[i] == best
  }

  predicate FirstMax(tips: seq<TipSet>, i: int)
    requires 0 <= i < |tips|
  {
    && (forall j :: 0 <= j < |tips| ==> tips[j].weight <= tips[i].weight)
    && (forall j :: 0 <= j < i ==> tips[j].weight < tips[i].weight)
  }

  // ------------------------------------------------------ specification functions

  function Added(b: Bucket, ts: TipSet): Bucket {
    if Holds(b, ts) then b else Bucket(b.tips + [ts])
  }

  function Inserted(bs: seq<Bucket>, ts: TipSet): seq<Bucket> {
    if bs == [] then [Bucket([ts])]
    else if SameChain(bs[0], ts) then [Added(bs[0], ts)] + bs[1..]
    else [bs[0]] + Inserted(bs[1..], ts)
  }

  function Unrelated(bs: seq<Bucket>, ts: TipSet): seq<Bucket> {
    if bs == [] then []
    else if SameChain(bs[0], ts) then Unrelated(bs[1..], ts)
    else [bs[0]] + Unrelated(bs[1..], ts)
  }

  function RelatedTips(bs: seq<Bucket>, ts: TipSet): seq<TipSet> {
    if bs == [] then []
    else if SameChain(bs[0], ts) then bs[0].tips + RelatedTips(bs[1..], ts)
    else RelatedTips(bs[1..], ts)
  }

  function AllTips(bs: seq<Bucket>): seq<TipSet> {
    if bs == [] then [] else bs[0].tips + AllTips(bs[1..])
  }

  /** The bucket at index i is the one Pop takes: its heaviest tip is maximal, and it is the first such. */
  ghost predicate IsPop(bs: seq<Bucket>, i: nat, best: TipSet) {
    && i < |bs|
    && IsHeaviest(bs[i].tips, best)
    && (forall j :: 0 <= j < |bs| ==> AtMost(bs[j], best.weight))
    && (forall j :: 0 <= j < i ==> Lighter(bs[j], best.weight))
  }

  ghost predicate AtMost(b: Bucket, weight: int) {
    forall t :: t in b.tips ==> t.weight <= weight
  }

  ghost predicate Lighter(b: Bucket, weight: int) {
    forall t :: t in b.tips ==> t.weight < weight
  }

  lemma Outweighs(bs: seq<Bucket>, n: nat, low: int, high: int)
    requires n <= |bs| && low < high && forall j :: 0 <= j < n ==> AtMost(bs[j], low)
    ensures forall j :: 0 <= j < n ==> AtMost(bs[j], high) && Lighter(bs[j], high)
  {
    forall j | 0 <= j < n
      ensures AtMost(bs[j], high) && Lighter(bs[j], high)
    {
      assert AtMost(bs[j], low);
    }
  }

  function Without(bs: seq<Bucket>, i: nat): seq<Bucket>
    requires i < |bs|
  {
    bs[..i] + bs[i + 1..]
  }

  // ---------------------------------------------------------------- laws

  /** Adding a related tipset keeps a bucket connected and free of duplicates. */
  lemma AddKeepsBucketGood(b: Bucket, ts: TipSet)
    requires GoodBucket(b) && SameChain(b, ts)
    ensures GoodBucket(Added(b, ts))
    ensures Holds(Added(b, ts), ts)
  {
    if !Holds(b, ts) {
      var k :| 0 <= k < |b.tips| && Related(b.tips[k], ts);
      assert Linked(ts, b.tips[k]);
      ConnectedExtends(b.tips, ts, k);
      assert Added(b, ts).tips[|b.tips|] == ts;
    }
  }

  lemma ConnectedExtends(tips: seq<TipSet>, ts: TipSet, k: nat)
    requires Connected(tips) && k < |tips| && Linked(tips[k], ts)
    ensures Connected(tips + [ts])
  {
    var n: nat := |tips|;
    var all := tips + [ts];
    forall cut: set<nat> | IsCut(cut, n + 1)
      ensures Crossed(all, cut)
    {
      var inner := cut - {n};
      if k in cut {
        if o: nat :| o < n && o !in cut {
          assert k in inner && o !in inner;
          CrossingExtends(tips, ts, cut);
        } else {
          assert Linked(all[k], all[n]) && n !in cut;
        }
      } else {
        if o: nat :| o < n && o in cut {
          assert o in inner && k !in inner;
          CrossingExtends(tips, ts, cut);
        } else {
          assert Linked(all[n], all[k]) && n in cut;
        }
      }
    }
  }

  lemma CrossingExtends(tips: seq<TipSet>, ts: TipSet, cut: set<nat>)
    requires Connected(tips) && IsCut(cut - {|tips|}, |tips|)
    ensures Crossed(tips + [ts], cut)
  {
  }

  /** One law for a whole sequence of inserts: buckets stay good. */
  lemma {:induction false} InsertKeepsGood(bs: seq<Bucket>, ts: TipSet)
    requires GoodBuckets(bs)
    ensures GoodBuckets(Inserted(bs, ts))
    ensures AnyRelated(Inserted(bs, ts), ts)
  {
    if bs == [] {
      SingletonGood(ts);
      assert Related(Inserted(bs, ts)[0].tips[0], ts);
    } else if SameChain(bs[0], ts) {
      AddKeepsBucketGood(bs[0], ts);
      HoldsIsSameChain(Added(bs[0], ts), ts);
      assert Inserted(bs, ts)[0] == Added(bs[0], ts);
    } else {
      InsertKeepsGood(bs[1..], ts);
      var r := Inserted(bs[1..], ts);
      var k :| 0 <= k < |r| && SameChain(r[k], ts);
      assert Inserted(bs, ts)[k + 1] == r[k];
    }
  }

  lemma HoldsIsSameChain(b: Bucket, ts: TipSet)
    requires Holds(b, ts)
    ensures SameChain(b, ts)
  {
  }

  lemma SingletonGood(ts: TipSet)
    ensures GoodBucket(Bucket([ts]))
  {
  }

  function InsertedAll(bs: seq<Bucket>, tss: seq<TipSet>): seq<Bucket> {
    if tss == [] then bs else Inserted(InsertedAll(bs, tss[..|tss| - 1]), tss[|tss| - 1])
  }

  /** Every tipset of tss is in the buckets (up to Equals) and the buckets hold nothing else. */
  ghost predicate HoldsExactly(bs: seq<Bucket>, tss: seq<TipSet>) {
    && (forall ts {:trigger Kept(bs, ts)} :: ts in tss ==> Kept(bs, ts))
    && (forall t :: t in AllTips(bs) ==> t in tss)
  }

  ghost predicate Kept(bs: seq<Bucket>, ts: TipSet) {
    exists t :: t in AllTips(bs) && t.Equals(ts)
  }

  /** Any sequence of inserts: every bucket is connected, nothing is lost, nothing is invented. */
  lemma {:induction false} InsertAllLaws(tss: seq<TipSet>)
    ensures GoodBuckets(InsertedAll([], tss))
    ensures HoldsExactly(InsertedAll([], tss), tss)
  {
    if tss != [] {
      var init, last := tss[..|tss| - 1], tss[|tss| - 1];
      InsertAllLaws(init);
      InsertKeepsGood(InsertedAll([], init), last);
      InsertKeepsExact(InsertedAll([], init), init, last);
      assert tss == init + [last];
    }
  }

  lemma InsertKeepsExact(bs: seq<Bucket>, tss: seq<TipSet>, ts: TipSet)
    requires HoldsExactly(bs, tss)
    ensures HoldsExactly(Inserted(bs, ts), tss + [ts])
  {
    InsertConserves(bs, ts);
    forall u | u in tss + [ts]
      ensures Kept(Inserted(bs, ts), u)
    {
      if u in tss {
        assert Kept(bs, u);
        var t :| t in AllTips(bs) && t.Equals(u);
        assert t in AllTips(Inserted(bs, ts));
      }
    }
  }

  /** A parent and a child, in whichever order they come, share a bucket; an unrelated tipset gets its own; an
      equal one changes nothing. */
  lemma InsertedPairs(p: TipSet, c: TipSet)
    ensures c.parents == p.cids && !c.Equals(p) ==>
              InsertedAll([], [p, c]) == [Bucket([p, c])] && InsertedAll([], [c, p]) == [Bucket([c, p])]
    ensures c.cids == p.cids && c.height == p.height ==> InsertedAll([], [p, c]) == [Bucket([p])]
    ensures c.cids != p.cids && c.parents != p.cids && p.parents != c.cids ==>
              InsertedAll([], [p, c]) == [Bucket([p]), Bucket([c])]
  {
    InsertedTwo(p, c);
    InsertedTwo(c, p);
  }

  lemma InsertedTwo(a: TipSet, b: TipSet)
    ensures InsertedAll([], [a, b]) ==
            if a.height == b.height && a.cids == b.cids then [Bucket([a])]
            else if a.cids == b.parents || a.parents == b.cids then [Bucket([a, b])]
            else [Bucket([a]), Bucket([b])]
  {
    var one := [Bucket([a])];
    assert [a, b][..1] == [a] && [a][..0] == [];
    assert InsertedAll([], [a]) == Inserted([], a) == one;
    assert InsertedAll([], [a, b]) == Inserted(one, b);
    assert SameChain(one[0], b) <==> Related(one[0].tips[0], b);
    assert Holds(one[0], b) <==> one[0].tips[0].Equals(b);
    assert one[1..] == [] && Inserted(one[1..], b) == [Bucket([b])];
    if SameChain(one[0], b) {
      assert Inserted(one, b) == [Added(one[0], b)];
      assert Added(one[0], b) == if one[0].tips[0].Equals(b) then one[0] else Bucket([a, b]);
    } else {
      assert Inserted(one, b) == [one[0]] + [Bucket([b])];
    }
  }

  /** Of two equally heavy tips the first one counts, and so for buckets. */
  lemma TiesGoToTheFirst(a: TipSet, b: TipSet, best: TipSet, k: nat)
    requires a.weight == b.weight
    ensures IsHeaviest([a, b], best) ==> best == a
    ensures IsPop([Bucket([a]), Bucket([b])], k, best) ==> k == 0 && best == a
  {
    assert [a, b][0] == a && [a, b][1] == b;
    assert !FirstMax([a, b], 1);
    if IsPop([Bucket([a]), Bucket([b])], k, best) {
      HeaviestIsMember([Bucket([a]), Bucket([b])][k].tips, best);
      assert a in Bucket([a]).tips;
      assert k == 1 ==> Lighter([Bucket([a]), Bucket([b])][0], best.weight);
    }
  }

  /** No tip is lost or invented by an insert. */
  lemma {:induction false} InsertConserves(bs: seq<Bucket>, ts: TipSet)
    ensures forall t :: t in AllTips(bs) ==> t in AllTips(Inserted(bs, ts))
    ensures forall t :: t in AllTips(Inserted(bs, ts)) ==> t == ts || t in AllTips(bs)
    ensures Kept(Inserted(bs, ts), ts)
  {
    var r := Inserted(bs, ts);
    if bs == [] {
      assert r[0].tips == [ts];
      assert ts in AllTips(r);
    } else if SameChain(bs[0], ts) {
      assert r[0] == Added(bs[0], ts) && r[1..] == bs[1..];
      if Holds(bs[0], ts) {
        var i :| 0 <= i < |bs[0].tips| && bs[0].tips[i].Equals(ts);
        assert bs[0].tips[i] in AllTips(r);
      } else {
        assert ts in r[0].tips;
        assert ts in AllTips(r);
      }
    } else {
      InsertConserves(bs[1..], ts);
      assert r[0] == bs[0] && r[1..] == Inserted(bs[1..], ts);
    }
  }

  /** What PopRelated leaves is exactly the buckets that are not related. */
  lemma {:induction false} UnrelatedLaws(bs: seq<Bucket>, ts: TipSet)
    ensures !AnyRelated(Unrelated(bs, ts), ts)
    ensures forall b :: b in Unrelated(bs, ts) <==> b in bs && !SameChain(b, ts)
  {
    if bs != [] {
      UnrelatedLaws(bs[1..], ts);
      assert bs == [bs[0]] + bs[1..];
    }
  }

  /** What PopRelated returns is exactly the tips of the related buckets; none exists when there is no such bucket. */
  lemma {:induction false} RelatedTipsLaws(bs: seq<Bucket>, ts: TipSet)
    ensures forall t :: t in RelatedTips(bs, ts) <==> exists b :: b in bs && SameChain(b, ts) && t in b.tips
    ensures RelatedTips(bs, ts) == [] <==> !AnyRelated(bs, ts)
  {
    if bs != [] {
      RelatedTipsLaws(bs[1..], ts);
      AnyRelatedCons(bs, ts);
      assert bs == [bs[0]] + bs[1..];
    }
  }

  lemma AnyRelatedCons(bs: seq<Bucket>, ts: TipSet)
    requires bs != []
    ensures AnyRelated(bs, ts) <==> SameChain(bs[0], ts) || AnyRelated(bs[1..], ts)
  {
  }

  /** PopRelated loses and invents no tip. */
  lemma {:induction false} PopRelatedConserves(bs: seq<Bucket>, ts: TipSet)
    ensures multiset(AllTips(bs)) == multiset(RelatedTips(bs, ts)) + multiset(AllTips(Unrelated(bs, ts)))
  {
    if bs != [] {
      PopRelatedConserves(bs[1..], ts);
      if !SameChain(bs[0], ts) {
        var u := Unrelated(bs, ts);
        assert u[0] == bs[0] && u[1..] == Unrelated(bs[1..], ts);
      }
    }
  }

  // ------------------------------------------------------------ the code

  lemma {:induction false} InsertedAtFirst(bs: seq<Bucket>, i: nat, ts: TipSet)
    requires i <= |bs| && forall j :: 0 <= j < i ==> !SameChain(bs[j], ts)
    ensures i < |bs| && SameChain(bs[i], ts) ==> Inserted(bs, ts) == bs[i := Added(bs[i], ts)]
    ensures i == |bs| ==> Inserted(bs, ts) == bs + [Bucket([ts])]
  {
    if i > 0 {
      InsertedAtFirst(bs[1..], i - 1, ts);
      assert bs == [bs[0]] + bs[1..];
    }
  }

  lemma {:induction false} PopRelatedStep(bs: seq<Bucket>, i: nat, ts: TipSet)
    requires i < |bs|
    ensures Unrelated(bs[..i + 1], ts) == Unrelated(bs[..i], ts) + (if SameChain(bs[i], ts) then [] else [bs[i]])
    ensures RelatedTips(bs[..i + 1], ts) == RelatedTips(bs[..i], ts) + (if SameChain(bs[i], ts) then bs[i].tips else [])
  {
    if i == 0 {
      assert bs[..1] == [bs[0]];
    } else {
      PopRelatedStep(bs[1..], i - 1, ts);
      assert bs[1..][..i] == bs[..i + 1][1..];
      assert bs[1..][..i - 1] == bs[..i][1..];
    }
  }

  method SameChainAs(b: Bucket, ts: TipSet) returns (r: bool)
    ensures r == SameChain(b, ts)
  {
    for i := 0 to |b.tips|
      invariant forall j :: 0 <= j < i ==> !Related(b.tips[j], ts)
    {
      if ts.Equals(b.tips[i]) || ts.cids == b.tips[i].parents || ts.parents == b.tips[i].cids {
        assert Related(b.tips[i], ts);
        return true;
      }
    }
    return false;
  }

  method AddTo(b: Bucket, ts: TipSet) returns (r: Bucket)
    ensures r == Added(b, ts)
  {
    for i := 0 to |b.tips|
      invariant forall j :: 0 <= j < i ==> !b.tips[j].Equals(ts)
    {
      if b.tips[i].Equals(ts) {
        return b;
      }
    }
    return Bucket(b.tips + [ts]);
  }

  method HeaviestTipSet(b: Bucket) returns (best: Option<TipSet>)
    ensures best.None? <==> b.tips == []
    ensures best.Some? ==> IsHeaviest(b.tips, best.value)
  {
    best := None;
    ghost var k := 0;
    for i := 0 to |b.tips|
      invariant best.None? <==> i == 0
      invariant best.Some? ==> 0 <= k < i && b.tips[k] == best.value
      invariant best.Some? ==> forall j :: 0 <= j < i ==> b.tips[j].weight <= best.value.weight
      invariant best.Some? ==> forall j :: 0 <= j < k ==> b.tips[j].weight < best.value.weight
    {
      if best.None? || b.tips[i].weight > best.value.weight {
        best := Some(b.tips[i]);
        k := i;
      }
    }
    assert best.Some? ==> FirstMax(b.tips, k);
  }

  predicate NoEmptyBucket(bs: seq<Bucket>) {
    forall i :: 0 <= i < |bs| ==> bs[i].tips != []
  }

  lemma HeaviestIsMember(tips: seq<TipSet>, best: TipSet)
    requires IsHeaviest(tips, best)
    ensures best in tips && forall t :: t in tips ==> t.weight <= best.weight
  {
  }

  class SyncBucketSet {
    var buckets: seq<Bucket>

    constructor ()
      ensures buckets == []
    {
      buckets := [];
    }

    method RelatedToAny(ts: TipSet) returns (r: bool)
      ensures r == AnyRelated(buckets, ts)
    {
      for i := 0 to |buckets|
        invariant forall j :: 0 <= j < i ==> !SameChain(buckets[j], ts)
      {
        var same := SameChainAs(buckets[i], ts);
        if same {
          return true;
        }
      }
      return false;
    }

    method Insert(ts: TipSet)
      modifies this
      ensures buckets == Inserted(old(buckets), ts)
    {
      for i := 0 to |buckets|
        invariant buckets == old(buckets)
        invariant forall j :: 0 <= j < i ==> !SameChain(buckets[j], ts)
      {
        var same := SameChainAs(buckets[i], ts);
        if same {
          InsertedAtFirst(buckets, i, ts);
          var grown := AddTo(buckets[i], ts);
          buckets := buckets[i := grown];
          return;
        }
      }
      InsertedAtFirst(buckets, |buckets|, ts);
      buckets := buckets + [Bucket([ts])];
    }

    /** The heaviest bucket and its index; the first one when several are equally heavy. */
    method FindHeaviest() returns (k: nat, best: TipSet)
      requires buckets != [] && NoEmptyBucket(buckets)
      ensures IsPop(buckets, k, best)
    {
      var first := HeaviestTipSet(buckets[0]);
      k, best := 0, first.value;
      HeaviestIsMember(buckets[0].tips, best);
      for i := 1 to |buckets|
        invariant k < i && IsHeaviest(buckets[k].tips, best)
        invariant forall j :: 0 <= j < i ==> AtMost(buckets[j], best.weight)
        invariant forall j :: 0 <= j < k ==> Lighter(buckets[j], best.weight)
      {
        var hts := HeaviestTipSet(buckets[i]);
        HeaviestIsMember(buckets[i].tips, hts.value);
        if best.weight < hts.value.weight {
          Outweighs(buckets, i, best.weight, hts.value.weight);
          k, best := i, hts.value;
        }
      }
    }

    method Pop() returns (b: Bucket, ghost k: nat, ghost best: TipSet)
      requires buckets != [] && NoEmptyBucket(buckets)
      modifies this
      ensures IsPop(old(buckets), k, best) && b == old(buckets)[k]
      ensures buckets == Without(old(buckets), k)
    {
      var i, ts := FindHeaviest();
      k, best, b := i, ts, buckets[i];
      buckets := buckets[..i] + buckets[i + 1..];
    }

    method PopRelated(ts: TipSet) returns (out: Option<Bucket>)
      modifies this
      ensures buckets == Unrelated(old(buckets), ts)
      ensures out == if AnyRelated(old(buckets), ts) then Some(Bucket(RelatedTips(old(buckets), ts))) else None
    {
      out := None;
      var kept: seq<Bucket> := [];
      for i := 0 to |buckets|
        invariant buckets == old(buckets)
        invariant kept == Unrelated(buckets[..i], ts)
        invariant out.None? <==> !AnyRelated(buckets[..i], ts)
        invariant (if out.Some? then out.value.tips else []) == RelatedTips(buckets[..i], ts)
      {
        PopRelatedStep(buckets, i, ts);
        AnyRelatedSnoc(buckets, i, ts);
        var same := SameChainAs(buckets[i], ts);
        if same {
          out := Some(Bucket((if out.Some? then out.value.tips else []) + buckets[i].tips));
        } else {
          kept := kept + [buckets[i]];
        }
      }
      assert buckets[..|buckets|] == buckets;
      buckets := kept;
    }

    /** The heaviest tip of all buckets, if there is one. */
    method Heaviest() returns (best: Option<TipSet>)
      requires NoEmptyBucket(buckets)
      ensures best.None? <==> buckets == []
      ensures best.Some? ==> exists k :: IsPop(buckets, k, best.value)
    {
      if buckets == [] {
        return None;
      }
      var k, ts := FindHeaviest();
      return Some(ts);
    }

    predicate Empty()
      reads this
    {
      buckets == []
    }
  }

  lemma AnyRelatedSnoc(bs: seq<Bucket>, i: nat, ts: TipSet)
    requires i < |bs|
    ensures AnyRelated(bs[..i + 1], ts) <==> AnyRelated(bs[..i], ts) || SameChain(bs[i], ts)
  {
  }
}
