/** The sync manager's handlers, each proved to take one step of the machine in Schedule.dfy. */
module SyncManager {
  import opened Wrappers
  import opened Tipsets
  import opened SyncBuckets
  import opened SyncBuffer
  import opened Schedule

  ghost predicate ByHeight(tss: seq<TipSet>) {
    forall i, j :: 0 <= i < j < |tss| ==> tss[i].height <= tss[j].height
  }

  function InsertByHeight(tss: seq<TipSet>, ts: TipSet): (r: seq<TipSet>)
    ensures multiset(r) == multiset(tss) + multiset{ts}
  {
    if tss == [] || ts.height <= tss[0].height then [ts] + tss
    else
      assert tss == [tss[0]] + tss[1..];
      [tss[0]] + InsertByHeight(tss[1..], ts)
  }

  lemma {:induction false} InsertByHeightSorted(tss: seq<TipSet>, ts: TipSet)
    requires ByHeight(tss)
    ensures ByHeight(InsertByHeight(tss, ts))
  {
    if tss != [] && ts.height > tss[0].height {
      InsertByHeightSorted(tss[1..], ts);
      var rest := InsertByHeight(tss[1..], ts);
      forall j | 0 <= j < |rest|
        ensures tss[0].height <= rest[j].height
      {
        assert rest[j] in multiset(rest);
        assert rest[j] == ts || rest[j] in tss[1..];
      }
    }
  }

  /** sort.Slice by height: some sorted permutation. */
  method SortByHeight(tss: seq<TipSet>) returns (r: seq<TipSet>)
    ensures ByHeight(r) && multiset(r) == multiset(tss)
  {
    r := [];
    for i := 0 to |tss|
      invariant ByHeight(r) && multiset(r) == multiset(tss[..i])
    {
      InsertByHeightSorted(r, tss[i]);
      r := InsertByHeight(r, tss[i]);
      assert tss[..i + 1] == tss[..i] + [tss[i]];
    }
    assert tss[..|tss|] == tss;
  }

  /** The values of a map, in some order. */
  method ValuesOf(known: map<Peer, TipSet>) returns (r: seq<TipSet>)
    ensures forall t :: t in r <==> t in known.Values
  {
    r := [];
    var todo := known.Keys;
    while todo != {}
      invariant todo <= known.Keys
      invariant forall t :: t in r ==> t in known.Values
      invariant forall p :: p in known && p !in todo ==> known[p] in r
      decreases todo
    {
      var p :| p in todo;
      todo := todo - {p};
      r := r + [known[p]];
    }
  }

  method BucketsOf(tss: seq<TipSet>) returns (b: SyncBucketSet)
    ensures fresh(b) && b.buckets == InsertedAll([], tss)
  {
    b := new SyncBucketSet();
    for i := 0 to |tss|
      invariant b.buckets == InsertedAll([], tss[..i])
    {
      b.Insert(tss[i]);
      assert tss[..i + 1][..i] == tss[..i];
    }
    assert tss[..|tss|] == tss;
  }

  lemma HeaviestBucketIsBestHead(heads: map<Peer, TipSet>, bs: seq<Bucket>, tss: seq<TipSet>, k: nat, best: TipSet)
    requires HoldsExactly(bs, tss) && IsPop(bs, k, best)
    requires forall t :: t in tss <==> t in heads.Values
    ensures BestHead(heads, best)
  {
    HeaviestIsMember(bs[k].tips, best);
    TipOfBucket(bs, k, best);
    forall t | t in heads.Values
      ensures Matched(heads, t, best)
    {
      assert Kept(bs, t);
      var u :| u in AllTips(bs) && u.Equals(t);
      BucketOfTip(bs, u);
      var j :| 0 <= j < |bs| && u in bs[j].tips;
      assert AtMost(bs[j], best.weight);
    }
  }

  lemma {:induction false} TipOfBucket(bs: seq<Bucket>, k: nat, t: TipSet)
    requires k < |bs| && t in bs[k].tips
    ensures t in AllTips(bs)
  {
    if k > 0 {
      TipOfBucket(bs[1..], k - 1, t);
    }
  }

  lemma {:induction false} BucketOfTip(bs: seq<Bucket>, t: TipSet)
    requires t in AllTips(bs)
    ensures exists j :: 0 <= j < |bs| && t in bs[j].tips
  {
    if t !in bs[0].tips {
      BucketOfTip(bs[1..], t);
      var j :| 0 <= j < |bs[1..]| && t in bs[1..][j].tips;
      assert t in bs[j + 1].tips;
    }
  }

  lemma HeaviestUnique(tips: seq<TipSet>, a: TipSet, b: TipSet)
    requires IsHeaviest(tips, a) && IsHeaviest(tips, b)
    ensures a == b
  {
  }

  /** Sorts the heads by height into buckets and takes the heaviest. */
  method BestOf(known: map<Peer, TipSet>) returns (target: TipSet)
    requires known != map[]
    ensures BestHead(known, target)
  {
    var peerHeads := ValuesOf(known);
    var sorted := SortByHeight(peerHeads);
    assert forall t :: t in sorted <==> t in multiset(sorted);
    assert forall t :: t in peerHeads <==> t in multiset(peerHeads);
    var buckets := BucketsOf(sorted);
    InsertAllLaws(sorted);
    assert buckets.buckets != [] by {
      var p :| p in known;
      assert known[p] in known.Values;
      assert Kept(buckets.buckets, known[p]);
    }
    var best := buckets.Heaviest();
    ghost var k: nat :| IsPop(buckets.buckets, k, best.value);
    HeaviestBucketIsBestHead(known, buckets.buckets, sorted, k, best.value);
    target := best.value;
  }

  class Manager {
    const threshold: nat  // BootstrapPeerThreshold
    var nextWorker: nat
    const pend: SyncBucketSet
    const deferred: SyncBucketSet
    var heads: Option<map<Peer, TipSet>>
    const recent: Ring
    var initialSyncDone: bool
    var rampedUp: bool
    var workers: map<nat, TipSet>

    ghost function Abs(): State
      reads this, pend, deferred, recent
    {
      State(nextWorker, heads, workers, pend.buckets, deferred.buckets, recent.pushed, initialSyncDone, rampedUp)
    }

    /** Holds throughout a handler. */
    ghost predicate Ready()
      reads this, pend, deferred, recent, recent.buf
    {
      && pend != deferred
      && recent.Valid() && recent.buf.Length == RECENT_SYNC_BUFFER_SIZE
      && Queues(Abs())
    }

    /** Holds between events. */
    ghost predicate Valid()
      reads this, pend, deferred, recent, recent.buf
    {
      Ready() && Inv(Abs())
    }

    constructor (threshold: nat)
      ensures Valid() && Abs() == Initial && this.threshold == threshold
    {
      this.threshold := threshold;
      nextWorker, heads, workers, initialSyncDone, rampedUp := 0, Some(map[]), map[], false, false;
      pend := new SyncBucketSet();
      deferred := new SyncBucketSet();
      recent := new Ring(RECENT_SYNC_BUFFER_SIZE);
    }

    // ------------------------------------------------------------ events

    method HandlePeerHead(p: Peer, ts: TipSet)
      requires Valid()
      modifies this, pend, deferred
      ensures Valid() && Step(threshold, old(Abs()), PeerHead(p, ts), Abs())
    {
      if nextWorker == 0 {
        TrackHead(p, ts);
      } else {
        var target := AddSyncTarget(ts);
        ghost var mid := Abs();
        if target.Some? {
          SpawnWorker(target.value);
        }
        assert AddTarget(old(Abs()), ts, mid, target) && Abs() == Spawn(mid, target);
      }
      PeerHeadKeepsInv(threshold, old(Abs()), p, ts, Abs());
    }

    /** Before the first worker: track the head until enough peers are known, then start. */
    method TrackHead(p: Peer, ts: TipSet)
      requires Valid() && nextWorker == 0
      modifies this
      ensures Ready() && PeerHeadStep(threshold, old(Abs()), p, ts, Abs())
    {
      var known := heads.value[p := ts];
      heads := Some(known);
      if |known| < threshold {
        return;
      }
      var target := SelectInitialSyncTarget();
      SpawnWorker(target);
    }

    /** A worker reports, once, with its outcome and whether it was fast enough. */
    method HandleWorkerStatus(id: nat, ok: bool, fast: bool)
      requires Valid() && id in workers
      modifies this, pend, deferred, recent, recent.buf
      ensures Valid() && Step(threshold, old(Abs()), WorkerDone(id, ok, fast), Abs())
    {
      ghost var s := Abs();
      var ts := workers[id];
      workers := workers - {id};
      if ok {
        recent.Push(ts);
        if !initialSyncDone && fast {
          initialSyncDone := true;
        }
      }
      assert Abs() == Finish(s, id, ok, fast);
      UnrelatedKeepsQueues(s, id, ok, fast);
      var target := SelectSyncTarget(ts);
      ghost var mid := Abs();
      if target.Some? {
        SpawnWorker(target.value);
      }
      assert SelectNext(Finish(s, id, ok, fast), ts, mid, target) && Abs() == Spawn(mid, target);
      assert WorkerDoneStep(s, id, ok, fast, Abs());
      WorkerDoneKeepsInv(s, id, ok, fast, Abs());
    }

    /** The ticker fires: nothing before the end of the initial sync, the ramp-up once after it. */
    method HandleTick()
      requires Valid() && !rampedUp
      modifies this, pend, deferred
      ensures Valid() && Step(threshold, old(Abs()), Tick, Abs())
    {
      if initialSyncDone {
        rampedUp := true;
        HandleInitialSyncDone();
        assert TickStep(old(Abs()), Abs());
      }
      TickKeepsInv(old(Abs()), Abs());
    }

    method HandleInitialSyncDone()
      requires Ready() && Ramping(Abs())
      modifies this, pend, deferred
      ensures Ready() && exists turns :: RampUp(old(Abs()), turns, Abs())
    {
      ghost var turns := [Abs()];
      while |workers| < MAX_SYNC_WORKERS
        invariant Ready() && Ramping(Abs())
        invariant turns != [] && turns[0] == old(Abs()) && turns[|turns| - 1] == Abs()
        invariant forall i :: 0 < i < |turns| ==> RampHop(turns[i - 1], turns[i])
        decreases MAX_SYNC_WORKERS - |workers|
      {
        var more := SpawnDeferred();
        if !more {
          assert RampUp(old(Abs()), turns, Abs());
          return;
        }
        turns := turns + [Abs()];
      }
      assert RampUp(old(Abs()), turns, Abs());
    }

    /** One turn of the loop above. */
    method SpawnDeferred() returns (more: bool)
      requires Ready() && Ramping(Abs()) && |workers| < MAX_SYNC_WORKERS
      modifies this, pend, deferred
      ensures Ready()
      ensures more ==> RampHop(old(Abs()), Abs()) && Ramping(Abs()) && |workers| == |old(workers)| + 1
      ensures !more ==> RampStop(old(Abs()), Abs())
    {
      ghost var s := Abs();
      var target := SelectDeferredSyncTarget();
      ghost var mid := Abs();
      SelectDeferredFacts(s, mid, target);
      more := target.Some?;
      if more {
        SpawnFacts(mid, target.value);
        SpawnWorker(target.value);
        HopFacts(s, Abs());
      }
    }

    // ------------------------------------------------------------ helpers of the handlers

    method SpawnWorker(target: TipSet)
      requires Ready()
      modifies this
      ensures Ready() && Abs() == Spawn(old(Abs()), Some(target))
    {
      SpawnFacts(Abs(), target);
      workers := workers[nextWorker := target];
      nextWorker := nextWorker + 1;
    }

    method SelectInitialSyncTarget() returns (target: TipSet)
      requires Ready() && heads.Some? && heads.value != map[]
      modifies this
      ensures Ready() && Abs() == old(Abs()).(heads := None)
      ensures BestHead(old(heads.value), target)
    {
      target := BestOf(heads.value);
      heads := None;
    }

    method AddSyncTarget(ts: TipSet) returns (out: Option<TipSet>)
      requires Ready()
      modifies pend, deferred
      ensures Ready() && AddTarget(old(Abs()), ts, Abs(), out)
    {
      var synced := recent.Synced(ts);
      if synced {
        return None;
      }
      if workers == map[] {
        return Some(ts);
      }
      var handled := QueueBehindWorker(ts);
      if handled {
        return None;
      }
      var related := pend.RelatedToAny(ts);
      if related {
        QueueKeepsQueues(Abs(), ts);
        pend.Insert(ts);
        return None;
      }
      var outweighed := Outweighed(ts);
      if outweighed {
        return None;
      }
      if !initialSyncDone || |workers| >= MAX_SYNC_WORKERS {
        InsertKeepsGood(deferred.buckets, ts);
        deferred.Insert(ts);
        return None;
      }
      return Some(ts);
    }

    /** The first loop of addSyncTarget over the active workers, in any order. */
    method QueueBehindWorker(ts: TipSet) returns (handled: bool)
      requires Ready()
      modifies pend
      ensures Ready()
      ensures handled <==> BeingSynced(old(Abs()), ts) || ExtendsWorker(old(Abs()), ts)
      ensures !handled ==> Abs() == old(Abs())
      ensures handled ==>
                || (BeingSynced(old(Abs()), ts) && Abs() == old(Abs()))
                || (ExtendsWorker(old(Abs()), ts) && Abs() == old(Abs()).(pend := Inserted(old(pend.buckets), ts)))
    {
      var todo := workers.Keys;
      while todo != {}
        invariant todo <= workers.Keys && pend.buckets == old(pend.buckets)
        invariant forall id :: id in workers && id !in todo ==>
                    !ts.Equals(workers[id]) && ts.parents != workers[id].cids
        decreases todo
      {
        var id :| id in todo;
        todo := todo - {id};
        if ts.Equals(workers[id]) {
          assert BeingSynced(Abs(), ts);
          return true;
        }
        if ts.parents == workers[id].cids {
          assert ExtendsWorker(Abs(), ts);
          QueueKeepsQueues(Abs(), ts);
          pend.Insert(ts);
          return true;
        }
      }
      return false;
    }

    method Outweighed(ts: TipSet) returns (r: bool)
      requires NoEmptyBucket(pend.buckets)
      ensures r == (OutweighedByWorker(Abs(), ts) || OutweighedByPending(Abs(), ts))
    {
      r := OutweighedByAny(ts);
      if !r {
        r := OutweighedByQueue(ts);
      }
    }

    method OutweighedByQueue(ts: TipSet) returns (r: bool)
      requires NoEmptyBucket(pend.buckets)
      ensures r == OutweighedByPending(Abs(), ts)
    {
      var best := pend.Heaviest();
      r := best.Some? && IsHeavier(best.value, ts);
      if best.Some? {
        ghost var k: nat :| IsPop(pend.buckets, k, best.value);
        forall k': nat, h | IsPop(pend.buckets, k', h)
          ensures h.weight == best.value.weight
        {
          HeaviestIsMember(pend.buckets[k'].tips, h);
          HeaviestIsMember(pend.buckets[k].tips, best.value);
          assert AtMost(pend.buckets[k], h.weight) && AtMost(pend.buckets[k'], best.value.weight);
        }
      }
    }

    method OutweighedByAny(ts: TipSet) returns (r: bool)
      ensures r == OutweighedByWorker(Abs(), ts)
    {
      var todo := workers.Keys;
      while todo != {}
        invariant todo <= workers.Keys
        invariant forall id :: id in workers && id !in todo ==> !IsHeavier(workers[id], ts)
        decreases todo
      {
        var id :| id in todo;
        todo := todo - {id};
        if IsHeavier(workers[id], ts) {
          assert OutweighedByWorker(Abs(), ts);
          return true;
        }
      }
      return false;
    }

    /** Called right after the worker on done has been removed. */
    method SelectSyncTarget(done: TipSet) returns (out: Option<TipSet>)
      requires pend != deferred && recent.Valid() && recent.buf.Length == RECENT_SYNC_BUFFER_SIZE
      requires Queues(Abs().(pend := Unrelated(pend.buckets, done)))
      modifies pend, deferred
      ensures Ready() && SelectNext(old(Abs()), done, Abs(), out)
    {
      ghost var s := Abs();
      RelatedTipsLaws(pend.buckets, done);
      var related := pend.PopRelated(done);
      ghost var rest := s.(pend := Unrelated(s.pend, done));
      assert Abs() == rest;
      if related.None? {
        out := SelectDeferredSyncTarget();
        return;
      }
      var heaviest := HeaviestTipSet(related.value);
      var h := heaviest.value;
      var outweighed := OutweighedByAny(h);
      var synced := recent.Synced(h);
      if IsHeavier(done, h) || outweighed || synced {
        out := SelectDeferredSyncTarget();
      } else {
        out := Some(h);
      }
    }

    method SelectDeferredSyncTarget() returns (out: Option<TipSet>)
      requires Ready()
      modifies pend, deferred
      ensures Ready() && SelectDeferred(old(Abs()), Abs(), out)
    {
      while !deferred.Empty()
        invariant Ready()
        invariant forall s', o :: SelectDeferred(Abs(), s', o) ==> SelectDeferred(old(Abs()), s', o)
        decreases |deferred.buckets|
      {
        ghost var t := Abs();
        var bucket, k, best := deferred.Pop();
        WithoutKeepsGood(t.deferred, k);
        var heaviest := HeaviestTipSet(bucket);
        HeaviestUnique(bucket.tips, heaviest.value, best);
        var start := PlaceDeferred(heaviest.value);
        if start {
          assert SelectDeferred(t, Abs(), heaviest);
          return heaviest;
        }
      }
      return None;
    }

    /** What becomes of the heaviest tip of a popped bucket: it is started, or it is dropped or queued
        and the loop goes on. */
    method PlaceDeferred(h: TipSet) returns (start: bool)
      requires Ready()
      modifies pend
      ensures Ready()
      ensures start ==> Consider(old(Abs()), h, Abs(), Some(h))
      ensures !start ==> forall s', o :: SelectDeferred(Abs(), s', o) ==> Consider(old(Abs()), h, s', o)
    {
      var synced := recent.Synced(h);
      if synced {
        return false;
      }
      var related := pend.RelatedToAny(h);
      if related {
        QueueKeepsQueues(Abs(), h);
        pend.Insert(h);
        return false;
      }
      if workers == map[] {
        return false;
      }
      // the first worker met decides: every branch of the source's loop body leaves the loop
      var id :| id in workers;
      var w := workers[id];
      ghost var s := Abs();
      if w.Equals(h) || IsHeavier(w, h) {
        assert forall s', o :: SelectDeferred(Abs(), s', o) ==> Against(s, h, s.workers[id], s', o);
        return false;
      }
      if h.parents == w.cids {
        assert ExtendsWorker(Abs(), h);
        QueueKeepsQueues(Abs(), h);
        pend.Insert(h);
        assert forall s', o :: SelectDeferred(Abs(), s', o) ==> Against(s, h, s.workers[id], s', o);
        return false;
      }
      assert Against(s, h, s.workers[id], s, Some(h));
      return true;
    }
  }
}
