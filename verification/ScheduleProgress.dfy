/** What becomes of every head and every queued target, said in terms of weights and links. */
module ScheduleProgress {
  import opened Wrappers
  import opened Tipsets
  import opened SyncBuckets
  import opened SyncBuffer
  import opened Schedule
  import opened ScheduleRuns

  // ---------------------------------------------------------------- recent targets, outweighing targets

  /** Neither equal to nor lighter than any of the last ten successes. */
  ghost predicate Novel(s: State, ts: TipSet) {
    forall i :: 0 <= i < |s.synced| && |s.synced| - 10 <= i ==> !Same(s.synced[i], ts) && s.synced[i].weight <= ts.weight
  }

  predicate Same(a: TipSet, b: TipSet) {
    a.height == b.height && a.cids == b.cids
  }

  lemma NovelIff(s: State, ts: TipSet)
    ensures Novel(s, ts) <==> !RecentlySynced(s, ts)
  {
    var window := Newest(s.synced, RECENT_SYNC_BUFFER_SIZE);
    var skip := |s.synced| - |window|;
    if !Novel(s, ts) {
      var i :| 0 <= i < |s.synced| && |s.synced| - 10 <= i && !(!Same(s.synced[i], ts) && s.synced[i].weight <= ts.weight);
      assert window[i - skip] == s.synced[i];
    } else {
      forall j | 0 <= j < |window|
        ensures !window[j].Equals(ts) && !IsHeavier(window[j], ts)
      {
        assert window[j] == s.synced[skip + j];
      }
    }
  }

  /** Some queued tip is heavier. */
  ghost predicate TipAbove(bs: seq<Bucket>, weight: int) {
    exists i :: 0 <= i < |bs| && !AtMost(bs[i], weight)
  }

  lemma {:induction false} HeaviestExists(tips: seq<TipSet>) returns (best: TipSet)
    requires tips != []
    ensures IsHeaviest(tips, best)
  {
    if |tips| == 1 {
      best := tips[0];
      assert FirstMax(tips, 0);
    } else {
      var n := |tips| - 1;
      var rest := tips[..n];
      var b := HeaviestExists(rest);
      var i :| 0 <= i < |rest| && FirstMax(rest, i) && rest[i] == b;
      if b.weight < tips[n].weight {
        best := tips[n];
        assert forall j :: 0 <= j < n ==> tips[j] == rest[j];
        assert FirstMax(tips, n);
      } else {
        best := b;
        assert forall j :: 0 <= j < n ==> tips[j] == rest[j];
        assert FirstMax(tips, i);
      }
    }
  }

  lemma {:induction false} PopExists(bs: seq<Bucket>) returns (k: nat, best: TipSet)
    requires bs != [] && NoEmptyBucket(bs)
    ensures IsPop(bs, k, best)
  {
    var n := |bs| - 1;
    var h := HeaviestExists(bs[n].tips);
    HeaviestIsMember(bs[n].tips, h);
    if n == 0 {
      k, best := 0, h;
    } else {
      var rest := bs[..n];
      k, best := PopExists(rest);
      assert forall j :: 0 <= j < n ==> bs[j] == rest[j];
      HeaviestIsMember(rest[k].tips, best);
      if best.weight < h.weight {
        Outweighs(rest, n, best.weight, h.weight);
        k, best := n, h;
      }
    }
  }

  lemma PopAbove(bs: seq<Bucket>, k: nat, h: TipSet, weight: int)
    requires IsPop(bs, k, h)
    ensures h.weight > weight <==> TipAbove(bs, weight)
  {
    HeaviestIsMember(bs[k].tips, h);
    if TipAbove(bs, weight) {
      var i :| 0 <= i < |bs| && !AtMost(bs[i], weight);
      assert AtMost(bs[i], h.weight);
    } else {
      assert AtMost(bs[k], weight);
    }
  }

  lemma OutweighedIff(s: State, ts: TipSet)
    requires NoEmptyBucket(s.pend)
    ensures OutweighedByPending(s, ts) <==> TipAbove(s.pend, ts.weight)
  {
    if s.pend != [] {
      var k, h := PopExists(s.pend);
      PopAbove(s.pend, k, h, ts.weight);
      forall k': nat, h' | IsPop(s.pend, k', h')
        ensures h'.weight > ts.weight <==> TipAbove(s.pend, ts.weight)
      {
        PopAbove(s.pend, k', h', ts.weight);
      }
    }
  }

  // ---------------------------------------------------------------- a new head

  ghost predicate ActiveAbove(s: State, ts: TipSet) {
    exists id: nat :: id in s.workers && s.workers[id].weight > ts.weight
  }

  ghost predicate Active(s: State, ts: TipSet) {
    exists id: nat :: id in s.workers && Same(s.workers[id], ts)
  }

  ghost predicate OnActive(s: State, ts: TipSet) {
    exists id: nat :: id in s.workers && s.workers[id].cids == ts.parents
  }

  ghost predicate Started(s: State, s': State, ts: TipSet) {
    s' == s.(workers := s.workers[s.nextWorker := ts], nextWorker := s.nextWorker + 1)
  }

  ghost predicate Pending(s: State, s': State, ts: TipSet) {
    s' == s.(pend := s'.pend) && Kept(s'.pend, ts) && forall t :: t in AllTips(s.pend) ==> t in AllTips(s'.pend)
  }

  ghost predicate Deferred(s: State, s': State, ts: TipSet) {
    s' == s.(deferred := s'.deferred) && Kept(s'.deferred, ts) && forall t :: t in AllTips(s.deferred) ==> t in AllTips(s'.deferred)
  }

  /** After the first worker: a head is ignored when it, or a heavier target, was synced recently; started
      when nobody works; queued on an active or pending chain; ignored when something at work or pending is
      heavier; and otherwise started, or deferred while the initial sync lasts or five workers are active. */
  lemma HeadDecided(threshold: nat, s: State, p: Peer, ts: TipSet, s': State)
    requires Inv(s) && s.nextWorker > 0 && Step(threshold, s, PeerHead(p, ts), s')
    ensures if !Novel(s, ts) then s' == s
            else if s.workers == map[] then Started(s, s', ts)
            else if Active(s, ts) then s' == s || (OnActive(s, ts) && Pending(s, s', ts))
            else if OnActive(s, ts) || AnyRelated(s.pend, ts) then Pending(s, s', ts)
            else if ActiveAbove(s, ts) || TipAbove(s.pend, ts.weight) then s' == s
            else if !s.initialSyncDone || |s.workers| >= 5 then Deferred(s, s', ts)
            else Started(s, s', ts)
  {
    NovelIff(s, ts);
    OutweighedIff(s, ts);
    InsertConserves(s.pend, ts);
    InsertConserves(s.deferred, ts);
    var mid, out :| AddTarget(s, ts, mid, out) && s' == Spawn(mid, out);
    assert BeingSynced(s, ts) <==> Active(s, ts);
    assert ExtendsWorker(s, ts) <==> OnActive(s, ts);
    assert OutweighedByWorker(s, ts) <==> ActiveAbove(s, ts);
  }

  /** No head is lost that is new and that nothing at work or pending outweighs. */
  lemma HeadNotLost(threshold: nat, s: State, p: Peer, ts: TipSet, s': State)
    requires Inv(s) && s.nextWorker > 0 && Step(threshold, s, PeerHead(p, ts), s')
    requires Novel(s, ts) && !ActiveAbove(s, ts) && !TipAbove(s.pend, ts.weight)
    ensures Active(s', ts) || Kept(s'.pend, ts) || Kept(s'.deferred, ts)
  {
    HeadDecided(threshold, s, p, ts, s');
    if Started(s, s', ts) {
      assert s.nextWorker in s'.workers;
    }
  }

  /** Before the first worker heads are counted by peer; with enough of them the first worker starts on one
      that no other head outweighs. */
  lemma FirstHeadDecided(threshold: nat, s: State, p: Peer, ts: TipSet, s': State)
    requires Inv(s) && s.nextWorker == 0 && Step(threshold, s, PeerHead(p, ts), s')
    ensures var heads := s.heads.value[p := ts];
            if |heads| < threshold then s' == s.(heads := Some(heads))
            else
              && s'.workers.Keys == {0} && s' == s.(heads := None, workers := s'.workers, nextWorker := 1)
              && s'.workers[0] in heads.Values
              && forall q :: q in heads ==>
                   exists q' :: q' in heads && Same(heads[q'], heads[q]) && heads[q'].weight <= s'.workers[0].weight
  {
    var heads := s.heads.value[p := ts];
    if |heads| >= threshold {
      var target :| BestHead(heads, target) && s' == Spawn(s.(heads := None), Some(target));
      BestHeadMeans(heads, target);
    }
  }

  lemma BestHeadMeans(heads: map<Peer, TipSet>, target: TipSet)
    requires BestHead(heads, target)
    ensures forall q :: q in heads ==>
              exists q' :: q' in heads && Same(heads[q'], heads[q]) && heads[q'].weight <= target.weight
  {
    forall q | q in heads
      ensures exists q' :: q' in heads && Same(heads[q'], heads[q]) && heads[q'].weight <= target.weight
    {
      assert Matched(heads, heads[q], target);
      var u :| u in heads.Values && u.Equals(heads[q]) && u.weight <= target.weight;
      var q' :| q' in heads && heads[q'] == u;
    }
  }

  // ---------------------------------------------------------------- the end of a worker

  /** The state between a worker's report and the choice of the next target. */
  ghost predicate Ended(s: State, id: nat, ok: bool, fast: bool, f: State)
    requires id in s.workers
  {
    f == s.(workers := map i | i in s.workers && i != id :: s.workers[i],
            synced := if ok then s.synced + [s.workers[id]] else s.synced,
            initialSyncDone := s.initialSyncDone || (ok && fast))
  }

  lemma ReportChooses(threshold: nat, s: State, id: nat, ok: bool, fast: bool, s': State, f: State)
    returns (mid: State, out: Option<TipSet>)
    requires Step(threshold, s, WorkerDone(id, ok, fast), s') && Ended(s, id, ok, fast, f)
    ensures SelectNext(f, s.workers[id], mid, out) && s' == Spawn(mid, out)
  {
    assert Finish(s, id, ok, fast) == f by {
      assert s.workers - {id} == f.workers;
    }
    mid, out :| SelectNext(f, s.workers[id], mid, out) && s' == Spawn(mid, out);
  }

  /** The heaviest tip pending on the chain of the worker that ended is the next target, unless that worker's
      target, another active target or a recent success is heavier or a recent success is the same. */
  lemma NextOnChain(threshold: nat, s: State, id: nat, ok: bool, fast: bool, s': State, f: State, h: TipSet)
    requires Step(threshold, s, WorkerDone(id, ok, fast), s') && Ended(s, id, ok, fast, f)
    requires IsHeaviest(RelatedTips(s.pend, s.workers[id]), h)
    requires s.workers[id].weight <= h.weight && !ActiveAbove(f, h) && Novel(f, h)
    ensures Started(f.(pend := Unrelated(s.pend, s.workers[id])), s', h)
  {
    var mid, out := ReportChooses(threshold, s, id, ok, fast, s', f);
    OnChain(f, s.workers[id], mid, out, h);
  }

  lemma OnChain(f: State, done: TipSet, mid: State, out: Option<TipSet>, h: TipSet)
    requires SelectNext(f, done, mid, out) && IsHeaviest(RelatedTips(f.pend, done), h)
    requires done.weight <= h.weight && !ActiveAbove(f, h) && Novel(f, h)
    ensures mid == f.(pend := Unrelated(f.pend, done)) && out == Some(h)
  {
    var related := RelatedTips(f.pend, done);
    NovelIff(f, h);
    var h' :| IsHeaviest(related, h') &&
      if IsHeavier(done, h') || OutweighedByWorker(f, h') || RecentlySynced(f, h')
      then SelectDeferred(f.(pend := Unrelated(f.pend, done)), mid, out)
      else mid == f.(pend := Unrelated(f.pend, done)) && out == Some(h');
    HeaviestAgree(related, h, h');
  }

  lemma HeaviestAgree(tips: seq<TipSet>, a: TipSet, b: TipSet)
    requires IsHeaviest(tips, a) && IsHeaviest(tips, b)
    ensures a == b
  {
    var i :| 0 <= i < |tips| && FirstMax(tips, i) && tips[i] == a;
    var j :| 0 <= j < |tips| && FirstMax(tips, j) && tips[j] == b;
  }

  /** Otherwise the tips pending on that chain are dropped and a deferred target is looked for. */
  lemma NextOffChain(threshold: nat, s: State, id: nat, ok: bool, fast: bool, s': State, f: State)
    requires Step(threshold, s, WorkerDone(id, ok, fast), s') && Ended(s, id, ok, fast, f)
    requires forall h :: IsHeaviest(RelatedTips(s.pend, s.workers[id]), h) ==>
               s.workers[id].weight > h.weight || ActiveAbove(f, h) || !Novel(f, h)
    ensures exists mid, out :: SelectDeferred(f.(pend := Unrelated(s.pend, s.workers[id])), mid, out) && s' == Spawn(mid, out)
  {
    var mid, out := ReportChooses(threshold, s, id, ok, fast, s', f);
    OffChain(f, s.workers[id], mid, out);
  }

  lemma OffChain(f: State, done: TipSet, mid: State, out: Option<TipSet>)
    requires SelectNext(f, done, mid, out)
    requires forall h :: IsHeaviest(RelatedTips(f.pend, done), h) ==>
               done.weight > h.weight || ActiveAbove(f, h) || !Novel(f, h)
    ensures SelectDeferred(f.(pend := Unrelated(f.pend, done)), mid, out)
  {
    var related := RelatedTips(f.pend, done);
    if related != [] {
      var h :| IsHeaviest(related, h) &&
        if IsHeavier(done, h) || OutweighedByWorker(f, h) || RecentlySynced(f, h)
        then SelectDeferred(f.(pend := Unrelated(f.pend, done)), mid, out)
        else mid == f.(pend := Unrelated(f.pend, done)) && out == Some(h);
      NovelIff(f, h);
    }
  }

  // ---------------------------------------------------------------- deferred targets

  /** What may become of a deferred bucket whose heaviest tip is h: it stays; h is started; h is queued; or h
      is dropped because it or a heavier target was synced recently, or is being synced, or nobody works. */
  ghost predicate Accounted(s: State, s': State, out: Option<TipSet>, b: Bucket, h: TipSet) {
    || b in s'.deferred || out == Some(h) || Kept(s'.pend, h)
    || !Novel(s, h) || Active(s, h) || ActiveAbove(s, h) || s.workers == map[]
  }

  ghost predicate AllAccounted(s: State, s': State, out: Option<TipSet>) {
    forall b, h {:trigger Accounted(s, s', out, b, h)} :: b in s.deferred && IsHeaviest(b.tips, h) ==> Accounted(s, s', out, b, h)
  }

  /** Pending tips stay, and what is new among them was deferred. */
  ghost predicate PendGrows(s: State, s': State) {
    && (forall t :: t in AllTips(s.pend) ==> t in AllTips(s'.pend))
    && (forall t :: t in AllTips(s'.pend) ==> t in AllTips(s.pend) || IsDeferred(s, t))
  }

  ghost predicate IsDeferred(s: State, t: TipSet) {
    exists b :: b in s.deferred && t in b.tips
  }

  /** What is started was the heaviest of a deferred bucket, it links to no pending tip, some active target
      neither equals nor outweighs nor precedes it, and what stays deferred is no heavier. */
  ghost predicate WellChosen(s: State, s': State, h: TipSet) {
    && (exists b :: b in s.deferred && IsHeaviest(b.tips, h))
    && !AnyRelated(s'.pend, h) && Novel(s, h)
    && (exists id: nat :: id in s.workers && FreeFor(s.workers[id], h))
    && forall i :: 0 <= i < |s'.deferred| ==> AtMost(s'.deferred[i], h.weight)
  }

  ghost predicate FreeFor(w: TipSet, h: TipSet) {
    !Same(w, h) && w.weight <= h.weight && h.parents != w.cids
  }

  /** The choice of a deferred target, for every order in which the workers are looked at. */
  ghost predicate FairChoice(s: State, s': State, out: Option<TipSet>) {
    && AllAccounted(s, s', out) && PendGrows(s, s')
    && (forall b :: b in s'.deferred ==> b in s.deferred)
    && (out.Some? ==> WellChosen(s, s', out.value))
  }

  /** The bucket at k, whose heaviest tip is h, was popped, and h was put where mid says or dropped for cause. */
  ghost predicate Popped(s: State, k: nat, h: TipSet, mid: State) {
    && IsPop(s.deferred, k, h)
    && mid == s.(deferred := Without(s.deferred, k), pend := mid.pend) && mid.pend in {s.pend, Inserted(s.pend, h)}
    && (Kept(mid.pend, h) || !Novel(s, h) || Active(s, h) || ActiveAbove(s, h) || s.workers == map[])
  }

  lemma AccountedAfterPop(s: State, k: nat, h: TipSet, mid: State, s': State, out: Option<TipSet>, b: Bucket, g: TipSet)
    requires Popped(s, k, h, mid) && AllAccounted(mid, s', out) && b in s.deferred && IsHeaviest(b.tips, g)
    requires forall t :: t in AllTips(mid.pend) ==> t in AllTips(s'.pend)
    ensures Accounted(s, s', out, b, g)
  {
    var j :| 0 <= j < |s.deferred| && s.deferred[j] == b;
    if j == k {
      HeaviestAgree(b.tips, g, h);
      if Kept(mid.pend, h) {
        var t :| t in AllTips(mid.pend) && t.Equals(h);
        assert t in AllTips(s'.pend);
      }
    } else {
      assert Without(s.deferred, k)[if j < k then j else j - 1] == b;
      assert Accounted(mid, s', out, b, g);
    }
  }

  lemma PendAfterPop(s: State, k: nat, h: TipSet, mid: State, s': State)
    requires Popped(s, k, h, mid) && PendGrows(mid, s')
    ensures PendGrows(s, s')
  {
    InsertConserves(s.pend, h);
    HeaviestIsMember(s.deferred[k].tips, h);
    forall t | t in AllTips(s'.pend)
      ensures t in AllTips(s.pend) || IsDeferred(s, t)
    {
      if t !in AllTips(mid.pend) {
        var b :| b in mid.deferred && t in b.tips;
        assert b in s.deferred;
      } else if t !in AllTips(s.pend) {
        assert s.deferred[k] in s.deferred && h in s.deferred[k].tips;
      }
    }
  }

  lemma ChoiceAfterPop(s: State, k: nat, h: TipSet, mid: State, s': State, out: Option<TipSet>)
    requires Popped(s, k, h, mid) && FairChoice(mid, s', out)
    ensures FairChoice(s, s', out)
  {
    PendAfterPop(s, k, h, mid, s');
    forall b, g | b in s.deferred && IsHeaviest(b.tips, g)
      ensures Accounted(s, s', out, b, g)
    {
      AccountedAfterPop(s, k, h, mid, s', out, b, g);
    }
    if out.Some? {
      var b :| b in mid.deferred && IsHeaviest(b.tips, out.value);
      assert b in s.deferred;
    }
  }

  lemma {:induction false} DeferredAccounted(s: State, s': State, out: Option<TipSet>)
    requires Queues(s) && SelectDeferred(s, s', out)
    ensures FairChoice(s, s', out)
    decreases |s.deferred|
  {
    if s.deferred != [] {
      var k: nat, h: TipSet :|
        IsPop(s.deferred, k, h) && Consider(s.(deferred := Without(s.deferred, k)), h, s', out);
      var rest := s.(deferred := Without(s.deferred, k));
      var queued := rest.(pend := Inserted(s.pend, h));
      NovelIff(s, h);
      WithoutKeepsGood(s.deferred, k);
      InsertConserves(s.pend, h);
      if RecentlySynced(rest, h) {
        DeferredAccounted(rest, s', out);
        ChoiceAfterPop(s, k, h, rest, s', out);
      } else if AnyRelated(rest.pend, h) {
        QueueKeepsQueues(rest, h);
        DeferredAccounted(queued, s', out);
        ChoiceAfterPop(s, k, h, queued, s', out);
      } else if rest.workers == map[] {
        DeferredAccounted(rest, s', out);
        ChoiceAfterPop(s, k, h, rest, s', out);
      } else {
        var id: nat :| id in rest.workers && Against(rest, h, rest.workers[id], s', out);
        AgainstAccounted(s, k, h, id, s', out);
      }
    }
  }

  lemma {:induction false} AgainstAccounted(s: State, k: nat, h: TipSet, id: nat, s': State, out: Option<TipSet>)
    requires Queues(s) && IsPop(s.deferred, k, h) && id in s.workers && !RecentlySynced(s, h) && !AnyRelated(s.pend, h)
    requires Against(s.(deferred := Without(s.deferred, k)), h, s.workers[id], s', out)
    ensures FairChoice(s, s', out)
    decreases |s.deferred|, 0
  {
    var w, rest := s.workers[id], s.(deferred := Without(s.deferred, k));
    var queued := rest.(pend := Inserted(s.pend, h));
    NovelIff(s, h);
    WithoutKeepsGood(s.deferred, k);
    InsertConserves(s.pend, h);
    if w.Equals(h) || IsHeavier(w, h) {
      DeferredAccounted(rest, s', out);
      ChoiceAfterPop(s, k, h, rest, s', out);
    } else if h.parents == w.cids {
      QueueKeepsQueues(rest, h);
      DeferredAccounted(queued, s', out);
      ChoiceAfterPop(s, k, h, queued, s', out);
    } else {
      assert FreeFor(s.workers[id], h);
      StartedIsFair(s, k, h, id);
    }
  }

  lemma StartedAccounts(bs: seq<Bucket>, k: nat, h: TipSet, b: Bucket, g: TipSet)
    requires k < |bs| && IsHeaviest(bs[k].tips, h) && b in bs && IsHeaviest(b.tips, g)
    ensures b in Without(bs, k) || g == h
  {
    var j :| 0 <= j < |bs| && bs[j] == b;
    if j == k {
      HeaviestAgree(b.tips, g, h);
    } else {
      assert Without(bs, k)[if j < k then j else j - 1] == b;
    }
  }

  lemma StartedIsFair(s: State, k: nat, h: TipSet, id: nat)
    requires IsPop(s.deferred, k, h) && Novel(s, h) && !AnyRelated(s.pend, h)
    requires id in s.workers && FreeFor(s.workers[id], h)
    ensures FairChoice(s, s.(deferred := Without(s.deferred, k)), Some(h))
  {
    var s' := s.(deferred := Without(s.deferred, k));
    assert s.deferred[k] in s.deferred;
    forall b, g | b in s.deferred && IsHeaviest(b.tips, g)
      ensures Accounted(s, s', Some(h), b, g)
    {
      StartedAccounts(s.deferred, k, h, b, g);
    }
    forall i | 0 <= i < |s'.deferred|
      ensures AtMost(s'.deferred[i], h.weight)
    {
      assert s'.deferred[i] == s.deferred[if i < k then i else i + 1];
    }
  }

  // ---------------------------------------------------------------- the ramp-up

  /** A tick does nothing during the initial sync. After it, the best deferred target gets a worker if fewer
      than five are active and nothing speaks against it. */
  lemma TickServes(threshold: nat, s: State, s': State, k: nat, h: TipSet)
    requires Inv(s) && Step(threshold, s, Tick, s') && IsPop(s.deferred, k, h)
    ensures !s.initialSyncDone ==> s' == s
    ensures s.initialSyncDone && |s.workers| < 5 && Unblocked(s, h) ==>
              s.nextWorker in s'.workers && s'.workers[s.nextWorker] == h
  {
    if s.initialSyncDone && |s.workers| < 5 && Unblocked(s, h) {
      var r := s.(rampedUp := true);
      var turns: seq<State> :| RampUp(r, turns, s');
      if |turns| == 1 {
        DeferredServedIff(r, k, h, s', None);
      } else {
        assert RampHop(turns[0], turns[1]);
        var mid, t :| SelectDeferred(r, mid, Some(t)) && turns[1] == Spawn(mid, Some(t));
        DeferredServedIff(r, k, h, mid, Some(t));
        SelectDeferredFacts(r, mid, Some(t));
        RampKeeps(turns, s');
      }
    }
  }

  /** What the first turn started is still at work at the end. */
  lemma RampKeeps(turns: seq<State>, s': State)
    requires |turns| > 1 && Ramping(turns[0]) && RampUp(turns[0], turns, s')
    ensures KeepsWorkers(turns[1], s')
  {
    HopFacts(turns[0], turns[1]);
    var rest := turns[1..];
    assert forall j :: 0 < j < |rest| ==> RampHop(rest[j - 1], rest[j]) by {
      forall j | 0 < j < |rest|
        ensures RampHop(rest[j - 1], rest[j])
      {
        assert RampHop(turns[j], turns[j + 1]);
      }
    }
    RampUpFacts(turns[1], rest, s');
  }
}
