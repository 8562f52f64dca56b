/** The sync scheduler as a state machine: one step per event of its single-threaded loop.

    The steps are relations because the source iterates over maps, whose order is arbitrary,
    and because sync outcomes come from outside. The class in SyncManager.dfy refines them. */
module Schedule {
  import opened Wrappers
  import opened Tipsets
  import opened SyncBuckets
  import opened SyncBuffer

  type Peer = string

  const RECENT_SYNC_BUFFER_SIZE: nat := 10
  const MAX_SYNC_WORKERS: nat := 5

  datatype State = State(
    nextWorker: nat,
    heads: Option<map<Peer, TipSet>>,  // None once the source has set the map to nil
    workers: map<nat, TipSet>,
    pend: seq<Bucket>,
    deferred: seq<Bucket>,
    synced: seq<TipSet>,               // every successfully synced target, oldest first
    initialSyncDone: bool,
    rampedUp: bool)                    // the ramp-up tick has been handled and the ticker stopped

  datatype Event =
    | PeerHead(peer: Peer, ts: TipSet)
    | WorkerDone(id: nat, ok: bool, fast: bool)  // fast: within InitialSyncTimeThreshold
    | Tick

  const Initial: State := State(0, Some(map[]), map[], [], [], [], false, false)

  predicate RecentlySynced(s: State, ts: TipSet) {
    Covers(Newest(s.synced, RECENT_SYNC_BUFFER_SIZE), ts)
  }

  // ---------------------------------------------------------------- target selection

  /** The loop over deferred buckets. The source leaves its inner loop over the workers in the first
      iteration, so one arbitrary worker decides, and without workers the popped bucket is dropped. */
  ghost predicate SelectDeferred(s: State, s': State, out: Option<TipSet>)
    decreases |s.deferred|, 0
  {
    if s.deferred == [] then s' == s && out == None
    else
      exists k: nat, h: TipSet ::
        IsPop(s.deferred, k, h) && Consider(s.(deferred := Without(s.deferred, k)), h, s', out)
  }

  ghost predicate Consider(s: State, h: TipSet, s': State, out: Option<TipSet>)
    decreases |s.deferred|, 2
  {
    if RecentlySynced(s, h) then SelectDeferred(s, s', out)
    else if AnyRelated(s.pend, h) then SelectDeferred(s.(pend := Inserted(s.pend, h)), s', out)
    else if s.workers == map[] then SelectDeferred(s, s', out)
    else exists id: nat :: id in s.workers && Against(s, h, s.workers[id], s', out)
  }

  ghost predicate Against(s: State, h: TipSet, w: TipSet, s': State, out: Option<TipSet>)
    decreases |s.deferred|, 1
  {
    if w.Equals(h) || IsHeavier(w, h) then SelectDeferred(s, s', out)
    else if h.parents == w.cids then SelectDeferred(s.(pend := Inserted(s.pend, h)), s', out)
    else s' == s && out == Some(h)
  }

  ghost predicate SelectNext(s: State, done: TipSet, s': State, out: Option<TipSet>) {
    var related := RelatedTips(s.pend, done);
    var rest := s.(pend := Unrelated(s.pend, done));
    if related == [] then SelectDeferred(rest, s', out)
    else
      exists h :: IsHeaviest(related, h) &&
        if IsHeavier(done, h) || OutweighedByWorker(s, h) || RecentlySynced(s, h)
        then SelectDeferred(rest, s', out)
        else s' == rest && out == Some(h)
  }

  ghost predicate OutweighedByWorker(s: State, ts: TipSet) {
    exists id: nat :: id in s.workers && IsHeavier(s.workers[id], ts)
  }

  ghost predicate OutweighedByPending(s: State, ts: TipSet) {
    exists k, h :: IsPop(s.pend, k, h) && IsHeavier(h, ts)
  }

  ghost predicate BeingSynced(s: State, ts: TipSet) {
    exists id: nat :: id in s.workers && ts.Equals(s.workers[id])
  }

  ghost predicate ExtendsWorker(s: State, ts: TipSet) {
    exists id: nat :: id in s.workers && ts.parents == s.workers[id].cids
  }

  /** addSyncTarget. The order of the workers matters only when one target equals the tipset and
      another is its parent: then either may decide. */
  ghost predicate AddTarget(s: State, ts: TipSet, s': State, out: Option<TipSet>) {
    var queued := s.(pend := Inserted(s.pend, ts));
    if RecentlySynced(s, ts) then s' == s && out == None
    else if s.workers == map[] then s' == s && out == Some(ts)
    else if BeingSynced(s, ts) || ExtendsWorker(s, ts) then
      && out == None
      && ((BeingSynced(s, ts) && s' == s) || (ExtendsWorker(s, ts) && s' == queued))
    else if AnyRelated(s.pend, ts) then s' == queued && out == None
    else if OutweighedByWorker(s, ts) || OutweighedByPending(s, ts) then s' == s && out == None
    else if !s.initialSyncDone || |s.workers| >= MAX_SYNC_WORKERS then
      s' == s.(deferred := Inserted(s.deferred, ts)) && out == None
    else s' == s && out == Some(ts)
  }

  // ---------------------------------------------------------------- steps

  function Spawn(s: State, target: Option<TipSet>): State {
    if target.None? then s
    else s.(workers := s.workers[s.nextWorker := target.value], nextWorker := s.nextWorker + 1)
  }

  /** No head beats the target, up to the deduplication of equal tipsets. */
  ghost predicate BestHead(heads: map<Peer, TipSet>, target: TipSet) {
    && target in heads.Values
    && forall t {:trigger Matched(heads, t, target)} :: t in heads.Values ==> Matched(heads, t, target)
  }

  ghost predicate Matched(heads: map<Peer, TipSet>, t: TipSet, target: TipSet) {
    exists u :: u in heads.Values && u.Equals(t) && u.weight <= target.weight
  }

  ghost predicate PeerHeadStep(threshold: nat, s: State, p: Peer, ts: TipSet, s': State) {
    if s.nextWorker == 0 && s.heads.Some? then
      var heads := s.heads.value[p := ts];
      if |heads| < threshold then s' == s.(heads := Some(heads))
      else exists target :: BestHead(heads, target) && s' == Spawn(s.(heads := None), Some(target))
    else exists mid, out :: AddTarget(s, ts, mid, out) && s' == Spawn(mid, out)
  }

  function Finish(s: State, id: nat, ok: bool, fast: bool): State
    requires id in s.workers
  {
    var gone := s.(workers := s.workers - {id});
    if ok then gone.(synced := s.synced + [s.workers[id]], initialSyncDone := s.initialSyncDone || fast)
    else gone
  }

  ghost predicate WorkerDoneStep(s: State, id: nat, ok: bool, fast: bool, s': State)
    requires id in s.workers
  {
    exists mid, out :: SelectNext(Finish(s, id, ok, fast), s.workers[id], mid, out) && s' == Spawn(mid, out)
  }

  /** One turn of the ramp-up loop that spawns a worker. */
  ghost predicate RampHop(s: State, s': State) {
    && |s.workers| < MAX_SYNC_WORKERS
    && exists mid, t :: SelectDeferred(s, mid, Some(t)) && s' == Spawn(mid, Some(t))
  }

  /** The loop stops at the worker limit, or when no deferred target is left. */
  ghost predicate RampStop(s: State, s': State) {
    if |s.workers| >= MAX_SYNC_WORKERS then s' == s else SelectDeferred(s, s', None)
  }

  ghost predicate RampUp(s: State, turns: seq<State>, s': State) {
    && turns != [] && turns[0] == s
    && (forall i :: 0 < i < |turns| ==> RampHop(turns[i - 1], turns[i]))
    && RampStop(turns[|turns| - 1], s')
  }

  ghost predicate TickStep(s: State, s': State) {
    if s.initialSyncDone then exists turns :: RampUp(s.(rampedUp := true), turns, s') else s' == s
  }

  ghost predicate Step(threshold: nat, s: State, e: Event, s': State) {
    match e
    case PeerHead(p, ts) => PeerHeadStep(threshold, s, p, ts, s')
    case WorkerDone(id, ok, fast) => id in s.workers && WorkerDoneStep(s, id, ok, fast, s')
    case Tick => !s.rampedUp && TickStep(s, s')
  }

  /** A run: any sequence of events, any order of map iteration, any sync outcomes. */
  ghost predicate IsRun(threshold: nat, states: seq<State>, events: seq<Event>) {
    && |states| == |events| + 1
    && states[0] == Initial
    && forall i :: 0 <= i < |events| ==> Step(threshold, states[i], events[i], states[i + 1])
  }

  // ---------------------------------------------------------------- invariant

  ghost predicate Anchored(b: Bucket, workers: map<nat, TipSet>) {
    exists id: nat :: id in workers && SameChain(b, workers[id])
  }

  ghost predicate AllAnchored(bs: seq<Bucket>, workers: map<nat, TipSet>) {
    forall i :: 0 <= i < |bs| ==> Anchored(bs[i], workers)
  }

  /** What holds at every moment, also between a worker's end and the choice of the next target. */
  ghost predicate Queues(s: State) {
    && GoodBuckets(s.pend) && GoodBuckets(s.deferred)
    && AllAnchored(s.pend, s.workers)
    && (forall id :: id in s.workers ==> id < s.nextWorker)
  }

  ghost predicate Inv(s: State) {
    && Queues(s)
    && (s.heads.None? <==> s.nextWorker > 0)
    && (s.nextWorker == 0 ==> s == Initial.(heads := s.heads))
    && |s.workers| <= MAX_SYNC_WORKERS
    && (!s.initialSyncDone ==> |s.workers| <= 1)
    && (s.workers == map[] ==> s.pend == [] && s.deferred == [])
    && (s.rampedUp ==> s.initialSyncDone && (s.deferred != [] ==> |s.workers| == MAX_SYNC_WORKERS))
  }

  // ---------------------------------------------------------------- queue lemmas

  lemma SameChainGrows(b: Bucket, ts: TipSet, w: TipSet)
    requires SameChain(b, w)
    ensures SameChain(Added(b, ts), w)
  {
    var i :| 0 <= i < |b.tips| && Related(b.tips[i], w);
    assert Added(b, ts).tips[i] == b.tips[i];
  }

  /** Queueing behind an active or a queued target keeps every pending bucket tied to a worker. */
  lemma {:induction false} InsertedAnchored(bs: seq<Bucket>, ts: TipSet, workers: map<nat, TipSet>)
    requires AllAnchored(bs, workers)
    requires AnyRelated(bs, ts) || exists id: nat :: id in workers && ts.parents == workers[id].cids
    ensures AllAnchored(Inserted(bs, ts), workers)
  {
    var r := Inserted(bs, ts);
    if bs == [] {
      var id: nat :| id in workers && ts.parents == workers[id].cids;
      assert Related(Bucket([ts]).tips[0], workers[id]);
      assert SameChain(Bucket([ts]), workers[id]);
    } else if SameChain(bs[0], ts) {
      var id: nat :| id in workers && SameChain(bs[0], workers[id]);
      SameChainGrows(bs[0], ts, workers[id]);
      assert Anchored(Added(bs[0], ts), workers);
    } else {
      AnyRelatedCons(bs, ts);
      InsertedAnchored(bs[1..], ts, workers);
      assert Anchored(bs[0], workers);
    }
  }

  lemma WithoutKeepsGood(bs: seq<Bucket>, k: nat)
    requires GoodBuckets(bs) && k < |bs|
    ensures GoodBuckets(Without(bs, k))
  {
  }

  lemma QueueKeepsQueues(s: State, ts: TipSet)
    requires Queues(s) && (AnyRelated(s.pend, ts) || ExtendsWorker(s, ts))
    ensures Queues(s.(pend := Inserted(s.pend, ts)))
  {
    InsertKeepsGood(s.pend, ts);
    InsertedAnchored(s.pend, ts, s.workers);
  }

  /** What choosing a deferred target may change, and what the choice is. */
  ghost predicate DeferredOutcome(s: State, s': State, out: Option<TipSet>) {
    && s' == s.(pend := s'.pend, deferred := s'.deferred)
    && Queues(s')
    && (out.None? ==> s'.deferred == [])
    && (out.Some? ==> s.workers != map[] && !RecentlySynced(s, out.value))
  }

  lemma {:induction false} SelectDeferredFacts(s: State, s': State, out: Option<TipSet>)
    requires Queues(s) && SelectDeferred(s, s', out)
    ensures DeferredOutcome(s, s', out)
    decreases |s.deferred|, 0
  {
    if s.deferred != [] {
      var k: nat, h: TipSet :|
        IsPop(s.deferred, k, h) && Consider(s.(deferred := Without(s.deferred, k)), h, s', out);
      WithoutKeepsGood(s.deferred, k);
      ConsiderFacts(s.(deferred := Without(s.deferred, k)), h, s', out);
    }
  }

  lemma {:induction false} ConsiderFacts(s: State, h: TipSet, s': State, out: Option<TipSet>)
    requires Queues(s) && Consider(s, h, s', out)
    ensures DeferredOutcome(s, s', out)
    decreases |s.deferred|, 1
  {
    if RecentlySynced(s, h) {
      SelectDeferredFacts(s, s', out);
    } else if AnyRelated(s.pend, h) {
      QueueKeepsQueues(s, h);
      SelectDeferredFacts(s.(pend := Inserted(s.pend, h)), s', out);
    } else if s.workers == map[] {
      SelectDeferredFacts(s, s', out);
    } else {
      var id: nat :| id in s.workers && Against(s, h, s.workers[id], s', out);
      var w := s.workers[id];
      if w.Equals(h) || IsHeavier(w, h) {
        SelectDeferredFacts(s, s', out);
      } else if h.parents == w.cids {
        QueueKeepsQueues(s, h);
        SelectDeferredFacts(s.(pend := Inserted(s.pend, h)), s', out);
      }
    }
  }

  /** With nobody working, nothing is pending and the choice can only come up empty. */
  lemma IdleQueues(s: State)
    requires Queues(s) && s.workers == map[]
    ensures s.pend == []
  {
    assert s.pend != [] ==> Anchored(s.pend[0], s.workers);
  }

  lemma UnrelatedKeepsQueues(s: State, id: nat, ok: bool, fast: bool)
    requires Queues(s) && id in s.workers
    ensures Queues(Finish(s, id, ok, fast).(pend := Unrelated(s.pend, s.workers[id])))
  {
    var ts := s.workers[id];
    var rest := Unrelated(s.pend, ts);
    UnrelatedLaws(s.pend, ts);
    forall i | 0 <= i < |rest|
      ensures GoodBucket(rest[i]) && Anchored(rest[i], s.workers - {id})
    {
      assert rest[i] in rest;
      var j :| 0 <= j < |s.pend| && s.pend[j] == rest[i];
      assert Anchored(s.pend[j], s.workers);
      var w: nat :| w in s.workers && SameChain(s.pend[j], s.workers[w]);
      assert w != id;
      assert w in s.workers - {id};
    }
  }

  lemma SelectNextFacts(s: State, id: nat, ok: bool, fast: bool, s': State, out: Option<TipSet>)
    requires Queues(s) && id in s.workers
    requires SelectNext(Finish(s, id, ok, fast), s.workers[id], s', out)
    ensures s' == Finish(s, id, ok, fast).(pend := s'.pend, deferred := s'.deferred)
    ensures Queues(s')
    ensures out.None? ==> s'.deferred == []
    ensures out.Some? ==> !RecentlySynced(s', out.value)
  {
    var done := s.workers[id];
    var f := Finish(s, id, ok, fast);
    var rest := f.(pend := Unrelated(f.pend, done));
    UnrelatedKeepsQueues(s, id, ok, fast);
    var related := RelatedTips(f.pend, done);
    if related == [] {
      SelectDeferredFacts(rest, s', out);
    } else {
      var h :| IsHeaviest(related, h) &&
        if IsHeavier(done, h) || OutweighedByWorker(f, h) || RecentlySynced(f, h)
        then SelectDeferred(rest, s', out)
        else s' == rest && out == Some(h);
      if IsHeavier(done, h) || OutweighedByWorker(f, h) || RecentlySynced(f, h) {
        SelectDeferredFacts(rest, s', out);
      }
    }
  }

  // ---------------------------------------------------------------- each step keeps the invariant

  lemma SpawnFacts(s: State, target: TipSet)
    requires Queues(s)
    ensures Queues(Spawn(s, Some(target)))
    ensures |Spawn(s, Some(target)).workers| == |s.workers| + 1
  {
    var t := Spawn(s, Some(target));
    assert s.nextWorker !in s.workers;
    assert t.workers.Keys == s.workers.Keys + {s.nextWorker};
    forall i | 0 <= i < |t.pend|
      ensures Anchored(t.pend[i], t.workers)
    {
      assert Anchored(s.pend[i], s.workers);
      var id: nat :| id in s.workers && SameChain(s.pend[i], s.workers[id]);
      assert id in t.workers && t.workers[id] == s.workers[id];
    }
  }

  lemma FinishCount(s: State, id: nat, ok: bool, fast: bool)
    requires id in s.workers
    ensures |Finish(s, id, ok, fast).workers| == |s.workers| - 1
  {
  }

  /** New workers of a step: none is sent to a target that was synced recently, or a lighter one. */
  ghost predicate NoBackwardWork(s: State, s': State) {
    forall id: nat :: id in s'.workers && id !in s.workers ==>
      forall r :: r in Newest(s'.synced, RECENT_SYNC_BUFFER_SIZE) ==>
        !r.Equals(s'.workers[id]) && r.weight <= s'.workers[id].weight
  }

  lemma FreshTargetIsForward(s: State, mid: State, target: TipSet)
    requires !RecentlySynced(mid, target) && mid.workers.Keys <= s.workers.Keys
    ensures NoBackwardWork(s, Spawn(mid, Some(target)))
  {
  }

  lemma AddTargetKeepsInv(s: State, ts: TipSet, mid: State, out: Option<TipSet>)
    requires Inv(s) && s.nextWorker > 0 && AddTarget(s, ts, mid, out)
    ensures Inv(Spawn(mid, out))
    ensures NoBackwardWork(s, Spawn(mid, out))
  {
    if mid == s.(pend := Inserted(s.pend, ts)) && mid != s {
      QueueKeepsQueues(s, ts);
    } else if mid == s.(deferred := Inserted(s.deferred, ts)) && mid != s {
      InsertKeepsGood(s.deferred, ts);
    }
    if out.Some? {
      SpawnFacts(s, ts);
      FreshTargetIsForward(s, mid, ts);
    }
  }

  lemma PeerHeadKeepsInv(threshold: nat, s: State, p: Peer, ts: TipSet, s': State)
    requires Inv(s) && PeerHeadStep(threshold, s, p, ts, s')
    ensures Inv(s') && NoBackwardWork(s, s')
  {
    if s.nextWorker == 0 {
      var heads := s.heads.value[p := ts];
      if |heads| >= threshold {
        var target :| BestHead(heads, target) && s' == Spawn(s.(heads := None), Some(target));
        SpawnFacts(s.(heads := None), target);
      }
    } else {
      var mid, out :| AddTarget(s, ts, mid, out) && s' == Spawn(mid, out);
      AddTargetKeepsInv(s, ts, mid, out);
    }
  }

  lemma WorkerDoneKeepsInv(s: State, id: nat, ok: bool, fast: bool, s': State)
    requires Inv(s) && id in s.workers && WorkerDoneStep(s, id, ok, fast, s')
    ensures Inv(s') && NoBackwardWork(s, s')
  {
    var mid, out :| SelectNext(Finish(s, id, ok, fast), s.workers[id], mid, out) && s' == Spawn(mid, out);
    FinishCount(s, id, ok, fast);
    SelectNextFacts(s, id, ok, fast, mid, out);
    if out.Some? {
      SpawnFacts(mid, out.value);
      FreshTargetIsForward(s, mid, out.value);
    } else if mid.workers == map[] {
      IdleQueues(mid);
    }
  }

  /** s' has the workers of s, with the same targets, and maybe more. */
  ghost predicate KeepsWorkers(s: State, s': State) {
    && s'.nextWorker >= s.nextWorker
    && forall id: nat :: id in s.workers ==> id in s'.workers && s'.workers[id] == s.workers[id]
  }

  lemma NoBackwardWorkComposes(s: State, mid: State, s': State)
    requires NoBackwardWork(s, mid) && NoBackwardWork(mid, s') && KeepsWorkers(mid, s') && mid.synced == s'.synced
    ensures NoBackwardWork(s, s')
  {
  }

  /** What the ramp-up loop is entered with and what it keeps. */
  ghost predicate Ramping(s: State) {
    Queues(s) && |s.workers| <= MAX_SYNC_WORKERS && (s.workers == map[] ==> s.deferred == [])
  }

  /** Everything but the queues and the workers is as before; targets are forward work only. */
  ghost predicate Ramped(s: State, s': State) {
    && KeepsWorkers(s, s') && NoBackwardWork(s, s')
    && s' == s.(pend := s'.pend, deferred := s'.deferred, workers := s'.workers, nextWorker := s'.nextWorker)
  }

  lemma HopFacts(s: State, s': State)
    requires Ramping(s) && RampHop(s, s')
    ensures Ramping(s') && Ramped(s, s')
  {
    var mid, t :| SelectDeferred(s, mid, Some(t)) && s' == Spawn(mid, Some(t));
    SelectDeferredFacts(s, mid, Some(t));
    SpawnFacts(mid, t);
    FreshTargetIsForward(s, mid, t);
    assert s.nextWorker !in s.workers;
    assert s.nextWorker in s'.workers;
  }

  lemma {:induction false} HopsFacts(turns: seq<State>, i: nat)
    requires i < |turns| && Ramping(turns[0])
    requires forall j :: 0 < j < |turns| ==> RampHop(turns[j - 1], turns[j])
    ensures Ramping(turns[i]) && Ramped(turns[0], turns[i])
  {
    if i > 0 {
      HopsFacts(turns, i - 1);
      HopFacts(turns[i - 1], turns[i]);
      NoBackwardWorkComposes(turns[0], turns[i - 1], turns[i]);
    }
  }

  lemma RampUpFacts(s: State, turns: seq<State>, s': State)
    requires Ramping(s) && RampUp(s, turns, s')
    ensures Ramping(s') && Ramped(s, s')
    ensures s'.deferred != [] ==> |s'.workers| == MAX_SYNC_WORKERS
  {
    HopsFacts(turns, |turns| - 1);
    var last := turns[|turns| - 1];
    if |last.workers| < MAX_SYNC_WORKERS {
      SelectDeferredFacts(last, s', None);
    }
    NoBackwardWorkComposes(s, last, s');
  }

  lemma TickKeepsInv(s: State, s': State)
    requires Inv(s) && TickStep(s, s')
    ensures Inv(s') && NoBackwardWork(s, s')
  {
    if s.initialSyncDone {
      var turns: seq<State> :| RampUp(s.(rampedUp := true), turns, s');
      RampUpFacts(s.(rampedUp := true), turns, s');
      if s'.workers == map[] {
        IdleQueues(s');
      }
    }
  }

  lemma StepKeepsInv(threshold: nat, s: State, e: Event, s': State)
    requires Inv(s) && Step(threshold, s, e, s')
    ensures Inv(s') && NoBackwardWork(s, s')
  {
    match e
    case PeerHead(p, ts) => PeerHeadKeepsInv(threshold, s, p, ts, s');
    case WorkerDone(id, ok, fast) => WorkerDoneKeepsInv(s, id, ok, fast, s');
    case Tick => TickKeepsInv(s, s');
  }
}
