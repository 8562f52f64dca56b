/** What the scheduler guarantees over every run. */
module ScheduleRuns {
  import opened Wrappers
  import opened Tipsets
  import opened SyncBuckets
  import opened SyncBuffer
  import opened Schedule

  lemma {:induction false} RunInv(threshold: nat, states: seq<State>, events: seq<Event>, i: nat)
    requires IsRun(threshold, states, events) && i < |states|
    ensures Inv(states[i])
  {
    if i > 0 {
      RunInv(threshold, states, events, i - 1);
      StepKeepsInv(threshold, states[i - 1], events[i - 1], states[i]);
    }
  }

  /** Once the ramp-up tick has been handled, no deferred target waits while a worker slot is free. */
  lemma WorkConservation(threshold: nat, states: seq<State>, events: seq<Event>)
    requires IsRun(threshold, states, events)
    ensures forall i :: 0 <= i < |states| && states[i].rampedUp && states[i].deferred != [] ==>
              |states[i].workers| == 5
  {
    forall i | 0 <= i < |states| {
      RunInv(threshold, states, events, i);
    }
  }

  /** Every pending bucket is on the chain of an active worker, and an idle scheduler has empty queues. */
  lemma NothingStranded(threshold: nat, states: seq<State>, events: seq<Event>)
    requires IsRun(threshold, states, events)
    ensures forall i :: 0 <= i < |states| ==> AllAnchored(states[i].pend, states[i].workers)
    ensures forall i :: 0 <= i < |states| && states[i].workers == map[] ==>
              states[i].pend == [] && states[i].deferred == []
  {
    forall i | 0 <= i < |states| {
      RunInv(threshold, states, events, i);
    }
  }

  /** Worker limits, fresh ids, no empty bucket, and peer heads recorded only before the first spawn. */
  lemma ResourceBounds(threshold: nat, states: seq<State>, events: seq<Event>)
    requires IsRun(threshold, states, events)
    ensures forall i :: 0 <= i < |states| ==>
              |states[i].workers| <= if states[i].initialSyncDone then 5 else 1
    ensures forall i, id :: 0 <= i < |states| && id in states[i].workers ==> id < states[i].nextWorker
    ensures forall i :: 0 <= i < |states| ==> GoodBuckets(states[i].pend) && GoodBuckets(states[i].deferred)
    ensures forall i :: 0 <= i < |states| ==> (states[i].heads.Some? <==> states[i].nextWorker == 0)
  {
    forall i | 0 <= i < |states| {
      RunInv(threshold, states, events, i);
    }
  }

  // ---------------------------------------------------------------- success history

  /** The targets of the workers that reported success, in the order they reported. */
  function Successes(states: seq<State>, events: seq<Event>): seq<TipSet>
    requires |states| == |events| + 1
  {
    if events == [] then []
    else
      var n := |events| - 1;
      var before := Successes(states[..n + 1], events[..n]);
      match events[n]
      case WorkerDone(id, true, _) => before + if id in states[n].workers then [states[n].workers[id]] else []
      case _ => before
  }

  lemma StepSynced(threshold: nat, s: State, e: Event, s': State)
    requires Inv(s) && Step(threshold, s, e, s')
    ensures s'.synced == match e
                         case WorkerDone(id, true, _) => s.synced + [s.workers[id]]
                         case _ => s.synced
  {
    match e
    case PeerHead(p, ts) =>
    case WorkerDone(id, ok, fast) =>
      var mid, out :| SelectNext(Finish(s, id, ok, fast), s.workers[id], mid, out) && s' == Spawn(mid, out);
      SelectNextFacts(s, id, ok, fast, mid, out);
    case Tick =>
      if s.initialSyncDone {
        var turns: seq<State> :| RampUp(s.(rampedUp := true), turns, s');
        RampUpFacts(s.(rampedUp := true), turns, s');
      }
  }

  lemma {:induction false} SyncedIsSuccesses(threshold: nat, states: seq<State>, events: seq<Event>)
    requires IsRun(threshold, states, events)
    ensures states[|events|].synced == Successes(states, events)
  {
    if events != [] {
      var n := |events| - 1;
      var states', events' := states[..n + 1], events[..n];
      assert IsRun(threshold, states', events');
      SyncedIsSuccesses(threshold, states', events');
      RunInv(threshold, states, events, n);
      StepSynced(threshold, states[n], events[n], states[n + 1]);
    }
  }

  /** No backward work: the target of every worker a run spawns differs from, and is at least as heavy
      as, each of the last ten successfully synced targets. */
  lemma NoBackwardWorkInRun(threshold: nat, states: seq<State>, events: seq<Event>, i: nat, id: nat, r: TipSet)
    requires IsRun(threshold, states, events) && i < |events|
    requires id in states[i + 1].workers && id !in states[i].workers
    requires r in Newest(Successes(states[..i + 2], events[..i + 1]), 10)
    ensures !r.Equals(states[i + 1].workers[id])
    ensures r.weight <= states[i + 1].workers[id].weight
  {
    assert IsRun(threshold, states[..i + 2], events[..i + 1]);
    SyncedIsSuccesses(threshold, states[..i + 2], events[..i + 1]);
    RunInv(threshold, states, events, i);
    StepKeepsInv(threshold, states[i], events[i], states[i + 1]);
  }

  // ---------------------------------------------------------------- worker accounting

  /** How a step changes the worker set: it ends the worker that reported, and spawns under fresh ids. */
  ghost predicate WorkersEvolve(s: State, e: Event, s': State) {
    && s.nextWorker <= s'.nextWorker
    && (forall id: nat :: id in s.workers && !(e.WorkerDone? && e.id == id) ==>
          id in s'.workers && s'.workers[id] == s.workers[id])
    && (forall id: nat :: id in s'.workers && id !in s.workers ==> s.nextWorker <= id)
    && (e.WorkerDone? ==> e.id !in s'.workers)
    && |s'.workers| - |s.workers| == s'.nextWorker - s.nextWorker - if e.WorkerDone? then 1 else 0
  }

  lemma {:induction false} HopsEvolve(turns: seq<State>, i: nat)
    requires i < |turns| && Ramping(turns[0])
    requires forall j :: 0 < j < |turns| ==> RampHop(turns[j - 1], turns[j])
    ensures Ramping(turns[i]) && WorkersEvolve(turns[0], Tick, turns[i])
  {
    if i > 0 {
      HopsEvolve(turns, i - 1);
      HopFacts(turns[i - 1], turns[i]);
      var s, s' := turns[i - 1], turns[i];
      var mid, t :| SelectDeferred(s, mid, Some(t)) && s' == Spawn(mid, Some(t));
      SelectDeferredFacts(s, mid, Some(t));
      SpawnFacts(mid, t);
    }
  }

  lemma AddTargetKeepsWorkers(s: State, ts: TipSet, mid: State, out: Option<TipSet>)
    requires AddTarget(s, ts, mid, out)
    ensures mid.workers == s.workers && mid.nextWorker == s.nextWorker
    ensures out.Some? ==> mid == s && out.value == ts
  {
  }

  lemma SpawnEvolves(s: State, mid: State, ts: TipSet, e: Event)
    requires Queues(s) && mid.workers == s.workers && mid.nextWorker == s.nextWorker && !e.WorkerDone?
    ensures WorkersEvolve(s, e, Spawn(mid, Some(ts)))
  {
  }

  lemma PeerHeadEvolves(threshold: nat, s: State, p: Peer, ts: TipSet, s': State)
    requires Inv(s) && PeerHeadStep(threshold, s, p, ts, s')
    ensures WorkersEvolve(s, PeerHead(p, ts), s')
  {
    if s.nextWorker == 0 && s.heads.Some? {
      if |s.heads.value[p := ts]| >= threshold {
        var target :| BestHead(s.heads.value[p := ts], target) && s' == Spawn(s.(heads := None), Some(target));
        SpawnEvolves(s, s.(heads := None), target, PeerHead(p, ts));
      }
    } else {
      var mid, out :| AddTarget(s, ts, mid, out) && s' == Spawn(mid, out);
      AddTargetKeepsWorkers(s, ts, mid, out);
      if out.Some? {
        SpawnEvolves(s, mid, ts, PeerHead(p, ts));
      }
    }
  }

  lemma FinishEvolves(s: State, id: nat, ok: bool, fast: bool, mid: State)
    requires id in s.workers
    requires mid.workers == Finish(s, id, ok, fast).workers && mid.nextWorker == s.nextWorker
    ensures WorkersEvolve(s, WorkerDone(id, ok, fast), mid)
  {
    FinishCount(s, id, ok, fast);
  }

  lemma EvolvesOn(s: State, e: Event, mid: State, s': State)
    requires Queues(s) && WorkersEvolve(s, e, mid) && WorkersEvolve(mid, Tick, s')
    requires e.WorkerDone? ==> e.id in s.workers
    ensures WorkersEvolve(s, e, s')
  {
  }

  lemma WorkerDoneEvolves(s: State, id: nat, ok: bool, fast: bool, s': State)
    requires Inv(s) && id in s.workers && WorkerDoneStep(s, id, ok, fast, s')
    ensures WorkersEvolve(s, WorkerDone(id, ok, fast), s')
  {
    var mid, out :| SelectNext(Finish(s, id, ok, fast), s.workers[id], mid, out) && s' == Spawn(mid, out);
    SelectNextFacts(s, id, ok, fast, mid, out);
    FinishEvolves(s, id, ok, fast, mid);
    if out.Some? {
      SpawnEvolves(mid, mid, out.value, Tick);
      EvolvesOn(s, WorkerDone(id, ok, fast), mid, s');
    }
  }

  lemma TickEvolves(s: State, s': State)
    requires Inv(s) && TickStep(s, s')
    ensures WorkersEvolve(s, Tick, s')
  {
    if s.initialSyncDone {
      var turns: seq<State> :| RampUp(s.(rampedUp := true), turns, s');
      HopsEvolve(turns, |turns| - 1);
      var last := turns[|turns| - 1];
      if |last.workers| < MAX_SYNC_WORKERS {
        SelectDeferredFacts(last, s', None);
      }
    }
  }

  lemma RunEvolves(threshold: nat, states: seq<State>, events: seq<Event>, i: nat)
    requires IsRun(threshold, states, events) && i < |events|
    ensures WorkersEvolve(states[i], events[i], states[i + 1])
  {
    RunInv(threshold, states, events, i);
    match events[i]
    case PeerHead(p, ts) => PeerHeadEvolves(threshold, states[i], p, ts, states[i + 1]);
    case WorkerDone(id, ok, fast) => WorkerDoneEvolves(states[i], id, ok, fast, states[i + 1]);
    case Tick => TickEvolves(states[i], states[i + 1]);
  }

  function DoneCount(events: seq<Event>): nat {
    if events == [] then 0
    else DoneCount(events[..|events| - 1]) + if events[|events| - 1].WorkerDone? then 1 else 0
  }

  /** Every worker ever spawned is active or has reported, and reported once. */
  lemma {:induction false} WorkersAccounted(threshold: nat, states: seq<State>, events: seq<Event>, i: nat)
    requires IsRun(threshold, states, events) && i < |states|
    ensures states[i].nextWorker == |states[i].workers| + DoneCount(events[..i])
  {
    if i > 0 {
      WorkersAccounted(threshold, states, events, i - 1);
      RunEvolves(threshold, states, events, i - 1);
      assert events[..i][..i - 1] == events[..i - 1];
    }
  }

  /** A worker's id is never reused and its target never changes: if it is active at i and at j,
      it was active with that target all the time between. */
  lemma WorkerLifetime(threshold: nat, states: seq<State>, events: seq<Event>, i: nat, k: nat, j: nat, id: nat)
    requires IsRun(threshold, states, events) && i <= k <= j < |states|
    requires id in states[i].workers && id in states[j].workers
    ensures id in states[k].workers
    ensures states[k].workers[id] == states[i].workers[id]
  {
    RunInv(threshold, states, events, i);
    forall n | 0 <= n < |events|
      ensures EvolvesAt(states, events, n)
    {
      RunEvolves(threshold, states, events, n);
    }
    Lifetime(states, events, i, k, j, id);
  }

  ghost predicate Evolving(states: seq<State>, events: seq<Event>) {
    && |states| == |events| + 1
    && forall n :: 0 <= n < |events| ==> EvolvesAt(states, events, n)
  }

  ghost predicate EvolvesAt(states: seq<State>, events: seq<Event>, n: int)
    requires |states| == |events| + 1 && 0 <= n < |events|
  {
    WorkersEvolve(states[n], events[n], states[n + 1])
  }

  lemma {:induction false} Lifetime(states: seq<State>, events: seq<Event>, i: nat, k: nat, j: nat, id: nat)
    requires Evolving(states, events) && i <= k <= j < |states|
    requires id in states[i].workers && id < states[i].nextWorker && id in states[j].workers
    ensures id in states[k].workers && states[k].workers[id] == states[i].workers[id]
    decreases j
  {
    if i < j {
      IdsBelow(states, events, i, j - 1);
      assert EvolvesAt(states, events, j - 1);
      Lifetime(states, events, i, if k == j then j - 1 else k, j - 1, id);
    }
  }

  lemma {:induction false} IdsBelow(states: seq<State>, events: seq<Event>, i: nat, j: nat)
    requires Evolving(states, events) && i <= j < |states|
    ensures states[i].nextWorker <= states[j].nextWorker
    decreases j
  {
    if i < j {
      IdsBelow(states, events, i, j - 1);
      assert EvolvesAt(states, events, j - 1);
    }
  }

  // ---------------------------------------------------------------- deferred targets that are dropped

  lemma {:induction false} SelectDeferredIdle(s: State, s': State, out: Option<TipSet>)
    requires s.workers == map[] && s.pend == [] && SelectDeferred(s, s', out)
    ensures out == None && s' == s.(deferred := [])
    decreases |s.deferred|
  {
    if s.deferred != [] {
      var k: nat, h: TipSet :|
        IsPop(s.deferred, k, h) && Consider(s.(deferred := Without(s.deferred, k)), h, s', out);
      SelectDeferredIdle(s.(deferred := Without(s.deferred, k)), s', out);
    }
  }

  lemma SelectNextIdle(f: State, done: TipSet, mid: State, out: Option<TipSet>)
    requires f.workers == map[] && Unrelated(f.pend, done) == [] && SelectNext(f, done, mid, out)
    ensures mid == f.(pend := [], deferred := mid.deferred)
    ensures out.None? ==> mid.deferred == []
    ensures out.Some? ==> mid.deferred == f.deferred && out.value in RelatedTips(f.pend, done)
  {
    var rest := f.(pend := Unrelated(f.pend, done));
    var related := RelatedTips(f.pend, done);
    if related == [] {
      SelectDeferredIdle(rest, mid, out);
    } else {
      var h :| IsHeaviest(related, h) &&
        if IsHeavier(done, h) || OutweighedByWorker(f, h) || RecentlySynced(f, h)
        then SelectDeferred(rest, mid, out)
        else mid == rest && out == Some(h);
      HeaviestIsMember(related, h);
      if IsHeavier(done, h) || OutweighedByWorker(f, h) || RecentlySynced(f, h) {
        SelectDeferredIdle(rest, mid, out);
      }
    }
  }

  /** When the only worker ends, no deferred target is started: either the next worker goes to a
      pending target on the ended worker's chain, or every deferred target is dropped unseen. */
  lemma LastWorkerDropsDeferred(s: State, id: nat, ok: bool, fast: bool, s': State)
    requires Inv(s) && s.workers.Keys == {id} && WorkerDoneStep(s, id, ok, fast, s')
    ensures s'.workers == map[] ==> s'.deferred == []
    ensures s'.workers != map[] ==> s'.deferred == s.deferred
    ensures forall w :: w in s'.workers ==> s'.workers[w] in RelatedTips(s.pend, s.workers[id])
  {
    var done := s.workers[id];
    var f := Finish(s, id, ok, fast);
    var mid, out :| SelectNext(f, done, mid, out) && s' == Spawn(mid, out);
    assert f.workers.Keys == {};
    UnrelatedKeepsQueues(s, id, ok, fast);
    IdleQueues(f.(pend := Unrelated(f.pend, done)));
    SelectNextIdle(f, done, mid, out);
    if out.Some? {
      assert mid.nextWorker in s'.workers;
    }
  }

  /** Nothing an active worker does speaks against starting h. */
  ghost predicate Unblocked(s: State, h: TipSet) {
    && !RecentlySynced(s, h) && !AnyRelated(s.pend, h)
    && forall id: nat :: id in s.workers ==>
         !s.workers[id].Equals(h) && !IsHeavier(s.workers[id], h) && h.parents != s.workers[id].cids
  }

  /** Exactly when the best deferred target is started: some other worker must still be active. */
  lemma DeferredServedIff(s: State, k: nat, h: TipSet, s': State, out: Option<TipSet>)
    requires Queues(s) && IsPop(s.deferred, k, h) && Unblocked(s, h) && SelectDeferred(s, s', out)
    ensures out == Some(h) <==> s.workers != map[]
    ensures s.workers == map[] ==> s'.deferred == []
  {
    var k': nat, h': TipSet :|
      IsPop(s.deferred, k', h') && Consider(s.(deferred := Without(s.deferred, k')), h', s', out);
    PopUnique(s.deferred, k, h, k', h');
    if s.workers == map[] {
      IdleQueues(s);
      SelectDeferredIdle(s, s', out);
    } else {
      var mid := s.(deferred := Without(s.deferred, k));
      assert !RecentlySynced(mid, h);
      var id: nat :| id in mid.workers && Against(mid, h, mid.workers[id], s', out);
    }
  }

  lemma PopUnique(bs: seq<Bucket>, k: nat, h: TipSet, k': nat, h': TipSet)
    requires IsPop(bs, k, h) && IsPop(bs, k', h')
    ensures k == k' && h == h'
  {
    HeaviestIsMember(bs[k].tips, h);
    HeaviestIsMember(bs[k'].tips, h');
    assert AtMost(bs[k], h'.weight) && AtMost(bs[k'], h.weight);
    assert (k < k' ==> Lighter(bs[k], h'.weight)) && (k' < k ==> Lighter(bs[k'], h.weight));
  }

  /** A run in which a fork heavier than anything ever synced is deferred and then dropped. */
  lemma DroppedForkRun(a: TipSet, f: TipSet) returns (states: seq<State>, events: seq<Event>)
    requires f.weight > a.weight && !Related(a, f)
    ensures IsRun(1, states, events) && |events| == 3
    ensures states[2].deferred == [Bucket([f])]
    ensures states[3].workers == map[] && states[3].deferred == []
    ensures !RecentlySynced(states[3], f)
  {
    var s1 := Spawn(Initial.(heads := None), Some(a));
    var s2 := s1.(deferred := [Bucket([f])]);
    var s3 := Finish(s2, 0, true, true).(deferred := []);
    events := [PeerHead("p", a), PeerHead("p", f), WorkerDone(0, true, true)];
    states := [Initial, s1, s2, s3];
    FirstHeadSpawns(a);
    ForkIsDeferred(s1, a, f);
    ForkIsDropped(s2, a, f);
  }

  lemma FirstHeadSpawns(a: TipSet)
    ensures Step(1, Initial, PeerHead("p", a), Spawn(Initial.(heads := None), Some(a)))
  {
  }

  lemma ForkIsDeferred(s: State, a: TipSet, f: TipSet)
    requires f.weight > a.weight && !Related(a, f)
    requires s == Spawn(Initial.(heads := None), Some(a))
    ensures Step(1, s, PeerHead("p", f), s.(deferred := [Bucket([f])]))
  {
    var s' := s.(deferred := [Bucket([f])]);
    assert s.workers == map[0 := a] && 0 in s.workers;
    assert Inserted([], f) == [Bucket([f])];
    assert AddTarget(s, f, s', None);
    assert s' == Spawn(s', None);
  }

  lemma ForkIsDropped(s: State, a: TipSet, f: TipSet)
    requires f.weight > a.weight && !Related(a, f)
    requires s == Spawn(Initial.(heads := None), Some(a)).(deferred := [Bucket([f])])
    ensures Step(1, s, WorkerDone(0, true, true), Finish(s, 0, true, true).(deferred := []))
    ensures !RecentlySynced(Finish(s, 0, true, true), f)
  {
    var fin := Finish(s, 0, true, true);
    var s' := fin.(deferred := []);
    assert fin.workers == map[] && fin.synced == [a] && Newest([a], RECENT_SYNC_BUFFER_SIZE) == [a];
    assert FirstMax([f], 0);
    assert IsPop(fin.deferred, 0, f);
    assert Without(fin.deferred, 0) == [];
    assert Consider(s', f, s', None);
    assert SelectNext(fin, a, s', None);
    assert s' == Spawn(s', None);
  }
}
