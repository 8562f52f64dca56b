/** iterFullTipsets: every header gets its messages and is handed to the callback, oldest first. */
module IterFullTipsets {
  import opened Wrappers
  import opened Tipsets
  import opened Messages
  import opened FetchMessages

  /** TryFillTipSet: an error, nothing, or the full tipset from the local store. */
  datatype Fill = FillError | Missing | Filled(fts: FullTipSet)

  /** The environment of one call. The store, the callback and persisting may answer differently each time. */
  datatype Env = Env(
    meta: MetaRoot,
    tryFill: (nat, TipSet) -> Fill,
    fetch: nat -> MessageExchange,        // the exchange as the i-th batch sees it
    callback: (nat, FullTipSet) -> bool,  // false: the callback failed
    persist: nat -> bool)                 // false: persisting or copying the block failed
  {
    ghost predicate Valid() {
      && (forall i, ts :: tryFill(i, ts).Filled? ==> tryFill(i, ts).fts.header == ts)
      && (forall i :: IsMessageExchange(fetch(i)))
    }
  }

  /** How many headers are fetched at once when the i-th one is not stored. */
  function BatchSize(i: nat): (n: nat)
    ensures n == if i < 127 then i + 1 else 128
  {
    var most := CONCURRENT_SYNC_REQUESTS * SYNC_REQUEST_BATCH_SIZE;
    if i < most then i + 1 else most
  }

  /** The callback has seen the oldest |calls| headers, each once and with its own messages. */
  ghost predicate SeenOldest(env: Env, headers: seq<TipSet>, calls: seq<FullTipSet>) {
    && |calls| <= |headers|
    && forall k :: 0 <= k < |calls| ==> Supplied(env, headers, |headers| - 1 - k, calls[k])
  }

  /** The messages of the i-th header: what the local store had for it, or messages that fit it, fetched in
      a batch whose oldest header the store did not have. */
  ghost predicate Supplied(env: Env, headers: seq<TipSet>, i: nat, fts: FullTipSet)
    requires i < |headers|
  {
    && fts.header == headers[i]
    && (env.tryFill(i, headers[i]) == Filled(fts) || (Fetched(env, headers[i], fts) && InBatch(env, headers, i)))
  }

  ghost predicate Fetched(env: Env, ts: TipSet, fts: FullTipSet) {
    Genuine(env.meta, fts) && exists cm :: Passes(env.meta, ts, cm) && Zipped(fts, ts, cm)
  }

  ghost predicate InBatch(env: Env, headers: seq<TipSet>, i: nat) {
    exists j: nat :: i <= j < |headers| && j < i + BatchSize(j) && env.tryFill(j, headers[j]) == Missing
  }

  /** The callback answered the first n calls with success, and what was fetched for them was persisted. */
  ghost predicate Accepted(env: Env, headers: seq<TipSet>, calls: seq<FullTipSet>, n: nat)
    requires n <= |calls| <= |headers|
  {
    forall k :: 0 <= k < n ==>
      && env.callback(k + 1, calls[k])
      && (env.tryFill(|headers| - 1 - k, headers[|headers| - 1 - k]) == Filled(calls[k]) || env.persist(k + 1))
  }

  /** Where an iteration stands: every call so far succeeded, or the last one and what followed did not. */
  ghost predicate Progress(env: Env, headers: seq<TipSet>, calls: seq<FullTipSet>, ok: bool) {
    && SeenOldest(env, headers, calls)
    && (if ok || calls == [] then Accepted(env, headers, calls, |calls|) else Accepted(env, headers, calls, |calls| - 1))
  }

  /** Another call is made; whether it and what follows succeed is yet to be seen. */
  lemma CalledOnceMore(env: Env, headers: seq<TipSet>, calls: seq<FullTipSet>, fts: FullTipSet)
    requires |calls| < |headers| && Progress(env, headers, calls, true)
    requires Supplied(env, headers, |headers| - 1 - |calls|, fts)
    ensures Progress(env, headers, calls + [fts], false)
    ensures env.callback(|calls| + 1, fts)
            && (env.persist(|calls| + 1) || env.tryFill(|headers| - 1 - |calls|, fts.header) == Filled(fts)) ==>
              Progress(env, headers, calls + [fts], true)
  {
  }

  /** Nothing goes wrong: no errors, and for all tipsets among the headers peers have the messages. */
  ghost predicate Smooth(env: Env, headers: seq<TipSet>) {
    && (forall i, ts :: env.tryFill(i, ts) != FillError)
    && (forall i, fts :: env.callback(i, fts)) && (forall i :: env.persist(i))
    && forall i, c: nat, tss {:trigger Outcome(env.meta, env.fetch(i), c, tss, 0)} ::
         tss != [] && (forall t :: t in tss ==> t in headers) ==> Outcome(env.meta, env.fetch(i), c, tss, 0).Answer?
  }

  /** The calls from the one at from on were made with this batch, from its end to its start. */
  ghost predicate FromBatch(headers: seq<TipSet>, calls: seq<FullTipSet>, from: nat, bstout: seq<Compacted>) {
    && from <= |calls| <= |headers| && |calls| <= from + |bstout|
    && forall j: nat :: j < |calls| ==> MadeWith(headers, calls, from, bstout, j)
  }

  ghost predicate MadeWith(headers: seq<TipSet>, calls: seq<FullTipSet>, from: nat, bstout: seq<Compacted>, j: nat)
    requires j < |calls| <= |headers| && |calls| <= from + |bstout|
  {
    from <= j ==> Zipped(calls[j], headers[|headers| - 1 - j], bstout[|bstout| - 1 - (j - from)])
  }

  lemma FromBatchOn(headers: seq<TipSet>, calls: seq<FullTipSet>, from: nat, bstout: seq<Compacted>, fts: FullTipSet)
    requires FromBatch(headers, calls, from, bstout) && |calls| < |headers| && |calls| < from + |bstout|
    requires Zipped(fts, headers[|headers| - 1 - |calls|], bstout[|bstout| - 1 - (|calls| - from)])
    ensures FromBatch(headers, calls + [fts], from, bstout)
  {
    forall j: nat | j < |calls| + 1
      ensures MadeWith(headers, calls + [fts], from, bstout, j)
    {
      assert j < |calls| ==> MadeWith(headers, calls, from, bstout, j);
    }
  }

  /** Messages that fit the headers of the batch that ends at i, which the store did not have. */
  ghost predicate BatchFor(env: Env, headers: seq<TipSet>, i: nat, bstout: seq<Compacted>) {
    && i < |headers| && |bstout| == BatchSize(i) && env.tryFill(i, headers[i]) == Missing
    && forall k: nat :: k < |bstout| ==> FitsAt(env.meta, headers, i, bstout, k)
  }

  /** The messages k places before the end of the batch that ends at i fit the header k places before i. */
  ghost predicate FitsAt(meta: MetaRoot, headers: seq<TipSet>, i: nat, bstout: seq<Compacted>, k: nat) {
    k < |bstout| && k <= i < |headers| && Passes(meta, headers[i - k], bstout[|bstout| - 1 - k])
  }

  lemma GoodBatch(env: Env, headers: seq<TipSet>, i: nat, bstout: seq<Compacted>)
    requires i < |headers| && |bstout| == BatchSize(i) && env.tryFill(i, headers[i]) == Missing
    requires Good(env.meta, headers[i + 1 - |bstout|..i + 1], bstout)
    ensures BatchFor(env, headers, i, bstout)
  {
    var part := headers[i + 1 - |bstout|..i + 1];
    forall k: nat | k < |bstout|
      ensures FitsAt(env.meta, headers, i, bstout, k)
    {
      assert part[|bstout| - 1 - k] == headers[i - k];
    }
  }

  /** Where the next header of the batch is, with n calls made, the first with this batch after from. */
  lemma NextInBatch(env: Env, headers: seq<TipSet>, i: nat, bstout: seq<Compacted>, from: nat, n: nat)
    requires BatchFor(env, headers, i, bstout) && from == |headers| - 1 - i && from <= n < from + |bstout|
    ensures n < |headers| && InBatch(env, headers, |headers| - 1 - n) && headers[|headers| - 1 - n].WellFormed()
    ensures Passes(env.meta, headers[|headers| - 1 - n], bstout[|bstout| - 1 - (n - from)])
  {
    assert FitsAt(env.meta, headers, i, bstout, n - from);
  }

  /** Hands the next header, with messages that fit it, to the callback and persists them. */
  method HandOver(env: Env, headers: seq<TipSet>, before: seq<FullTipSet>, ts: TipSet, bstip: Compacted)
    returns (ok: bool, fts: FullTipSet)
    requires env.Valid() && |before| < |headers| && Progress(env, headers, before, true)
    requires ts == headers[|headers| - 1 - |before|] && InBatch(env, headers, |headers| - 1 - |before|)
    requires ts.WellFormed() && Passes(env.meta, ts, bstip)
    ensures Zipped(fts, ts, bstip) && Progress(env, headers, before + [fts], ok)
    ensures Smooth(env, headers) ==> ok
  {
    var zipped := Zip(env.meta, ts, bstip);  // cannot fail: the messages were checked when they came
    fts := zipped.value;
    assert Fetched(env, ts, fts);
    CalledOnceMore(env, headers, before, fts);
    if !env.callback(|before| + 1, fts) {
      return false, fts;
    }
    return env.persist(|before| + 1), fts;
  }

  /** Hands over the next header of the batch. */
  method DeliverOne(env: Env, headers: seq<TipSet>, before: seq<FullTipSet>, i: nat, bstout: seq<Compacted>)
    returns (ok: bool, calls: seq<FullTipSet>)
    requires env.Valid() && BatchFor(env, headers, i, bstout)
    requires Progress(env, headers, before, true) && FromBatch(headers, before, |headers| - 1 - i, bstout)
    requires |before| < |headers| - 1 - i + |bstout|
    ensures before <= calls && |calls| == |before| + 1
    ensures Progress(env, headers, calls, ok) && FromBatch(headers, calls, |headers| - 1 - i, bstout)
    ensures Smooth(env, headers) ==> ok
  {
    var from := |headers| - 1 - i;
    NextInBatch(env, headers, i, bstout, from, |before|);
    var fts;
    ok, fts := HandOver(env, headers, before, headers[|headers| - 1 - |before|], bstout[|bstout| - 1 - (|before| - from)]);
    FromBatchOn(headers, before, from, bstout, fts);
    calls := before + [fts];
  }

  /** Hands the fetched batch that ends at i to the callback, from its end to its start. */
  method DeliverBatch(env: Env, headers: seq<TipSet>, before: seq<FullTipSet>, i: nat, bstout: seq<Compacted>)
    returns (ok: bool, calls: seq<FullTipSet>)
    requires env.Valid() && BatchFor(env, headers, i, bstout)
    requires |before| == |headers| - 1 - i && Progress(env, headers, before, true)
    ensures before <= calls && Progress(env, headers, calls, ok) && FromBatch(headers, calls, |before|, bstout)
    ensures ok ==> |calls| == |before| + |bstout|
    ensures Smooth(env, headers) ==> ok
  {
    calls := before;
    for bsi := 0 to |bstout|
      invariant before <= calls && |calls| == |before| + bsi
      invariant Progress(env, headers, calls, true) && FromBatch(headers, calls, |before|, bstout)
    {
      ok, calls := DeliverOne(env, headers, calls, i, bstout);
      if !ok {
        return;
      }
    }
    return true, calls;
  }

  lemma SmoothFetch(env: Env, headers: seq<TipSet>, part: seq<TipSet>, i: nat)
    requires env.Valid() && forall t :: t in part ==> t in headers
    ensures Smooth(env, headers) ==>
              !SomeFaults(env.meta, env.fetch(i), part) && !SomeRefused(env.meta, env.fetch(i), part)
  {
    if Smooth(env, headers) {
      forall c: nat | c < ChunkCount(|part|)
        ensures !Faults(env.meta, env.fetch(i), c, ChunkTips(part, c)) && !Refused(env.meta, env.fetch(i), c, ChunkTips(part, c))
      {
        var tss := ChunkTips(part, c);
        assert forall t :: t in tss ==> t in part;
        OutcomeIff(env.meta, env.fetch(i), c, tss);
      }
    }
  }

  /** Fetches the messages of the batch that ends at i and hands it over. */
  method FetchBatch(env: Env, headers: seq<TipSet>, before: seq<FullTipSet>, i: nat)
    returns (ok: bool, calls: seq<FullTipSet>)
    requires env.Valid() && forall i :: 0 <= i < |headers| ==> headers[i].WellFormed()
    requires i < |headers| && |before| == |headers| - 1 - i && Progress(env, headers, before, true)
    requires env.tryFill(i, headers[i]) == Missing
    ensures before <= calls && Progress(env, headers, calls, ok)
    ensures ok ==> |calls| == |before| + BatchSize(i)
    ensures Smooth(env, headers) ==> ok
  {
    var startOffset := i + 1 - BatchSize(i);
    var part := headers[startOffset..startOffset + BatchSize(i)];
    assert forall k :: 0 <= k < |part| ==> part[k] == headers[startOffset + k];
    var bstout := FetchMessages.FetchMessages(env.meta, env.fetch(i), part);
    if !bstout.Messages? {
      SmoothFetch(env, headers, part, i);
      return false, before;
    }
    GoodBatch(env, headers, i, bstout.msgs);
    ok, calls := DeliverBatch(env, headers, before, i, bstout.msgs);
  }

  /** On success the callback ran exactly once per header, oldest first, and accepted every one; on failure
      it ran on a prefix of that and accepted all but the last. */
  method Iterate(env: Env, headers: seq<TipSet>) returns (ok: bool, calls: seq<FullTipSet>)
    requires env.Valid() && forall i :: 0 <= i < |headers| ==> headers[i].WellFormed()
    ensures Progress(env, headers, calls, ok)
    ensures ok ==> |calls| == |headers|
    ensures Smooth(env, headers) ==> ok
  {
    calls := [];
    var i := |headers| - 1;
    while i >= 0
      invariant -1 <= i < |headers| && |calls| == |headers| - 1 - i
      invariant Progress(env, headers, calls, true)
    {
      var fill := env.tryFill(i, headers[i]);
      match fill
      case FillError => return false, calls;
      case Filled(fts) =>
        assert Supplied(env, headers, i, fts);
        CalledOnceMore(env, headers, calls, fts);
        calls := calls + [fts];
        if !env.callback(|calls|, fts) {
          return false, calls;
        }
        i := i - 1;
      case Missing =>
        var batchSize := BatchSize(i);
        ok, calls := FetchBatch(env, headers, calls, i);
        if !ok {
          return;
        }
        i := i - batchSize;
    }
    return true, calls;
  }

  /** The store holds only messages that fit their headers. */
  ghost predicate StoreGenuine(env: Env) {
    forall i, ts :: env.tryFill(i, ts).Filled? ==> Genuine(env.meta, env.tryFill(i, ts).fts)
  }

  /** Whatever the stores held and the peers answered, two iterations over the same headers hand over the
      same messages for every header, block by block: those that the header determines. */
  lemma DeliveryDetermined(env: Env, env': Env, headers: seq<TipSet>, calls: seq<FullTipSet>, calls': seq<FullTipSet>,
                           k: nat, b: nat)
    requires env.meta == env'.meta && Injective(env.meta) && StoreGenuine(env) && StoreGenuine(env')
    requires SeenOldest(env, headers, calls) && SeenOldest(env', headers, calls') && k < |calls| && k < |calls'|
    requires b < |calls[k].header.cids|
    ensures Genuine(env.meta, calls[k]) && Genuine(env.meta, calls'[k]) && calls[k].header == calls'[k].header
    ensures Cids(calls[k].bls[b]) == Cids(calls'[k].bls[b]) && Cids(calls[k].secpk[b]) == Cids(calls'[k].secpk[b])
  {
    assert Supplied(env, headers, |headers| - 1 - k, calls[k]) && Supplied(env', headers, |headers| - 1 - k, calls'[k]);
    GenuineDetermined(env.meta, calls[k], calls'[k], b);
  }
}
