/** fetchMessages: one goroutine per chunk of tipsets, all writing into one batch. */
module FetchMessages {
  import opened Wrappers
  import opened Tipsets
  import opened Messages

  const SYNC_REQUEST_BATCH_SIZE: nat := 8
  const SYNC_REQUEST_RETRIES: nat := 5
  const CONCURRENT_SYNC_REQUESTS: nat := 16

  datatype Status = Running | Done | Failed

  /** What the goroutines share, and for each slot how often it was written. */
  datatype Fetch = Fetch(batch: seq<Option<Compacted>>, chunks: seq<Status>, failed: bool, writes: seq<nat>)

  function Start(c: nat): nat { SYNC_REQUEST_BATCH_SIZE * c }

  function Size(n: nat, c: nat): nat
    requires Start(c) <= n
  {
    if Start(c) + SYNC_REQUEST_BATCH_SIZE > n then n - Start(c) else SYNC_REQUEST_BATCH_SIZE
  }

  function ChunkOf(slot: nat): nat { slot / SYNC_REQUEST_BATCH_SIZE }

  function ChunkCount(n: nat): nat { (n + SYNC_REQUEST_BATCH_SIZE - 1) / SYNC_REQUEST_BATCH_SIZE }

  function Init(n: nat): Fetch {
    Fetch(seq(n, _ => None), seq(ChunkCount(n), _ => Running), false, seq(n, _ => 0))
  }

  /** Chunks are of eight tipsets, the last one of what is left, and together they are all of them. */
  lemma ChunkLayout(n: nat, c: nat)
    requires c < ChunkCount(n)
    ensures Start(c) == 8 * c && 0 < Size(n, c) <= 8
    ensures c + 1 < ChunkCount(n) ==> Size(n, c) == 8
    ensures c + 1 == ChunkCount(n) ==> Start(c) + Size(n, c) == n
    ensures forall i: nat :: i < n && ChunkOf(i) == c <==> Start(c) <= i < Start(c) + Size(n, c)
  {
  }

  /** A chunk whose request was answered and checked writes its slots, under the mutex. */
  ghost predicate Commit(meta: MetaRoot, headers: seq<TipSet>, s: Fetch, c: nat, answer: seq<Compacted>, s': Fetch) {
    && c < |s.chunks| && s.chunks[c] == Running && Start(c) <= |headers|
    && |answer| == Size(|headers|, c) && |s.batch| == |headers| == |s.writes|
    && (forall k :: 0 <= k < |answer| ==> Passes(meta, headers[Start(c) + k], answer[k]))
    && s'.chunks == s.chunks[c := Done] && s'.failed == s.failed
    && |s'.batch| == |s'.writes| == |headers|
    && forall i: nat :: i < |headers| ==>
         if Start(c) <= i < Start(c) + |answer|
         then s'.batch[i] == Some(answer[i - Start(c)]) && s'.writes[i] == s.writes[i] + 1
         else s'.batch[i] == s.batch[i] && s'.writes[i] == s.writes[i]
  }

  /** A chunk that got no good answer in all its tries reports the error and stops. */
  ghost predicate GiveUp(s: Fetch, c: nat, s': Fetch) {
    c < |s.chunks| && s.chunks[c] == Running && s' == s.(chunks := s.chunks[c := Failed], failed := true)
  }

  ghost predicate Step(meta: MetaRoot, headers: seq<TipSet>, s: Fetch, s': Fetch) {
    || (exists c: nat :: GiveUp(s, c, s'))
    || (exists c: nat, answer :: Commit(meta, headers, s, c, answer, s'))
  }

  /** Any interleaving of the chunks. */
  ghost predicate IsRun(meta: MetaRoot, headers: seq<TipSet>, run: seq<Fetch>) {
    && run != [] && run[0] == Init(|headers|)
    && forall i :: 0 < i < |run| ==> Step(meta, headers, run[i - 1], run[i])
  }

  ghost predicate AllStopped(s: Fetch) {
    forall c :: 0 <= c < |s.chunks| ==> s.chunks[c] != Running
  }

  /** The state of a slot follows from the state of its chunk. */
  ghost predicate SlotOk(meta: MetaRoot, headers: seq<TipSet>, s: Fetch, i: nat)
    requires i < |headers| && i < |s.batch| && i < |s.writes| && ChunkOf(i) < |s.chunks|
  {
    if s.chunks[ChunkOf(i)] == Done
    then s.batch[i].Some? && Passes(meta, headers[i], s.batch[i].value) && s.writes[i] == 1
    else s.batch[i].None? && s.writes[i] == 0
  }

  ghost predicate Inv(meta: MetaRoot, headers: seq<TipSet>, s: Fetch) {
    && |s.batch| == |headers| == |s.writes| && |s.chunks| == ChunkCount(|headers|)
    && (forall i: nat :: i < |headers| ==> SlotOk(meta, headers, s, i))
    && (s.failed <==> exists c :: 0 <= c < |s.chunks| && s.chunks[c] == Failed)
  }

  lemma CommitKeepsInv(meta: MetaRoot, headers: seq<TipSet>, s: Fetch, c: nat, answer: seq<Compacted>, s': Fetch)
    requires Inv(meta, headers, s) && Commit(meta, headers, s, c, answer, s')
    ensures Inv(meta, headers, s')
  {
    forall i: nat | i < |headers|
      ensures SlotOk(meta, headers, s', i)
    {
      assert SlotOk(meta, headers, s, i);
      if ChunkOf(i) == c {
        assert Passes(meta, headers[Start(c) + (i - Start(c))], answer[i - Start(c)]);
      }
    }
    if s.failed {
      var d :| 0 <= d < |s.chunks| && s.chunks[d] == Failed;
      assert s'.chunks[d] == Failed;
    }
  }

  lemma GiveUpKeepsInv(meta: MetaRoot, headers: seq<TipSet>, s: Fetch, c: nat, s': Fetch)
    requires Inv(meta, headers, s) && GiveUp(s, c, s')
    ensures Inv(meta, headers, s')
  {
    assert s'.chunks[c] == Failed;
    forall i: nat | i < |headers|
      ensures SlotOk(meta, headers, s', i)
    {
      assert SlotOk(meta, headers, s, i);
    }
  }

  lemma {:induction false} RunInv(meta: MetaRoot, headers: seq<TipSet>, run: seq<Fetch>, i: nat)
    requires IsRun(meta, headers, run) && i < |run|
    ensures Inv(meta, headers, run[i])
  {
    if i > 0 {
      RunInv(meta, headers, run, i - 1);
      var s, s' := run[i - 1], run[i];
      assert Step(meta, headers, s, s');
      if c: nat :| GiveUp(s, c, s') {
        GiveUpKeepsInv(meta, headers, s, c, s');
      } else {
        var c: nat, answer :| Commit(meta, headers, s, c, answer, s');
        CommitKeepsInv(meta, headers, s, c, answer, s');
      }
    }
  }

  /** Under every interleaving no slot is written twice; when all goroutines have ended, either an
      error was reported, or every slot was written once, with messages checked against its tipset. */
  lemma FetchedExactlyOnce(meta: MetaRoot, headers: seq<TipSet>, run: seq<Fetch>)
    requires IsRun(meta, headers, run)
    ensures var s := run[|run| - 1];
            && |s.batch| == |headers| == |s.writes|
            && (forall i :: 0 <= i < |headers| ==> s.writes[i] <= 1)
            && (AllStopped(s) && !s.failed ==>
                  forall i :: 0 <= i < |headers| ==>
                    s.writes[i] == 1 && s.batch[i].Some? && Passes(meta, headers[i], s.batch[i].value))
  {
    var s := run[|run| - 1];
    RunInv(meta, headers, run, |run| - 1);
    forall i: nat | i < |headers|
      ensures s.writes[i] <= 1
      ensures AllStopped(s) && !s.failed ==>
                s.writes[i] == 1 && s.batch[i].Some? && Passes(meta, headers[i], s.batch[i].value)
    {
      assert SlotOk(meta, headers, s, i);
      assert s.chunks[ChunkOf(i)] in s.chunks;
    }
  }

  // ---------------------------------------------------------------- the code

  /** The exchange client: answer to the try-th request of chunk c. The client accepts a shorter answer
      than requested, but not an empty or a longer one, and checks that its indices are in range. */
  type MessageExchange = (nat, nat, seq<TipSet>) -> Option<seq<Compacted>>

  ghost predicate IsMessageExchange(ex: MessageExchange) {
    forall c, try, tss {:trigger ex(c, try, tss)} :: ex(c, try, tss).Some? && tss != [] ==>
      && 0 < |ex(c, try, tss).value| <= |tss|
      && forall i :: 0 <= i < |ex(c, try, tss).value| ==> Indexed(tss[i], ex(c, try, tss).value[i])
  }

  /** Peers that answer at full length. */
  ghost predicate FullLength(ex: MessageExchange) {
    forall c, try, tss {:trigger ex(c, try, tss)} :: ex(c, try, tss).Some? ==> |ex(c, try, tss).value| == |tss|
  }

  /** What the check of an answer comes to. OutOfRange: the answer ends while its messages still fit, and
      the source indexes past its end. */
  datatype Verdict = Fits | Unfit | OutOfRange

  ghost function Judge(meta: MetaRoot, tss: seq<TipSet>, answer: seq<Compacted>): Verdict {
    if exists i :: 0 <= i < |tss| && i < |answer| && !Passes(meta, tss[i], answer[i]) then Unfit
    else if |answer| < |tss| then OutOfRange
    else Fits
  }

  method CheckAll(meta: MetaRoot, tss: seq<TipSet>, answer: seq<Compacted>) returns (v: Verdict)
    requires |answer| <= |tss|
    requires forall i :: 0 <= i < |answer| ==> tss[i].WellFormed() && Indexed(tss[i], answer[i])
    ensures v == Judge(meta, tss, answer)
  {
    for i := 0 to |tss|
      invariant i <= |answer| && forall k :: 0 <= k < i ==> Passes(meta, tss[k], answer[k])
    {
      if i == |answer| {
        return OutOfRange;
      }
      var ok := CheckMsgMeta(meta, tss[i], answer[i]);
      if !ok {
        return Unfit;
      }
    }
    return Fits;
  }

  /** How the tries of a chunk end. */
  datatype Tried = Answer(msgs: seq<Compacted>) | GaveUp | Fault

  /** The tries, counted from this one, end at the first that is answered and not unfit. */
  ghost function Outcome(meta: MetaRoot, ex: MessageExchange, c: nat, tss: seq<TipSet>, try: nat): Tried
    decreases SYNC_REQUEST_RETRIES - try
  {
    if try >= SYNC_REQUEST_RETRIES then GaveUp
    else if Undecided(meta, ex, c, tss, try) then Outcome(meta, ex, c, tss, try + 1)
    else if Judge(meta, tss, ex(c, try, tss).value) == Fits then Answer(ex(c, try, tss).value)
    else Fault
  }

  ghost predicate Undecided(meta: MetaRoot, ex: MessageExchange, c: nat, tss: seq<TipSet>, try: nat) {
    ex(c, try, tss).None? || Judge(meta, tss, ex(c, try, tss).value) == Unfit
  }

  /** Every try for these tipsets failed, or brought messages that do not fit. */
  ghost predicate Refused(meta: MetaRoot, ex: MessageExchange, c: nat, tss: seq<TipSet>) {
    forall try: nat :: try < SYNC_REQUEST_RETRIES ==> Undecided(meta, ex, c, tss, try)
  }

  /** The first try that settles it is answered with too few tipsets, all of whose messages fit. */
  ghost predicate Faults(meta: MetaRoot, ex: MessageExchange, c: nat, tss: seq<TipSet>) {
    exists try: nat ::
      && try < SYNC_REQUEST_RETRIES && Short(meta, ex, c, tss, try)
      && forall k: nat :: k < try ==> Undecided(meta, ex, c, tss, k)
  }

  ghost predicate Short(meta: MetaRoot, ex: MessageExchange, c: nat, tss: seq<TipSet>, try: nat) {
    && ex(c, try, tss).Some? && |ex(c, try, tss).value| < |tss|
    && forall i :: 0 <= i < |ex(c, try, tss).value| ==> Passes(meta, tss[i], ex(c, try, tss).value[i])
  }

  ghost predicate Good(meta: MetaRoot, tss: seq<TipSet>, answer: seq<Compacted>) {
    |answer| == |tss| && forall i :: 0 <= i < |tss| ==> Passes(meta, tss[i], answer[i])
  }

  /** The first try that is decided, if there is one, decides. */
  lemma {:induction false} OutcomeAt(meta: MetaRoot, ex: MessageExchange, c: nat, tss: seq<TipSet>, try: nat)
    returns (k: nat)
    requires try <= SYNC_REQUEST_RETRIES
    ensures try <= k <= SYNC_REQUEST_RETRIES && forall j: nat :: try <= j < k ==> Undecided(meta, ex, c, tss, j)
    ensures k < SYNC_REQUEST_RETRIES ==> !Undecided(meta, ex, c, tss, k)
    ensures Outcome(meta, ex, c, tss, try) ==
            if k == SYNC_REQUEST_RETRIES then GaveUp
            else if Judge(meta, tss, ex(c, k, tss).value) == Fits then Answer(ex(c, k, tss).value) else Fault
    decreases SYNC_REQUEST_RETRIES - try
  {
    k := try;
    if try < SYNC_REQUEST_RETRIES && Undecided(meta, ex, c, tss, try) {
      k := OutcomeAt(meta, ex, c, tss, try + 1);
    }
  }

  /** A chunk gives up exactly when it is refused throughout, indexes past an answer exactly when it faults,
      and otherwise has an answer that passes for every tipset. */
  lemma OutcomeIff(meta: MetaRoot, ex: MessageExchange, c: nat, tss: seq<TipSet>)
    requires IsMessageExchange(ex) && tss != []
    ensures Outcome(meta, ex, c, tss, 0).GaveUp? <==> Refused(meta, ex, c, tss)
    ensures Outcome(meta, ex, c, tss, 0).Fault? <==> Faults(meta, ex, c, tss)
    ensures Outcome(meta, ex, c, tss, 0).Answer? ==> Good(meta, tss, Outcome(meta, ex, c, tss, 0).msgs)
    ensures FullLength(ex) ==> !Outcome(meta, ex, c, tss, 0).Fault?
  {
    var k := OutcomeAt(meta, ex, c, tss, 0);
    if k < SYNC_REQUEST_RETRIES && Judge(meta, tss, ex(c, k, tss).value) == OutOfRange {
      assert Short(meta, ex, c, tss, k);
    }
    forall try: nat | try < SYNC_REQUEST_RETRIES && Short(meta, ex, c, tss, try)
                      && forall j: nat :: j < try ==> Undecided(meta, ex, c, tss, j)
      ensures try == k && Outcome(meta, ex, c, tss, 0).Fault?
    {
      assert !Undecided(meta, ex, c, tss, try);
    }
  }

  /** There are five tries. */
  lemma FiveTries(meta: MetaRoot, ex: MessageExchange, c: nat, tss: seq<TipSet>)
    ensures Refused(meta, ex, c, tss) <==>
              && Undecided(meta, ex, c, tss, 0) && Undecided(meta, ex, c, tss, 1) && Undecided(meta, ex, c, tss, 2)
              && Undecided(meta, ex, c, tss, 3) && Undecided(meta, ex, c, tss, 4)
  {
  }

  /** A request for two tipsets answered with one, whose messages fit, is such a fault. */
  lemma PartialAnswerFaults(meta: MetaRoot, a: TipSet, b: TipSet, cm: Compacted)
    requires Passes(meta, a, cm)
    ensures Faults(meta, (c, try, tss) => Some([cm]), 0, [a, b])
  {
    assert Short(meta, (c, try, tss) => Some([cm]), 0, [a, b], 0);
  }

  /** The tipsets of a chunk. */
  function ChunkTips(headers: seq<TipSet>, c: nat): (tss: seq<TipSet>)
    requires c < ChunkCount(|headers|)
    ensures tss != []
  {
    headers[Start(c)..Start(c) + Size(|headers|, c)]
  }

  /** The retry loop of one chunk. */
  method Request(meta: MetaRoot, ex: MessageExchange, c: nat, tss: seq<TipSet>) returns (r: Tried)
    requires IsMessageExchange(ex) && tss != [] && forall i :: 0 <= i < |tss| ==> tss[i].WellFormed()
    ensures r == Outcome(meta, ex, c, tss, 0)
  {
    for try := 0 to SYNC_REQUEST_RETRIES
      invariant Outcome(meta, ex, c, tss, 0) == Outcome(meta, ex, c, tss, try)
    {
      var result := ex(c, try, tss);
      if result.Some? {
        var v := CheckAll(meta, tss, result.value);
        if v == OutOfRange {
          return Fault;
        }
        if v == Fits {
          return Answer(result.value);
        }
      }
    }
    return GaveUp;
  }

  /** The slots of chunk c hold the answer to its request. */
  ghost predicate Served(meta: MetaRoot, ex: MessageExchange, headers: seq<TipSet>, batch: seq<Option<Compacted>>, c: nat)
    requires c < ChunkCount(|headers|) && |batch| == |headers|
  {
    var answer := Outcome(meta, ex, c, ChunkTips(headers, c), 0);
    && answer.Answer? && |answer.msgs| == Size(|headers|, c)
    && forall k :: 0 <= k < |answer.msgs| ==> batch[Start(c) + k] == Some(answer.msgs[k])
  }

  /** Writing chunk c leaves the other chunks as they are. */
  lemma ServedKept(meta: MetaRoot, ex: MessageExchange, headers: seq<TipSet>, batch: seq<Option<Compacted>>,
                   batch': seq<Option<Compacted>>, c: nat, d: nat)
    requires c < ChunkCount(|headers|) && d < ChunkCount(|headers|) && c != d
    requires |batch| == |headers| == |batch'| && Served(meta, ex, headers, batch, d)
    requires forall i :: 0 <= i < |batch| && !(Start(c) <= i < Start(c) + SYNC_REQUEST_BATCH_SIZE) ==> batch'[i] == batch[i]
    ensures Served(meta, ex, headers, batch', d)
  {
  }

  /** The shared state after chunk c has copied its answer into the batch. */
  ghost function Copied(s: Fetch, c: nat, batch: seq<Option<Compacted>>, size: nat): Fetch
    requires c < |s.chunks|
  {
    Fetch(batch, s.chunks[c := Done], s.failed,
          seq(|s.writes|, i requires 0 <= i < |s.writes| =>
            if Start(c) <= i < Start(c) + size then s.writes[i] + 1 else s.writes[i]))
  }

  lemma CopiedCommits(meta: MetaRoot, headers: seq<TipSet>, s: Fetch, c: nat, answer: seq<Compacted>,
                      batch: seq<Option<Compacted>>)
    requires c < |s.chunks| && s.chunks[c] == Running && Start(c) <= |headers| && |answer| == Size(|headers|, c)
    requires |batch| == |s.batch| == |headers| == |s.writes|
    requires var tss := headers[Start(c)..Start(c) + |answer|];
             forall k :: 0 <= k < |answer| ==> Passes(meta, tss[k], answer[k])
    requires forall i :: 0 <= i < |batch| ==>
               batch[i] == if Start(c) <= i < Start(c) + |answer| then Some(answer[i - Start(c)]) else s.batch[i]
    ensures Commit(meta, headers, s, c, answer, Copied(s, c, batch, |answer|))
  {
  }

  /** A chunk that has copied its answer has taken a step, and its slots are served. */
  lemma ChunkDone(meta: MetaRoot, ex: MessageExchange, headers: seq<TipSet>, s: Fetch, c: nat, answer: seq<Compacted>,
                  batch: seq<Option<Compacted>>)
    requires Inv(meta, headers, s) && c < |s.chunks| && s.chunks[c] == Running && IsMessageExchange(ex)
    requires Outcome(meta, ex, c, ChunkTips(headers, c), 0) == Answer(answer)
    requires |batch| == |headers| && |answer| == Size(|headers|, c)
    requires forall i :: 0 <= i < |batch| ==>
               batch[i] == if Start(c) <= i < Start(c) + |answer| then Some(answer[i - Start(c)]) else s.batch[i]
    ensures Step(meta, headers, s, Copied(s, c, batch, |answer|))
    ensures Inv(meta, headers, Copied(s, c, batch, |answer|)) && Served(meta, ex, headers, batch, c)
  {
    OutcomeIff(meta, ex, c, ChunkTips(headers, c));
    CopiedCommits(meta, headers, s, c, answer, batch);
    CommitKeepsInv(meta, headers, s, c, answer, Copied(s, c, batch, |answer|));
  }

  /** The goroutine of chunk c: ask, and write the answer into the batch or report failure. A fault ends
      it, and the process with it, before it writes anything. */
  method RunChunk(meta: MetaRoot, ex: MessageExchange, headers: seq<TipSet>, batch: array<Option<Compacted>>, c: nat,
                  ghost s: Fetch)
    returns (ok: bool, fault: bool, ghost s': Fetch)
    requires IsMessageExchange(ex) && forall i :: 0 <= i < |headers| ==> headers[i].WellFormed()
    requires Inv(meta, headers, s) && batch[..] == s.batch && c < |s.chunks| && s.chunks[c] == Running
    modifies batch
    ensures fault <==> Faults(meta, ex, c, ChunkTips(headers, c))
    ensures !fault ==> Step(meta, headers, s, s') && Inv(meta, headers, s') && batch[..] == s'.batch
    ensures !fault ==> s'.chunks == s.chunks[c := if ok then Done else Failed] && s'.failed == (s.failed || !ok)
    ensures !fault ==>
              if ok then Served(meta, ex, headers, batch[..], c) else Refused(meta, ex, c, ChunkTips(headers, c))
    ensures forall i :: 0 <= i < batch.Length && (fault || !(Start(c) <= i < Start(c) + SYNC_REQUEST_BATCH_SIZE)) ==>
              batch[i] == old(batch[i])
  {
    var answer := Request(meta, ex, c, ChunkTips(headers, c));
    OutcomeIff(meta, ex, c, ChunkTips(headers, c));
    ok, fault, s' := answer.Answer?, answer.Fault?, s;
    if ok {
      CopyInto(batch, Start(c), answer.msgs);
      s' := Copied(s, c, batch[..], |answer.msgs|);
      ChunkDone(meta, ex, headers, s, c, answer.msgs, batch[..]);
    } else if !fault {
      s' := s.(chunks := s.chunks[c := Failed], failed := true);
      assert GiveUp(s, c, s');
      GiveUpKeepsInv(meta, headers, s, c, s');
    }
  }

  lemma RunGrows(meta: MetaRoot, headers: seq<TipSet>, run: seq<Fetch>, s: Fetch)
    requires IsRun(meta, headers, run) && Step(meta, headers, run[|run| - 1], s)
    ensures IsRun(meta, headers, run + [s])
  {
  }

  lemma InitInv(meta: MetaRoot, headers: seq<TipSet>)
    ensures Inv(meta, headers, Init(|headers|)) && IsRun(meta, headers, [Init(|headers|)])
  {
  }

  /** What has become of chunk c. */
  ghost predicate ChunkOutcome(meta: MetaRoot, ex: MessageExchange, headers: seq<TipSet>, s: Fetch, c: nat)
    requires c < ChunkCount(|headers|) == |s.chunks| && |s.batch| == |headers|
  {
    match s.chunks[c]
    case Running => true
    case Done => Served(meta, ex, headers, s.batch, c)
    case Failed => Refused(meta, ex, c, ChunkTips(headers, c))
  }

  ghost predicate Outcomes(meta: MetaRoot, ex: MessageExchange, headers: seq<TipSet>, s: Fetch)
    requires Inv(meta, headers, s)
  {
    forall c: nat :: c < |s.chunks| ==> ChunkOutcome(meta, ex, headers, s, c)
  }

  lemma OutcomesKept(meta: MetaRoot, ex: MessageExchange, headers: seq<TipSet>, s: Fetch, c: nat, s': Fetch)
    requires Inv(meta, headers, s) && Inv(meta, headers, s') && Outcomes(meta, ex, headers, s)
    requires c < |s.chunks| && s'.chunks == s.chunks[c := s'.chunks[c]] && ChunkOutcome(meta, ex, headers, s', c)
    requires forall i :: 0 <= i < |s.batch| && !(Start(c) <= i < Start(c) + SYNC_REQUEST_BATCH_SIZE) ==>
               s'.batch[i] == s.batch[i]
    ensures Outcomes(meta, ex, headers, s')
  {
    forall d: nat | d < |s.chunks|
      ensures ChunkOutcome(meta, ex, headers, s', d)
    {
      assert ChunkOutcome(meta, ex, headers, s, d);
      if d != c && s.chunks[d] == Done {
        ServedKept(meta, ex, headers, s.batch, s'.batch, c, d);
      }
    }
  }

  datatype Fetched = Messages(msgs: seq<Compacted>) | FetchError | FetchFault

  ghost predicate SomeFaults(meta: MetaRoot, ex: MessageExchange, headers: seq<TipSet>) {
    exists c: nat :: c < ChunkCount(|headers|) && Faults(meta, ex, c, ChunkTips(headers, c))
  }

  ghost predicate SomeRefused(meta: MetaRoot, ex: MessageExchange, headers: seq<TipSet>) {
    exists c: nat :: c < ChunkCount(|headers|) && Refused(meta, ex, c, ChunkTips(headers, c))
  }

  /** Runs the chunks to the end in an arbitrary order. It faults exactly when some chunk does, fails
      exactly when none faults and some chunk got no good answer, and otherwise returns for each chunk the
      answer to its request. */
  method FetchMessages(meta: MetaRoot, ex: MessageExchange, headers: seq<TipSet>) returns (r: Fetched)
    requires IsMessageExchange(ex) && forall i :: 0 <= i < |headers| ==> headers[i].WellFormed()
    ensures r.FetchFault? <==> SomeFaults(meta, ex, headers)
    ensures r.FetchError? <==> !SomeFaults(meta, ex, headers) && SomeRefused(meta, ex, headers)
    ensures r.Messages? ==> Good(meta, headers, r.msgs)
    ensures r.Messages? ==> forall c: nat :: c < ChunkCount(|headers|) ==>
              Outcome(meta, ex, c, ChunkTips(headers, c), 0) == Answer(r.msgs[Start(c)..Start(c) + Size(|headers|, c)])
  {
    var n := |headers|;
    var batch := new Option<Compacted>[n](_ => None);
    var failed := false;
    var chunks := seq(ChunkCount(n), i => i);
    var running := set c | 0 <= c < |chunks| && chunks[c] == c;
    ghost var s := Init(n);
    ghost var run := [s];
    InitInv(meta, headers);
    assert batch[..] == s.batch;
    while running != {}
      invariant IsRun(meta, headers, run) && run[|run| - 1] == s && Inv(meta, headers, s)
      invariant batch[..] == s.batch && failed == s.failed
      invariant Outcomes(meta, ex, headers, s)
      invariant forall c :: c in running <==> 0 <= c < |s.chunks| && s.chunks[c] == Running
      decreases running
    {
      var c :| c in running;
      running := running - {c};
      var ok, fault;
      ghost var before := s;
      ok, fault, s := RunChunk(meta, ex, headers, batch, c, s);
      if fault {
        return FetchFault;
      }
      failed := failed || !ok;
      OutcomesKept(meta, ex, headers, before, c, s);
      RunGrows(meta, headers, run, s);
      run := run + [s];
    }
    assert AllStopped(s);
    NoneFaulted(meta, ex, headers, s);
    if failed {
      FailedMeansRefused(meta, ex, headers, s);
      return FetchError;
    }
    FetchedExactlyOnce(meta, headers, run);
    r := Messages(Unwrap(batch[..]));
    AllServed(meta, ex, headers, s, r.msgs);
  }

  /** When every chunk has stopped, none is one that faults. */
  lemma NoneFaulted(meta: MetaRoot, ex: MessageExchange, headers: seq<TipSet>, s: Fetch)
    requires IsMessageExchange(ex) && Inv(meta, headers, s) && Outcomes(meta, ex, headers, s) && AllStopped(s)
    ensures !SomeFaults(meta, ex, headers)
  {
    forall c: nat | c < ChunkCount(|headers|)
      ensures !Faults(meta, ex, c, ChunkTips(headers, c))
    {
      assert ChunkOutcome(meta, ex, headers, s, c);
      OutcomeIff(meta, ex, c, ChunkTips(headers, c));
    }
  }

  lemma FailedMeansRefused(meta: MetaRoot, ex: MessageExchange, headers: seq<TipSet>, s: Fetch)
    requires Inv(meta, headers, s) && Outcomes(meta, ex, headers, s) && s.failed
    ensures SomeRefused(meta, ex, headers)
  {
    var c: nat :| c < |s.chunks| && s.chunks[c] == Failed;
    assert ChunkOutcome(meta, ex, headers, s, c);
  }

  lemma AllServed(meta: MetaRoot, ex: MessageExchange, headers: seq<TipSet>, s: Fetch, r: seq<Compacted>)
    requires IsMessageExchange(ex) && Inv(meta, headers, s) && Outcomes(meta, ex, headers, s) && AllStopped(s) && !s.failed
    requires |r| == |headers| && forall i :: 0 <= i < |r| ==> s.batch[i] == Some(r[i])
    ensures !SomeRefused(meta, ex, headers)
    ensures forall c: nat :: c < ChunkCount(|headers|) ==>
              Outcome(meta, ex, c, ChunkTips(headers, c), 0) == Answer(r[Start(c)..Start(c) + Size(|headers|, c)])
  {
    forall c: nat | c < ChunkCount(|headers|)
      ensures !Refused(meta, ex, c, ChunkTips(headers, c))
      ensures Outcome(meta, ex, c, ChunkTips(headers, c), 0) == Answer(r[Start(c)..Start(c) + Size(|headers|, c)])
    {
      assert ChunkOutcome(meta, ex, headers, s, c) && s.chunks[c] == Done;
      OutcomeIff(meta, ex, c, ChunkTips(headers, c));
      var answer := Outcome(meta, ex, c, ChunkTips(headers, c), 0).msgs;
      assert forall k :: 0 <= k < |answer| ==> s.batch[Start(c) + k] == Some(answer[k]);
      assert answer == r[Start(c)..Start(c) + |answer|];
    }
  }

  function Unwrap(batch: seq<Option<Compacted>>): (r: seq<Compacted>)
    requires forall i :: 0 <= i < |batch| ==> batch[i].Some?
    ensures |r| == |batch| && forall i :: 0 <= i < |r| ==> batch[i] == Some(r[i])
  {
    seq(|batch|, i requires 0 <= i < |batch| => batch[i].value)
  }

  method CopyInto(batch: array<Option<Compacted>>, at: nat, answer: seq<Compacted>)
    requires at + |answer| <= batch.Length
    modifies batch
    ensures forall i :: 0 <= i < batch.Length ==>
              batch[i] == if at <= i < at + |answer| then Some(answer[i - at]) else old(batch[i])
  {
    for k := 0 to |answer|
      invariant forall i :: 0 <= i < batch.Length ==>
                  batch[i] == if at <= i < at + k then Some(answer[i - at]) else old(batch[i])
    {
      batch[at + k] := Some(answer[k]);
    }
  }
}
