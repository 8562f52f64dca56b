/** The write-back blockstore as a system of interleaved atomic steps: puts, the flusher's steps under
    its own lock, and a reader that looks at three moments. */
module Autobatch {
  import opened Blocks

  /** The same blocks twice: in the order they came, and by cid. */
  datatype Batch = Batch(list: seq<Block>, blocks: map<Cid, Block>)

  const NoBlocks: Batch := Batch([], map[])

  /** Where the holder of doFlushLock is. taken: the cids added when the current batch was taken. */
  datatype Phase =
    | Free
    | Retrying(retryOnly: bool)              // PutMany of a batch that failed before
    | Deciding(retryOnly: bool)              // before the check whether to bail out
    | Writing(taken: set<Cid>)               // PutMany of the batch just taken
    | Clearing(taken: set<Cid>)              // it succeeded; the batch is about to be reset

  datatype State = State(
    backing: map<Cid, Block>,
    added: set<Cid>,
    buffered: Batch,
    flushing: Batch,
    flushErr: bool,
    phase: Phase,
    flushed: set<Cid>)                       // cids of batches that are done with

  datatype Action =
    | Put(b: Block)
    | Lock(retryOnly: bool)                  // a call of doFlush gets doFlushLock
    | Write(b: Block)                        // PutMany in progress writes one block
    | PutManyReturns(ok: bool)
    | Bail                                   // return flushErr: failed again, or only retrying
    | Take
    | Clear                                  // reset the batch and return nil

  function Initial(backing: map<Cid, Block>): State {
    State(backing, {}, NoBlocks, NoBlocks, false, Free, {})
  }

  // ---------------------------------------------------------------- steps

  function Append(batch: Batch, b: Block): Batch {
    Batch(batch.list + [b], batch.blocks[b.cid := b])
  }

  function Added(s: State, b: Block): State {
    if b.cid in s.added then s
    else s.(added := s.added + {b.cid}, buffered := Append(s.buffered, b))
  }

  predicate AllWritten(s: State) {
    forall i :: 0 <= i < |s.flushing.list| ==>
      s.flushing.list[i].cid in s.backing && s.backing[s.flushing.list[i].cid] == s.flushing.list[i]
  }

  ghost predicate Next(s: State, a: Action, s': State) {
    match a
    case Put(b) => s' == Added(s, b)
    case Lock(retryOnly) =>
      s.phase == Free && s' == s.(phase := if s.flushErr then Retrying(retryOnly) else Deciding(retryOnly))
    case Write(b) =>
      (s.phase.Retrying? || s.phase.Writing?) && b in s.flushing.list && s' == s.(backing := s.backing[b.cid := b])
    case PutManyReturns(ok) =>
      // whatever was written, an error may be reported; success only when everything was written
      && (ok ==> AllWritten(s))
      && (match s.phase
          case Retrying(retryOnly) => s' == s.(flushErr := !ok, phase := Deciding(retryOnly))
          case Writing(taken) => s' == s.(flushErr := !ok, phase := if ok then Clearing(taken) else Free)
          case _ => false)
    case Bail => s.phase.Deciding? && (s.phase.retryOnly || s.flushErr) && s' == s.(phase := Free)
    case Take =>
      && s.phase.Deciding? && !s.phase.retryOnly && !s.flushErr
      && s' == s.(flushing := s.buffered, buffered := NoBlocks, phase := Writing(s.added),
                  flushed := s.flushed + s.flushing.blocks.Keys)
    case Clear =>
      s.phase.Clearing? && s' == s.(flushing := NoBlocks, phase := Free, flushed := s.flushed + s.flushing.blocks.Keys)
  }

  ghost predicate SoundMap(content: Content, m: map<Cid, Block>) {
    forall c :: c in m ==> m[c].cid == c && Sound(content, m[c])
  }

  /** Any interleaving of puts with the steps of any number of flush calls, any failures. */
  ghost predicate IsRun(content: Content, states: seq<State>, actions: seq<Action>) {
    && |states| == |actions| + 1
    && SoundMap(content, states[0].backing) && states[0] == Initial(states[0].backing)
    && (forall i :: 0 <= i < |actions| ==> Next(states[i], actions[i], states[i + 1]))
    && (forall i :: 0 <= i < |actions| && actions[i].Put? ==> Sound(content, actions[i].b))
  }

  // ---------------------------------------------------------------- invariant

  ghost predicate NoRepeats(list: seq<Block>) {
    forall i, j :: 0 <= i < j < |list| ==> list[i].cid != list[j].cid
  }

  /** List and map of a batch hold the same blocks, each once. */
  ghost predicate BatchOk(batch: Batch) {
    && NoRepeats(batch.list)
    && (forall i :: 0 <= i < |batch.list| ==>
          batch.list[i].cid in batch.blocks && batch.blocks[batch.list[i].cid] == batch.list[i])
    && (forall c :: c in batch.blocks ==> exists i :: 0 <= i < |batch.list| && batch.list[i].cid == c)
  }

  /** Every added cid is in exactly one place: buffered, being flushed, or done with and backed. */
  ghost predicate Partitioned(s: State) {
    && s.added == s.buffered.blocks.Keys + s.flushing.blocks.Keys + s.flushed
    && s.buffered.blocks.Keys !! s.flushing.blocks.Keys
    && s.buffered.blocks.Keys !! s.flushed
    && s.flushing.blocks.Keys !! s.flushed
    && s.flushed <= s.backing.Keys
  }

  ghost predicate Inv(content: Content, s: State) {
    && SoundMap(content, s.backing) && SoundMap(content, s.buffered.blocks) && SoundMap(content, s.flushing.blocks)
    && BatchOk(s.buffered) && BatchOk(s.flushing)
    && Partitioned(s)
    && (!s.flushErr && (s.phase.Free? || s.phase.Deciding? || s.phase.Clearing?) ==> AllWritten(s))
    && (s.phase.Retrying? ==> s.flushErr) && (s.phase.Writing? || s.phase.Clearing? ==> !s.flushErr)
    && (s.phase.Writing? || s.phase.Clearing? ==>
          s.phase.taken <= s.flushing.blocks.Keys + s.flushed)
  }

  lemma FlushingBacked(s: State)
    requires BatchOk(s.flushing) && AllWritten(s)
    ensures s.flushing.blocks.Keys <= s.backing.Keys
  {
  }

  /** At the end of a successful flush everything added before its take is backed. */
  lemma TakenIsBacked(content: Content, s: State)
    requires Inv(content, s) && s.phase.Clearing?
    ensures s.phase.taken <= s.backing.Keys
  {
  }

  lemma AppendOk(batch: Batch, b: Block)
    requires BatchOk(batch) && b.cid !in batch.blocks
    ensures BatchOk(Append(batch, b))
  {
    var batch' := Append(batch, b);
    assert batch'.list[|batch.list|] == b;
    forall c | c in batch'.blocks
      ensures exists i :: 0 <= i < |batch'.list| && batch'.list[i].cid == c
    {
      if c != b.cid {
        var i :| 0 <= i < |batch.list| && batch.list[i].cid == c;
        assert batch'.list[i].cid == c;
      }
    }
  }

  lemma PutKeepsInv(content: Content, s: State, b: Block)
    requires Inv(content, s) && Sound(content, b)
    ensures Inv(content, Added(s, b))
  {
    if b.cid !in s.added {
      AppendOk(s.buffered, b);
      assert Added(s, b).buffered.blocks.Keys == s.buffered.blocks.Keys + {b.cid};
    }
  }

  lemma WriteKeepsInv(content: Content, s: State, b: Block, s': State)
    requires Inv(content, s) && Next(s, Write(b), s')
    ensures Inv(content, s')
  {
  }

  lemma NextKeepsInv(content: Content, s: State, a: Action, s': State)
    requires Inv(content, s) && Next(s, a, s') && (a.Put? ==> Sound(content, a.b))
    ensures Inv(content, s')
  {
    match a
    case Put(b) => PutKeepsInv(content, s, b);
    case Write(b) => WriteKeepsInv(content, s, b, s');
    case Take => FlushingBacked(s);
    case Clear => FlushingBacked(s);
    case _ =>
  }

  lemma {:induction false} RunInv(content: Content, states: seq<State>, actions: seq<Action>, i: nat)
    requires IsRun(content, states, actions) && i < |states|
    ensures Inv(content, states[i])
  {
    if i > 0 {
      RunInv(content, states, actions, i - 1);
      NextKeepsInv(content, states[i - 1], actions[i - 1], states[i]);
    }
  }

  // ---------------------------------------------------------------- linearizability

  /** The map the store stands for. */
  function Contents(s: State): map<Cid, Block> {
    s.backing + s.flushing.blocks + s.buffered.blocks
  }

  lemma SoundContents(content: Content, s: State)
    requires Inv(content, s)
    ensures SoundMap(content, Contents(s))
  {
  }

  lemma SoundMapsAgree(content: Content, m: map<Cid, Block>, m': map<Cid, Block>)
    requires SoundMap(content, m) && SoundMap(content, m') && m.Keys == m'.Keys
    ensures m == m'
  {
  }

  lemma PutKeys(s: State, b: Block)
    requires Partitioned(s)
    ensures Contents(Added(s, b)).Keys == Contents(s).Keys + {b.cid}
  {
  }

  lemma OtherKeys(s: State, a: Action, s': State)
    requires BatchOk(s.flushing) && Next(s, a, s') && !a.Put?
    requires a.Take? || a.Clear? ==> AllWritten(s)
    ensures Contents(s').Keys == Contents(s).Keys
  {
  }

  /** What an action does to a plain map. */
  function MapStep(m: map<Cid, Block>, a: Action): map<Cid, Block> {
    if a.Put? then m[a.b.cid := a.b] else m
  }

  function PlainMap(m: map<Cid, Block>, actions: seq<Action>): map<Cid, Block> {
    if actions == [] then m else MapStep(PlainMap(m, actions[..|actions| - 1]), actions[|actions| - 1])
  }

  lemma PutIsMapStep(content: Content, s: State, b: Block)
    requires Inv(content, s) && Sound(content, b)
    ensures Contents(Added(s, b)) == Contents(s)[b.cid := b]
  {
    var m, m' := Contents(s)[b.cid := b], Contents(Added(s, b));
    assert SoundMap(content, m) by {
      SoundContents(content, s);
    }
    assert SoundMap(content, m') by {
      PutKeepsInv(content, s, b);
      SoundContents(content, Added(s, b));
    }
    assert m'.Keys == m.Keys by {
      PutKeys(s, b);
    }
    SoundMapsAgree(content, m, m');
  }

  lemma OtherStepKeepsContents(content: Content, s: State, a: Action, s': State)
    requires Inv(content, s) && Next(s, a, s') && !a.Put?
    ensures Contents(s') == Contents(s)
  {
    assert SoundMap(content, Contents(s)) by {
      SoundContents(content, s);
    }
    assert SoundMap(content, Contents(s')) by {
      NextKeepsInv(content, s, a, s');
      SoundContents(content, s');
    }
    OtherKeys(s, a, s');
    SoundMapsAgree(content, Contents(s'), Contents(s));
  }

  /** The contents change at a put, as a plain map would, and at no other step. */
  lemma StepIsMapStep(content: Content, s: State, a: Action, s': State)
    requires Inv(content, s) && Next(s, a, s') && (a.Put? ==> Sound(content, a.b))
    ensures Contents(s') == MapStep(Contents(s), a)
  {
    if a.Put? {
      PutIsMapStep(content, s, a.b);
    } else {
      OtherStepKeepsContents(content, s, a, s');
    }
  }

  lemma RunMapStep(content: Content, states: seq<State>, actions: seq<Action>, n: nat)
    requires IsRun(content, states, actions) && n < |actions|
    ensures Contents(states[n + 1]) == MapStep(Contents(states[n]), actions[n])
  {
    RunInv(content, states, actions, n);
    StepIsMapStep(content, states[n], actions[n], states[n + 1]);
  }

  lemma PlainMapSnoc(m: map<Cid, Block>, actions: seq<Action>, n: nat)
    requires n < |actions|
    ensures PlainMap(m, actions[..n + 1]) == MapStep(PlainMap(m, actions[..n]), actions[n])
  {
    assert actions[..n + 1][..n] == actions[..n];
  }

  /** After any run the store stands for the plain map that saw only its puts. */
  lemma {:induction false} RunRefinesMap(content: Content, states: seq<State>, actions: seq<Action>, n: nat)
    requires IsRun(content, states, actions) && n < |states|
    ensures Contents(states[n]) == PlainMap(states[0].backing, actions[..n])
  {
    if n == 0 {
      assert Contents(states[0]) == states[0].backing;
    } else {
      RunRefinesMap(content, states, actions, n - 1);
      RunMapStep(content, states, actions, n - 1);
      PlainMapSnoc(states[0].backing, actions, n - 1);
    }
  }

  datatype Reply = Found(b: Block) | NotFound

  function Lookup(m: map<Cid, Block>, c: Cid): Reply {
    if c in m then Found(m[c]) else NotFound
  }

  /** Get: the backing store at one moment, both batches together at a later one, the backing store
      again at a still later one. */
  function Get(first: State, locked: State, last: State, c: Cid): Reply {
    if c in first.backing then Found(first.backing[c])
    else if c in locked.flushing.blocks then Found(locked.flushing.blocks[c])
    else if c in locked.buffered.blocks then Found(locked.buffered.blocks[c])
    else Lookup(last.backing, c)
  }

  lemma {:induction false} BackingGrows(content: Content, states: seq<State>, actions: seq<Action>, i: nat, j: nat)
    requires IsRun(content, states, actions) && i <= j < |states|
    ensures states[i].backing.Keys <= states[j].backing.Keys
    ensures states[i].added <= states[j].added
  {
    if i < j {
      BackingGrows(content, states, actions, i, j - 1);
      assert Next(states[j - 1], actions[j - 1], states[j]);
    }
  }

  /** Linearizability: whatever happens between its three looks, a Get answers as a plain map would
      have answered at one moment during the call. */
  lemma GetLinearizes(content: Content, states: seq<State>, actions: seq<Action>, i: nat, j: nat, k: nat, c: Cid)
    requires IsRun(content, states, actions) && i <= j <= k < |states|
    ensures exists p :: i <= p <= k && Get(states[i], states[j], states[k], c) == Lookup(Contents(states[p]), c)
  {
    RunInv(content, states, actions, i);
    RunInv(content, states, actions, j);
    RunInv(content, states, actions, k);
    BackingGrows(content, states, actions, j, k);
    var r := Get(states[i], states[j], states[k], c);
    if c in states[i].backing {
      SoundLookup(content, states[i], c);
      assert r == Lookup(Contents(states[i]), c);
    } else if c in states[j].flushing.blocks || c in states[j].buffered.blocks {
      SoundLookup(content, states[j], c);
      assert r == Lookup(Contents(states[j]), c);
    } else if c in states[k].backing {
      SoundLookup(content, states[k], c);
      assert r == Lookup(Contents(states[k]), c);
    } else {
      // not in the batches at j, and not yet in the backing store at k, hence not at j
      assert r == Lookup(Contents(states[j]), c);
    }
  }

  lemma SoundLookup(content: Content, s: State, c: Cid)
    requires Inv(content, s) && c in Contents(s)
    ensures Lookup(Contents(s), c) == Found(Block(c, content(c.hash)))
    ensures c in s.backing ==> s.backing[c] == Block(c, content(c.hash))
    ensures c in s.flushing.blocks ==> s.flushing.blocks[c] == Block(c, content(c.hash))
    ensures c in s.buffered.blocks ==> s.buffered.blocks[c] == Block(c, content(c.hash))
  {
  }

  /** A block put before the locked look is found, with its data, even if it is flushed meanwhile. */
  lemma GetFindsEarlierPut(content: Content, states: seq<State>, actions: seq<Action>, p: nat, i: nat, j: nat, k: nat)
    requires IsRun(content, states, actions) && i <= j <= k < |states|
    requires p < j && actions[p].Put?
    ensures Get(states[i], states[j], states[k], actions[p].b.cid) == Found(actions[p].b)
  {
    var b := actions[p].b;
    RunInv(content, states, actions, i);
    RunInv(content, states, actions, j);
    RunInv(content, states, actions, k);
    assert Next(states[p], actions[p], states[p + 1]);
    BackingGrows(content, states, actions, p + 1, j);
    BackingGrows(content, states, actions, j, k);
    assert b.cid in states[j].added;
    assert Sound(content, b);
  }

  // ---------------------------------------------------------------- durability

  /** The flush that is writing or clearing took everything that had been added at its take step. */
  lemma {:induction false} TakenAt(content: Content, states: seq<State>, actions: seq<Action>, e: nat) returns (t: nat)
    requires IsRun(content, states, actions) && e < |states|
    requires states[e].phase.Writing? || states[e].phase.Clearing?
    ensures t < e && actions[t].Take? && states[e].phase.taken == states[t].added
    ensures forall i :: t < i <= e ==> states[i].phase.Writing? || states[i].phase.Clearing?
  {
    assert Next(states[e - 1], actions[e - 1], states[e]);
    if actions[e - 1].Take? {
      t := e - 1;
    } else {
      t := TakenAt(content, states, actions, e - 1);
    }
  }

  /** Durability: when doFlush(false) returns nil, every block put before its take step is in the
      backing store, across any partial writes, failures and retries before. */
  lemma FlushIsDurable(content: Content, states: seq<State>, actions: seq<Action>, e: nat) returns (t: nat)
    requires IsRun(content, states, actions) && e < |actions| && actions[e].Clear?
    ensures t < e && actions[t].Take?
    ensures forall i :: t < i <= e ==> states[i].phase.Writing? || states[i].phase.Clearing?
    ensures forall p :: 0 <= p < t && actions[p].Put? ==>
              actions[p].b.cid in states[e + 1].backing && states[e + 1].backing[actions[p].b.cid] == actions[p].b
  {
    assert Next(states[e], actions[e], states[e + 1]);
    RunInv(content, states, actions, e);
    RunInv(content, states, actions, e + 1);
    t := TakenAt(content, states, actions, e);
    FlushingBacked(states[e]);
    forall p | 0 <= p < t && actions[p].Put?
      ensures actions[p].b.cid in states[e + 1].backing && states[e + 1].backing[actions[p].b.cid] == actions[p].b
    {
      assert Next(states[p], actions[p], states[p + 1]);
      BackingGrows(content, states, actions, p + 1, t);
      assert actions[p].b.cid in states[t].added;
      assert Sound(content, actions[p].b);
    }
  }
}
