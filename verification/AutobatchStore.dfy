/** AutobatchBlockstore's operations. Each atomic section is one step of the system in Autobatch.dfy,
    recorded in a ghost trace; what other threads do between the sections is passed in. */
module AutobatchStore {
  import opened Blocks
  import opened Autobatch

  /** What happens while the backing store's PutMany is at work: another thread puts a block, or a block
      of the batch gets written. */
  datatype Move = OtherPut(b: Block) | WriteAt(i: nat)

  /** How a PutMany on the backing store goes: it makes these moves, and on success then writes the whole
      batch; on failure it leaves it at that. */
  datatype PutManyPlan = PutManyPlan(moves: seq<Move>, succeeds: bool)

  /** How a call of doFlush goes; the puts are those of other threads between its sections. */
  datatype FlushPlan = FlushPlan(retry: PutManyPlan, beforeTake: seq<Block>, write: PutManyPlan, beforeClear: seq<Block>)

  ghost predicate AllSound(content: Content, bs: seq<Block>) {
    forall i :: 0 <= i < |bs| ==> Sound(content, bs[i])
  }

  ghost predicate SoundMoves(content: Content, moves: seq<Move>) {
    forall i :: 0 <= i < |moves| && moves[i].OtherPut? ==> Sound(content, moves[i].b)
  }

  ghost predicate SoundPlan(content: Content, plan: FlushPlan) {
    && SoundMoves(content, plan.retry.moves) && SoundMoves(content, plan.write.moves)
    && AllSound(content, plan.beforeTake) && AllSound(content, plan.beforeClear)
  }

  ghost predicate SoundActions(content: Content, steps: seq<Action>) {
    forall i :: 0 <= i < |steps| && steps[i].Put? ==> Sound(content, steps[i].b)
  }

  lemma RunExtends(content: Content, states: seq<State>, actions: seq<Action>, a: Action, s: State)
    requires IsRun(content, states, actions) && Next(states[|actions|], a, s) && (a.Put? ==> Sound(content, a.b))
    ensures IsRun(content, states + [s], actions + [a])
  {
  }

  /** The bytes an action adds to the buffer: those of a block put for the first time. */
  ghost function NewBytes(s: State, a: Action): nat {
    if a.Put? && a.b.cid !in s.added then |a.b.data| else 0
  }

  ghost function AddedBytes(states: seq<State>, actions: seq<Action>): nat
    requires |actions| <= |states|
  {
    if actions == [] then 0
    else
      var n := |actions| - 1;
      AddedBytes(states, actions[..n]) + NewBytes(states[n], actions[n])
  }

  ghost predicate Counted(states: seq<State>, actions: seq<Action>, size: nat) {
    |actions| <= |states| && size == AddedBytes(states, actions)
  }

  lemma {:induction false} AddedBytesStable(states: seq<State>, more: seq<State>, actions: seq<Action>)
    requires |actions| <= |states| && states <= more
    ensures AddedBytes(states, actions) == AddedBytes(more, actions)
  {
    if actions != [] {
      AddedBytesStable(states, more, actions[..|actions| - 1]);
    }
  }

  lemma AddedBytesSnoc(states: seq<State>, actions: seq<Action>, a: Action, s: State)
    requires |states| == |actions| + 1
    ensures AddedBytes(states + [s], actions + [a]) == AddedBytes(states, actions) + NewBytes(states[|actions|], a)
  {
    AddedBytesStable(states, states + [s], actions);
    assert (actions + [a])[..|actions|] == actions;
  }

  ghost predicate WrittenUpTo(list: seq<Block>, backing: map<Cid, Block>, i: nat) {
    i <= |list| && forall j :: 0 <= j < i ==> list[j].cid in backing && backing[list[j].cid] == list[j]
  }

  /** Writing one more block of the batch does not disturb those already written. */
  lemma WrittenOn(content: Content, states: seq<State>, actions: seq<Action>, list: seq<Block>,
                  backing: map<Cid, Block>, i: nat)
    requires IsRun(content, states, actions) && list == states[|states| - 1].flushing.list && i < |list|
    requires WrittenUpTo(list, backing, i)
    ensures WrittenUpTo(list, backing[list[i].cid := list[i]], i + 1)
  {
    RunInv(content, states, actions, |states| - 1);
  }

  class AutobatchBlockstore {
    ghost const content: Content
    var addedCids: set<Cid>
    var bufferedBatch: Batch
    var flushingBatch: Batch
    var flushErr: bool
    var backing: map<Cid, Block>
    const bufferCapacity: nat
    var bufferSize: nat   // never reset: the bytes of all blocks ever added
    var flushSignal: bool // a value is waiting in flushCh
    var phase: Phase      // where the thread that holds doFlushLock is

    ghost var flushed: set<Cid>
    ghost var states: seq<State>
    ghost var actions: seq<Action>

    ghost function Abs(): State
      reads this
    {
      State(backing, addedCids, bufferedBatch, flushingBatch, flushErr, phase, flushed)
    }

    ghost predicate Valid()
      reads this
    {
      IsRun(content, states, actions) && states[|states| - 1] == Abs() && Counted(states, actions, bufferSize)
    }

    /** The trace has grown, and what it was is unchanged; a signal once given stays. */
    twostate predicate Advanced()
      reads this
    {
      old(states) <= states && old(actions) <= actions && (old(flushSignal) ==> flushSignal)
    }

    /** The trace has grown by this one action. */
    twostate predicate Took(a: Action)
      reads this
    {
      Valid() && states == old(states) + [Abs()] && actions == old(actions) + [a]
    }

    constructor (ghost content: Content, backing: map<Cid, Block>, bufferCapacity: nat)
      requires SoundMap(content, backing)
      ensures Valid() && Abs() == Initial(backing) && this.content == content && this.bufferCapacity == bufferCapacity
      ensures !flushSignal
    {
      this.content, this.backing, this.bufferCapacity := content, backing, bufferCapacity;
      addedCids, bufferedBatch, flushingBatch, flushErr := {}, NoBlocks, NoBlocks, false;
      bufferSize, flushSignal := 0, false;
      phase, flushed := Free, {};
      states, actions := [Initial(backing)], [];
    }

    /** Records the step just taken. */
    ghost method Record(a: Action)
      requires IsRun(content, states, actions)
      requires Next(states[|states| - 1], a, Abs()) && (a.Put? ==> Sound(content, a.b))
      requires bufferSize == AddedBytes(states, actions) + NewBytes(states[|states| - 1], a)
      modifies this`states, this`actions
      ensures Took(a)
    {
      RunExtends(content, states, actions, a, Abs());
      AddedBytesSnoc(states, actions, a, Abs());
      states, actions := states + [Abs()], actions + [a];
    }

    // ------------------------------------------------------------ puts

    method Put(b: Block)
      requires Valid() && Sound(content, b)
      modifies this
      ensures Took(Action.Put(b)) && Abs() == Added(old(Abs()), b)
      ensures flushSignal <==> old(flushSignal) || (b.cid !in old(addedCids) && bufferSize >= bufferCapacity)
    {
      if b.cid !in addedCids {
        addedCids := addedCids + {b.cid};
        bufferedBatch := Batch(bufferedBatch.list + [b], bufferedBatch.blocks[b.cid := b]);
        bufferSize := bufferSize + |b.data|;
        if bufferSize >= bufferCapacity {
          flushSignal := true;
        }
      }
      Record(Action.Put(b));
    }

    /** What puts leave alone. */
    twostate predicate OnlyPuts()
      reads this
    {
      && phase == old(phase) && flushingBatch == old(flushingBatch) && flushErr == old(flushErr)
      && backing == old(backing) && flushed == old(flushed) && old(addedCids) <= addedCids
      && old(bufferedBatch.list) <= bufferedBatch.list
    }

    method PutMany(bs: seq<Block>)
      requires Valid() && AllSound(content, bs)
      modifies this
      ensures Valid() && Advanced() && OnlyPuts()
      ensures forall i :: 0 <= i < |bs| ==> bs[i].cid in addedCids
    {
      for i := 0 to |bs|
        invariant Valid() && Advanced() && OnlyPuts()
        invariant forall j :: 0 <= j < i ==> bs[j].cid in addedCids
      {
        Put(bs[i]);
      }
    }

    // ------------------------------------------------------------ the sections of doFlush

    method Lock(retryOnly: bool)
      requires Valid() && phase == Free
      modifies this`phase, this`states, this`actions
      ensures Took(Action.Lock(retryOnly))
      ensures phase == if flushErr then Retrying(retryOnly) else Deciding(retryOnly)
    {
      phase := if flushErr then Retrying(retryOnly) else Deciding(retryOnly);
      Record(Action.Lock(retryOnly));
    }

    method WriteOne(b: Block)
      requires Valid() && (phase.Retrying? || phase.Writing?) && b in flushingBatch.list
      modifies this`backing, this`states, this`actions
      ensures Took(Write(b)) && backing == old(backing)[b.cid := b]
    {
      backing := backing[b.cid := b];
      Record(Write(b));
    }

    /** The backing store's PutMany returns, with success only when everything has been written. */
    method FinishPutMany(ok: bool)
      requires Valid() && (phase.Retrying? || phase.Writing?) && (ok ==> AllWritten(Abs()))
      modifies this`flushErr, this`phase, this`states, this`actions
      ensures Took(PutManyReturns(ok)) && flushErr == !ok
      ensures old(phase).Retrying? ==> phase == Deciding(old(phase).retryOnly)
      ensures old(phase).Writing? ==> phase == if ok then Clearing(old(phase).taken) else Free
    {
      flushErr := !ok;
      phase := match phase
        case Retrying(retryOnly) => Deciding(retryOnly)
        case Writing(taken) => if ok then Clearing(taken) else Free
        case _ => phase;
      Record(PutManyReturns(ok));
    }

    method BailOut()
      requires Valid() && phase.Deciding? && (phase.retryOnly || flushErr)
      modifies this`phase, this`states, this`actions
      ensures Took(Bail) && phase == Free
    {
      phase := Free;
      Record(Bail);
    }

    method TakeBatch()
      requires Valid() && phase == Deciding(false) && !flushErr
      modifies this`phase, this`bufferedBatch, this`flushingBatch, this`flushed, this`states, this`actions
      ensures Took(Take) && phase == Writing(addedCids)
      ensures flushingBatch == old(bufferedBatch) && bufferedBatch == NoBlocks
    {
      flushed := flushed + flushingBatch.blocks.Keys;
      flushingBatch, bufferedBatch := bufferedBatch, NoBlocks;
      phase := Writing(addedCids);
      Record(Take);
    }

    method ClearBatch()
      requires Valid() && phase.Clearing?
      modifies this`phase, this`flushingBatch, this`flushed, this`states, this`actions
      ensures Took(Clear) && phase == Free && flushingBatch == NoBlocks
      ensures old(phase.taken) <= backing.Keys
    {
      RunInv(content, states, actions, |states| - 1);
      TakenIsBacked(content, Abs());
      flushed := flushed + flushingBatch.blocks.Keys;
      flushingBatch := NoBlocks;
      phase := Free;
      Record(Clear);
    }

    // ------------------------------------------------------------ doFlush

    /** What the moves of a PutMany leave alone. */
    twostate predicate OnlyMoves()
      reads this
    {
      && phase == old(phase) && flushingBatch == old(flushingBatch) && flushErr == old(flushErr)
      && flushed == old(flushed) && old(addedCids) <= addedCids && old(backing).Keys <= backing.Keys
      && old(bufferedBatch.list) <= bufferedBatch.list
    }

    method MakeMoves(moves: seq<Move>)
      requires Valid() && (phase.Retrying? || phase.Writing?) && SoundMoves(content, moves)
      modifies this
      ensures Valid() && Advanced() && OnlyMoves()
    {
      for i := 0 to |moves|
        invariant Valid() && Advanced() && OnlyMoves()
      {
        match moves[i]
        case OtherPut(b) => Put(b);
        case WriteAt(k) =>
          if k < |flushingBatch.list| {
            WriteOne(flushingBatch.list[k]);
          }
      }
    }

    method WriteAll()
      requires Valid() && (phase.Retrying? || phase.Writing?)
      modifies this`backing, this`states, this`actions
      ensures Valid() && Advanced() && AllWritten(Abs()) && old(backing).Keys <= backing.Keys
    {
      var list := flushingBatch.list;
      for i := 0 to |list|
        invariant Valid() && Advanced() && old(backing).Keys <= backing.Keys
        invariant WrittenUpTo(list, backing, i)
      {
        WrittenOn(content, states, actions, list, backing, i);
        WriteOne(list[i]);
      }
    }

    /** PutMany of the flushing batch into the backing store, while others put. */
    method PutManyBacking(plan: PutManyPlan) returns (ok: bool)
      requires Valid() && (phase.Retrying? || phase.Writing?) && SoundMoves(content, plan.moves)
      modifies this
      ensures Valid() && Advanced() && flushErr == !ok && flushingBatch == old(flushingBatch) && ok == plan.succeeds
      ensures old(addedCids) <= addedCids && flushed == old(flushed) && old(backing).Keys <= backing.Keys
      ensures old(bufferedBatch.list) <= bufferedBatch.list
      ensures old(phase).Retrying? ==> phase == Deciding(old(phase).retryOnly)
      ensures old(phase).Writing? ==> phase == if ok then Clearing(old(phase).taken) else Free
    {
      MakeMoves(plan.moves);
      if plan.succeeds {
        WriteAll();
      }
      FinishPutMany(plan.succeeds);
      return plan.succeeds;
    }

    /** The first half of doFlush: after a failed flush, the batch that failed is tried again. */
    method Retry(retryOnly: bool, plan: PutManyPlan)
      requires Valid() && phase == Free && SoundMoves(content, plan.moves)
      modifies this
      ensures Valid() && Advanced() && phase == Deciding(retryOnly)
      ensures flushErr <==> old(flushErr) && !plan.succeeds
      ensures old(addedCids) <= addedCids && old(bufferedBatch.list) <= bufferedBatch.list
      ensures !old(flushErr) ==> backing == old(backing)
    {
      Lock(retryOnly);
      if flushErr {
        var ok := PutManyBacking(plan);
      }
    }

    /** doFlush. The error is returned as true. */
    method DoFlush(retryOnly: bool, plan: FlushPlan) returns (err: bool)
      requires Valid() && phase == Free && SoundPlan(content, plan)
      modifies this
      ensures Valid() && Advanced() && phase == Free
      ensures err == flushErr
      ensures err <==> (old(flushErr) && !plan.retry.succeeds) || (!retryOnly && !plan.write.succeeds)
      ensures !err && !retryOnly ==> old(addedCids) <= backing.Keys
      ensures retryOnly ==> old(bufferedBatch.list) <= bufferedBatch.list
      ensures retryOnly && !old(flushErr) ==> backing == old(backing)
    {
      Retry(retryOnly, plan.retry);
      if retryOnly || flushErr {
        BailOut();
      } else {
        PutMany(plan.beforeTake);
        FlushBuffered(plan);
      }
      return flushErr;
    }

    /** The second half of doFlush: take the buffered batch, write it, and reset it on success. */
    method FlushBuffered(plan: FlushPlan)
      requires Valid() && phase == Deciding(false) && !flushErr && SoundPlan(content, plan)
      modifies this
      ensures Valid() && Advanced() && phase == Free && flushErr == !plan.write.succeeds
      ensures !flushErr ==> old(addedCids) <= backing.Keys
    {
      TakeBatch();
      var ok := PutManyBacking(plan.write);
      if ok {
        PutMany(plan.beforeClear);
        ClearBatch();
      }
    }

    // ------------------------------------------------------------ other threads, and Get

    /** Another thread takes this step, if it can: it puts, or moves on in a flush. */
    method TryStep(a: Action)
      requires Valid() && (a.Put? ==> Sound(content, a.b))
      modifies this
      ensures Valid() && Advanced()
      ensures Took(a) || (states == old(states) && forall s' :: !Next(old(Abs()), a, s'))
    {
      match a
      case Put(b) =>
        Put(b);
      case Lock(retryOnly) =>
        if phase == Free {
          Lock(retryOnly);
        }
      case Write(b) =>
        if (phase.Retrying? || phase.Writing?) && b in flushingBatch.list {
          WriteOne(b);
        }
      case PutManyReturns(ok) =>
        if (phase.Retrying? || phase.Writing?) && (!ok || IsWritten()) {
          FinishPutMany(ok);
        }
      case Bail =>
        if phase.Deciding? && (phase.retryOnly || flushErr) {
          BailOut();
        }
      case Take =>
        if phase == Deciding(false) && !flushErr {
          TakeBatch();
        }
      case Clear =>
        if phase.Clearing? {
          ClearBatch();
        }
    }

    predicate IsWritten()
      reads this
      ensures IsWritten() <==> AllWritten(Abs())
    {
      forall i :: 0 <= i < |flushingBatch.list| ==>
        flushingBatch.list[i].cid in backing && backing[flushingBatch.list[i].cid] == flushingBatch.list[i]
    }

    method Others(steps: seq<Action>)
      requires Valid() && SoundActions(content, steps)
      modifies this
      ensures Valid() && Advanced()
    {
      for i := 0 to |steps|
        invariant Valid() && Advanced()
      {
        TryStep(steps[i]);
      }
    }

    /** Get, at any moment of a flush, with steps of other threads between its three looks. */
    method Get(c: Cid, during: seq<Action>, later: seq<Action>) returns (r: Reply)
      requires Valid() && SoundActions(content, during) && SoundActions(content, later)
      modifies this
      ensures Valid() && Advanced()
      ensures exists p :: |old(states)| - 1 <= p < |states| && r == Lookup(Contents(states[p]), c)
      ensures c in old(addedCids) || c in old(backing) ==> r.Found?
    {
      ghost var i := |states| - 1;
      ghost var first := Abs();
      AddedIsFound(content, states, actions, i, c);
      if c in backing {
        GetLinearizes(content, states, actions, i, i, i, c);
        return Found(backing[c]);
      }
      Others(during);
      ghost var j := |states| - 1;
      assert states[i] == first;
      if c in flushingBatch.blocks || c in bufferedBatch.blocks {
        r := Found(if c in flushingBatch.blocks then flushingBatch.blocks[c] else bufferedBatch.blocks[c]);
        GetLinearizes(content, states, actions, i, j, j, c);
        return;
      }
      r := LookAgain(c, later, first, i);
    }

    /** The last look at the backing store, after more steps of other threads. */
    method LookAgain(c: Cid, later: seq<Action>, ghost first: State, ghost i: nat) returns (r: Reply)
      requires Valid() && SoundActions(content, later)
      requires i < |states| && states[i] == first && c !in first.backing
      requires c !in flushingBatch.blocks && c !in bufferedBatch.blocks
      modifies this
      ensures Valid() && Advanced()
      ensures exists p :: i <= p < |states| && r == Lookup(Contents(states[p]), c)
      ensures c in Contents(first) ==> r.Found?
    {
      ghost var j := |states| - 1;
      ghost var locked := Abs();
      Others(later);
      r := Lookup(backing, c);
      assert states[i] == first && states[j] == locked;
      LastLook(content, states, actions, i, j, c);
    }
  }

  /** What was ever added is part of the contents. */
  lemma AddedIsFound(content: Content, states: seq<State>, actions: seq<Action>, i: nat, c: Cid)
    requires IsRun(content, states, actions) && i < |states|
    ensures c in states[i].added || c in states[i].backing ==> c in Contents(states[i])
  {
    RunInv(content, states, actions, i);
  }

  lemma {:induction false} PlainMapGrows(m: map<Cid, Block>, actions: seq<Action>, i: nat, j: nat)
    requires i <= j <= |actions|
    ensures PlainMap(m, actions[..i]).Keys <= PlainMap(m, actions[..j]).Keys
  {
    if i < j {
      PlainMapGrows(m, actions, i, j - 1);
      PlainMapSnoc(m, actions, j - 1);
    }
  }

  /** Nothing ever leaves the contents. */
  lemma ContentsGrow(content: Content, states: seq<State>, actions: seq<Action>, i: nat, j: nat)
    requires IsRun(content, states, actions) && i <= j < |states|
    ensures Contents(states[i]).Keys <= Contents(states[j]).Keys
  {
    RunRefinesMap(content, states, actions, i);
    RunRefinesMap(content, states, actions, j);
    PlainMapGrows(states[0].backing, actions, i, j);
  }

  /** What the last look at the backing store finds was in the contents at some moment. */
  lemma LastLook(content: Content, states: seq<State>, actions: seq<Action>, i: nat, j: nat, c: Cid)
    requires IsRun(content, states, actions) && i <= j < |states|
    requires c !in states[i].backing && c !in states[j].flushing.blocks && c !in states[j].buffered.blocks
    ensures var r := Lookup(states[|states| - 1].backing, c);
            && (exists p :: i <= p < |states| && r == Lookup(Contents(states[p]), c))
            && (c in Contents(states[i]) ==> r.Found?)
  {
    GetLinearizes(content, states, actions, i, j, |states| - 1, c);
    var r := Lookup(states[|states| - 1].backing, c);
    var p :| i <= p < |states| && r == Lookup(Contents(states[p]), c);
    ContentsGrow(content, states, actions, i, p);
  }
}
