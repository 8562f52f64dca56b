/** syncFork: the search for the nearest common ancestor of our chain and a fetched fork. */
module SyncFork {
  import opened Wrappers
  import opened Tipsets
  import opened ChainView

  datatype SyncError =
    | LinkedToBad | BeaconOrder | BeaconMismatch | FetchFailed | NotConnected | LoadFailed
    | WrongGenesis | ForkedAtGenesis | ForkTooLong | ForkCheckpoint

  datatype Result<+T> = Ok(value: T) | Err(error: SyncError)

  /** tips[c] is the m-th local ancestor of known. */
  ghost predicate Meets(store: View, known: TipSet, tips: seq<TipSet>, c: nat, m: nat) {
    m > 0 && c < |tips| && Back(store, known, m) == Some(tips[c])
  }

  /** The m-th local ancestor of known may be walked past: not at height 0 and not the checkpoint. */
  ghost predicate Passable(store: View, known: TipSet, checkpoint: Option<TipSet>, m: nat) {
    var t := Back(store, known, m);
    t.Some? && t.value.height != 0 && Some(t.value) != checkpoint
  }

  /** A meeting point the search is allowed to reach: within the threshold, above genesis, and with
      everything nearer to known passable. */
  ghost predicate Reachable(store: View, known: TipSet, checkpoint: Option<TipSet>, threshold: nat,
                            tips: seq<TipSet>, c: nat, m: nat) {
    && Meets(store, known, tips, c, m) && m <= threshold && tips[c].height != 0
    && forall j: nat :: 0 < j < m ==> Passable(store, known, checkpoint, j)
  }

  ghost predicate NoMeetAt(store: View, known: TipSet, tips: seq<TipSet>, m: nat) {
    forall c: nat :: !Meets(store, known, tips, c, m)
  }

  ghost predicate NoMeetOf(store: View, known: TipSet, tips: seq<TipSet>, c: nat) {
    forall m: nat :: !Meets(store, known, tips, c, m)
  }

  /** Our side is at the j-th ancestor, the fork side at tips[cur], above it: tips[cur] is no ancestor. */
  lemma SkipForkTip(u: View, store: View, known: TipSet, tips: seq<TipSet>, cur: nat, j: nat)
    requires IsUniverse(u) && PartOf(store, u) && Member(u, known)
    requires cur < |tips| && j > 0 && Back(store, known, j).Some?
    requires Back(store, known, j).value.height < tips[cur].height
    requires forall n: nat :: 0 < n < j ==> NoMeetAt(store, known, tips, n)
    ensures NoMeetOf(store, known, tips, cur)
  {
    forall m: nat
      ensures !Meets(store, known, tips, cur, m)
    {
      if 0 < m < j {
        assert NoMeetAt(store, known, tips, m);
      } else if m > j && Back(store, known, m).Some? {
        BackInPart(store, u, known, m);
        BackInPart(store, u, known, j);
        BackFalls(u, known, j, m);
      }
    }
  }

  /** Our side is not below tips[cur] and differs from it: it is no tipset of the fork. */
  lemma SkipOwnTip(u: View, store: View, known: TipSet, tips: seq<TipSet>, cur: nat, j: nat)
    requires IsUniverse(u) && PartOf(store, u) && Member(u, known) && IsChain(tips)
    requires cur < |tips| && j > 0 && Back(store, known, j).Some?
    requires Back(store, known, j).value.height >= tips[cur].height
    requires Back(store, known, j).value != tips[cur]
    requires forall i: nat :: 0 <= i < cur ==> NoMeetOf(store, known, tips, i)
    ensures NoMeetAt(store, known, tips, j)
  {
    forall c: nat
      ensures !Meets(store, known, tips, c, j)
    {
      if c < cur {
        assert NoMeetOf(store, known, tips, c);
      } else if cur < c < |tips| {
        ChainFalls(tips, cur, c);
      }
    }
  }

  /** What the result of the search means, for the tipsets that were fetched. */
  ghost predicate ForkOutcome(store: View, known: TipSet, checkpoint: Option<TipSet>, threshold: nat,
                              tips: seq<TipSet>, r: Result<seq<TipSet>>) {
    match r
    case Ok(fork) =>
      // the fork up to and including its highest tipset that is a proper ancestor of known
      && fork != [] && fork <= tips
      && (forall i: nat :: i < |fork| - 1 ==> NoMeetOf(store, known, tips, i))
      && exists c: nat, m: nat :: c == |fork| - 1 && Reachable(store, known, checkpoint, threshold, tips, c, m)
    case Err(e) =>
      // no allowed meeting point exists; the two verdicts that put blocks on the deny list say why
      && (forall c: nat, m: nat :: !Reachable(store, known, checkpoint, threshold, tips, c, m))
      && (e == ForkTooLong ==> forall c: nat, m: nat :: Meets(store, known, tips, c, m) ==> m > threshold)
      && (e == ForkCheckpoint ==>
            exists j: nat :: j > 0 && Back(store, known, j).Some? && Some(Back(store, known, j).value) == checkpoint
                        && forall c: nat, m: nat :: Meets(store, known, tips, c, m) ==> m > j)
  }

  lemma ForkOutcomeUnreachable(store: View, known: TipSet, checkpoint: Option<TipSet>, threshold: nat,
                               tips: seq<TipSet>, j: nat, e: SyncError)
    requires j > 0 && forall n: nat :: 0 < n < j ==> NoMeetAt(store, known, tips, n)
    requires
      || (e != ForkTooLong && e != ForkCheckpoint
          && Back(store, known, j).Some? && Back(store, known, j).value.height == 0)
      || (NoMeetAt(store, known, tips, j) && j >= threshold && e == ForkTooLong)
      || (NoMeetAt(store, known, tips, j) && Back(store, known, j).Some?
          && Some(Back(store, known, j).value) == checkpoint && e == ForkCheckpoint)
      || (NoMeetAt(store, known, tips, j) && Back(store, known, j + 1).None? && e == LoadFailed)
    ensures ForkOutcome(store, known, checkpoint, threshold, tips, Err(e))
  {
    forall c: nat, m: nat
      ensures Meets(store, known, tips, c, m) ==> m >= j && (NoMeetAt(store, known, tips, j) ==> m > j)
    {
      if 0 < m < j {
        assert NoMeetAt(store, known, tips, m);
      }
    }
    forall c: nat, m: nat | Reachable(store, known, checkpoint, threshold, tips, c, m)
      ensures false
    {
      assert Meets(store, known, tips, c, m);
      if m > j {
        assert Passable(store, known, checkpoint, j);
        BackDefined(store, known, j + 1, m);
      }
    }
  }

  /** Our own chain, as far as it is stored, ends at the m-th ancestor of known. */
  ghost predicate EndsAt(store: View, known: TipSet, m: nat) {
    Back(store, known, m).Some? && Back(store, known, m).value.parents !in store
  }

  ghost predicate GroundAt(store: View, known: TipSet, m: nat) {
    Back(store, known, m).Some? && Back(store, known, m).value.height == 0
  }

  /** Our side has been walked back to the m-th ancestor of known. */
  ghost predicate WalkedTo(store: View, known: TipSet, checkpoint: Option<TipSet>, threshold: nat, m: nat) {
    0 < m <= threshold && forall j: nat :: 0 < j < m ==> Passable(store, known, checkpoint, j)
  }

  /** Failures that are about our own chain, as far as it was walked back. */
  ghost predicate OwnFailure(store: View, genesis: TipSet, known: TipSet, checkpoint: Option<TipSet>, threshold: nat,
                             e: SyncError) {
    exists m: nat ::
      && WalkedTo(store, known, checkpoint, threshold, m)
      && match e
         case WrongGenesis => GroundAt(store, known, m) && !genesis.Equals(Back(store, known, m).value)
         case ForkedAtGenesis => GroundAt(store, known, m) && genesis.Equals(Back(store, known, m).value)
         case LoadFailed => EndsAt(store, known, m) && Passable(store, known, checkpoint, m)
         case _ => false
  }

  /** The two-pointer search itself, on the tipsets fetched from the fork. */
  method FindCommonAncestor(ghost u: View, store: View, genesis: TipSet, known: TipSet, first: TipSet,
                            checkpoint: Option<TipSet>, threshold: nat, tips: seq<TipSet>)
    returns (r: Result<seq<TipSet>>)
    requires IsUniverse(u) && PartOf(store, u) && Member(u, known) && threshold > 0
    requires IsChain(tips) && Members(u, tips)
    requires Back(store, known, 1) == Some(first)
    requires checkpoint.Some? ==> Member(u, checkpoint.value)
    ensures ForkOutcome(store, known, checkpoint, threshold, tips, r)
    ensures r.Err? ==> r.error in {ForkTooLong, ForkCheckpoint} || OwnFailure(store, genesis, known, checkpoint, threshold, r.error)
  {
    var nts := first;
    var forkLengthInHead := 1;
    var cur := 0;
    while cur < |tips|
      invariant 0 <= cur <= |tips|
      invariant 0 < forkLengthInHead <= threshold
      invariant Back(store, known, forkLengthInHead) == Some(nts)
      invariant forall n: nat :: 0 < n < forkLengthInHead ==> Passable(store, known, checkpoint, n)
      invariant forall n: nat :: 0 < n < forkLengthInHead ==> NoMeetAt(store, known, tips, n)
      invariant forall i: nat :: 0 <= i < cur ==> NoMeetOf(store, known, tips, i)
      decreases |tips| - cur + threshold - forkLengthInHead
    {
      ghost var j := forkLengthInHead;
      MembersCoincide(u, store, known, tips, cur, j);
      if nts.height == 0 {
        var e := if !genesis.Equals(nts) then WrongGenesis else ForkedAtGenesis;
        assert WalkedTo(store, known, checkpoint, threshold, j) && GroundAt(store, known, j);
        ForkOutcomeUnreachable(store, known, checkpoint, threshold, tips, j, e);
        return Err(e);
      }
      if nts.Equals(tips[cur]) {
        assert Reachable(store, known, checkpoint, threshold, tips, cur, j);
        return Ok(tips[..cur + 1]);
      }
      if nts.height < tips[cur].height {
        SkipForkTip(u, store, known, tips, cur, j);
        cur := cur + 1;
      } else {
        SkipOwnTip(u, store, known, tips, cur, j);
        forkLengthInHead := forkLengthInHead + 1;
        if forkLengthInHead > threshold {
          ForkOutcomeUnreachable(store, known, checkpoint, threshold, tips, j, ForkTooLong);
          return Err(ForkTooLong);
        }
        if checkpoint.Some? && nts.Equals(checkpoint.value) {
          CheckpointCoincides(u, store, known, checkpoint.value, j);
          ForkOutcomeUnreachable(store, known, checkpoint, threshold, tips, j, ForkCheckpoint);
          return Err(ForkCheckpoint);
        }
        assert Passable(store, known, checkpoint, j);
        if nts.parents !in store {
          assert WalkedTo(store, known, checkpoint, threshold, j) && EndsAt(store, known, j);
          ForkOutcomeUnreachable(store, known, checkpoint, threshold, tips, j, LoadFailed);
          return Err(LoadFailed);
        }
        nts := store[nts.parents];
      }
    }
    assert forall c: nat, m: nat :: Meets(store, known, tips, c, m) ==> !NoMeetOf(store, known, tips, c);
    return Err(ForkTooLong);
  }

  /** Content addressing: the source's comparison of cids and height is equality here. */
  lemma MembersCoincide(u: View, store: View, known: TipSet, tips: seq<TipSet>, c: nat, j: nat)
    requires IsUniverse(u) && PartOf(store, u) && Member(u, known) && Members(u, tips)
    requires c < |tips| && Back(store, known, j).Some?
    ensures Back(store, known, j).value.Equals(tips[c]) <==> Back(store, known, j).value == tips[c]
  {
    BackInPart(store, u, known, j);
    BackMember(u, known, j);
  }

  lemma CheckpointCoincides(u: View, store: View, known: TipSet, checkpoint: TipSet, j: nat)
    requires IsUniverse(u) && PartOf(store, u) && Member(u, known) && Member(u, checkpoint)
    requires Back(store, known, j).Some?
    ensures Back(store, known, j).value.Equals(checkpoint) <==> Back(store, known, j).value == checkpoint
  {
    BackInPart(store, u, known, j);
    BackMember(u, known, j);
  }
}
