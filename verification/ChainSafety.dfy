/** What the headers that collectHeaders returns say about the chain we would switch to. */
module ChainSafety {
  import opened Wrappers
  import opened Tipsets
  import opened BadBlocks
  import opened ChainView
  import opened SyncFork
  import opened WayBack
  import opened CollectHeaders

  /** Heights strictly fall from the target down to the end of the collected headers. */
  lemma CollectedFalls(u: View, store: View, incoming: TipSet, known: TipSet,
                       checkpoint: Option<TipSet>, headers: seq<TipSet>)
    requires Collected(u, store, incoming, known, checkpoint, headers)
    ensures forall i, j :: 0 <= i < j < |headers| ==> headers[j].height < headers[i].height
  {
    forall i, j | 0 <= i < j < |headers| {
      ChainFalls(headers, i, j);
    }
  }

  /** The end of the collected headers, and what lies below it, are ancestors of the target. */
  lemma EndIsAncestor(u: View, headers: seq<TipSet>, below: TipSet, k: nat)
    requires IsUniverse(u) && headers != [] && IsChain(headers) && Members(u, headers)
    requires Back(u, headers[|headers| - 1], k) == Some(below)
    ensures Descends(u, headers[0], below)
  {
    ChainIsBack(u, headers, |headers| - 1);
    BackAdds(u, headers[0], |headers| - 1, k);
    assert Back(u, headers[0], |headers| - 1 + k) == Some(below);
  }

  lemma ChildOf(u: View, ts: TipSet, parent: TipSet)
    requires Member(u, parent) && ts.IsChildOf(parent)
    ensures Back(u, ts, 1) == Some(parent)
  {
  }

  /** Checkpoint safety: when the checkpoint lies below our head, every target whose headers are
      collected without ignoring it still descends from it, on all three branches. */
  lemma CheckpointSafety(u: View, store: View, incoming: TipSet, known: TipSet,
                         checkpoint: TipSet, headers: seq<TipSet>)
    requires IsUniverse(u) && PartOf(store, u) && Member(u, known)
    requires ProperAncestor(u, checkpoint, known)
    requires Collected(u, store, incoming, known, Some(checkpoint), headers)
    ensures Descends(u, incoming, checkpoint)
  {
    var last := headers[|headers| - 1];
    var p: nat :| p > 0 && Back(u, known, p) == Some(checkpoint);
    if FastForward(known, last) {
      ChildOf(u, last, known);
      BackAdds(u, last, 1, p);
      EndIsAncestor(u, headers, checkpoint, 1 + p);
    } else if Sibling(store, known, last) {
      var parent := store[known.parents];
      assert Back(u, known, 0) == Some(known);
      assert Back(u, known, 1) == Some(parent);
      BackMember(u, known, 1);
      BackAdds(u, known, 1, p - 1);
      ChildOf(u, last, parent);
      BackAdds(u, last, 1, p - 1);
      EndIsAncestor(u, headers, checkpoint, 1 + (p - 1));
    } else {
      ForkKeepsCheckpoint(u, store, known, checkpoint, last, p);
      var k: nat :| Back(u, last, k) == Some(checkpoint);
      EndIsAncestor(u, headers, checkpoint, k);
    }
  }

  lemma ForkKeepsCheckpoint(u: View, store: View, known: TipSet, checkpoint: TipSet, last: TipSet, p: nat)
    requires IsUniverse(u) && PartOf(store, u) && Member(u, known)
    requires Back(u, known, p) == Some(checkpoint) && Forked(store, known, Some(checkpoint), last)
    ensures Descends(u, last, checkpoint)
  {
    var m: nat :| ForkPoint(store, known, Some(checkpoint), last, m);
    BackInPart(store, u, known, m);
    if p < m {
      BackDefined(store, known, p, m);
      BackInPart(store, u, known, p);
      assert false;
    }
    BackAdds(u, known, m, p - m);
  }

  /** On the way back from incoming, the n-th ancestor is a sibling of known. */
  ghost predicate SiblingOnWay(u: View, store: View, incoming: TipSet, known: TipSet, n: nat) {
    Back(u, incoming, n).Some? && Sibling(store, known, Back(u, incoming, n).value)
  }

  /** With the checkpoint at our head itself, a fork is refused; a collected target descends from the
      checkpoint exactly when no sibling of the head is on its way back. */
  lemma CheckpointAtHead(u: View, store: View, incoming: TipSet, known: TipSet, headers: seq<TipSet>)
    requires IsUniverse(u) && PartOf(store, u) && Member(u, known)
    requires Collected(u, store, incoming, known, Some(known), headers)
    ensures Descends(u, incoming, known) <==> !exists n: nat :: SiblingOnWay(u, store, incoming, known, n)
  {
    var e := |headers| - 1;
    var last := headers[e];
    forall n: nat | SiblingOnWay(u, store, incoming, known, n)
      ensures !Descends(u, incoming, known)
    {
      SiblingMissesHead(u, store, incoming, known, n);
    }
    if FastForward(known, last) {
      ChildOf(u, last, known);
      EndIsAncestor(u, headers, known, 1);
    } else {
      assert !Forked(store, known, Some(known), last) by {
        forall m: nat
          ensures !ForkPoint(store, known, Some(known), last, m)
        {
          assert Back(store, known, 0) == Some(known);
        }
      }
      ChainIsBack(u, headers, e);
      assert SiblingOnWay(u, store, incoming, known, e);
    }
  }

  lemma SiblingMissesHead(u: View, store: View, incoming: TipSet, known: TipSet, e: nat)
    requires IsUniverse(u) && PartOf(store, u) && Member(u, known) && Member(u, incoming)
    requires SiblingOnWay(u, store, incoming, known, e)
    ensures !Descends(u, incoming, known)
  {
    var last, parent := Back(u, incoming, e).value, store[known.parents];
    ChildOfMember(u, known, last, parent);
    BackAdds(u, incoming, e, 1);
    assert Proper(u, known.cids);
    forall n: nat | Back(u, incoming, n) == Some(known)
      ensures false
    {
      if n + 1 < e {
        // known would be followed by its parent, which lies below the sibling
        BackFalls(u, incoming, n + 1, e);
      } else if n > e + 1 {
        BackFalls(u, incoming, e + 1, n);
      }
    }
  }

  lemma ChildOfMember(u: View, known: TipSet, last: TipSet, parent: TipSet)
    requires IsUniverse(u) && known.parents in u && u[known.parents] == parent && last.IsChildOf(parent)
    ensures Back(u, last, 1) == Some(parent)
  {
    assert Proper(u, known.parents);
    ChildOf(u, last, parent);
  }

  function Block(cid: Cid, parents: Key, height: int): TipSet {
    TipSet([cid], parents, height, 0, [[]], ["m"])
  }

  /** An input on which the checkpoint is left: it is our head, and its sibling is accepted. */
  method SiblingLeavesCheckpoint() returns (syncer: Syncer, head: TipSet, target: TipSet, r: Result<seq<TipSet>>)
    ensures syncer.checkpoint == Some(head)
    ensures r == Ok([target]) && !Descends(syncer.universe, target, head)
  {
    var parent := Block("p", ["none"], 1);
    head, target := Block("k", ["p"], 2), Block("s", ["p"], 2);
    var store: View := map[["p"] := parent, ["k"] := head];
    ghost var u := store[["s"] := target];
    assert IsUniverse(u) && PartOf(store, u);
    syncer := new Syncer(u, store, (c, k, n) => None, Some(head), parent, 900);
    ghost var walked;
    r, walked := syncer.CollectHeaders(target, head, false);
    assert store[head.parents] == parent;
    assert CleanStart(map[], target) && Sibling(store, head, target);
    assert SiblingOnWay(u, store, target, head, 0);
    SiblingMissesHead(u, store, target, head, 0);
  }

  /** An input on which a fork that keeps the checkpoint is refused and its head is put on the deny list:
      the head is on the checkpoint, our head's parent, but several epochs above us. */
  method JumpIsRefused() returns (syncer: Syncer, head: TipSet, target: TipSet, r: Result<seq<TipSet>>)
    ensures syncer.checkpoint.Some? && target.IsChildOf(syncer.checkpoint.value) && head.IsChildOf(syncer.checkpoint.value)
    ensures MeetAllowed(syncer.store, head, syncer.checkpoint, syncer.forkLengthThreshold, 1)
    ensures Honest(syncer.universe, syncer.exchange)
    ensures r == Err(ForkCheckpoint) && forall c :: c in target.cids ==> c in syncer.bad
  {
    var root, parent := Block("r", ["none"], 1), Block("p", ["r"], 2);
    head, target := Block("k", ["p"], 3), Block("t", ["p"], 9);
    var store: View := map[["r"] := root, ["p"] := parent, ["k"] := head];
    var u := store[["t"] := target];
    assert IsUniverse(u) && PartOf(store, u);
    var exchange: Exchange := (c, k, n) => if k in u && n > 0 then Some([u[k]]) else None;
    syncer := new Syncer(u, store, exchange, Some(parent), root, 900);
    assert Back(store, head, 0) == Some(head) && Back(store, head, 1) == Some(parent);
    assert Back(store, target, 0) == Back(u, target, 0) == Some(target);
    assert Back(store, target, 1) == Back(u, target, 1) == Some(parent);
    assert CleanStart(map[], target) && syncer.RunsOnto(target, head, 1, 1);
    assert Back(store, head, 2) == Some(root);
    ghost var walked;
    r, walked := syncer.CollectHeaders(target, head, false);
  }

  const ExampleRoot := Block("r", ["none"], 1)
  const ExampleParent := Block("p", ["r"], 2)
  const ExampleBetween := Block("a", ["p"], 8)
  const ExampleHead := Block("k", ["p"], 3)
  const ExampleTarget := Block("t", ["a"], 9)
  const ExampleStore: View :=
    map[["r"] := ExampleRoot, ["p"] := ExampleParent, ["a"] := ExampleBetween, ["k"] := ExampleHead]
  const ExampleUniverse: View := ExampleStore[["t"] := ExampleTarget]

  lemma ExampleChains()
    ensures IsUniverse(ExampleUniverse) && PartOf(ExampleStore, ExampleUniverse)
    ensures Back(ExampleStore, ExampleHead, 1) == Some(ExampleParent)
    ensures Back(ExampleStore, ExampleHead, 2) == Some(ExampleRoot)
    ensures Back(ExampleStore, ExampleTarget, 2) == Back(ExampleUniverse, ExampleTarget, 2) == Some(ExampleParent)
    ensures StoredRun(ExampleStore, ExampleTarget, ExampleHead, 2)
  {
    assert Back(ExampleStore, ExampleHead, 0) == Some(ExampleHead);
    assert Back(ExampleStore, ExampleTarget, 0) == Some(ExampleTarget);
    assert Back(ExampleStore, ExampleTarget, 1) == Some(ExampleBetween);
    BackInPart(ExampleStore, ExampleUniverse, ExampleTarget, 2);
  }

  /** ... and one on which the way from the head to the checkpoint leads over another stored tipset. */
  method StoredRunIsRefused() returns (syncer: Syncer, r: Result<seq<TipSet>>)
    ensures syncer.checkpoint == Some(ExampleParent) && ExampleHead.IsChildOf(ExampleParent)
    ensures Descends(syncer.universe, ExampleTarget, ExampleParent) && !ExampleTarget.IsChildOf(ExampleParent)
    ensures MeetAllowed(syncer.store, ExampleHead, syncer.checkpoint, syncer.forkLengthThreshold, 1)
    ensures Honest(syncer.universe, syncer.exchange)
    ensures r == Err(ForkCheckpoint) && forall c :: c in ExampleTarget.cids ==> c in syncer.bad
  {
    ExampleChains();
    var exchange: Exchange := (c, k, n) => if k in ExampleUniverse && n > 0 then Some([ExampleUniverse[k]]) else None;
    assert forall k :: k in ExampleUniverse ==> Proper(ExampleUniverse, k);
    syncer := new Syncer(ExampleUniverse, ExampleStore, exchange, Some(ExampleParent), ExampleRoot, 900);
    assert CleanStart(map[], ExampleTarget) && syncer.RunsOnto(ExampleTarget, ExampleHead, 2, 1);
    ghost var walked;
    r, walked := syncer.CollectHeaders(ExampleTarget, ExampleHead, false);
  }
}
