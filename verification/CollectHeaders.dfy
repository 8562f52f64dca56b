/** collectHeaders: from a candidate head back to our chain, through the local store and the network. */
module CollectHeaders {
  import opened Wrappers
  import opened Tipsets
  import opened BadBlocks
  import opened ChainView
  import opened SyncFork
  import opened WayBack

  type DenyList = map<Cid, BadBlockReason>

  ghost predicate ShallowReasons(bad: DenyList) {
    forall c :: c in bad ==> Depth(bad[c]) <= 1
  }

  function Marked(bad: DenyList, cids: seq<Cid>, reason: BadBlockReason): DenyList {
    bad + map c | c in cids :: reason
  }

  lemma MarkedSnoc(bad: DenyList, cids: seq<Cid>, i: nat, reason: BadBlockReason)
    requires i < |cids|
    ensures Marked(bad, cids[..i + 1], reason) == Marked(bad, cids[..i], reason)[cids[i] := reason]
  {
    assert cids[..i + 1] == cids[..i] + [cids[i]];
  }

  ghost predicate HasBad(bad: DenyList, cids: seq<Cid>) {
    exists c :: c in cids && c in bad
  }

  // ---------------------------------------------------------------- what a successful call returns

  ghost predicate FastForward(known: TipSet, last: TipSet) {
    last.IsChildOf(known)
  }

  /** The m-th ancestor of known, with no checkpoint given up on the way to it. */
  ghost predicate ForkPoint(store: View, known: TipSet, checkpoint: Option<TipSet>, last: TipSet, m: nat) {
    && m > 0 && Back(store, known, m) == Some(last)
    && forall j: nat :: j < m ==> Back(store, known, j) != checkpoint || checkpoint.None?
  }

  ghost predicate Forked(store: View, known: TipSet, checkpoint: Option<TipSet>, last: TipSet) {
    exists m: nat :: ForkPoint(store, known, checkpoint, last, m)
  }

  ghost predicate Collected(u: View, store: View, incoming: TipSet, known: TipSet,
                            checkpoint: Option<TipSet>, headers: seq<TipSet>) {
    && headers != [] && headers[0] == incoming
    && IsChain(headers) && Members(u, headers)
    && var last := headers[|headers| - 1];
       || FastForward(known, last)
       || Sibling(store, known, last)
       || Forked(store, known, checkpoint, last)
  }

  ghost predicate InTipsets(tss: seq<TipSet>, c: Cid) {
    exists i :: 0 <= i < |tss| && c in tss[i].cids
  }

  // ---------------------------------------------------------------- deny list

  /** On the way back from incoming, block c comes at i and block d among the parents at n, not before it. */
  ghost predicate AboveAt(u: View, incoming: TipSet, c: Cid, d: Cid, i: nat, n: nat) {
    && i <= n && Back(u, incoming, i).Some? && c in Back(u, incoming, i).value.cids
    && Back(u, incoming, n).Some? && d in Back(u, incoming, n).value.parents
  }

  ghost predicate Above(u: View, incoming: TipSet, c: Cid, d: Cid) {
    exists i: nat, n: nat :: AboveAt(u, incoming, c, d, i, n)
  }

  /** Block c belongs to the chain of incoming and has d, a block of the deny list, among its ancestors;
      the reason given for c leads straight to what d was listed for. */
  ghost predicate BadAncestor(u: View, bad: DenyList, incoming: TipSet, c: Cid, reason: BadBlockReason) {
    exists d :: d in bad && Above(u, incoming, c, d) && reason.original == Some(Root(bad[d]))
  }

  /** Marks come from a bad ancestor, except the two verdicts on the candidate head itself. */
  ghost predicate JustifiedMarks(u: View, before: DenyList, after: DenyList, incoming: TipSet, r: Result<seq<TipSet>>) {
    forall c :: c in after && c !in before ==>
      || BadAncestor(u, before, incoming, c, after[c])
      || (c in incoming.cids && r.Err? && r.error in {BeaconOrder, ForkTooLong, ForkCheckpoint})
  }

  /** The walk takes its tipsets in rounds: a round that begins at a stored tipset is that tipset, any
      other round is what a request brought. len tipsets have been walked in rounds that begin here. */
  ghost predicate Rounds(u: View, store: View, incoming: TipSet, starts: seq<nat>, len: nat) {
    && (if starts == [] then len == 1 else starts[0] == 1)
    && forall k: nat :: k < |starts| ==> RoundAt(u, store, incoming, starts, len, k)
  }

  ghost predicate RoundAt(u: View, store: View, incoming: TipSet, starts: seq<nat>, len: nat, k: nat)
    requires k < |starts|
  {
    && starts[k] < RoundEnd(starts, k, len) && Back(u, incoming, starts[k]).Some?
    && (Back(u, incoming, starts[k]).value.cids in store ==> RoundEnd(starts, k, len) == starts[k] + 1)
  }

  function RoundEnd(starts: seq<nat>, k: nat, len: nat): nat
    requires k < |starts|
  {
    if k + 1 < |starts| then starts[k + 1] else len
  }

  /** The blocks of the tipsets at which rounds began: what the walk has accepted. */
  ghost function RoundCids(u: View, incoming: TipSet, starts: seq<nat>): seq<Cid> {
    if starts == [] then []
    else
      var n := |starts| - 1;
      var t := Back(u, incoming, starts[n]);
      RoundCids(u, incoming, starts[..n]) + if t.Some? then t.value.cids else []
  }

  lemma RoundsGrow(u: View, store: View, incoming: TipSet, starts: seq<nat>, bs: seq<TipSet>, grown: seq<TipSet>)
    requires IsUniverse(u) && bs != [] && bs[0] == incoming && bs <= grown && |bs| < |grown|
    requires IsChain(grown) && Members(u, grown) && Rounds(u, store, incoming, starts, |bs|)
    requires grown[|bs|].cids in store ==> |grown| == |bs| + 1
    ensures Rounds(u, store, incoming, starts + [|bs|], |grown|)
    ensures RoundCids(u, incoming, starts + [|bs|]) == RoundCids(u, incoming, starts) + grown[|bs|].cids
  {
    ChainIsBack(u, grown, |bs|);
    var starts' := starts + [|bs|];
    assert starts'[..|starts|] == starts;
    forall k: nat | k < |starts'|
      ensures RoundAt(u, store, incoming, starts', |grown|, k)
    {
      if k < |starts| {
        assert RoundAt(u, store, incoming, starts, |bs|, k);
        assert RoundEnd(starts', k, |grown|) == RoundEnd(starts, k, |bs|);
      }
    }
  }

  /** What the walk does to the deny list when it meets the bad block d: it marks the blocks it had
      accepted, all of them above d. When incoming's parents are stored here they are among those. */
  ghost predicate WalkVerdict(u: View, store: View, before: DenyList, after: DenyList, incoming: TipSet,
                              starts: seq<nat>, len: nat, d: Cid) {
    var accepted := RoundCids(u, incoming, starts);
    && Rounds(u, store, incoming, starts, len) && d in before && OnWay(u, incoming, d)
    && after == Marked(before, accepted, Linked(before[d], "change contained " + d))
    && (forall c :: c in accepted ==> c !in before && Above(u, incoming, c, d))
    && (incoming.parents in store && !HasBad(before, incoming.parents) ==> incoming.parents <= accepted)
  }

  ghost predicate OnWay(u: View, incoming: TipSet, d: Cid) {
    exists n: nat :: Back(u, incoming, n).Some? && d in Back(u, incoming, n).value.parents
  }

  ghost predicate WalkDenied(u: View, store: View, before: DenyList, after: DenyList, incoming: TipSet) {
    exists starts, len: nat, d :: WalkVerdict(u, store, before, after, incoming, starts, len, d)
  }

  /** Nothing that was walked, besides the head itself, is on the deny list. */
  ghost predicate CleanWalk(bad: DenyList, walked: seq<TipSet>) {
    forall i :: 0 < i < |walked| ==> !HasBad(bad, walked[i].cids)
  }

  // ---------------------------------------------------------------- beacon entries

  predicate BeaconsSorted(be: seq<BeaconEntry>) {
    forall i :: 0 < i < |be| ==> be[i - 1].round <= be[i].round
  }

  predicate BeaconsAgree(ts: TipSet)
    requires ts.WellFormed()
  {
    forall i :: 0 <= i < |ts.beacons| ==> ts.beacons[i] == ts.beacons[0]
  }

  ghost predicate CleanStart(bad: DenyList, ts: TipSet) {
    ts.WellFormed() && !HasBad(bad, ts.parents) && BeaconsSorted(ts.beacons[0]) && BeaconsAgree(ts)
  }

  /** What the checks on the candidate head do to the deny list. */
  ghost predicate StartVerdict(before: DenyList, after: DenyList, ts: TipSet, e: SyncError) {
    match e
    case LinkedToBad => exists d :: d in ts.parents && d in before
                               && after == Marked(before, ts.cids, Linked(before[d], "linked to " + d))
    case BeaconOrder => ts.cids != [] && after == before[ts.cids[0] := NewReason(ts.cids, "wrong order of beacon entires")]
    case _ => e == BeaconMismatch && after == before
  }

  /** What a failure to link the walked chain to ours does to the deny list. */
  ghost predicate LinkVerdict(before: DenyList, after: DenyList, incoming: TipSet, e: SyncError) {
    after == if e in {ForkTooLong, ForkCheckpoint}
             then Marked(before, incoming.cids, NewReason(incoming.cids, "fork past finality"))
             else before
  }

  // ---------------------------------------------------------------- the way back

  ghost predicate CleanPath(u: View, bad: DenyList, incoming: TipSet, n: nat) {
    forall i: nat :: 0 < i <= n && Back(u, incoming, i).Some? ==> !HasBad(bad, Back(u, incoming, i).value.cids)
  }

  /** On a clean path the next parent is not on the deny list. */
  lemma ParentNotBad(u: View, bad: DenyList, incoming: TipSet, known: TipSet, bs: seq<TipSet>)
    requires IsUniverse(u) && bs != [] && bs[0] == incoming && IsChain(bs) && Members(u, bs)
    requires forall n: nat :: Near(u, incoming, known, n) ==> |bs| <= n
    ensures forall n: nat :: Near(u, incoming, known, n) && CleanPath(u, bad, incoming, n) ==>
              !HasBad(bad, bs[|bs| - 1].parents)
  {
    forall n: nat | Near(u, incoming, known, n) && CleanPath(u, bad, incoming, n)
      ensures !HasBad(bad, bs[|bs| - 1].parents)
    {
      ChainIsBack(u, bs, |bs| - 1);
      BackDefined(u, incoming, |bs|, n);
      BackMember(u, incoming, |bs|);
      assert Proper(u, bs[|bs| - 1].parents);
    }
  }

  lemma AcceptedKept(before: seq<TipSet>, after: seq<TipSet>, accepted: seq<Cid>, at: seq<Cid>)
    requires before <= after
    requires forall c :: c in accepted ==> c in at || InTipsets(before, c)
    requires at != [] ==> |before| < |after| && after[|before|].cids == at
    ensures forall c :: c in accepted ==> InTipsets(after, c)
  {
  }

  /** Accepted blocks lie above a bad block that is among the parents of the last tipset. */
  lemma AcceptedAreAbove(u: View, incoming: TipSet, bs: seq<TipSet>, c: Cid, d: Cid)
    requires IsUniverse(u) && bs != [] && bs[0] == incoming && IsChain(bs) && Members(u, bs)
    requires InTipsets(bs, c) && d in bs[|bs| - 1].parents
    ensures Above(u, incoming, c, d)
  {
    var i :| 0 <= i < |bs| && c in bs[i].cids;
    ChainIsBack(u, bs, i);
    ChainIsBack(u, bs, |bs| - 1);
    assert AboveAt(u, incoming, c, d, i, |bs| - 1);
  }

  /** Where the walk is: the chain so far, what it has accepted, and the rounds in which it came here. */
  ghost predicate Walking(u: View, store: View, bad: DenyList, bs: seq<TipSet>, accepted: seq<Cid>, starts: seq<nat>) {
    && bs != [] && IsChain(bs) && Members(u, bs) && CleanWalk(bad, bs)
    && Rounds(u, store, bs[0], starts, |bs|) && accepted == RoundCids(u, bs[0], starts)
    && (forall c :: c in accepted ==> c !in bad && InTipsets(bs, c))
    && (if |bs| == 1 then accepted == [] else bs[0].parents <= accepted)
  }

  lemma WalkingOn(u: View, store: View, bad: DenyList, bs: seq<TipSet>, accepted: seq<Cid>, starts: seq<nat>,
                  grown: seq<TipSet>)
    requires IsUniverse(u) && Walking(u, store, bad, bs, accepted, starts)
    requires bs <= grown && |bs| < |grown| && IsChain(grown) && Members(u, grown)
    requires forall i :: |bs| <= i < |grown| ==> !HasBad(bad, grown[i].cids)
    requires grown[|bs|].cids in store ==> |grown| == |bs| + 1
    ensures Walking(u, store, bad, grown, accepted + grown[|bs|].cids, starts + [|bs|])
  {
    var at := grown[|bs|].cids;
    RoundsGrow(u, store, bs[0], starts, bs, grown);
    AcceptedKept(bs, grown, accepted + at, at);
    assert grown[|bs| - 1].IsChildOf(grown[|bs|]);
  }

  lemma WalkVerdictJustified(u: View, store: View, before: DenyList, after: DenyList, incoming: TipSet,
                             starts: seq<nat>, len: nat, d: Cid)
    requires ShallowReasons(before) && WalkVerdict(u, store, before, after, incoming, starts, len, d)
    ensures JustifiedMarks(u, before, after, incoming, Err(LinkedToBad))
  {
    LinkedShallow(before[d], "change contained " + d);
  }

  lemma CleanGrows(bad: DenyList, bs: seq<TipSet>, grown: seq<TipSet>)
    requires bs <= grown && CleanWalk(bad, bs) && forall i :: |bs| <= i < |grown| ==> !HasBad(bad, grown[i].cids)
    ensures CleanWalk(bad, grown)
  {
  }

  /** How a round of the walk ends. */
  datatype Round = GoOn | Stop | Failed(e: SyncError)

  class Syncer {
    ghost const universe: View
    const store: View
    const exchange: Exchange
    const checkpoint: Option<TipSet>
    const genesis: TipSet
    const forkLengthThreshold: nat
    var calls: nat  // exchange requests made so far
    var bad: DenyList

    ghost predicate Valid()
      reads this
    {
      && IsUniverse(universe) && PartOf(store, universe) && IsExchange(universe, exchange)
      && (checkpoint.Some? ==> Member(universe, checkpoint.value))
      && forkLengthThreshold > 0
      && ShallowReasons(bad)
    }

    constructor (ghost universe: View, store: View, exchange: Exchange, checkpoint: Option<TipSet>,
                 genesis: TipSet, forkLengthThreshold: nat)
      requires IsUniverse(universe) && PartOf(store, universe) && IsExchange(universe, exchange)
      requires checkpoint.Some? ==> Member(universe, checkpoint.value)
      requires forkLengthThreshold > 0
      ensures Valid() && bad == map[]
      ensures this.universe == universe && this.store == store && this.exchange == exchange
      ensures this.checkpoint == checkpoint && this.genesis == genesis && this.forkLengthThreshold == forkLengthThreshold
    {
      this.universe, this.store, this.exchange := universe, store, exchange;
      this.checkpoint, this.genesis, this.forkLengthThreshold := checkpoint, genesis, forkLengthThreshold;
      calls, bad := 0, map[];
    }

    function EffectiveCheckpoint(ignoreCheckpoint: bool): Option<TipSet> {
      if ignoreCheckpoint then None else checkpoint
    }

    method FirstBad(cids: seq<Cid>) returns (r: Option<Cid>)
      ensures r.None? <==> !HasBad(bad, cids)
      ensures r.Some? ==> r.value in cids && r.value in bad
    {
      for i := 0 to |cids|
        invariant forall j :: 0 <= j < i ==> cids[j] !in bad
      {
        if cids[i] in bad {
          return Some(cids[i]);
        }
      }
      return None;
    }

    method MarkAll(cids: seq<Cid>, reason: BadBlockReason)
      requires Valid() && Depth(reason) <= 1
      modifies this`bad
      ensures Valid() && bad == Marked(old(bad), cids, reason)
    {
      for i := 0 to |cids|
        invariant bad == Marked(old(bad), cids[..i], reason)
      {
        MarkedSnoc(old(bad), cids, i, reason);
        bad := bad[cids[i] := reason];
      }
      assert cids[..|cids|] == cids;
    }

    // ------------------------------------------------------------ checks on the candidate head

    method CheckBeacons(ts: TipSet) returns (e: Option<SyncError>)
      requires ts.WellFormed()
      ensures e == if !BeaconsSorted(ts.beacons[0]) then Some(BeaconOrder)
                   else if !BeaconsAgree(ts) then Some(BeaconMismatch) else None
    {
      var target := ts.beacons[0];
      for i := 0 to |target|
        invariant forall j :: 0 < j < i ==> target[j - 1].round <= target[j].round
      {
        if i > 0 && target[i].round < target[i - 1].round {
          return Some(BeaconOrder);
        }
      }
      for b := 1 to |ts.beacons|
        invariant forall i :: 0 <= i < b ==> ts.beacons[i] == target
      {
        var same := SameEntries(target, ts.beacons[b]);
        if !same {
          return Some(BeaconMismatch);
        }
      }
      return None;
    }

    method SameEntries(a: seq<BeaconEntry>, b: seq<BeaconEntry>) returns (same: bool)
      ensures same <==> a == b
    {
      if |a| != |b| {
        return false;
      }
      for i := 0 to |b|
        invariant forall j :: 0 <= j < i ==> a[j] == b[j]
      {
        if a[i].round != b[i].round || a[i].data != b[i].data {
          return false;
        }
      }
      return true;
    }

    method CheckStart(incoming: TipSet) returns (e: Option<SyncError>)
      requires Valid() && Member(universe, incoming) && incoming.WellFormed()
      modifies this`bad
      ensures Valid()
      ensures e.None? <==> CleanStart(old(bad), incoming)
      ensures bad == old(bad) || e.Some?
      ensures e.Some? ==> JustifiedMarks(universe, old(bad), bad, incoming, Err(e.value))
      ensures e.Some? ==> StartVerdict(old(bad), bad, incoming, e.value)
    {
      var hit := FirstBad(incoming.parents);
      if hit.Some? {
        LinkedShallow(bad[hit.value], "linked to " + hit.value);
        MarkAll(incoming.cids, Linked(bad[hit.value], "linked to " + hit.value));
        assert forall c :: c in incoming.cids ==> AboveAt(universe, incoming, c, hit.value, 0, 0);
        return Some(LinkedToBad);
      }
      e := CheckBeacons(incoming);
      if e == Some(BeaconOrder) {
        bad := bad[incoming.cids[0] := NewReason(incoming.cids, "wrong order of beacon entires")];
      }
    }

    // ------------------------------------------------------------ walking back

    /** Marks what was accepted so far after meeting a bad block among the parents of the last tipset. */
    method Denounce(blockSet: seq<TipSet>, accepted: seq<Cid>, hit: Cid, ghost walked: seq<TipSet>, ghost starts: seq<nat>)
      requires Valid() && blockSet != [] && IsChain(blockSet) && Members(universe, blockSet)
      requires Walking(universe, store, bad, walked, accepted, starts) && walked <= blockSet
      requires hit in bad && hit in blockSet[|blockSet| - 1].parents
      requires |walked| == 1 ==> walked[0].parents !in store || HasBad(bad, walked[0].parents)
      modifies this`bad
      ensures Valid() && WalkVerdict(universe, store, old(bad), bad, blockSet[0], starts, |walked|, hit)
    {
      LinkedShallow(bad[hit], "change contained " + hit);
      MarkAll(accepted, Linked(bad[hit], "change contained " + hit));
      ChainIsBack(universe, blockSet, |blockSet| - 1);
      assert OnWay(universe, blockSet[0], hit);
      AcceptedKept(walked, blockSet, accepted, []);
      forall c | c in accepted
        ensures Above(universe, blockSet[0], c, hit)
      {
        AcceptedAreAbove(universe, blockSet[0], blockSet, c, hit);
      }
    }

    /** Appends the part of a fetched segment that is not below untilHeight. */
    method AppendSegment(blockSet: seq<TipSet>, seg: seq<TipSet>, untilHeight: int)
      returns (r: seq<TipSet>, stopped: bool, hit: Option<Cid>)
      requires Valid() && blockSet != [] && IsChain(blockSet) && Members(universe, blockSet)
      requires IsChain(seg) && Members(universe, seg) && seg != []
      requires seg[0].cids == blockSet[|blockSet| - 1].parents
      ensures blockSet <= r && IsChain(r) && Members(universe, r)
      ensures forall i :: |blockSet| <= i < |r| ==> r[i].height >= untilHeight
      ensures hit.Some? ==> hit.value in bad && hit.value in r[|r| - 1].parents
      ensures hit.None? && stopped ==> Arrived(universe, r[|r| - 1], untilHeight)
      ensures hit.None? && !stopped ==> |r| > |blockSet| && r[|r| - 1] == seg[|seg| - 1]
      ensures hit.Some? ==> r[|r| - 1].parents in universe && universe[r[|r| - 1].parents].height >= untilHeight
      ensures forall i :: |blockSet| <= i < |r| ==> !HasBad(bad, r[i].cids)
    {
      r, stopped, hit := blockSet, false, None;
      for k := 0 to |seg|
        invariant r == blockSet + seg[..k] && IsChain(r) && Members(universe, r)
        invariant forall i :: |blockSet| <= i < |r| ==> r[i].height >= untilHeight && !HasBad(bad, r[i].cids)
        invariant k < |seg| ==> seg[k].cids == r[|r| - 1].parents
        invariant !stopped && hit.None?
      {
        assert Member(universe, seg[k]);
        if seg[k].height < untilHeight {
          stopped := true;
          return;
        }
        hit := FirstBad(seg[k].cids);
        if hit.Some? {
          return;
        }
        ParentIsChain(universe, r, seg[k]);
        assert r + [seg[k]] == blockSet + seg[..k + 1];
        r := r + [seg[k]];
        if k + 1 < |seg| {
          assert seg[k].IsChildOf(seg[k + 1]);
        }
      }
    }

    /** Asks for the ancestors of a tipset, down to untilHeight and 500 at most. */
    method NextSegment(tip: TipSet, untilHeight: int) returns (r: Result<seq<TipSet>>)
      requires Valid() && Member(universe, tip) && tip.height > untilHeight
      modifies this`calls
      ensures Valid() && calls == old(calls) + 1
      ensures r.Ok? ==> IsSegment(universe, tip.parents, tip.height - untilHeight, r.value) && |r.value| <= 500
      ensures r.Err? ==> r.error == FetchFailed && !(Honest(universe, exchange) && tip.parents in universe)
      ensures var asked := if tip.height - untilHeight < 500 then tip.height - untilHeight else 500;
              if r.Ok? then exchange(old(calls), tip.parents, asked) == Some(r.value)
              else exchange(old(calls), tip.parents, asked).None?
    {
      var gap := tip.height - untilHeight;
      var window := if gap < 500 then gap else 500;
      var seg := exchange(calls, tip.parents, window);
      ghost var call := calls;
      calls := calls + 1;
      if seg.None? {
        return Err(FetchFailed);
      }
      assert IsSegment(universe, tip.parents, window, seg.value);
      assert Member(universe, seg.value[0]) && Proper(universe, tip.cids);
      if !tip.IsChildOf(seg.value[0]) {
        return Err(NotConnected);
      }
      return Ok(seg.value);
    }

    /** The last of so many requests was not answered. */
    ghost predicate Unanswered(calls: nat) {
      exists call: nat, key, n :: call + 1 == calls && exchange(call, key, n).None?
    }

    /** The network branch of the walk, which stops short of everything below the height above known. */
    method FetchSegment(blockSet: seq<TipSet>, known: TipSet)
      returns (e: Option<SyncError>, grown: seq<TipSet>, stopped: bool, hit: Option<Cid>)
      requires Valid() && blockSet != [] && IsChain(blockSet) && Members(universe, blockSet)
      requires blockSet[|blockSet| - 1].height > known.height + 1
      modifies this`calls
      ensures Valid()
      ensures e.Some? ==> e.value == FetchFailed && !(Honest(universe, exchange) && blockSet[|blockSet| - 1].parents in universe)
      ensures e.Some? ==> Unanswered(calls)
      ensures e.None? ==> blockSet <= grown && IsChain(grown) && Members(universe, grown)
      ensures e.None? ==> forall i :: |blockSet| <= i < |grown| ==> !HasBad(bad, grown[i].cids)
      ensures e.None? && hit.Some? ==>
                && hit.value in bad && hit.value in grown[|grown| - 1].parents
                && forall n: nat :: Near(universe, blockSet[0], known, n) ==> |grown| <= n
      ensures e.None? && hit.None? ==>
                && (if stopped then Arrived(universe, grown[|grown| - 1], known.height + 1)
                    else |grown| > |blockSet| && grown[|blockSet|].cids == blockSet[|blockSet| - 1].parents)
                && forall n: nat :: Near(universe, blockSet[0], known, n) ==> |grown| <= n + 1
    {
      var untilHeight := known.height + 1;
      grown, stopped, hit := blockSet, false, None;
      var seg := NextSegment(blockSet[|blockSet| - 1], untilHeight);
      if seg.Err? {
        return Some(seg.error), grown, stopped, hit;
      }
      e := None;
      grown, stopped, hit := AppendSegment(blockSet, seg.value, untilHeight);
      StillAbove(universe, blockSet[0], known, blockSet);
      GrownBound(universe, blockSet[0], known, blockSet, grown);
      if hit.Some? {
        GrownBelow(universe, blockSet[0], known, blockSet, grown);
      }
    }

    /** A fork may end below the m-th ancestor of known too. */
    ghost predicate RoomBelow(known: TipSet, ignoreCheckpoint: bool, m: nat) {
      var chk := EffectiveCheckpoint(ignoreCheckpoint);
      chk != Some(known) && MeetAllowed(store, known, chk, forkLengthThreshold, m + 1)
    }

    /** One round of the walk: the next stored tipset, or what a request brings. */
    method WalkRound(blockSet: seq<TipSet>, accepted: seq<Cid>, known: TipSet, ghost starts: seq<nat>)
      returns (round: Round, grown: seq<TipSet>, accepted': seq<Cid>, ghost starts': seq<nat>)
      requires Valid() && Walking(universe, store, bad, blockSet, accepted, starts)
      requires blockSet[|blockSet| - 1].height > known.height + 1
      modifies this
      ensures Valid()
      ensures round.Failed? ==> if round.e == LinkedToBad then WalkDenied(universe, store, old(bad), bad, blockSet[0])
                                else round.e == FetchFailed && bad == old(bad) && Unanswered(calls)
      ensures !round.Failed? ==> bad == old(bad) && blockSet <= grown
      ensures round == GoOn ==> Walking(universe, store, bad, grown, accepted', starts')
      ensures round == GoOn ==> grown[|grown| - 1].height < blockSet[|blockSet| - 1].height
      ensures round == Stop ==> IsChain(grown) && Members(universe, grown) && CleanWalk(bad, grown)
      ensures round == Stop ==> Arrived(universe, grown[|grown| - 1], known.height + 1)
      ensures forall n: nat :: Near(universe, blockSet[0], known, n) ==>
                && (!round.Failed? ==> |grown| <= n + 1)
                && ((&& CleanPath(universe, old(bad), blockSet[0], n)
                     && (Honest(universe, exchange) || StoredRun(store, blockSet[0], known, n))) ==> !round.Failed?)
      ensures forall n: nat :: StoredRun(store, blockSet[0], known, n) ==> calls == old(calls) && round != Stop
    {
      var i := |blockSet| - 1;
      var at := blockSet[i].parents;
      grown, accepted', starts' := blockSet, accepted, starts;
      StillAbove(universe, blockSet[0], known, blockSet);
      RunGoesOn(universe, store, blockSet[0], known, blockSet);
      var hit := FirstBad(at);
      if hit.Some? {
        ParentNotBad(universe, bad, blockSet[0], known, blockSet);
        Denounce(blockSet, accepted, hit.value, blockSet, starts);
        return Failed(LinkedToBad), grown, accepted', starts';
      }
      if at in store {
        // a suffix of the chain is here already; no height cut-off in this branch
        assert Proper(universe, at) && Proper(universe, blockSet[i].cids);
        grown := blockSet + [store[at]];
        ParentIsChain(universe, blockSet, store[at]);
        WalkingOn(universe, store, bad, blockSet, accepted, starts, grown);
        return GoOn, grown, accepted + at, starts + [|blockSet|];
      }
      round, grown, accepted', starts' := FetchRound(blockSet, accepted, known, starts);
    }

    /** A round that makes a request. */
    method FetchRound(blockSet: seq<TipSet>, accepted: seq<Cid>, known: TipSet, ghost starts: seq<nat>)
      returns (round: Round, grown: seq<TipSet>, accepted': seq<Cid>, ghost starts': seq<nat>)
      requires Valid() && Walking(universe, store, bad, blockSet, accepted, starts)
      requires blockSet[|blockSet| - 1].height > known.height + 1
      requires blockSet[|blockSet| - 1].parents !in store && !HasBad(bad, blockSet[|blockSet| - 1].parents)
      modifies this
      ensures Valid()
      ensures round.Failed? ==> if round.e == LinkedToBad then WalkDenied(universe, store, old(bad), bad, blockSet[0])
                                else round.e == FetchFailed && bad == old(bad) && Unanswered(calls)
      ensures !round.Failed? ==> bad == old(bad) && blockSet <= grown
      ensures round == GoOn ==> Walking(universe, store, bad, grown, accepted', starts')
      ensures round == GoOn ==> grown[|grown| - 1].height < blockSet[|blockSet| - 1].height
      ensures round == Stop ==> IsChain(grown) && Members(universe, grown) && CleanWalk(bad, grown)
      ensures round == Stop ==> Arrived(universe, grown[|grown| - 1], known.height + 1)
      ensures forall n: nat :: Near(universe, blockSet[0], known, n) ==>
                && (!round.Failed? ==> |grown| <= n + 1)
                && (CleanPath(universe, old(bad), blockSet[0], n) && Honest(universe, exchange) ==> !round.Failed?)
    {
      accepted', starts' := accepted, starts;
      StillAbove(universe, blockSet[0], known, blockSet);
      var e, stopped, hit;
      e, grown, stopped, hit := FetchSegment(blockSet, known);
      if e.Some? {
        return Failed(e.value), grown, accepted', starts';
      }
      if hit.Some? {
        ParentNotBad(universe, bad, blockSet[0], known, grown);
        Denounce(grown, accepted, hit.value, blockSet, starts);
        return Failed(LinkedToBad), grown, accepted', starts';
      }
      CleanGrows(bad, blockSet, grown);
      if stopped {
        return Stop, grown, accepted', starts';
      }
      ChainFalls(grown, |blockSet| - 1, |grown| - 1);
      WalkingOn(universe, store, bad, blockSet, accepted, starts, grown);
      return GoOn, grown, accepted + blockSet[|blockSet| - 1].parents, starts + [|blockSet|];
    }

    /** The walk from incoming back to the height above known. */
    method WalkBack(incoming: TipSet, known: TipSet) returns (r: Result<seq<TipSet>>)
      requires Valid() && Member(universe, incoming) && Member(universe, known)
      modifies this
      ensures Valid()
      ensures r.Ok? ==> bad == old(bad) && Walked(universe, store, incoming, known, r.value) && CleanWalk(bad, r.value)
      ensures incoming.height <= known.height + 1 ==> r == Ok([incoming])
      ensures r.Err? ==> if r.error == LinkedToBad then WalkDenied(universe, store, old(bad), bad, incoming)
                         else r.error == FetchFailed && bad == old(bad) && Unanswered(calls)
      ensures forall n: nat :: Near(universe, incoming, known, n) && CleanPath(universe, old(bad), incoming, n) ==>
                (Honest(universe, exchange) || StoredRun(store, incoming, known, n) ==> r.Ok?)
      ensures forall n: nat :: StoredRun(store, incoming, known, n) ==> calls == old(calls)
    {
      var blockSet := [incoming];
      var accepted: seq<Cid> := [];
      ghost var starts: seq<nat> := [];
      RunIsNear(universe, store, incoming, known);
      while blockSet[|blockSet| - 1].height > known.height + 1
        invariant Valid() && bad == old(bad)
        invariant Walking(universe, store, bad, blockSet, accepted, starts) && blockSet[0] == incoming
        invariant forall n: nat :: Near(universe, incoming, known, n) ==> |blockSet| <= n + 1
        invariant incoming.height <= known.height + 1 ==> blockSet == [incoming]
        invariant forall n: nat :: StoredRun(store, incoming, known, n) ==> calls == old(calls)
        decreases blockSet[|blockSet| - 1].height - known.height - 1
      {
        var round, grown;
        round, grown, accepted, starts := WalkRound(blockSet, accepted, known, starts);
        match round
        case Failed(e) => return Err(e);
        case Stop => return Ok(grown);
        case GoOn => blockSet := grown;
      }
      RunEnds(universe, store, incoming, known, blockSet);
      return Ok(blockSet);
    }

    // ------------------------------------------------------------ linking into our chain

    /** What syncFork, making this exchange request, may return. */
    ghost predicate ForkResult(call: nat, base: TipSet, known: TipSet, ignoreCheckpoint: bool, r: Result<seq<TipSet>>) {
      var chk := EffectiveCheckpoint(ignoreCheckpoint);
      var tips := exchange(call, base.parents, forkLengthThreshold);
      if chk == Some(known) then r == Err(ForkCheckpoint)
      else if tips.None? then r == Err(FetchFailed)
      else if known.parents !in store then r == Err(LoadFailed)
      else
        && ForkOutcome(store, known, chk, forkLengthThreshold, tips.value, r)
        && (r.Err? ==> r.error in {ForkTooLong, ForkCheckpoint} || OwnFailure(store, genesis, known, chk, forkLengthThreshold, r.error))
    }

    /** syncFork: fetches the fork's ancestors and searches them for an ancestor of known. */
    method ResolveFork(base: TipSet, known: TipSet, ignoreCheckpoint: bool) returns (r: Result<seq<TipSet>>)
      requires Valid() && Member(universe, base) && Member(universe, known)
      modifies this`calls
      ensures Valid() && ForkResult(old(calls), base, known, ignoreCheckpoint, r)
      ensures ignoreCheckpoint ==> r != Err(ForkCheckpoint)
      ensures r == Err(FetchFailed) ==> Unanswered(calls)
    {
      var chk := EffectiveCheckpoint(ignoreCheckpoint);
      if chk.Some? && known.Equals(chk.value) {
        return Err(ForkCheckpoint);
      }
      var tips := exchange(calls, base.parents, forkLengthThreshold);
      calls := calls + 1;
      if tips.None? {
        return Err(FetchFailed);
      }
      assert IsSegment(universe, base.parents, forkLengthThreshold, tips.value);
      if known.parents !in store {
        return Err(LoadFailed);
      }
      var nts := store[known.parents];
      assert Back(store, known, 1) == Some(nts) by {
        assert Back(store, known, 0) == Some(known);
      }
      r := FindCommonAncestor(universe, store, genesis, known, nts, chk, forkLengthThreshold, tips.value);
    }

    /** The tail of collectHeaders: the walked chain is linked to known, to its parent, or to a fork point. */
    method LinkUp(walked: seq<TipSet>, known: TipSet, ignoreCheckpoint: bool) returns (r: Result<seq<TipSet>>)
      requires Valid() && Member(universe, known) && walked != [] && walked[0] != known
      requires IsChain(walked) && Members(universe, walked)
      modifies this
      ensures Valid()
      ensures r.Ok? ==> bad == old(bad)
      ensures r.Ok? ==> Collected(universe, store, walked[0], known, EffectiveCheckpoint(ignoreCheckpoint), r.value)
      ensures r.Err? ==> JustifiedMarks(universe, old(bad), bad, walked[0], r)
      ensures r.Err? ==> LinkVerdict(old(bad), bad, walked[0], r.error)
      ensures Links(walked, known, ignoreCheckpoint, old(calls), r)
      ensures ignoreCheckpoint ==> r != Err(ForkCheckpoint)
      ensures r == Err(FetchFailed) ==> Unanswered(calls)
      ensures walked[|walked| - 1] == known ==> r == Ok(walked[..|walked| - 1])
      ensures walked[|walked| - 1].IsChildOf(known) ==> r == Ok(walked)
      ensures Sibling(store, known, walked[|walked| - 1]) ==> r == Ok(walked)
    {
      var incoming := walked[0];
      var blockSet := walked;
      var base := blockSet[|blockSet| - 1];
      assert base.Equals(known) <==> base == known by {
        assert Member(universe, base);
      }
      if base.Equals(known) {
        assert walked[|walked| - 2].IsChildOf(known);
        blockSet := blockSet[..|blockSet| - 1];
        base := blockSet[|blockSet| - 1];
      }
      if base.IsChildOf(known) {
        return Ok(blockSet);
      }
      if known.parents !in store {
        return Err(LoadFailed);
      }
      var knownParent := store[known.parents];
      if base.IsChildOf(knownParent) {
        return Ok(blockSet);
      }
      ghost var tips := exchange(calls, base.parents, forkLengthThreshold);
      var fork := ResolveFork(base, known, ignoreCheckpoint);
      if fork.Err? {
        if fork.error == ForkTooLong || fork.error == ForkCheckpoint {
          MarkAll(incoming.cids, NewReason(incoming.cids, "fork past finality"));
        }
        return Err(fork.error);
      }
      ForkExtends(universe, store, known, EffectiveCheckpoint(ignoreCheckpoint), forkLengthThreshold,
                  blockSet, tips.value, fork.value);
      return Ok(blockSet + fork.value);
    }

    /** collectHeaders. walked is the chain that the walk back ended with, or empty when it did not succeed. */
    method CollectHeaders(incoming: TipSet, known: TipSet, ignoreCheckpoint: bool)
      returns (r: Result<seq<TipSet>>, ghost walked: seq<TipSet>)
      requires Valid() && Member(universe, incoming) && Member(universe, known) && incoming != known
      modifies this
      ensures Valid()
      ensures r.Ok? ==> bad == old(bad) && walked != []
      ensures r.Ok? ==> Collected(universe, store, incoming, known, EffectiveCheckpoint(ignoreCheckpoint), r.value)
      ensures r.Err? ==> JustifiedMarks(universe, old(bad), bad, incoming, r)
      // the walk: where it may end, and when it succeeds
      ensures walked != [] ==> Walked(universe, store, incoming, known, walked) && CleanWalk(old(bad), walked)
      ensures r == Err(FetchFailed) ==> Unanswered(calls)
      ensures forall n: nat ::
                (&& CleanStart(old(bad), incoming) && Near(universe, incoming, known, n)
                 && CleanPath(universe, old(bad), incoming, n)
                 && (Honest(universe, exchange) || StoredRun(store, incoming, known, n))) ==> walked != []
      // a head that extends known is collected exactly, whatever part of the way is stored locally
      ensures forall n: nat ::
                Extends(universe, incoming, known, n) && Honest(universe, exchange)
                && CleanStart(old(bad), incoming) && CleanPath(universe, old(bad), incoming, n) ==>
                r.Ok? && |r.value| == n
      // what is walked is linked to our chain exactly when it ends next to known or the chains meet behind it
      ensures walked != [] && Generous(universe, exchange) ==> (r.Ok? <==> LinkAllowed(walked, known, ignoreCheckpoint))
      // a fork is collected, however it was walked, when it may end where the chains meet
      ensures forall i: nat, n: nat, m: nat, k: nat ::
                (&& Generous(universe, exchange) && CleanStart(old(bad), incoming)
                 && CleanPath(universe, old(bad), incoming, k)
                 && Plan(incoming, known, ignoreCheckpoint, i, n, m, k)) ==> r.Ok?
      // a stored run that ends at an ancestor of known must leave room for one tipset more
      ensures forall n: nat, m: nat ::
                (&& RunsOnto(incoming, known, n, m) && Honest(universe, exchange) && CleanStart(old(bad), incoming)
                 && CleanPath(universe, old(bad), incoming, n)) ==> (r.Ok? <==> RoomBelow(known, ignoreCheckpoint, m))
      // so one that ends at the checkpoint, where a fork may end, is refused for leaving the checkpoint
      ensures forall n: nat, m: nat ::
                (&& RunsOnto(incoming, known, n, m) && Honest(universe, exchange) && CleanStart(old(bad), incoming)
                 && CleanPath(universe, old(bad), incoming, n)
                 && AtCheckpoint(known, ignoreCheckpoint, m)) ==> r == Err(ForkCheckpoint)
      // nothing is refused for leaving a checkpoint that is to be ignored
      ensures ignoreCheckpoint ==> r != Err(ForkCheckpoint)
      ensures r.Err? && !CleanStart(old(bad), incoming) ==> StartVerdict(old(bad), bad, incoming, r.error)
      ensures r.Err? && CleanStart(old(bad), incoming) ==>
                if r.error == LinkedToBad then WalkDenied(universe, store, old(bad), bad, incoming)
                else LinkVerdict(old(bad), bad, incoming, r.error)
      ensures incoming.height <= known.height + 1 ==>
                CleanStart(old(bad), incoming) && Sibling(store, known, incoming) ==> r == Ok([incoming])
    {
      assert Proper(universe, incoming.cids);
      walked := [];
      var e := CheckStart(incoming);
      if e.Some? {
        return Err(e.value), walked;
      }
      var back := WalkBack(incoming, known);
      if back.Err? {
        RunIsNear(universe, store, incoming, known);
        WalkDeniedJustified(universe, store, old(bad), bad, incoming, back.error);
        ExtensionIsNear(universe, incoming, known);
        return back, walked;
      }
      walked := back.value;
      ghost var call := calls;
      r := LinkUp(back.value, known, ignoreCheckpoint);
      ExtensionCollected(universe, incoming, known, walked);
      LinkDecided(incoming, known, ignoreCheckpoint, walked, call, r);
      PlannedForkLinks(incoming, known, ignoreCheckpoint, walked, call, r);
      StoredForkLinks(incoming, known, ignoreCheckpoint, walked, call, r);
      CheckpointRunRefused(incoming, known, ignoreCheckpoint, walked, call, r);
    }

    ghost predicate Plan(incoming: TipSet, known: TipSet, ignoreCheckpoint: bool, i: nat, n: nat, m: nat, k: nat) {
      ForkPlan(universe, store, incoming, known, EffectiveCheckpoint(ignoreCheckpoint), forkLengthThreshold, i, n, m, k)
    }

    /** The stored run from incoming ends at the m-th ancestor of known. */
    ghost predicate RunsOnto(incoming: TipSet, known: TipSet, n: nat, m: nat) {
      m > 0 && StoredRun(store, incoming, known, n) && Back(store, incoming, n) == Back(store, known, m)
    }

    /** A fork may end at the m-th ancestor of known, which is the checkpoint and not the last we have. */
    ghost predicate AtCheckpoint(known: TipSet, ignoreCheckpoint: bool, m: nat) {
      var chk := EffectiveCheckpoint(ignoreCheckpoint);
      && chk != Some(known) && Back(store, known, m) == chk && Back(store, known, m + 1).Some?
      && m < forkLengthThreshold && MeetAllowed(store, known, chk, forkLengthThreshold, m)
    }

    /** The walked chain ends at known or next to it, or the chains meet behind it where a fork may end. */
    ghost predicate LinkAllowed(walked: seq<TipSet>, known: TipSet, ignoreCheckpoint: bool)
      requires walked != []
    {
      var base, chk := walked[|walked| - 1], EffectiveCheckpoint(ignoreCheckpoint);
      || base == known || base.IsChildOf(known) || Sibling(store, known, base)
      || (chk != Some(known) && FoundBehind(universe, store, walked[0], known, chk, forkLengthThreshold, |walked|))
    }

    /** What LinkUp promises when the walked chain does not end at known or next to it. */
    ghost predicate Links(walked: seq<TipSet>, known: TipSet, ignoreCheckpoint: bool, call: nat, r: Result<seq<TipSet>>)
      requires walked != []
    {
      var base := walked[|walked| - 1];
      if base == known || base.IsChildOf(known) || Sibling(store, known, base) then r.Ok?
      else if known.parents !in store then r == Err(LoadFailed)
      else exists fork :: ForkResult(call, base, known, ignoreCheckpoint, fork)
                          && r == if fork.Ok? then Ok(walked + fork.value) else fork
    }

    lemma LinkDecided(incoming: TipSet, known: TipSet, ignoreCheckpoint: bool, walked: seq<TipSet>, call: nat,
                      r: Result<seq<TipSet>>)
      requires Valid() && Walked(universe, store, incoming, known, walked)
      requires Links(walked, known, ignoreCheckpoint, call, r)
      ensures Generous(universe, exchange) ==> (r.Ok? <==> LinkAllowed(walked, known, ignoreCheckpoint))
    {
      if Generous(universe, exchange) {
        var chk := EffectiveCheckpoint(ignoreCheckpoint);
        var tips := exchange(call, walked[|walked| - 1].parents, forkLengthThreshold);
        forall n: nat, m: nat | MeetsBehind(universe, store, incoming, known, chk, forkLengthThreshold, |walked|, n, m)
          ensures known.parents in store && tips.Some?
        {
          StoredParent(store, known, m);
          BackDefined(universe, incoming, |walked|, n);
          ChainIsBack(universe, walked, |walked| - 1);
        }
        if tips.Some? {
          SearchDecided(universe, store, incoming, known, chk, forkLengthThreshold, walked, tips.value);
        }
      }
    }

    lemma PlannedForkLinks(incoming: TipSet, known: TipSet, ignoreCheckpoint: bool, walked: seq<TipSet>, call: nat,
                           r: Result<seq<TipSet>>)
      requires Valid() && Walked(universe, store, incoming, known, walked)
      requires Links(walked, known, ignoreCheckpoint, call, r)
      ensures forall i: nat, n: nat, m: nat, k: nat ::
                Plan(incoming, known, ignoreCheckpoint, i, n, m, k) && Generous(universe, exchange) ==> r.Ok?
    {
      LinkDecided(incoming, known, ignoreCheckpoint, walked, call, r);
      forall i: nat, n: nat, m: nat, k: nat |
        Plan(incoming, known, ignoreCheckpoint, i, n, m, k) && Generous(universe, exchange)
        ensures r.Ok?
      {
        PlannedIsFound(universe, store, incoming, known, EffectiveCheckpoint(ignoreCheckpoint), forkLengthThreshold,
                       walked, i, n, m, k);
      }
    }

    lemma StoredForkLinks(incoming: TipSet, known: TipSet, ignoreCheckpoint: bool, walked: seq<TipSet>, call: nat,
                          r: Result<seq<TipSet>>)
      requires Valid() && Member(universe, known) && Walked(universe, store, incoming, known, walked)
      requires Links(walked, known, ignoreCheckpoint, call, r)
      ensures forall n: nat, m: nat :: RunsOnto(incoming, known, n, m) && Honest(universe, exchange) ==>
                (r.Ok? <==> RoomBelow(known, ignoreCheckpoint, m))
    {
      var chk := EffectiveCheckpoint(ignoreCheckpoint);
      forall n: nat, m: nat | RunsOnto(incoming, known, n, m) && Honest(universe, exchange)
        ensures r.Ok? <==> RoomBelow(known, ignoreCheckpoint, m)
      {
        var t := walked[n];
        var tips := exchange(call, t.parents, forkLengthThreshold);
        BackInPart(store, universe, incoming, n);
        ChainIsBack(universe, walked, n);
        StoredParent(store, known, m);
        AncestorIsNoSibling(universe, store, known, t, m);
        if tips.Some? {
          JumpedForkIff(universe, store, known, chk, forkLengthThreshold, t, tips.value, m);
        } else {
          assert t.parents !in universe;
        }
      }
    }

    lemma CheckpointRunRefused(incoming: TipSet, known: TipSet, ignoreCheckpoint: bool, walked: seq<TipSet>, call: nat,
                               r: Result<seq<TipSet>>)
      requires Valid() && Member(universe, known) && Walked(universe, store, incoming, known, walked)
      requires Links(walked, known, ignoreCheckpoint, call, r)
      ensures forall n: nat, m: nat ::
                RunsOnto(incoming, known, n, m) && Honest(universe, exchange) && AtCheckpoint(known, ignoreCheckpoint, m) ==>
                r == Err(ForkCheckpoint)
    {
      var chk := EffectiveCheckpoint(ignoreCheckpoint);
      forall n: nat, m: nat |
        RunsOnto(incoming, known, n, m) && Honest(universe, exchange) && AtCheckpoint(known, ignoreCheckpoint, m)
        ensures r == Err(ForkCheckpoint)
      {
        var t := walked[n];
        var tips := exchange(call, t.parents, forkLengthThreshold);
        BackInPart(store, universe, incoming, n);
        ChainIsBack(universe, walked, n);
        StoredParent(store, known, m);
        AncestorIsNoSibling(universe, store, known, t, m);
        BackInPart(store, universe, known, m + 1);
        assert tips.Some?;
        assert !Passable(store, known, chk, m);
        BehindMeeting(universe, store, known, t, tips.value, m);
        JumpedForkIff(universe, store, known, chk, forkLengthThreshold, t, tips.value, m);
        OwnChainFits(store, genesis, known, chk, forkLengthThreshold, m);
      }
    }
  }

  /** Our own chain gives no cause to fail before the checkpoint. */
  lemma OwnChainFits(store: View, genesis: TipSet, known: TipSet, checkpoint: Option<TipSet>, threshold: nat, m: nat)
    requires MeetAllowed(store, known, checkpoint, threshold, m) && Back(store, known, m) == checkpoint
    ensures forall e :: !OwnFailure(store, genesis, known, checkpoint, threshold, e)
  {
    forall k: nat | WalkedTo(store, known, checkpoint, threshold, k)
      ensures !GroundAt(store, known, k) && !(EndsAt(store, known, k) && Passable(store, known, checkpoint, k))
    {
      assert !Passable(store, known, checkpoint, m);
      if k < m {
        assert Passable(store, known, checkpoint, k);
        BackDefined(store, known, k + 1, m);
      }
    }
  }

  lemma WalkDeniedJustified(u: View, store: View, before: DenyList, after: DenyList, incoming: TipSet, e: SyncError)
    requires ShallowReasons(before)
    requires if e == LinkedToBad then WalkDenied(u, store, before, after, incoming) else after == before
    ensures JustifiedMarks(u, before, after, incoming, Err(e))
  {
    if e == LinkedToBad {
      var starts, len: nat, d :| WalkVerdict(u, store, before, after, incoming, starts, len, d);
      WalkVerdictJustified(u, store, before, after, incoming, starts, len, d);
    }
  }

  /** A fork found by the search continues the walked chain down to a proper ancestor of known. */
  lemma ForkExtends(u: View, store: View, known: TipSet, checkpoint: Option<TipSet>, threshold: nat,
                    blockSet: seq<TipSet>, tips: seq<TipSet>, fork: seq<TipSet>)
    requires IsUniverse(u) && blockSet != [] && IsChain(blockSet) && Members(u, blockSet)
    requires IsChain(tips) && Members(u, tips) && tips != [] && tips[0].cids == blockSet[|blockSet| - 1].parents
    requires checkpoint != Some(known) && ForkOutcome(store, known, checkpoint, threshold, tips, Ok(fork))
    ensures IsChain(blockSet + fork) && Members(u, blockSet + fork)
    ensures fork != [] && Forked(store, known, checkpoint, fork[|fork| - 1])
  {
    var all := blockSet + fork;
    forall i | 0 <= i < |all|
      ensures Member(u, all[i])
    {
      if i >= |blockSet| {
        assert all[i] == tips[i - |blockSet|];
      }
    }
    forall i | 0 < i < |all|
      ensures all[i - 1].IsChildOf(all[i])
    {
      if i < |blockSet| {
        assert blockSet[i - 1].IsChildOf(blockSet[i]);
      } else if i == |blockSet| {
        assert Member(u, tips[0]) && Proper(u, blockSet[i - 1].cids);
      } else {
        assert tips[i - 1 - |blockSet|].IsChildOf(tips[i - |blockSet|]);
      }
    }
    var c: nat, m: nat :| c == |fork| - 1 && Reachable(store, known, checkpoint, threshold, tips, c, m);
    assert fork[c] == tips[c];
    forall j: nat | j < m
      ensures Back(store, known, j) != checkpoint || checkpoint.None?
    {
      if j > 0 {
        assert Passable(store, known, checkpoint, j);
      }
    }
    assert ForkPoint(store, known, checkpoint, fork[c], m);
  }

  lemma LinkedShallow(r: BadBlockReason, reason: string)
    requires Depth(r) <= 1
    ensures Depth(Linked(r, reason)) <= 1 && Linked(r, reason).original == Some(Root(r))
  {
  }
}
