/** The way back from a candidate head to our chain, and where the two meet. */
module WayBack {
  import opened Wrappers
  import opened Tipsets
  import opened ChainView
  import opened SyncFork

  /** A tipset on top of known's parent, so a potential sibling of known. */
  ghost predicate Sibling(store: View, known: TipSet, last: TipSet) {
    known.parents in store && last.IsChildOf(store[known.parents]) && last != known && !last.IsChildOf(known)
  }

  ghost predicate Extends(u: View, incoming: TipSet, known: TipSet, n: nat) {
    n > 0 && Back(u, incoming, n) == Some(known)
  }

  /** The n-th ancestor of incoming is not above the height where the walk ends. */
  ghost predicate Near(u: View, incoming: TipSet, known: TipSet, n: nat) {
    Back(u, incoming, n).Some? && Back(u, incoming, n).value.height <= known.height + 1
  }

  /** The walk back has come down to the height above known. */
  ghost predicate Arrived(u: View, last: TipSet, untilHeight: int) {
    last.height <= untilHeight || (last.parents in u && u[last.parents].height < untilHeight)
  }

  /** Peers that answer every request for a tipset that exists. */
  ghost predicate Honest(u: View, ex: Exchange) {
    forall call, key, n {:trigger ex(call, key, n)} :: key in u && n > 0 ==> ex(call, key, n).Some?
  }

  ghost predicate Complete(u: View, n: int, seg: seq<TipSet>) {
    |seg| == n || (seg != [] && seg[|seg| - 1].parents !in u)
  }

  /** Peers that also answer at full length, as far as the chain goes. */
  ghost predicate Generous(u: View, ex: Exchange) {
    Honest(u, ex) && forall call, key, n {:trigger ex(call, key, n)} ::
      ex(call, key, n).Some? ==> Complete(u, n, ex(call, key, n).value)
  }

  /** A tipset on the way to known is above it exactly when it comes before it. */
  lemma AboveKnown(u: View, incoming: TipSet, known: TipSet, n: nat, i: nat)
    requires IsUniverse(u) && Member(u, incoming) && Extends(u, incoming, known, n)
    requires Back(u, incoming, i).Some?
    ensures Back(u, incoming, i).value.height > known.height <==> i < n
  {
    if i < n {
      BackFalls(u, incoming, i, n);
    } else if n < i {
      BackFalls(u, incoming, n, i);
    }
  }

  /** When the walk has arrived and has not overshot, it is just above known or at known. */
  lemma ArrivedAtKnown(u: View, incoming: TipSet, known: TipSet, n: nat, i: nat)
    requires IsUniverse(u) && Member(u, incoming) && Extends(u, incoming, known, n)
    requires i <= n && Back(u, incoming, i).Some? && Arrived(u, Back(u, incoming, i).value, known.height + 1)
    ensures i + 1 >= n
  {
    if i + 1 < n {
      BackDefined(u, incoming, i + 1, n);
      AboveKnown(u, incoming, known, n, i + 1);
      BackFalls(u, incoming, i, i + 1);
    }
  }

  /** A chain that is still above known + 1 goes on, and stops short of every near ancestor. */
  lemma StillAbove(u: View, incoming: TipSet, known: TipSet, bs: seq<TipSet>)
    requires IsUniverse(u) && bs != [] && bs[0] == incoming && IsChain(bs) && Members(u, bs)
    requires bs[|bs| - 1].height > known.height + 1
    ensures forall n: nat :: Near(u, incoming, known, n) ==> |bs| <= n && bs[|bs| - 1].parents in u
  {
    forall n: nat | Near(u, incoming, known, n)
      ensures |bs| <= n && bs[|bs| - 1].parents in u
    {
      ChainIsBack(u, bs, |bs| - 1);
      if n < |bs| - 1 {
        BackFalls(u, incoming, n, |bs| - 1);
      }
      BackDefined(u, incoming, |bs|, n);
    }
  }

  /** Appending only tipsets above known does not go past a near ancestor. */
  lemma GrownBound(u: View, incoming: TipSet, known: TipSet, bs: seq<TipSet>, grown: seq<TipSet>)
    requires IsUniverse(u) && bs != [] && bs[0] == incoming && bs <= grown && IsChain(grown) && Members(u, grown)
    requires forall i :: |bs| <= i < |grown| ==> grown[i].height > known.height
    requires forall n: nat :: Near(u, incoming, known, n) ==> |bs| <= n
    ensures forall n: nat :: Near(u, incoming, known, n) ==> |grown| <= n + 1
  {
    forall n: nat | Near(u, incoming, known, n)
      ensures |grown| <= n + 1
    {
      ChainIsBack(u, grown, |grown| - 1);
      if |bs| < |grown| && n < |grown| - 1 {
        BackFalls(u, incoming, n, |grown| - 1);
      }
    }
  }

  /** ... and when the next parent is above known too, it stops short of it. */
  lemma GrownBelow(u: View, incoming: TipSet, known: TipSet, bs: seq<TipSet>, grown: seq<TipSet>)
    requires IsUniverse(u) && bs != [] && bs[0] == incoming && bs <= grown && IsChain(grown) && Members(u, grown)
    requires forall i :: |bs| <= i < |grown| ==> grown[i].height > known.height
    requires forall n: nat :: Near(u, incoming, known, n) ==> |bs| <= n
    requires var up := grown[|grown| - 1].parents; up in u && u[up].height > known.height
    ensures forall n: nat :: Near(u, incoming, known, n) ==> |grown| <= n
  {
    var parent := u[grown[|grown| - 1].parents];
    assert Proper(u, grown[|grown| - 1].parents);
    ParentIsChain(u, grown, parent);
    GrownBound(u, incoming, known, bs, grown + [parent]);
  }

  /** A walk towards known that has arrived ends at known or at its child. */
  lemma ExtensionCollected(u: View, incoming: TipSet, known: TipSet, walked: seq<TipSet>)
    requires IsUniverse(u) && walked != [] && walked[0] == incoming && IsChain(walked) && Members(u, walked)
    requires Arrived(u, walked[|walked| - 1], known.height + 1)
    requires forall n: nat :: Near(u, incoming, known, n) ==> |walked| <= n + 1
    ensures forall n: nat :: Extends(u, incoming, known, n) ==>
              if |walked| == n + 1 then walked[|walked| - 1] == known
              else |walked| == n && walked[|walked| - 1].IsChildOf(known)
  {
    forall n: nat | Extends(u, incoming, known, n)
      ensures if |walked| == n + 1 then walked[|walked| - 1] == known
              else |walked| == n && walked[|walked| - 1].IsChildOf(known)
    {
      var i := |walked| - 1;
      assert Near(u, incoming, known, n);
      ChainIsBack(u, walked, i);
      ArrivedAtKnown(u, incoming, known, n, i);
      if i + 1 == n {
        BackMember(u, incoming, n);
        assert Proper(u, walked[i].cids);
        assert Proper(u, walked[i].parents);
      }
    }
  }

  /** The way back from incoming is stored here down to its n-th ancestor, the first that is not above the
      height where the walk ends. */
  ghost predicate StoredRun(store: View, incoming: TipSet, known: TipSet, n: nat) {
    && Near(store, incoming, known, n)
    && forall i: nat :: i < n ==> Back(store, incoming, i).Some? && Back(store, incoming, i).value.height > known.height + 1
  }

  /** On a stored run the walk finds the next parent here. */
  lemma RunGoesOn(u: View, store: View, incoming: TipSet, known: TipSet, bs: seq<TipSet>)
    requires IsUniverse(u) && PartOf(store, u) && bs != [] && bs[0] == incoming && IsChain(bs) && Members(u, bs)
    requires bs[|bs| - 1].height > known.height + 1
    ensures forall n: nat :: StoredRun(store, incoming, known, n) ==> bs[|bs| - 1].parents in store
  {
    StillAbove(u, incoming, known, bs);
    forall n: nat | StoredRun(store, incoming, known, n)
      ensures bs[|bs| - 1].parents in store
    {
      BackInPart(store, u, incoming, n);
      assert Near(u, incoming, known, n);
      BackDefined(store, incoming, |bs|, n);
      BackInPart(store, u, incoming, |bs| - 1);
      ChainIsBack(u, bs, |bs| - 1);
    }
  }

  /** A walk that has come down by stored tipsets, and not past the end of the run, ends there. */
  lemma RunEnds(u: View, store: View, incoming: TipSet, known: TipSet, bs: seq<TipSet>)
    requires IsUniverse(u) && PartOf(store, u) && bs != [] && bs[0] == incoming && IsChain(bs) && Members(u, bs)
    requires bs[|bs| - 1].height <= known.height + 1
    requires forall n: nat :: Near(u, incoming, known, n) ==> |bs| <= n + 1
    ensures forall n: nat :: StoredRun(store, incoming, known, n) ==> |bs| == n + 1
  {
    forall n: nat | StoredRun(store, incoming, known, n)
      ensures |bs| == n + 1
    {
      BackInPart(store, u, incoming, n);
      assert Near(u, incoming, known, n);
      ChainIsBack(u, bs, |bs| - 1);
      if |bs| - 1 < n {
        BackInPart(store, u, incoming, |bs| - 1);
      }
    }
  }

  lemma RunIsNear(u: View, store: View, incoming: TipSet, known: TipSet)
    requires PartOf(store, u)
    ensures forall n: nat :: StoredRun(store, incoming, known, n) ==> Near(u, incoming, known, n)
  {
    forall n: nat | StoredRun(store, incoming, known, n)
      ensures Near(u, incoming, known, n)
    {
      BackInPart(store, u, incoming, n);
    }
  }

  lemma ExtensionIsNear(u: View, incoming: TipSet, known: TipSet)
    ensures forall n: nat :: Extends(u, incoming, known, n) ==> Near(u, incoming, known, n)
  {
  }

  /** Where a walk from incoming that has succeeded may have ended. */
  ghost predicate Walked(u: View, store: View, incoming: TipSet, known: TipSet, walked: seq<TipSet>) {
    && walked != [] && walked[0] == incoming && IsChain(walked) && Members(u, walked)
    && Arrived(u, walked[|walked| - 1], known.height + 1)
    && (forall n: nat :: Near(u, incoming, known, n) ==> |walked| <= n + 1)
    && (forall n: nat :: StoredRun(store, incoming, known, n) ==> |walked| == n + 1)
  }

  // ---------------------------------------------------------------- forks

  /** syncFork may end at the m-th local ancestor of known. */
  ghost predicate MeetAllowed(store: View, known: TipSet, checkpoint: Option<TipSet>, threshold: nat, m: nat) {
    && 0 < m <= threshold && Back(store, known, m).Some? && Back(store, known, m).value.height != 0
    && forall j: nat :: 0 < j < m ==> Passable(store, known, checkpoint, j)
  }

  /** The chain of incoming meets that of known at incoming's n-th and known's m-th ancestor, where a fork
      may end and which a request made i tipsets back reaches. The walk ends at incoming's k-th ancestor
      at the latest: above the meeting point, or at it if the fork may end one tipset further down too. */
  ghost predicate ForkPlan(u: View, store: View, incoming: TipSet, known: TipSet, checkpoint: Option<TipSet>,
                           threshold: nat, i: nat, n: nat, m: nat, k: nat) {
    && checkpoint != Some(known) && i < n
    && Back(u, incoming, n) == Back(store, known, m) && MeetAllowed(store, known, checkpoint, threshold, m)
    && n - i <= threshold
    && (i == 0 || (Back(u, incoming, i).Some? && Back(u, incoming, i).value.height > known.height))
    && Near(u, incoming, known, k)
    && (k == n - 1 || (k == n && MeetAllowed(store, known, checkpoint, threshold, m + 1)))
  }

  /** The walk includes everything above known. */
  lemma WalkedAll(u: View, incoming: TipSet, known: TipSet, walked: seq<TipSet>, i: nat)
    requires IsUniverse(u) && walked != [] && walked[0] == incoming && IsChain(walked) && Members(u, walked)
    requires Arrived(u, walked[|walked| - 1], known.height + 1)
    requires Back(u, incoming, i).Some? && Back(u, incoming, i).value.height > known.height
    ensures i < |walked|
  {
    var w := |walked| - 1;
    ChainIsBack(u, walked, w);
    if w < i {
      BackFalls(u, incoming, w, i);
      BackDefined(u, incoming, w + 1, i);
      if w + 1 < i {
        BackFalls(u, incoming, w + 1, i);
      }
    }
  }

  /** A segment that starts behind the walked chain continues the way back from incoming. */
  lemma TipsAreBack(u: View, incoming: TipSet, walked: seq<TipSet>, tips: seq<TipSet>, c: nat)
    requires IsUniverse(u) && walked != [] && walked[0] == incoming && IsChain(walked) && Members(u, walked)
    requires tips != [] && tips[0].cids == walked[|walked| - 1].parents && IsChain(tips) && Members(u, tips)
    requires c < |tips|
    ensures Back(u, incoming, |walked| + c) == Some(tips[c])
  {
    ChainIsBack(u, walked, |walked| - 1);
    assert Member(u, tips[0]);
    assert Back(u, incoming, |walked|) == Some(tips[0]);
    BackAdds(u, incoming, |walked|, c);
    ChainIsBack(u, tips, c);
  }

  /** A complete answer reaches every ancestor within the requested length. */
  lemma TipsReach(u: View, incoming: TipSet, walked: seq<TipSet>, tips: seq<TipSet>, threshold: nat, n: nat)
    requires IsUniverse(u) && walked != [] && walked[0] == incoming && IsChain(walked) && Members(u, walked)
    requires IsSegment(u, walked[|walked| - 1].parents, threshold, tips) && Complete(u, threshold, tips)
    requires |walked| <= n && Back(u, incoming, n).Some? && n - |walked| < threshold
    ensures n - |walked| < |tips|
  {
    var e := |tips| - 1;
    TipsAreBack(u, incoming, walked, tips, e);
    if |walked| + e < n {
      BackDefined(u, incoming, |walked| + e + 1, n);
    }
  }

  /** Behind a meeting point comes the next local ancestor. */
  lemma BehindMeeting(u: View, store: View, known: TipSet, t: TipSet, tips: seq<TipSet>, m: nat)
    requires IsUniverse(u) && PartOf(store, u) && Back(store, known, m) == Some(t)
    requires tips != [] && tips[0].cids == t.parents && Members(u, tips)
    ensures t.parents in store ==> Meets(store, known, tips, 0, m + 1)
    ensures Back(store, known, m + 1).Some? <==> t.parents in store
  {
    assert Member(u, tips[0]);
  }

  /** Behind the first w tipsets of the way back, and within the threshold, the chains meet at incoming's
      n-th and known's m-th ancestor, where a fork may end. */
  ghost predicate MeetsBehind(u: View, store: View, incoming: TipSet, known: TipSet, checkpoint: Option<TipSet>,
                              threshold: nat, w: nat, n: nat, m: nat) {
    && w <= n < w + threshold && Back(u, incoming, n) == Back(store, known, m)
    && MeetAllowed(store, known, checkpoint, threshold, m)
  }

  ghost predicate FoundBehind(u: View, store: View, incoming: TipSet, known: TipSet, checkpoint: Option<TipSet>,
                              threshold: nat, w: nat) {
    exists n: nat, m: nat :: MeetsBehind(u, store, incoming, known, checkpoint, threshold, w, n, m)
  }

  /** Complete answers let the search behind the walked chain end exactly where the chains so meet. */
  lemma SearchDecided(u: View, store: View, incoming: TipSet, known: TipSet, checkpoint: Option<TipSet>, threshold: nat,
                      walked: seq<TipSet>, tips: seq<TipSet>)
    requires IsUniverse(u) && walked != [] && walked[0] == incoming && IsChain(walked) && Members(u, walked)
    requires IsSegment(u, walked[|walked| - 1].parents, threshold, tips) && Complete(u, threshold, tips)
    ensures (exists c: nat, m: nat :: Reachable(store, known, checkpoint, threshold, tips, c, m)) <==>
              FoundBehind(u, store, incoming, known, checkpoint, threshold, |walked|)
  {
    forall c: nat, m: nat | Reachable(store, known, checkpoint, threshold, tips, c, m)
      ensures MeetsBehind(u, store, incoming, known, checkpoint, threshold, |walked|, |walked| + c, m)
    {
      TipsAreBack(u, incoming, walked, tips, c);
    }
    forall n: nat, m: nat | MeetsBehind(u, store, incoming, known, checkpoint, threshold, |walked|, n, m)
      ensures Reachable(store, known, checkpoint, threshold, tips, n - |walked|, m)
    {
      TipsReach(u, incoming, walked, tips, threshold, n);
      TipsAreBack(u, incoming, walked, tips, n - |walked|);
    }
  }

  /** The nearest point where the chains meet below known. */
  ghost predicate NearestMeeting(u: View, store: View, incoming: TipSet, known: TipSet, n: nat, m: nat) {
    && MeetAt(u, store, incoming, known, n, m)
    && forall n': nat, m': nat :: MeetAt(u, store, incoming, known, n', m') ==> n <= n'
  }

  ghost predicate MeetAt(u: View, store: View, incoming: TipSet, known: TipSet, n: nat, m: nat) {
    m > 0 && Back(u, incoming, n).Some? && Back(u, incoming, n) == Back(store, known, m)
  }

  /** Meetings further down on one chain are further down on the other. */
  lemma MeetingsInOrder(u: View, store: View, incoming: TipSet, known: TipSet, n: nat, m: nat, n': nat, m': nat)
    requires IsUniverse(u) && PartOf(store, u) && Member(u, known) && Member(u, incoming)
    requires MeetAt(u, store, incoming, known, n, m) && MeetAt(u, store, incoming, known, n', m') && n <= n'
    ensures if n == n' then m == m' else m < m'
  {
    BackInPart(store, u, known, m);
    BackInPart(store, u, known, m');
    if n < n' {
      BackFalls(u, incoming, n, n');
    }
    if m < m' {
      BackFalls(u, known, m, m');
    } else if m' < m {
      BackFalls(u, known, m', m);
    }
  }

  /** Where a fork may end it may end at every nearer ancestor. */
  lemma AllowedNearer(store: View, known: TipSet, checkpoint: Option<TipSet>, threshold: nat, m: nat, m': nat)
    requires 0 < m <= m' && MeetAllowed(store, known, checkpoint, threshold, m')
    ensures MeetAllowed(store, known, checkpoint, threshold, m)
  {
    if m < m' {
      assert Passable(store, known, checkpoint, m);
    }
  }

  /** The nearest meeting point decides: if the walk ended above it, the fork must be allowed to end there,
      within the threshold; if the walk ended at it, one tipset further down. */
  lemma NearestDecides(u: View, store: View, incoming: TipSet, known: TipSet, checkpoint: Option<TipSet>, threshold: nat,
                       w: nat, n: nat, m: nat)
    requires IsUniverse(u) && PartOf(store, u) && Member(u, known) && Member(u, incoming)
    requires NearestMeeting(u, store, incoming, known, n, m) && w <= n + 1
    ensures FoundBehind(u, store, incoming, known, checkpoint, threshold, w) <==>
              if w <= n then n < w + threshold && MeetAllowed(store, known, checkpoint, threshold, m)
              else MeetAllowed(store, known, checkpoint, threshold, m + 1)
  {
    if w <= n {
      if n < w + threshold && MeetAllowed(store, known, checkpoint, threshold, m) {
        assert MeetsBehind(u, store, incoming, known, checkpoint, threshold, w, n, m);
      }
    } else if MeetAllowed(store, known, checkpoint, threshold, m + 1) {
      assert MeetsBehind(u, store, incoming, known, checkpoint, threshold, w, n + 1, m + 1);
    }
    forall n': nat, m': nat | MeetsBehind(u, store, incoming, known, checkpoint, threshold, w, n', m')
      ensures if w <= n then n < w + threshold && MeetAllowed(store, known, checkpoint, threshold, m)
              else MeetAllowed(store, known, checkpoint, threshold, m + 1)
    {
      assert MeetAt(u, store, incoming, known, n', m');
      MeetingsInOrder(u, store, incoming, known, n, m, n', m');
      AllowedNearer(store, known, checkpoint, threshold, if w <= n then m else m + 1, m');
    }
  }

  /** A planned fork is found behind every walk. */
  lemma PlannedIsFound(u: View, store: View, incoming: TipSet, known: TipSet, checkpoint: Option<TipSet>, threshold: nat,
                       walked: seq<TipSet>, i: nat, n: nat, m: nat, k: nat)
    requires IsUniverse(u) && PartOf(store, u) && Walked(u, store, incoming, known, walked)
    requires ForkPlan(u, store, incoming, known, checkpoint, threshold, i, n, m, k)
    ensures FoundBehind(u, store, incoming, known, checkpoint, threshold, |walked|)
  {
    if |walked| <= n {
      if i > 0 {
        WalkedAll(u, incoming, known, walked, i);
      }
      assert MeetsBehind(u, store, incoming, known, checkpoint, threshold, |walked|, n, m);
    } else {
      assert MeetsBehind(u, store, incoming, known, checkpoint, threshold, |walked|, n + 1, m + 1);
    }
  }

  lemma StoredParent(store: View, known: TipSet, m: nat)
    requires m > 0 && Back(store, known, m).Some?
    ensures known.parents in store
  {
    BackDefined(store, known, 1, m);
    assert Back(store, known, 0) == Some(known);
  }

  lemma TipsAreLower(u: View, store: View, known: TipSet, t: TipSet, tips: seq<TipSet>, m: nat, c: nat, m': nat)
    requires IsUniverse(u) && PartOf(store, u) && Member(u, known)
    requires Back(store, known, m) == Some(t) && Meets(store, known, tips, c, m')
    requires tips != [] && tips[0].cids == t.parents && IsChain(tips) && Members(u, tips)
    ensures m < m'
  {
    BackInPart(store, u, known, m);
    BackInPart(store, u, known, m');
    BackMember(u, known, m);
    assert Member(u, tips[0]) && Proper(u, t.cids);
    ChainFalls(tips, 0, c);
    if m' < m {
      BackFalls(u, known, m', m);
    }
  }

  /** When the walk ends at the meeting point itself, a fork is found if and only if it may end one
      tipset further down. */
  lemma JumpedForkIff(u: View, store: View, known: TipSet, checkpoint: Option<TipSet>, threshold: nat,
                      t: TipSet, tips: seq<TipSet>, m: nat)
    requires IsUniverse(u) && PartOf(store, u) && Member(u, known)
    requires m > 0 && Back(store, known, m) == Some(t)
    requires tips != [] && tips[0].cids == t.parents && IsChain(tips) && Members(u, tips)
    ensures (exists c: nat, m': nat :: Reachable(store, known, checkpoint, threshold, tips, c, m')) <==>
              MeetAllowed(store, known, checkpoint, threshold, m + 1)
  {
    BehindMeeting(u, store, known, t, tips, m);
    if MeetAllowed(store, known, checkpoint, threshold, m + 1) {
      assert Reachable(store, known, checkpoint, threshold, tips, 0, m + 1);
    }
    forall c: nat, m': nat | Reachable(store, known, checkpoint, threshold, tips, c, m')
      ensures MeetAllowed(store, known, checkpoint, threshold, m + 1)
    {
      TipsAreLower(u, store, known, t, tips, m, c, m');
      BackDefined(store, known, m + 1, m');
      assert Passable(store, known, checkpoint, m + 1) || m' == m + 1;
    }
  }

  /** An ancestor of known is not known, not on top of it and not on top of its parent. */
  lemma AncestorIsNoSibling(u: View, store: View, known: TipSet, t: TipSet, m: nat)
    requires IsUniverse(u) && PartOf(store, u) && Member(u, known) && m > 0 && Back(store, known, m) == Some(t)
    ensures t != known && !t.IsChildOf(known) && !Sibling(store, known, t)
  {
    BackInPart(store, u, known, m);
    BackDefined(u, known, 1, m);
    BackFalls(u, known, 0, m);
    assert Back(u, known, 0) == Some(known);
    if m > 1 {
      BackFalls(u, known, 1, m);
    }
  }
}
