/** Tipsets as the syncer and its scheduler see them.

    Every block of a tipset has the same height and the same parents, so both are kept once;
    what differs per block (its cid, its beacon entries, its message root) is kept in
    sequences with one entry per block. A tipset key is the sequence of its blocks' cids. */
module Tipsets {
  import opened Wrappers

  type Cid = string
  type Key = seq<Cid>

  datatype BeaconEntry = BeaconEntry(round: nat, data: string)

  datatype TipSet = TipSet(cids: Key, parents: Key, height: int, weight: int,
                           beacons: seq<seq<BeaconEntry>>, messageRoots: seq<Cid>)
  {
    /** A tipset has at least one block, and one beacon list and message root per block. */
    predicate WellFormed() {
      |cids| > 0 && |beacons| == |cids| && |messageRoots| == |cids|
    }

    /** Equality as the source defines it: the height and the cids, nothing else. */
    predicate Equals(other: TipSet) {
      height == other.height && cids == other.cids
    }

    predicate IsChildOf(parent: TipSet) {
      parents == parent.cids && height > parent.height
    }
  }

  predicate IsHeavier(a: TipSet, b: TipSet) {
    a.weight > b.weight
  }
}
