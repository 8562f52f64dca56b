/** The ring of recently synced tipsets. */
module SyncBuffer {
  import opened Wrappers
  import opened Tipsets

  /** The newest n elements of a history, oldest first. */
  function Newest(history: seq<TipSet>, n: nat): seq<TipSet> {
    if |history| <= n then history else history[|history| - n..]
  }

  /** A tipset is stale when it, or anything heavier, is in the window. */
  predicate Covers(window: seq<TipSet>, ts: TipSet) {
    exists i :: 0 <= i < |window| && (window[i].Equals(ts) || IsHeavier(window[i], ts))
  }

  class Ring {
    const buf: array<Option<TipSet>>
    var next: nat
    ghost var pushed: seq<TipSet>

    /** The ring holds the newest buf.Length pushes: the slot at next is the oldest once it is full. */
    ghost predicate Valid()
      reads this, buf
    {
      && buf.Length > 0 && next < buf.Length
      && (|pushed| < buf.Length ==>
            && next == |pushed|
            && (forall i :: 0 <= i < next ==> buf[i] == Some(pushed[i]))
            && (forall i :: next <= i < buf.Length ==> buf[i] == None))
      && (|pushed| >= buf.Length ==>
            forall i :: 0 <= i < buf.Length ==> buf[i] == Some(pushed[Age(i)]))
    }

    ghost function Age(i: nat): nat
      reads this
      requires i < buf.Length && next < buf.Length <= |pushed|
    {
      |pushed| - buf.Length + if i >= next then i - next else buf.Length - next + i
    }

    constructor (size: nat)
      requires size > 0
      ensures Valid() && fresh(buf) && buf.Length == size && pushed == []
    {
      buf := new Option<TipSet>[size](_ => None);
      next := 0;
      pushed := [];
    }

    method Push(ts: TipSet)
      requires Valid()
      modifies this, buf
      ensures Valid() && pushed == old(pushed) + [ts]
    {
      buf[next] := Some(ts);
      next := if next + 1 == buf.Length then 0 else next + 1;
      pushed := pushed + [ts];
    }

    method Synced(ts: TipSet) returns (r: bool)
      requires Valid()
      ensures r == Covers(Newest(pushed, buf.Length), ts)
    {
      ghost var window := Newest(pushed, buf.Length);
      for i := 0 to buf.Length
        invariant forall j :: 0 <= j < i && buf[j].Some? ==> !buf[j].value.Equals(ts) && !IsHeavier(buf[j].value, ts)
      {
        if buf[i].Some? && (buf[i].value.Equals(ts) || IsHeavier(buf[i].value, ts)) {
          ghost var k := WindowIndex(i);
          assert window[k] == buf[i].value;
          return true;
        }
      }
      forall k | 0 <= k < |window|
        ensures !window[k].Equals(ts) && !IsHeavier(window[k], ts)
      {
        var j := if |pushed| < buf.Length then k else if next + k < buf.Length then next + k else next + k - buf.Length;
        assert buf[j] == Some(window[k]);
      }
      return false;
    }

    ghost function WindowIndex(i: nat): (k: nat)
      reads this, buf
      requires Valid() && i < buf.Length && buf[i].Some?
      ensures k < |Newest(pushed, buf.Length)| && Newest(pushed, buf.Length)[k] == buf[i].value
    {
      if |pushed| < buf.Length then i else Age(i) - (|pushed| - buf.Length)
    }
  }
}
