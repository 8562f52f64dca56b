/** The timed cache: two generations of blocks, rotated every interval. */
module TimedCache {
  import opened Blocks

  type Generation = map<Multihash, Block>

  datatype State = State(active: Generation, inactive: Generation)

  datatype Event =
    | Put(b: Block)
    | Delete(c: Cid)
    | Rotate

  function Apply(s: State, e: Event): State {
    match e
    case Put(b) => s.(active := s.active[b.cid.hash := b])
    case Delete(c) => State(s.active - {c.hash}, s.inactive - {c.hash})
    case Rotate => State(map[], s.active)
  }

  function ApplyAll(s: State, events: seq<Event>): State {
    if events == [] then s else Apply(ApplyAll(s, events[..|events| - 1]), events[|events| - 1])
  }

  lemma ApplyAllSnoc(s: State, events: seq<Event>, i: nat)
    requires i < |events|
    ensures ApplyAll(s, events[..i + 1]) == Apply(ApplyAll(s, events[..i]), events[i])
  {
    assert events[..i + 1][..i] == events[..i];
  }

  datatype Reply = Found(b: Block) | NotFound

  function Lookup(s: State, h: Multihash): Reply {
    if h in s.active then Found(s.active[h])
    else if h in s.inactive then Found(s.inactive[h])
    else NotFound
  }

  const Empty: State := State(map[], map[])

  function Rotations(events: seq<Event>): nat {
    if events == [] then 0
    else Rotations(events[..|events| - 1]) + if events[|events| - 1] == Rotate then 1 else 0
  }

  predicate Touches(e: Event, h: Multihash) {
    match e
    case Put(b) => b.cid.hash == h
    case Delete(c) => c.hash == h
    case Rotate => false
  }

  /** events[p] puts a block with hash h, and nothing later puts or deletes it. */
  ghost predicate LastPut(events: seq<Event>, p: nat, h: Multihash) {
    && p < |events| && events[p].Put? && events[p].b.cid.hash == h
    && forall i :: p < i < |events| ==> !Touches(events[i], h)
  }

  // ---------------------------------------------------------------- retention, counted in rotations

  lemma {:induction false} RotationsSplit(events: seq<Event>, p: nat)
    requires p <= |events|
    ensures Rotations(events) == Rotations(events[..p]) + Rotations(events[p..])
  {
    if p == |events| {
      assert events[..p] == events;
    } else {
      var init := events[..|events| - 1];
      RotationsSplit(init, p);
      assert init[..p] == events[..p];
      assert events[p..][..|events| - p - 1] == init[p..];
    }
  }

  /** Exactly how long a block stays: it is read, as last put, until two rotations have happened. */
  lemma {:induction false} ReadableIff(events: seq<Event>, p: nat, h: Multihash)
    requires LastPut(events, p, h)
    ensures var s := ApplyAll(Empty, events);
            var age := Rotations(events[p..]);
            && Lookup(s, h) == (if age < 2 then Found(events[p].b) else NotFound)
            && (h in s.active <==> age == 0)
  {
    var n := |events| - 1;
    var init := events[..n];
    assert events[p..][..n - p] == init[p..];
    if p < n {
      ReadableIff(init, p, h);
      assert !Touches(events[n], h);
    } else {
      assert init[p..] == [];
      assert events[p..] == [events[p]];
    }
  }

  /** A hash that was never put, or was deleted after its last put, is not found. */
  lemma {:induction false} UnputIsAbsent(events: seq<Event>, h: Multihash, d: nat)
    requires d <= |events|
    requires forall i :: d <= i < |events| ==> !(events[i].Put? && events[i].b.cid.hash == h)
    requires (d == 0) || (events[d - 1].Delete? && events[d - 1].c.hash == h)
    ensures Lookup(ApplyAll(Empty, events), h) == NotFound
  {
    if d < |events| {
      UnputIsAbsent(events[..|events| - 1], h, d);
    }
  }

  // ---------------------------------------------------------------- retention in time

  /** Rotations happen every interval: when r of them have happened, the clock, counted from the
      start, has reached r intervals and has not passed r + 1. */
  predicate OnSchedule(interval: int, rotations: nat, now: int) {
    rotations * interval <= now <= (rotations + 1) * interval
  }

  lemma MulOrder(a: int, b: int, interval: int)
    requires interval > 0
    ensures a <= b <==> a * interval <= b * interval
    ensures a * interval < b * interval ==> a + 1 <= b
  {
  }

  /** The promise of the cache: a block last put at time t is readable at every time before
      t + interval, and at no time after t + 2 * interval. */
  lemma Retention(interval: int, events: seq<Event>, p: nat, h: Multihash, t: int, now: int)
    requires interval > 0 && LastPut(events, p, h)
    requires OnSchedule(interval, Rotations(events[..p]), t) && OnSchedule(interval, Rotations(events), now)
    ensures now < t + interval ==> Lookup(ApplyAll(Empty, events), h) == Found(events[p].b)
    ensures now > t + 2 * interval ==> Lookup(ApplyAll(Empty, events), h) == NotFound
  {
    ReadableIff(events, p, h);
    RotationsSplit(events, p);
    var r, q := Rotations(events[..p]), Rotations(events);
    assert (r + 1) * interval == r * interval + interval;
    assert (q + 1) * interval == q * interval + interval;
    assert (r + 2) * interval == r * interval + 2 * interval;
    if now < t + interval {
      assert q * interval < (r + 2) * interval;
      MulOrder(q, r + 2, interval);
    }
    if now > t + 2 * interval {
      assert (r + 2) * interval < (q + 1) * interval;
      MulOrder(r + 2, q + 1, interval);
    }
  }

  /** At t + interval exactly: the block is gone if and only if it was put at the instant of a
      rotation, before it, and the rotation due now has happened. */
  lemma RetentionAtInterval(interval: int, events: seq<Event>, p: nat, h: Multihash, t: int)
    requires interval > 0 && LastPut(events, p, h)
    requires OnSchedule(interval, Rotations(events[..p]), t) && OnSchedule(interval, Rotations(events), t + interval)
    ensures Lookup(ApplyAll(Empty, events), h) == NotFound <==>
              t == (Rotations(events[..p]) + 1) * interval && t + interval == Rotations(events) * interval
  {
    ReadableIff(events, p, h);
    RotationsSplit(events, p);
    var r, q := Rotations(events[..p]), Rotations(events);
    assert (r + 1) * interval == r * interval + interval;
    assert (r + 2) * interval == r * interval + 2 * interval;
    MulOrder(q, r + 2, interval);
    MulOrder(r + 2, q, interval);
  }

  // ---------------------------------------------------------------- the code

  /** A run on schedule in which a block is gone exactly one interval after its put: interval 1, put at
      time 1 just before the first rotation, read at time 2 just after the second. */
  lemma GoneAtInterval(b: Block)
    ensures var events := [Event.Put(b), Rotate, Rotate];
            && LastPut(events, 0, b.cid.hash)
            && OnSchedule(1, Rotations(events[..0]), 1) && OnSchedule(1, Rotations(events), 2)
            && Lookup(ApplyAll(Empty, events), b.cid.hash) == NotFound
  {
    var events := [Event.Put(b), Rotate, Rotate];
    assert events[..2][..1] == [Event.Put(b)];
    assert Rotations(events[..2][..1]) == 0;
    assert Rotations(events[..2]) == 1;
    assert events[0..] == events;
    ReadableIff(events, 0, b.cid.hash);
  }

  ghost predicate Keyed(g: Generation) {
    forall h :: h in g ==> g[h].cid.hash == h
  }

  ghost predicate Once(cids: seq<Cid>) {
    forall i, j :: 0 <= i < j < |cids| ==> cids[i].hash != cids[j].hash
  }

  class TimedCacheBlockstore {
    var active: Generation
    var inactive: Generation

    ghost function Abs(): State
      reads this
    {
      State(active, inactive)
    }

    ghost predicate Valid()
      reads this
    {
      Keyed(active) && Keyed(inactive)
    }

    constructor ()
      ensures Valid() && Abs() == Empty
    {
      active, inactive := map[], map[];
    }

    method Rotate()
      requires Valid()
      modifies this
      ensures Valid() && Abs() == Apply(old(Abs()), Event.Rotate)
    {
      inactive, active := active, map[];
    }

    method Put(b: Block)
      requires Valid()
      modifies this
      ensures Valid() && Abs() == Apply(old(Abs()), Event.Put(b))
    {
      active := active[b.cid.hash := b];
    }

    method PutMany(bs: seq<Block>)
      requires Valid()
      modifies this
      ensures Valid() && Abs() == ApplyAll(old(Abs()), seq(|bs|, i requires 0 <= i < |bs| => Event.Put(bs[i])))
    {
      ghost var events := seq(|bs|, i requires 0 <= i < |bs| => Event.Put(bs[i]));
      for i := 0 to |bs|
        invariant Valid() && Abs() == ApplyAll(old(Abs()), events[..i])
      {
        Put(bs[i]);
        ApplyAllSnoc(old(Abs()), events, i);
      }
      assert events[..|bs|] == events;
    }

    method Get(c: Cid) returns (r: Reply)
      ensures r == Lookup(Abs(), c.hash)
    {
      if c.hash in active {
        return Found(active[c.hash]);
      }
      if c.hash in inactive {
        return Found(inactive[c.hash]);
      }
      return NotFound;
    }

    method Has(c: Cid) returns (r: bool)
      ensures r <==> Lookup(Abs(), c.hash).Found?
    {
      r := c.hash in active;
      if !r {
        r := c.hash in inactive;
      }
    }

    method DeleteBlock(c: Cid)
      requires Valid()
      modifies this
      ensures Valid() && Abs() == Apply(old(Abs()), Delete(c))
    {
      active := active - {c.hash};
      inactive := inactive - {c.hash};
    }

    /** Lists every readable multihash exactly once, in some order. */
    method AllKeys() returns (cids: seq<Cid>)
      requires Valid()
      ensures Once(cids)
      ensures forall h :: (exists i :: 0 <= i < |cids| && cids[i].hash == h) <==> Lookup(Abs(), h).Found?
    {
      cids := [];
      var todo := active.Keys;
      ghost var listed: set<Multihash> := {};
      while todo != {}
        invariant todo <= active.Keys && listed == active.Keys - todo
        invariant Once(cids) && Lists(cids, listed)
        decreases todo
      {
        var h :| h in todo;
        todo, listed := todo - {h}, listed + {h};
        ListsSnoc(cids, listed - {h}, active[h].cid);
        cids := cids + [active[h].cid];
      }
      todo := inactive.Keys;
      while todo != {}
        invariant todo <= inactive.Keys && listed == active.Keys + (inactive.Keys - todo)
        invariant Once(cids) && Lists(cids, listed)
        decreases todo
      {
        var h :| h in todo;
        todo, listed := todo - {h}, listed + {h};
        if h !in active {
          assert listed - {h} == active.Keys + (inactive.Keys - (todo + {h}));
          ListsSnoc(cids, listed - {h}, inactive[h].cid);
          cids := cids + [inactive[h].cid];
        }
      }
      assert Lists(cids, active.Keys + inactive.Keys);
    }
  }

  /** The hashes of the cids listed are exactly these. */
  ghost predicate Lists(cids: seq<Cid>, hashes: set<Multihash>) {
    forall h :: (exists i :: 0 <= i < |cids| && cids[i].hash == h) <==> h in hashes
  }

  lemma ListsSnoc(cids: seq<Cid>, hashes: set<Multihash>, c: Cid)
    requires Once(cids) && Lists(cids, hashes) && c.hash !in hashes
    ensures Once(cids + [c]) && Lists(cids + [c], hashes + {c.hash})
  {
    var all := cids + [c];
    assert all[|cids|] == c;
    forall h
      ensures (exists i :: 0 <= i < |all| && all[i].hash == h) <==> h in hashes + {c.hash}
    {
      if i :| 0 <= i < |cids| && cids[i].hash == h {
        assert all[i].hash == h;
      }
    }
  }
}
