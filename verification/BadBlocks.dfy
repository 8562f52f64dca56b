/** Why a block is on the deny list. */
module BadBlocks {
  import opened Wrappers
  import opened Tipsets

  datatype BadBlockReason = BadBlockReason(reason: string, tipset: seq<Cid>, original: Option<BadBlockReason>)

  function NewReason(tipset: seq<Cid>, reason: string): BadBlockReason {
    BadBlockReason(reason, tipset, None)
  }

  /** A reason derived from another points past it to where that one came from. */
  function Linked(r: BadBlockReason, reason: string): BadBlockReason {
    BadBlockReason(reason, [], if r.original.Some? then r.original else Some(r))
  }

  function ShowCids(cids: seq<Cid>): string {
    if cids == [] then "" else if |cids| == 1 then cids[0] else cids[0] + " " + ShowCids(cids[1..])
  }

  function Show(r: BadBlockReason): string {
    r.reason +
    if r.original.None? then ""
    else " caused by: " + "[" + ShowCids(r.original.value.tipset) + "] " + Show(r.original.value)
  }

  function Root(r: BadBlockReason): BadBlockReason {
    if r.original.None? then r else Root(r.original.value)
  }

  function Depth(r: BadBlockReason): nat {
    if r.original.None? then 0 else 1 + Depth(r.original.value)
  }

  function LinkedAll(r: BadBlockReason, reasons: seq<string>): BadBlockReason {
    if reasons == [] then r else Linked(LinkedAll(r, reasons[..|reasons| - 1]), reasons[|reasons| - 1])
  }

  /** However often a reason is linked on, the original reason stays at depth one, and the text shows
      the last link and the original only. */
  lemma {:induction false} LinkedAllKeepsRoot(r: BadBlockReason, reasons: seq<string>)
    requires Depth(r) <= 1 && reasons != []
    ensures Depth(LinkedAll(r, reasons)) == 1
    ensures LinkedAll(r, reasons).original == Some(Root(r))
    ensures Show(LinkedAll(r, reasons)) ==
            reasons[|reasons| - 1] + " caused by: " + "[" + ShowCids(Root(r).tipset) + "] " + Root(r).reason
  {
    var init := reasons[..|reasons| - 1];
    var before := LinkedAll(r, init);
    if init == [] {
      assert before == r;
    } else {
      LinkedAllKeepsRoot(r, init);
    }
    var l := LinkedAll(r, reasons);
    assert l == Linked(before, reasons[|reasons| - 1]);
    assert l.original == Some(Root(r));
    RootIsRoot(r);
    assert Show(Root(r)) == Root(r).reason + "" == Root(r).reason;
  }

  lemma {:induction false} RootIsRoot(r: BadBlockReason)
    ensures Root(r).original == None
  {
    if r.original.Some? {
      RootIsRoot(r.original.value);
    }
  }
}
