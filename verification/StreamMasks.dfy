/** Which streams are active on which pad, and how an update travels along the routes.

    A 64-bit stream mask is kept as the set of its bits: `|=` is union and `&= ~` is difference. */
module StreamMasks {
  import opened StreamRoutes

  type Streams = set<nat>

  // v4l2_subdev_state_xlate_streams: the streams of `to` that active routes link to `streams` of `from`.
  function Xlate(routes: seq<StreamRoute>, from: nat, to: nat, streams: Streams): Streams {
    (set r | r in routes && r.active && r.sinkPad == from && r.sourcePad == to && r.sinkStream in streams ::
       r.sourceStream)
    + (set r | r in routes && r.active && r.sourcePad == from && r.sinkPad == to && r.sourceStream in streams ::
         r.sinkStream)
  }

  // Everything an update of `streams` on `pad` touches on pad `i`.
  function Touched(routes: seq<StreamRoute>, pad: nat, streams: Streams, i: nat): Streams {
    Xlate(routes, pad, i, streams) + (if i == pad then streams else {})
  }

  function Updated(routes: seq<StreamRoute>, pad: nat, streams: Streams, masks: seq<Streams>, enable: bool):
      (r: seq<Streams>)
    ensures |r| == |masks|
  {
    seq(|masks|, i requires 0 <= i < |masks| =>
      if enable then masks[i] + Touched(routes, pad, streams, i) else masks[i] - Touched(routes, pad, streams, i))
  }

  method GetStreamsMasks(routes: seq<StreamRoute>, pad: nat, streams: Streams, oldMasks: seq<Streams>, enable: bool)
      returns (masks: array<Streams>)
    requires pad < |oldMasks|
    ensures fresh(masks) && masks[..] == Updated(routes, pad, streams, oldMasks, enable)
  {
    masks := new Streams[|oldMasks|](i requires 0 <= i < |oldMasks| => oldMasks[i]);
    for i := 0 to |oldMasks|
      invariant forall k: nat | i <= k < |oldMasks| :: masks[k] == oldMasks[k]
      invariant forall k: nat | k < i ::
        var x := Xlate(routes, pad, k, streams); masks[k] == if enable then oldMasks[k] + x else oldMasks[k] - x
    {
      var matched := Xlate(routes, pad, i, streams);
      if matched == {} {
        continue;
      }
      masks[i] := if enable then masks[i] + matched else masks[i] - matched;
    }
    masks[pad] := if enable then masks[pad] + streams else masks[pad] - streams;
    forall k: nat | k < |oldMasks|
      ensures masks[k] == Updated(routes, pad, streams, oldMasks, enable)[k]
    {
    }
  }

  // ----- Agreement of the two ends of every route -----

  predicate OneToOne(routes: seq<StreamRoute>) {
    forall r, q | r in routes && q in routes && r.active && q.active ::
      (r.sinkPad == q.sinkPad && r.sinkStream == q.sinkStream) <==>
      (r.sourcePad == q.sourcePad && r.sourceStream == q.sourceStream)
  }

  predicate Sided(routes: seq<StreamRoute>) {
    forall r, q | r in routes && q in routes && r.active && q.active :: r.sinkPad != q.sourcePad
  }

  predicate InRange(routes: seq<StreamRoute>, pads: nat) {
    forall r | r in routes && r.active :: r.sinkPad < pads && r.sourcePad < pads
  }

  predicate Agree(routes: seq<StreamRoute>, masks: seq<Streams>)
    requires InRange(routes, |masks|)
  {
    forall r | r in routes && r.active :: r.sinkStream in masks[r.sinkPad] <==> r.sourceStream in masks[r.sourcePad]
  }

  /** Every update keeps the two ends of every route in agreement. */
  lemma UpdateKeepsAgreement(routes: seq<StreamRoute>, pad: nat, streams: Streams, masks: seq<Streams>, enable: bool)
    requires OneToOne(routes) && Sided(routes) && InRange(routes, |masks|) && Agree(routes, masks)
    ensures Agree(routes, Updated(routes, pad, streams, masks, enable))
  {
  }

  datatype Update = Update(pad: nat, streams: Streams, enable: bool)

  function UpdateAll(routes: seq<StreamRoute>, masks: seq<Streams>, updates: seq<Update>): (r: seq<Streams>)
    ensures |r| == |masks|
  {
    if updates == [] then masks
    else
      var u := updates[|updates| - 1];
      Updated(routes, u.pad, u.streams, UpdateAll(routes, masks, updates[..|updates| - 1]), u.enable)
  }

  /** Any number of updates, on any pads, keep it. */
  lemma {:induction false} RunKeepsAgreement(routes: seq<StreamRoute>, masks: seq<Streams>, updates: seq<Update>)
    requires OneToOne(routes) && Sided(routes) && InRange(routes, |masks|) && Agree(routes, masks)
    ensures Agree(routes, UpdateAll(routes, masks, updates))
  {
    if updates == [] {
    } else {
      var u := updates[|updates| - 1];
      RunKeepsAgreement(routes, masks, updates[..|updates| - 1]);
      UpdateKeepsAgreement(routes, u.pad, u.streams, UpdateAll(routes, masks, updates[..|updates| - 1]), u.enable);
    }
  }

  // Every update of any masks that agree leaves masks that agree.
  ghost predicate KeepsAgreement(routes: seq<StreamRoute>, pads: nat)
    requires InRange(routes, pads)
  {
    forall masks: seq<Streams>, pad: nat, streams: Streams, enable: bool
      | |masks| == pads && pad < pads && Agree(routes, masks) ::
      Agree(routes, Updated(routes, pad, streams, masks, enable))
  }

  lemma EnablingOneEnd(routes: seq<StreamRoute>, pads: nat, pad: nat, stream: nat) returns (after: seq<Streams>)
    requires InRange(routes, pads) && KeepsAgreement(routes, pads) && pad < pads
    ensures |after| == pads && Agree(routes, after)
    ensures forall i: nat | i < pads :: after[i] == Touched(routes, pad, {stream}, i)
  {
    var masks: seq<Streams> := seq(pads, _ => {});
    assert Agree(routes, masks);
    after := Updated(routes, pad, {stream}, masks, true);
  }

  // Enabling one end of one route disagrees with the other that shares its far end.
  lemma SharedEndDisagrees(routes: seq<StreamRoute>, pads: nat, r: StreamRoute, q: StreamRoute)
    requires Sided(routes) && InRange(routes, pads) && KeepsAgreement(routes, pads)
    requires r in routes && q in routes && r.active && q.active
    ensures (r.sinkPad == q.sinkPad && r.sinkStream == q.sinkStream) <==>
            (r.sourcePad == q.sourcePad && r.sourceStream == q.sourceStream)
  {
    if r.sinkPad == q.sinkPad && r.sinkStream == q.sinkStream {
      var after := EnablingOneEnd(routes, pads, r.sourcePad, r.sourceStream);
      assert r.sinkStream in Touched(routes, r.sourcePad, {r.sourceStream}, r.sinkPad);
      assert q.sourceStream in Touched(routes, r.sourcePad, {r.sourceStream}, q.sourcePad);
    }
    if r.sourcePad == q.sourcePad && r.sourceStream == q.sourceStream {
      var after := EnablingOneEnd(routes, pads, r.sinkPad, r.sinkStream);
      assert r.sourceStream in Touched(routes, r.sinkPad, {r.sinkStream}, r.sourcePad);
      assert q.sinkStream in Touched(routes, r.sinkPad, {r.sinkStream}, q.sinkPad);
    }
  }

  /** With sinks and sources on different pads, updates keep agreement if and only if routes are one to one. */
  lemma AgreementKeptExactly(routes: seq<StreamRoute>, pads: nat)
    requires Sided(routes) && InRange(routes, pads)
    ensures KeepsAgreement(routes, pads) <==> OneToOne(routes)
  {
    if OneToOne(routes) {
      forall masks: seq<Streams>, pad: nat, streams: Streams, enable: bool
        | |masks| == pads && pad < pads && Agree(routes, masks)
        ensures Agree(routes, Updated(routes, pad, streams, masks, enable))
      {
        UpdateKeepsAgreement(routes, pad, streams, masks, enable);
      }
    }
    if KeepsAgreement(routes, pads) {
      forall r, q | r in routes && q in routes && r.active && q.active
        ensures (r.sinkPad == q.sinkPad && r.sinkStream == q.sinkStream) <==>
                (r.sourcePad == q.sourcePad && r.sourceStream == q.sourceStream)
      {
        SharedEndDisagrees(routes, pads, r, q);
      }
    }
  }

  /** A pad with no route to the updated pad keeps its mask. */
  lemma UnroutedPadCarriedForward(routes: seq<StreamRoute>, pad: nat, streams: Streams, masks: seq<Streams>,
                                  enable: bool, i: nat)
    requires i < |masks| && i != pad
    requires forall r | r in routes && r.active ::
      (r.sinkPad, r.sourcePad) != (pad, i) && (r.sinkPad, r.sourcePad) != (i, pad)
    ensures Updated(routes, pad, streams, masks, enable)[i] == masks[i]
  {
  }

  // ----- Undo -----

  /** Enabling and then disabling restores all masks exactly when nothing the update touches was on. */
  lemma UndoExactly(routes: seq<StreamRoute>, pad: nat, streams: Streams, masks: seq<Streams>)
    ensures Updated(routes, pad, streams, Updated(routes, pad, streams, masks, true), false) == masks <==>
      forall i: nat | i < |masks| :: Touched(routes, pad, streams, i) !! masks[i]
  {
  }

  /** Where the ends agree, a caller need only look at the pad it updates. */
  lemma UndoOnAgreement(routes: seq<StreamRoute>, pad: nat, streams: Streams, masks: seq<Streams>)
    requires OneToOne(routes) && Sided(routes) && InRange(routes, |masks|) && Agree(routes, masks) && pad < |masks|
    ensures Updated(routes, pad, streams, Updated(routes, pad, streams, masks, true), false) == masks <==>
      streams !! masks[pad]
  {
  }

  // ----- Order of updates -----

  /** Updates that touch disjoint streams of every pad commute. */
  lemma DisjointUpdatesCommute(routes: seq<StreamRoute>, masks: seq<Streams>, u: Update, v: Update)
    requires forall i: nat | i < |masks| :: Touched(routes, u.pad, u.streams, i) !! Touched(routes, v.pad, v.streams, i)
    ensures UpdateAll(routes, masks, [u, v]) == UpdateAll(routes, masks, [v, u])
  {
    TwoUpdates(routes, masks, u, v);
    TwoUpdates(routes, masks, v, u);
    var uv := Updated(routes, v.pad, v.streams, Updated(routes, u.pad, u.streams, masks, u.enable), v.enable);
    var vu := Updated(routes, u.pad, u.streams, Updated(routes, v.pad, v.streams, masks, v.enable), u.enable);
    forall i: nat | i < |masks| ensures uv[i] == vu[i] {
      var t, w := Touched(routes, u.pad, u.streams, i), Touched(routes, v.pad, v.streams, i);
      assert forall s :: s in uv[i] <==> s in vu[i];
    }
  }

  lemma TwoUpdates(routes: seq<StreamRoute>, masks: seq<Streams>, u: Update, v: Update)
    ensures UpdateAll(routes, masks, [u, v]) ==
      Updated(routes, v.pad, v.streams, Updated(routes, u.pad, u.streams, masks, u.enable), v.enable)
  {
    assert [u, v][..1] == [u] && [u][..0] == [];
    assert UpdateAll(routes, masks, [u]) == Updated(routes, u.pad, u.streams, masks, u.enable);
  }

  /** Updates commute if they are of disjoint streams of one pad, or of two pads no route joins. */
  lemma IndependentUpdatesCommute(routes: seq<StreamRoute>, masks: seq<Streams>, u: Update, v: Update)
    requires OneToOne(routes) && Sided(routes)
    requires if u.pad == v.pad then u.streams !! v.streams else
      forall r | r in routes && r.active ::
        (r.sinkPad, r.sourcePad) != (u.pad, v.pad) && (r.sinkPad, r.sourcePad) != (v.pad, u.pad)
    ensures UpdateAll(routes, masks, [u, v]) == UpdateAll(routes, masks, [v, u])
  {
    forall i: nat | i < |masks| ensures Touched(routes, u.pad, u.streams, i) !! Touched(routes, v.pad, v.streams, i) {
      TouchedApart(routes, u, v, i);
    }
    DisjointUpdatesCommute(routes, masks, u, v);
  }

  lemma TouchedApart(routes: seq<StreamRoute>, u: Update, v: Update, i: nat)
    requires OneToOne(routes) && Sided(routes)
    requires if u.pad == v.pad then u.streams !! v.streams else
      forall r | r in routes && r.active ::
        (r.sinkPad, r.sourcePad) != (u.pad, v.pad) && (r.sinkPad, r.sourcePad) != (v.pad, u.pad)
    ensures Touched(routes, u.pad, u.streams, i) !! Touched(routes, v.pad, v.streams, i)
  {
  }
}
