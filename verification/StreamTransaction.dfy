/** Enabling or disabling streams across the sources of a range of sink pads, all or nothing. */
module StreamTransaction {
  import opened StreamMasks
  import opened StreamRoutes

  function Moved(running: Streams, streams: Streams, enable: bool): Streams {
    if enable then running + streams else running - streams
  }

  predicate Movable(running: Streams, streams: Streams, enable: bool) {
    if enable then streams !! running else streams <= running
  }

  /** A move that was allowed, or that moves nothing, is undone by the opposite move. */
  lemma MoveBack(running: Streams, streams: Streams, enable: bool)
    requires Movable(running, streams, enable) || streams == {}
    ensures Moved(Moved(running, streams, enable), streams, !enable) == running
    ensures Movable(Moved(running, streams, enable), streams, !enable) || streams == {}
  {
  }

  // An active route joins stream `s` of `sinkPad` to one of `streams` on `pad`, in either direction.
  predicate Joined(routes: seq<StreamRoute>, pad: nat, streams: Streams, sinkPad: nat, s: nat) {
    exists r | r in routes && r.active ::
      || (r.sinkPad == pad && r.sinkStream in streams && r.sourcePad == sinkPad && r.sourceStream == s)
      || (r.sourcePad == pad && r.sourceStream in streams && r.sinkPad == sinkPad && r.sinkStream == s)
  }

  // An update of `streams` on `pad`, seen from the sources: pad `i` feeds from source `i + offset`.
  datatype Change = Change(routes: seq<StreamRoute>, pad: nat, streams: Streams, offset: nat, enable: bool) {
    function For(sinkPad: nat): Streams { Xlate(routes, pad, sinkPad, streams) }

    /** What a sink pad is asked for are the streams that routes join to the updated ones. */
    lemma ForJoined(sinkPad: nat, s: nat)
      ensures s in For(sinkPad) <==> Joined(routes, pad, streams, sinkPad, s)
    {
    }

    // Stream `s` of source `k`, which was on or off before, after a change of the sink pads from `lo` up to `hi`.
    predicate Changed(was: bool, k: nat, lo: nat, hi: nat, s: nat) {
      if lo + offset <= k < hi + offset && Joined(routes, pad, streams, k - offset, s) then enable else was
    }

    lemma OneChanged(before: Streams, k: nat, lo: nat, hi: nat, s: nat)
      ensures s in One(before, k, lo, hi) <==> Changed(s in before, k, lo, hi, s)
    {
      if lo + offset <= k < hi + offset {
        ForJoined(k - offset, s);
      }
    }

    // Source `k`, holding `s`, once the sink pads from `lo` up to `hi` have been moved.
    function One(s: Streams, k: nat, lo: nat, hi: nat): Streams {
      if lo + offset <= k < hi + offset then Moved(s, For(k - offset), enable) else s
    }

    function After(running: seq<Streams>, lo: nat, hi: nat): (r: seq<Streams>)
      ensures |r| == |running| && forall k: nat | k < |r| :: r[k] == One(running[k], k, lo, hi)
    {
      seq(|running|, k requires 0 <= k < |running| => One(running[k], k, lo, hi))
    }

    predicate CanMove(running: seq<Streams>, p: nat)
      requires p + offset < |running|
    {
      Movable(running[p + offset], For(p), enable) || For(p) == {}
    }

    predicate MovableBelow(running: seq<Streams>, lo: nat, hi: nat)
      requires hi + offset <= |running|
    {
      forall p: nat | lo <= p < hi :: CanMove(running, p)
    }

    lemma MovableOneMore(running: seq<Streams>, lo: nat, i: nat)
      requires i + offset < |running| && MovableBelow(running, lo, i) && CanMove(running, i)
      ensures MovableBelow(running, lo, i + 1)
    {
    }

    lemma Advance(running: seq<Streams>, lo: nat, i: nat)
      requires lo <= i && i + offset < |running|
      ensures var now, k := After(running, lo, i), i + offset;
        && After(running, lo, i + 1) == now[k := Moved(running[k], For(i), enable)] && now[k] == running[k]
        && (For(i) == {} ==> After(running, lo, i + 1) == now)
    {
      var now, next, k := After(running, lo, i), After(running, lo, i + 1), i + offset;
      forall j: nat | j < |running| ensures next[j] == if j == k then Moved(running[k], For(i), enable) else now[j] {
        assert j == k ==> j - offset == i;
      }
      assert next == now[k := Moved(running[k], For(i), enable)];
      assert For(i) == {} ==> Moved(running[k], For(i), enable) == running[k];
    }

    lemma Retreat(running: seq<Streams>, i: nat, hi: nat)
      requires i < hi && i + offset < |running|
      requires CanMove(running, i)
      ensures var now, k := After(running, i, hi), i + offset;
        && After(running, i + 1, hi) == now[k := Moved(now[k], For(i), !enable)]
        && now[k] == Moved(running[k], For(i), enable)
        && (For(i) == {} ==> After(running, i + 1, hi) == now)
    {
      var now, next, k := After(running, i, hi), After(running, i + 1, hi), i + offset;
      MoveBack(running[k], For(i), enable);
      assert k - offset == i;
      assert next == now[k := running[k]];
      assert For(i) == {} ==> Moved(running[k], For(i), enable) == running[k];
    }
  }

  lemma OneBack(c: Change, running: seq<Streams>, k: nat, lo: nat, hi: nat)
    requires hi + c.offset <= |running| && k < |running| && c.MovableBelow(running, lo, hi)
    ensures c.(enable := !c.enable).One(c.One(running[k], k, lo, hi), k, lo, hi) == running[k]
  {
    if lo + c.offset <= k < hi + c.offset {
      assert c.CanMove(running, k - c.offset);
      MoveBack(running[k], c.For(k - c.offset), c.enable);
    }
  }

  /** A whole change that every source allowed is undone by the opposite change. */
  lemma OppositeChange(c: Change, running: seq<Streams>, lo: nat, hi: nat)
    requires hi + c.offset <= |running| && c.MovableBelow(running, lo, hi)
    ensures c.(enable := !c.enable).After(c.After(running, lo, hi), lo, hi) == running
  {
    var back := c.(enable := !c.enable).After(c.After(running, lo, hi), lo, hi);
    forall k: nat | k < |running| ensures back[k] == running[k] {
      OneBack(c, running, k, lo, hi);
    }
  }

  // Each source either is as before or has moved, and those out of range are as before.
  predicate Mixed(before: seq<Streams>, now: seq<Streams>, c: Change, lo: nat, hi: nat)
    requires |before| == |now|
  {
    forall k: nat | k < |now| :: now[k] == before[k] || now[k] == c.One(before[k], k, lo, hi)
  }

  // The sources, each with the streams it is running. A call may be refused, and is refused when it
  // would enable a running stream or disable one that is not running.
  class Sources {
    const answers: nat -> bool
    var calls: nat
    var running: seq<Streams>

    // No call is refused but for the streams it names.
    ghost predicate Willing() {
      forall n :: answers(n)
    }

    constructor (answers: nat -> bool, running: seq<Streams>)
      ensures this.running == running && this.answers == answers
    {
      this.answers, this.calls, this.running := answers, 0, running;
    }

    method SetStreams(source: nat, streams: Streams, enable: bool) returns (ok: bool)
      requires source < |running|
      modifies `calls, `running
      ensures running == if ok then old(running)[source := Moved(old(running)[source], streams, enable)]
                         else old(running)
      ensures ok <==> answers(old(calls)) && Movable(old(running)[source], streams, enable)
      ensures calls == old(calls) + 1
    {
      ok := answers(calls) && if enable then streams !! running[source] else streams <= running[source];
      calls := calls + 1;
      if ok {
        running := running[source := if enable then running[source] + streams else running[source] - streams];
      }
    }

    // The forward loop: it stops at the first sink pad whose source refuses.
    method MovePads(c: Change, lo: nat, hi: nat) returns (ok: bool, reached: nat)
      requires lo <= hi && hi + c.offset <= |running|
      modifies `calls, `running
      ensures lo <= reached <= hi && (ok <==> reached == hi)
      ensures running == c.After(old(running), lo, reached) && c.MovableBelow(old(running), lo, reached)
      ensures Willing() && c.MovableBelow(old(running), lo, hi) ==> ok
    {
      ok, reached := true, lo;
      while reached < hi
        invariant lo <= reached <= hi && ok
        invariant running == c.After(old(running), lo, reached) && c.MovableBelow(old(running), lo, reached)
      {
        c.Advance(old(running), lo, reached);
        assert c.MovableBelow(old(running), lo, hi) ==> c.CanMove(old(running), reached);
        var matched := c.For(reached);
        if matched != {} {
          ok := SetStreams(reached + c.offset, matched, c.enable);
          if !ok {
            return;
          }
        }
        c.MovableOneMore(old(running), lo, reached);
        reached := reached + 1;
      }
    }

    // The compensating loop; the source ignores whether its calls succeed, `undone` remembers it.
    method MovePadsBack(c: Change, ghost before: seq<Streams>, lo: nat, hi: nat) returns (undone: bool)
      requires lo <= hi && hi + c.offset <= |running| == |before| && c.MovableBelow(before, lo, hi)
      requires running == c.After(before, lo, hi)
      modifies `calls, `running
      ensures |running| == |before| && (undone ==> running == before)
      ensures Mixed(before, running, c, lo, hi)
      ensures Willing() ==> undone
    {
      undone := true;
      for i := lo to hi
        invariant |running| == |before| && Mixed(before, running, c, lo, hi)
        invariant undone ==> running == c.After(before, i, hi)
        invariant Willing() ==> undone
        invariant forall k: nat | i + c.offset <= k < |before| :: running[k] == c.After(before, i, hi)[k]
      {
        assert c.CanMove(before, i);
        c.Retreat(before, i, hi);
        MoveBack(before[i + c.offset], c.For(i), c.enable);
        var back := MoveOneBack(c, i);
        undone := undone && back;
      }
    }

    method MoveOneBack(c: Change, i: nat) returns (back: bool)
      requires i + c.offset < |running|
      requires c.For(i) == {} || Movable(running[i + c.offset], c.For(i), !c.enable)
      modifies `calls, `running
      ensures var k := i + c.offset;
        running == if back then old(running)[k := Moved(old(running)[k], c.For(i), !c.enable)] else old(running)
      ensures Willing() ==> back
    {
      var matched := c.For(i);
      back := true;
      if matched != {} {
        back := SetStreams(i + c.offset, matched, !c.enable);
      } else {
        assert Moved(running[i + c.offset], {}, !c.enable) == running[i + c.offset];
      }
    }

    /** On success stream by stream: on every source in range exactly the streams that active routes join to
        the updated ones are on or off as asked, and all else is as before. On failure
        with every compensating call accepted all sources are as before. Sources out of range, and those
        that refused or were not reached, are never touched. */
    method XlateEnableDisable(c: Change, start: nat, count: nat) returns (ok: bool, failed: nat, undone: bool)
      requires start + count + c.offset <= |running|
      modifies `calls, `running
      ensures |running| == |old(running)|
      ensures start <= failed <= start + count && (ok <==> failed == start + count)
      ensures ok ==> running == c.After(old(running), start, start + count)
      ensures ok ==> forall k: nat, s: nat | k < |running| ::
        s in running[k] <==> c.Changed(s in old(running)[k], k, start, start + count, s)
      ensures !ok && undone ==> running == old(running)
      ensures Willing() ==> undone && (c.MovableBelow(old(running), start, start + count) ==> ok)
      ensures Mixed(old(running), running, c, start, failed)
    {
      ok, failed := MovePads(c, start, start + count);
      undone := true;
      if ok {
        forall k: nat, s: nat | k < |running|
          ensures s in running[k] <==> c.Changed(s in old(running)[k], k, start, start + count, s)
        {
          c.OneChanged(old(running)[k], k, start, start + count, s);
        }
      } else {
        undone := MovePadsBack(c, old(running), start, failed);
      }
    }
  }
}
