/** Lane maps: completing a partial lane assignment to a permutation, packing it two bits a lane, and
    splitting it over shared registers. */
module LaneMaps {
  import opened Registers

  const MAX_LANES: nat := 4

  function LaneField(i: nat): Field
    requires i < MAX_LANES
  {
    Field(2 * i, 2)
  }

  function LaneAt(val: Byte, i: nat): nat
    requires i < MAX_LANES
  {
    Get(val, LaneField(i))
  }

  // The lanes that the first `n` fields stand for.
  function LanesOf(val: Byte, n: nat): seq<nat>
    requires n <= MAX_LANES
  {
    seq(n, i requires 0 <= i < n => LaneAt(val, i))
  }

  function Or(a: Byte, b: Byte): Byte { seq(8, k requires 0 <= k < 8 => a[k] || b[k]) }

  // ffz: the lowest clear bit of a mask, here the lowest number that is not a member.
  function Ffz(used: set<nat>, from: nat, limit: nat): (z: nat)
    requires exists i: nat | from <= i < limit :: i !in used
    ensures from <= z < limit && z !in used && forall i: nat | from <= i < z :: i in used
    decreases limit - from
  {
    if from !in used then from else Ffz(used, from + 1, limit)
  }

  predicate Distinct(s: seq<nat>) {
    forall i: nat, j: nat | i < j < |s| :: s[i] != s[j]
  }

  // Each of the numbers below `n` exactly once.
  predicate IsPermutation(lanes: seq<nat>, n: nat) {
    |lanes| == n && Distinct(lanes) && (forall l | l in lanes :: l < n) && forall l: nat | l < n :: l in lanes
  }

  // Lane `i` of `lanes` is the lowest one not used before it.
  predicate LowestUnused(lanes: seq<nat>, i: nat)
    requires i < |lanes|
  {
    lanes[i] !in lanes[..i] && forall l: nat | l < lanes[i] :: l in lanes[..i]
  }

  // So far, `lanes` has the given lanes, counted from 0, and goes on with the lowest unused one each time.
  predicate Follows(lanes: seq<nat>, dataLanes: seq<nat>) {
    && (forall i: nat | i < |lanes| && i < |dataLanes| :: lanes[i] + 1 == dataLanes[i])
    && forall i: nat | |dataLanes| <= i < |lanes| :: LowestUnused(lanes, i)
  }

  predicate Completes(lanes: seq<nat>, dataLanes: seq<nat>) {
    |dataLanes| <= |lanes| && Follows(lanes, dataLanes)
  }

  predicate Packs(val: Byte, lanes: seq<nat>) {
    && |lanes| <= MAX_LANES
    && (forall i: nat | i < |lanes| :: LaneAt(val, i) == lanes[i])
    && forall k: nat | 2 * |lanes| <= k < 8 :: !val[k]
  }

  function Below(n: nat): (b: set<nat>)
    ensures |b| == n && forall i: nat :: i in b <==> i < n
  {
    if n == 0 then {} else Below(n - 1) + {n - 1}
  }

  lemma SubsetSize(a: set<nat>, b: set<nat>)
    requires a <= b
    ensures |b - a| == |b| - |a| && (|a| == |b| ==> a == b)
  {
  }

  function Elements(s: seq<nat>): (e: set<nat>)
    ensures forall x: nat :: x in e <==> x in s
  {
    if s == [] then {}
    else
      var n := |s| - 1;
      assert s == s[..n] + [s[n]];
      Elements(s[..n]) + {s[n]}
  }

  lemma {:induction false} DistinctElements(s: seq<nat>)
    requires Distinct(s)
    ensures |Elements(s)| == |s|
  {
    if s == [] {
    } else {
      var n := |s| - 1;
      DistinctElements(s[..n]);
      assert s[n] !in s[..n];
    }
  }

  // Fewer than `n` distinct numbers below `n` leave one out; `n` of them leave none out.
  lemma Pigeonhole(s: seq<nat>, n: nat)
    requires Distinct(s) && forall l | l in s :: l < n
    ensures |s| < n ==> exists l: nat | l < n :: l !in s
    ensures |s| == n ==> IsPermutation(s, n)
  {
    var members := Elements(s);
    DistinctElements(s);
    SubsetSize(members, Below(n));
    if |s| < n {
      assert Below(n) - members != {};
      var l :| l in Below(n) - members;
      assert l < n && l !in s;
    } else if |s| == n {
      forall l: nat | l < n ensures l in s {
        assert l in members;
      }
    }
  }

  // Or-ing a lane into clear bits puts it into its field.
  lemma OrIsPut(val: Byte, i: nat, lane: nat)
    requires i < MAX_LANES && forall k: nat | 2 * i <= k < 8 :: !val[k]
    ensures Or(val, Put(ZERO, LaneField(i), lane)) == Put(val, LaneField(i), lane)
  {
  }

  lemma OrAppends(val: Byte, lanes: seq<nat>, lane: nat)
    requires |lanes| < MAX_LANES && Packs(val, lanes) && lane < 4
    ensures Packs(Or(val, Put(ZERO, LaneField(|lanes|), lane)), lanes + [lane])
  {
    var f := LaneField(|lanes|);
    var after := Put(val, f, lane);
    OrIsPut(val, |lanes|, lane);
    GetPut(val, f, lane);
    assert Pow2(2) == 4;
    forall i: nat | i < |lanes| ensures LaneAt(after, i) == lanes[i] {
      GetPutOther(val, f, lane, LaneField(i));
    }
    forall k: nat | 2 * (|lanes| + 1) <= k < 8 ensures !after[k] {
      assert after[k] == val[k];
    }
  }

  /** The completion loop: given distinct data lanes in 1..n, the result is a permutation of the n lanes,
      packed two bits each. */
  method CompleteLanes(dataLanes: seq<nat>, n: nat) returns (val: Byte)
    requires |dataLanes| <= n <= MAX_LANES && Distinct(dataLanes) && forall l | l in dataLanes :: 1 <= l <= n
    ensures IsPermutation(LanesOf(val, n), n) && Completes(LanesOf(val, n), dataLanes) && Packs(val, LanesOf(val, n))
  {
    val := ZERO;
    ghost var lanes: seq<nat> := [];
    var used: set<nat> := {};
    for i := 0 to n
      invariant |lanes| == i && Distinct(lanes) && Follows(lanes, dataLanes) && Packs(val, lanes)
      invariant (forall l | l in lanes :: l < n) && forall l: nat :: l in used <==> l in lanes
    {
      Pigeonhole(lanes, n);
      var lane: nat;
      if i < |dataLanes| {
        assert dataLanes[i] in dataLanes;
        lane := dataLanes[i] - 1;
      } else {
        lane := Ffz(used, 0, n);
      }
      NextLane(lanes, dataLanes, lane);
      OrAppends(val, lanes, lane);
      val := Or(val, Put(ZERO, LaneField(i), lane));
      used := used + {lane};
      lanes := lanes + [lane];
    }
    Pigeonhole(lanes, n);
    assert LanesOf(val, n) == lanes;
  }

  lemma NextLane(lanes: seq<nat>, dataLanes: seq<nat>, lane: nat)
    requires Distinct(lanes) && Distinct(dataLanes) && Follows(lanes, dataLanes)
    requires if |lanes| < |dataLanes| then lane + 1 == dataLanes[|lanes|]
      else lane !in lanes && forall l: nat | l < lane :: l in lanes
    ensures Distinct(lanes + [lane]) && Follows(lanes + [lane], dataLanes)
  {
    var next, n := lanes + [lane], |lanes|;
    assert next[..n] == lanes;
    forall i: nat | i < n ensures lanes[i] != lane {
      assert lanes[i] in lanes;
    }
    forall i: nat | |dataLanes| <= i < |next| ensures LowestUnused(next, i) {
      if i < n {
        assert next[..i] == lanes[..i] && LowestUnused(lanes, i);
      }
    }
  }

  /** A permutation is not lost by packing: two lane lists packed alike are equal. */
  lemma PackingDecodes(val: Byte, a: seq<nat>, b: seq<nat>)
    requires Packs(val, a) && Packs(val, b) && |a| == |b|
    ensures a == b
  {
  }

  // ----- MAX9296A: one register a PHY, nibbles swapped where lanes 0 and 1 sit on the second PHY -----

  function NibbleSwap(val: Byte): Byte { val[4..] + val[..4] }

  lemma NibbleSwapIsInvolution(val: Byte)
    ensures NibbleSwap(NibbleSwap(val)) == val
  {
  }

  /** The swap moves lane i to lane i + 2, cyclically. */
  lemma NibbleSwapMovesLanes(val: Byte, i: nat)
    requires i < MAX_LANES
    ensures LaneAt(NibbleSwap(val), (i + 2) % 4) == LaneAt(val, i)
  {
    var j := (i + 2) % 4;
    assert NibbleSwap(val)[2 * j..2 * j + 2] == val[2 * i..2 * i + 2];
  }

  function RotatedByTwo(lanes: seq<nat>): seq<nat>
    requires |lanes| == MAX_LANES
  {
    lanes[2..] + lanes[..2]
  }

  /** Swapping nibbles keeps a permutation a permutation, with its halves exchanged. */
  lemma SwappedPermutation(val: Byte, lanes: seq<nat>)
    requires |lanes| == MAX_LANES && Packs(val, lanes) && IsPermutation(lanes, MAX_LANES)
    ensures Packs(NibbleSwap(val), RotatedByTwo(lanes)) && IsPermutation(RotatedByTwo(lanes), MAX_LANES)
  {
    var swapped := RotatedByTwo(lanes);
    forall i: nat | i < MAX_LANES ensures LaneAt(NibbleSwap(val), i) == swapped[i] {
      NibbleSwapMovesLanes(val, (i + 2) % 4);
      assert swapped[i] == lanes[(i + 2) % 4];
    }
    RotatedPermutation(lanes);
  }

  lemma RotatedPermutation(lanes: seq<nat>)
    requires |lanes| == MAX_LANES && IsPermutation(lanes, MAX_LANES)
    ensures IsPermutation(RotatedByTwo(lanes), MAX_LANES)
  {
    var swapped := RotatedByTwo(lanes);
    assert swapped == [lanes[2], lanes[3], lanes[0], lanes[1]];
    assert forall i: nat | i < MAX_LANES :: lanes[i] in lanes;
    Pigeonhole(swapped, MAX_LANES);
  }

  // The update of the lane map goes through or fails, as `busOk` says.
  method InitPhyMax9296a(regs: RegFile, index: nat, n: nat, dataLanes: seq<nat>, onSecondPhy: bool, busOk: bool)
      returns (ok: bool, after: RegFile)
    requires index < 4 && |dataLanes| <= n <= MAX_LANES && Distinct(dataLanes)
    requires forall l | l in dataLanes :: 1 <= l <= n
    ensures ok == busOk && (!ok ==> after == regs)
    ensures ok ==>
      var val := if index == 0 && onSecondPhy then NibbleSwap(after[0x333 + index]) else after[0x333 + index];
      IsPermutation(LanesOf(val, n), n) && Completes(LanesOf(val, n), dataLanes) && Packs(val, LanesOf(val, n))
    ensures after == regs[0x333 + index := after[0x333 + index]]
  {
    var val := CompleteLanes(dataLanes, n);
    NibbleSwapIsInvolution(val);
    if index == 0 && onSecondPhy {
      val := NibbleSwap(val);
    }
    ok, after := busOk, regs;
    if ok {
      after := regs[0x333 + index := val];
    }
  }

  // ----- MAX96717: two PHYs share two registers, a nibble each -----

  const RX2: nat := 0x332
  const RX3: nat := 0x333

  function LowRegister(phy: nat): nat { if phy == 0 then RX2 else RX3 }

  function HighRegister(phy: nat): nat { if phy == 0 then RX3 else RX2 }

  // field_prep into the low or the high nibble of a register, everything else kept.
  function WithLow(b: Byte, nibble: seq<bool>): Byte
    requires |nibble| == 4
  {
    nibble + b[4..]
  }

  function WithHigh(b: Byte, nibble: seq<bool>): Byte
    requires |nibble| == 4
  {
    b[..4] + nibble
  }

  function SplitLaneMap(regs: RegFile, phy: nat, val: Byte): RegFile
    requires phy < 2
  {
    var low := regs[LowRegister(phy) := WithLow(regs[LowRegister(phy)], val[..4])];
    low[HighRegister(phy) := WithHigh(low[HighRegister(phy)], val[4..])]
  }

  function LaneMapOf(regs: RegFile, phy: nat): Byte
    requires phy < 2
  {
    regs[LowRegister(phy)][..4] + regs[HighRegister(phy)][4..]
  }

  /** Each PHY's map decodes as written, and writing it leaves the map of the other PHY alone. */
  lemma SplitDecodes(regs: RegFile, phy: nat, val: Byte)
    requires phy < 2
    ensures LaneMapOf(SplitLaneMap(regs, phy, val), phy) == val
    ensures LaneMapOf(SplitLaneMap(regs, phy, val), 1 - phy) == LaneMapOf(regs, 1 - phy)
  {
  }

  /** The order in which the two PHYs are set up does not matter. */
  lemma SplitsCommute(regs: RegFile, v: Byte, w: Byte)
    ensures SplitLaneMap(SplitLaneMap(regs, 0, v), 1, w) == SplitLaneMap(SplitLaneMap(regs, 1, w), 0, v)
  {
  }

  // `lowOk` and `highOk` say whether the two updates go through.
  method InitPhyMax96717(regs: RegFile, phy: nat, dataLanes: seq<nat>, lowOk: bool, highOk: bool)
      returns (ok: bool, after: RegFile)
    requires |dataLanes| <= MAX_LANES && Distinct(dataLanes) && forall l | l in dataLanes :: 1 <= l <= MAX_LANES
    ensures ok <==> phy < 2 && lowOk && highOk
    ensures ok ==> var lanes := LanesOf(LaneMapOf(after, phy), MAX_LANES);
      IsPermutation(lanes, MAX_LANES) && Completes(lanes, dataLanes)
    ensures phy < 2 ==> LaneMapOf(after, 1 - phy) == LaneMapOf(regs, 1 - phy)
    ensures phy >= 2 || !lowOk ==> after == regs
    ensures !ok && phy < 2 ==> after == regs[LowRegister(phy) := after[LowRegister(phy)]]
    ensures forall a: nat | a < 0x1_0000 && a != RX2 && a != RX3 :: after[a] == regs[a]
  {
    var val := CompleteLanes(dataLanes, MAX_LANES);
    ok, after := false, regs;
    if phy >= 2 {
      return;
    }
    SplitDecodes(regs, phy, val);
    var low := if phy == 0 then RX2 else RX3;
    if !lowOk {
      return;
    }
    after := after[low := WithLow(after[low], val[..4])];
    assert after[low][4..] == regs[low][4..];
    var high := if phy == 0 then RX3 else RX2;
    if !highOk {
      return;
    }
    after := after[high := WithHigh(after[high], val[4..])];
    ok := true;
  }
}
