/** Test-pattern timings: derived from a video mode, and split into registers byte by byte. */
module TpgTimings {
  import opened Registers

  const U32: nat := 0x1_0000_0000

  datatype VideoMode = VideoMode(pixelClock: nat, hActive: nat, hFrontPorch: nat, hSync: nat, hBackPorch: nat,
                                 vActive: nat, vFrontPorch: nat, vSync: nat, vBackPorch: nat)

  datatype Timings = Timings(vsDly: nat, vsHigh: nat, vsLow: nat, v2h: nat, hsHigh: nat, hsLow: nat, hsCnt: nat,
                             v2d: nat, deHigh: nat, deLow: nat, deCnt: nat, clock: nat, fps: nat)

  function LineTotal(vm: VideoMode): nat { vm.hActive + vm.hFrontPorch + vm.hBackPorch + vm.hSync }

  function FrameLines(vm: VideoMode): nat { vm.vActive + vm.vFrontPorch + vm.vBackPorch + vm.vSync }

  function Wrap(x: nat): nat { x % U32 }

  function Product(a: nat, b: nat): nat { a * b }

  function DivRoundClosest(x: nat, d: nat): nat
    requires d > 0
  {
    (x + d / 2) / d
  }

  // Every sum and product is taken in 32 bits. First the fields that multiply by the length of a line.
  function VsHigh(vm: VideoMode, htot: nat): nat { Wrap(Product(vm.vSync, htot)) }

  function VsLow(vm: VideoMode, htot: nat): nat {
    Wrap(Product(Wrap(vm.vActive + vm.vFrontPorch + vm.vBackPorch), htot))
  }

  function V2d(vm: VideoMode, htot: nat): nat {
    Wrap(Wrap(Product(Wrap(vm.vSync + vm.vBackPorch), htot)) + Wrap(vm.hSync + vm.hBackPorch))
  }

  function VmTimings(vm: VideoMode): Timings
    requires Wrap(Product(Wrap(FrameLines(vm)), Wrap(LineTotal(vm)))) > 0  // the divisor of the frame rate
  {
    var htot, vtot := Wrap(LineTotal(vm)), Wrap(FrameLines(vm));
    Timings(0, VsHigh(vm, htot), VsLow(vm, htot), 0,
            vm.hSync, Wrap(vm.hActive + vm.hFrontPorch + vm.hBackPorch),
            Wrap(vm.vActive + vm.vFrontPorch + vm.vBackPorch + vm.vSync), V2d(vm, htot),
            vm.hActive, Wrap(vm.hFrontPorch + vm.hSync + vm.hBackPorch), vm.vActive,
            Wrap(vm.pixelClock), Wrap(DivRoundClosest(vm.pixelClock, Wrap(Product(vtot, htot)))))
  }

  // Nothing wraps, and there is a frame.
  predicate Fits(vm: VideoMode) {
    0 < Product(FrameLines(vm), LineTotal(vm)) < U32 && vm.vActive > 0
  }

  lemma Monotone(a: nat, b: nat, k: nat)
    requires a <= b
    ensures Product(a, k) <= Product(b, k)
  {
  }

  lemma Distributes(a: nat, b: nat, k: nat)
    ensures Product(a + b, k) == Product(a, k) + Product(b, k)
  {
  }

  lemma FactorsFit(a: nat, b: nat)
    requires 0 < Product(a, b) < U32
    ensures 0 < a < U32 && 0 < b < U32
  {
  }

  lemma NoWrap(x: nat)
    requires x < U32
    ensures Wrap(x) == x
  {
  }

  lemma Parts(a: nat, b: nat, vtot: nat, htot: nat)
    requires a + b == vtot && 0 < Product(vtot, htot) < U32
    ensures Wrap(a) == a && Wrap(Product(a, htot)) == Product(a, htot)
    ensures Product(a, htot) + Product(b, htot) == Product(vtot, htot)
  {
  }

  // The delay before the first active pixel is shorter than the frame, as there are active lines.
  lemma PlainDelay(vm: VideoMode)
    requires Fits(vm)
    ensures var htot, lines, pixels := LineTotal(vm), vm.vSync + vm.vBackPorch, vm.hSync + vm.hBackPorch;
      V2d(vm, htot) == Product(lines, htot) + pixels
  {
    var htot, vtot := LineTotal(vm), FrameLines(vm);
    FactorsFit(vtot, htot);
    Parts(vm.vSync + vm.vBackPorch, vm.vActive + vm.vFrontPorch, vtot, htot);
    Monotone(1, vm.vActive + vm.vFrontPorch, htot);
    NoWrap(vm.hSync + vm.hBackPorch);
    NoWrap(Product(vm.vSync + vm.vBackPorch, htot) + (vm.hSync + vm.hBackPorch));
  }

  lemma PlainTotals(vm: VideoMode)
    requires Fits(vm)
    ensures var htot, vtot := LineTotal(vm), FrameLines(vm);
      Wrap(htot) == htot && Wrap(vtot) == vtot && Wrap(Product(vtot, htot)) == Product(vtot, htot) > 0
  {
    FactorsFit(FrameLines(vm), LineTotal(vm));
    NoWrap(LineTotal(vm));
    NoWrap(FrameLines(vm));
    NoWrap(Product(FrameLines(vm), LineTotal(vm)));
  }

  lemma PlainSync(vm: VideoMode)
    requires Fits(vm)
    ensures var htot, lines := LineTotal(vm), vm.vActive + vm.vFrontPorch + vm.vBackPorch;
      VsHigh(vm, htot) == Product(vm.vSync, htot) && VsLow(vm, htot) == Product(lines, htot)
  {
    var htot, vtot, lines := LineTotal(vm), FrameLines(vm), vm.vActive + vm.vFrontPorch + vm.vBackPorch;
    Parts(vm.vSync, lines, vtot, htot);
    Parts(lines, vm.vSync, vtot, htot);
  }

  lemma PlainLines(vm: VideoMode)
    requires Fits(vm)
    ensures var low, blank := vm.hActive + vm.hFrontPorch + vm.hBackPorch, vm.hFrontPorch + vm.hSync + vm.hBackPorch;
      Wrap(low) == low && Wrap(blank) == blank
  {
    FactorsFit(FrameLines(vm), LineTotal(vm));
    NoWrap(vm.hActive + vm.hFrontPorch + vm.hBackPorch);
    NoWrap(vm.hFrontPorch + vm.hSync + vm.hBackPorch);
  }

  lemma PlainHorizontal(vm: VideoMode)
    requires Fits(vm) && Wrap(Product(Wrap(FrameLines(vm)), Wrap(LineTotal(vm)))) > 0
    requires Wrap(FrameLines(vm)) == FrameLines(vm)
    ensures var t := VmTimings(vm);
      && t.hsLow == vm.hActive + vm.hFrontPorch + vm.hBackPorch && t.hsCnt == FrameLines(vm)
      && t.deLow == vm.hFrontPorch + vm.hSync + vm.hBackPorch
  {
    PlainLines(vm);
    assert vm.vActive + vm.vFrontPorch + vm.vBackPorch + vm.vSync == FrameLines(vm);
  }

  // Without overflow the 32-bit values are the plain ones.
  lemma PlainTimings(vm: VideoMode)
    requires Fits(vm)
    ensures var htot, vtot := LineTotal(vm), FrameLines(vm);
      && Wrap(htot) == htot && Wrap(vtot) == vtot && Wrap(Product(vtot, htot)) == Product(vtot, htot) > 0
      && var t := VmTimings(vm);
      && t.vsHigh == Product(vm.vSync, htot) && t.vsLow == Product(vm.vActive + vm.vFrontPorch + vm.vBackPorch, htot)
      && t.hsLow == vm.hActive + vm.hFrontPorch + vm.hBackPorch && t.hsCnt == vtot
      && t.v2d == Product(vm.vSync + vm.vBackPorch, htot) + (vm.hSync + vm.hBackPorch)
      && t.deLow == vm.hFrontPorch + vm.hSync + vm.hBackPorch
  {
    PlainTotals(vm);
    PlainSync(vm);
    PlainDelay(vm);
    PlainHorizontal(vm);
  }

  /** The frame is conserved: sync and the rest make up vtot * htot pixels, every line is htot long by
      either account, and the last active pixel ends vfp lines and hfp pixels before the frame does. */
  lemma FrameConserved(vm: VideoMode)
    requires Fits(vm)
    ensures Wrap(Product(Wrap(FrameLines(vm)), Wrap(LineTotal(vm)))) > 0
    ensures var t, htot, frame := VmTimings(vm), LineTotal(vm), Product(FrameLines(vm), LineTotal(vm));
      && t.vsHigh + t.vsLow == frame && Product(t.hsCnt, htot) == frame
      && t.hsHigh + t.hsLow == htot && t.deHigh + t.deLow == htot
      && t.v2d + Product(t.deCnt - 1, htot) + t.deHigh + Product(vm.vFrontPorch, htot) + vm.hFrontPorch == frame
  {
    PlainTimings(vm);
    var htot := LineTotal(vm);
    Distributes(vm.vSync, vm.vActive + vm.vFrontPorch + vm.vBackPorch, htot);
    Distributes(vm.vSync + vm.vBackPorch, vm.vActive + vm.vFrontPorch, htot);
    Distributes(vm.vActive, vm.vFrontPorch, htot);
    Distributes(vm.vActive - 1, 1, htot);
  }

  lemma RoundClosest(x: nat, d: nat)
    requires 0 < d < U32 && x < U32
    ensures var q := Product(DivRoundClosest(x, d), d); 2 * x <= 2 * q + d && 2 * q <= 2 * x + d
    ensures DivRoundClosest(x, d) < U32
  {
  }

  /** The rounded frame rate misses the pixel clock by at most half a frame. */
  lemma FrameRateWithinHalfFrame(vm: VideoMode)
    requires Fits(vm) && vm.pixelClock < U32
    ensures Wrap(Product(Wrap(FrameLines(vm)), Wrap(LineTotal(vm)))) > 0
    ensures var t, frame := VmTimings(vm), Product(FrameLines(vm), LineTotal(vm));
      2 * t.clock <= 2 * Product(t.fps, frame) + frame && 2 * Product(t.fps, frame) <= 2 * t.clock + frame
  {
    PlainTimings(vm);
    var frame := Product(FrameLines(vm), LineTotal(vm));
    RoundClosest(vm.pixelClock, frame);
    NoWrap(vm.pixelClock);
    NoWrap(DivRoundClosest(vm.pixelClock, frame));
  }

  // ----- Looking a mode up -----

  const MODES: seq<VideoMode> := [
    VideoMode(25_000_000, 640, 10, 96, 40, 480, 2, 24, 24),
    VideoMode(75_000_000, 1920, 88, 44, 148, 1080, 4, 16, 36),
    VideoMode(150_000_000, 1920, 88, 44, 148, 1080, 4, 16, 36)
  ]

  predicate FewPixels(vm: VideoMode) {
    Product(FrameLines(vm), LineTotal(vm)) < 0x100_0000 && LineTotal(vm) < 0x1_0000 && FrameLines(vm) < 0x1_0000
  }

  lemma ModeIs(vm: VideoMode, vtot: nat, htot: nat, frame: nat, fps: nat)
    requires vm.vActive > 0 && FrameLines(vm) == vtot && LineTotal(vm) == htot && Product(vtot, htot) == frame
    requires 0 < frame < 0x100_0000 && fps < U32 && vtot < 0x1_0000 && htot < 0x1_0000
    requires Product(fps, frame) <= vm.pixelClock + frame / 2 < Product(fps, frame) + frame
    ensures Fits(vm) && FewPixels(vm) && Wrap(Product(Wrap(FrameLines(vm)), Wrap(LineTotal(vm)))) > 0
    ensures VmTimings(vm).fps == fps
  {
    PlainTimings(vm);
    ModIs(vm.pixelClock + frame / 2, frame, fps, vm.pixelClock + frame / 2 - Product(fps, frame));
    NoWrap(fps);
  }

  lemma ModesFit()
    ensures forall vm | vm in MODES ::
      Fits(vm) && FewPixels(vm) && Wrap(Product(Wrap(FrameLines(vm)), Wrap(LineTotal(vm)))) > 0
    ensures VmTimings(MODES[0]).fps == 60 && VmTimings(MODES[1]).fps == 30 && VmTimings(MODES[2]).fps == 60
  {
    ModeIs(MODES[0], 530, 786, 416_580, 60);
    ModeIs(MODES[1], 1136, 2200, 2_499_200, 30);
    ModeIs(MODES[2], 1136, 2200, 2_499_200, 60);
    assert forall vm | vm in MODES :: vm == MODES[0] || vm == MODES[1] || vm == MODES[2];
  }

  predicate Derives(vm: VideoMode, t: Timings) {
    Wrap(Product(Wrap(FrameLines(vm)), Wrap(LineTotal(vm)))) > 0 && t == VmTimings(vm)
  }

  // What the generator is asked for: nothing, or a size and a frame interval of `numerator / denominator` seconds.
  datatype Entry = NoEntry | Entry(width: nat, height: nat, numerator: nat, denominator: nat)

  datatype Lookup = Found(timings: Timings) | Unchanged | NotFound

  // The rate of an interval; both numbers are 32-bit, and so is the rounded sum.
  function IntervalRate(numerator: nat, denominator: nat): int
    requires numerator > 0
  {
    Wrap(denominator + numerator / 2) / numerator
  }

  predicate Supported(width: nat, height: nat, fps: int) {
    || (width, height, fps) == (640, 480, 60)
    || (width, height, fps) == (1920, 1080, 30)
    || (width, height, fps) == (1920, 1080, 60)
  }

  method GetTpgTimings(entry: Entry) returns (r: Lookup)
    requires entry.Entry? ==> entry.numerator > 0
    ensures entry == NoEntry <==> r == Unchanged
    ensures r.Found? ==> exists vm | vm in MODES && Fits(vm) ::
      && Derives(vm, r.timings) && vm.hActive == entry.width && vm.vActive == entry.height
      && r.timings.fps == IntervalRate(entry.numerator, entry.denominator)
    ensures r.Found? <==>
      entry.Entry? && Supported(entry.width, entry.height, IntervalRate(entry.numerator, entry.denominator))
  {
    if entry == NoEntry {
      return Unchanged;
    }
    var width, height, fps := entry.width, entry.height, IntervalRate(entry.numerator, entry.denominator);
    ModesFit();
    for i := 0 to |MODES|
      invariant forall k: nat | k < i ::
        (MODES[k].hActive, MODES[k].vActive, VmTimings(MODES[k]).fps) != (width, height, fps)
    {
      var vm := MODES[i];
      assert vm in MODES;
      PlainTimings(vm);
      var t := VmTimings(vm);
      if vm.hActive == width && vm.vActive == height && t.fps == fps {
        return Found(t);
      }
    }
    r := NotFound;
  }

  // ----- The registers -----

  function ByteOf(x: nat): Byte { Put(ZERO, WHOLE, x) }

  // REG_SEQUENCE_3 and REG_SEQUENCE_2: most significant byte first.
  function Sequence3(regs: RegFile, reg: nat, val: nat): RegFile
    requires reg + 2 < 0x1_0000
  {
    regs[reg := ByteOf(val / 0x1_0000)][reg + 1 := ByteOf(val / 0x100)][reg + 2 := ByteOf(val)]
  }

  function Sequence2(regs: RegFile, reg: nat, val: nat): RegFile
    requires reg + 1 < 0x1_0000
  {
    regs[reg := ByteOf(val / 0x100)][reg + 1 := ByteOf(val)]
  }

  function Read3(regs: RegFile, reg: nat): nat
    requires reg + 2 < 0x1_0000
  {
    Get(regs[reg], WHOLE) * 0x1_0000 + Get(regs[reg + 1], WHOLE) * 0x100 + Get(regs[reg + 2], WHOLE)
  }

  function Read2(regs: RegFile, reg: nat): nat
    requires reg + 1 < 0x1_0000
  {
    Get(regs[reg], WHOLE) * 0x100 + Get(regs[reg + 1], WHOLE)
  }

  lemma ByteReads(x: nat)
    ensures Get(ByteOf(x), WHOLE) == x % 256
  {
    GetPut(ZERO, WHOLE, x);
    assert Pow2(8) == 256;
  }

  /** Three registers hold a value exactly if it has at most 24 bits, two if it has at most 16. */
  lemma Sequence3RoundTrip(regs: RegFile, reg: nat, val: nat)
    requires reg + 2 < 0x1_0000
    ensures Read3(Sequence3(regs, reg, val), reg) == val % 0x100_0000
    ensures Read3(Sequence3(regs, reg, val), reg) == val <==> val < 0x100_0000
  {
    ByteReads(val / 0x1_0000);
    ByteReads(val / 0x100);
    ByteReads(val);
    ThreeBytesAddUp(val);
    SmallRemainder(val, 0x100_0000);
  }

  lemma TwoBytesAddUp(x: nat)
    ensures x / 0x100 % 256 * 0x100 + x % 256 == x % 0x1_0000
  {
  }

  lemma ThreeBytesAddUp(x: nat)
    ensures x / 0x1_0000 % 256 * 0x1_0000 + x / 0x100 % 256 * 0x100 + x % 256 == x % 0x100_0000
  {
    TwoBytesAddUp(x);
  }

  lemma SmallRemainder(x: nat, m: nat)
    requires m > 0
    ensures x % m == x <==> x < m
  {
  }

  lemma Sequence2RoundTrip(regs: RegFile, reg: nat, val: nat)
    requires reg + 1 < 0x1_0000
    ensures Read2(Sequence2(regs, reg, val), reg) == val % 0x1_0000
    ensures Read2(Sequence2(regs, reg, val), reg) == val <==> val < 0x1_0000
  {
    ByteReads(val / 0x100);
    ByteReads(val);
    TwoBytesAddUp(val);
    SmallRemainder(val, 0x1_0000);
  }

  function SetVertical(regs: RegFile, t: Timings): RegFile {
    Sequence3(Sequence3(Sequence3(Sequence3(regs, 0x242, t.vsDly), 0x245, t.vsHigh), 0x248, t.vsLow), 0x24b, t.v2h)
  }

  function SetHorizontal(regs: RegFile, t: Timings): RegFile {
    Sequence2(Sequence2(Sequence2(regs, 0x24e, t.hsHigh), 0x250, t.hsLow), 0x252, t.hsCnt)
  }

  function SetDataEnable(regs: RegFile, t: Timings): RegFile {
    Sequence2(Sequence2(Sequence2(Sequence3(regs, 0x254, t.v2d), 0x257, t.deHigh), 0x259, t.deLow), 0x25b, t.deCnt)
  }

  function SetTpgTimings(regs: RegFile, t: Timings): RegFile {
    SetDataEnable(SetHorizontal(SetVertical(regs, t), t), t)
  }

  predicate Holds(regs: RegFile, t: Timings) {
    && Read3(regs, 0x242) == t.vsDly && Read3(regs, 0x245) == t.vsHigh && Read3(regs, 0x248) == t.vsLow
    && Read3(regs, 0x24b) == t.v2h && Read2(regs, 0x24e) == t.hsHigh && Read2(regs, 0x250) == t.hsLow
    && Read2(regs, 0x252) == t.hsCnt && Read3(regs, 0x254) == t.v2d && Read2(regs, 0x257) == t.deHigh
    && Read2(regs, 0x259) == t.deLow && Read2(regs, 0x25b) == t.deCnt
  }

  predicate RegistersWideEnough(t: Timings) {
    && t.vsDly < 0x100_0000 && t.vsHigh < 0x100_0000 && t.vsLow < 0x100_0000 && t.v2h < 0x100_0000
    && t.v2d < 0x100_0000 && t.hsHigh < 0x1_0000 && t.hsLow < 0x1_0000 && t.hsCnt < 0x1_0000
    && t.deHigh < 0x1_0000 && t.deLow < 0x1_0000 && t.deCnt < 0x1_0000
  }

  // The registers read back as `x` exactly if `x` is narrow enough for them.
  predicate Exact3(r: RegFile, reg: nat, x: nat)
    requires reg + 2 < 0x1_0000
  {
    Read3(r, reg) == x <==> x < 0x100_0000
  }

  predicate Exact2(r: RegFile, reg: nat, x: nat)
    requires reg + 1 < 0x1_0000
  {
    Read2(r, reg) == x <==> x < 0x1_0000
  }

  predicate HoldsVertical(r: RegFile, t: Timings) {
    && Exact3(r, 0x242, t.vsDly) && Exact3(r, 0x245, t.vsHigh)
    && Exact3(r, 0x248, t.vsLow) && Exact3(r, 0x24b, t.v2h)
  }

  predicate HoldsHorizontal(r: RegFile, t: Timings) {
    && Exact2(r, 0x24e, t.hsHigh) && Exact2(r, 0x250, t.hsLow)
    && Exact2(r, 0x252, t.hsCnt)
  }

  predicate HoldsDataEnable(r: RegFile, t: Timings) {
    && Exact3(r, 0x254, t.v2d) && Exact2(r, 0x257, t.deHigh)
    && Exact2(r, 0x259, t.deLow) && Exact2(r, 0x25b, t.deCnt)
  }

  predicate SameBelow(before: RegFile, after: RegFile, limit: nat)
    requires limit < 0x1_0000
  {
    forall a: nat | a < limit :: after[a] == before[a]
  }

  lemma SameBelowKeeps3(before: RegFile, after: RegFile, limit: nat, reg: nat)
    requires reg + 2 < limit < 0x1_0000 && SameBelow(before, after, limit)
    ensures Read3(after, reg) == Read3(before, reg)
  {
  }

  lemma Sequence3Above(regs: RegFile, reg: nat, val: nat)
    requires reg + 2 < 0x1_0000
    ensures SameBelow(regs, Sequence3(regs, reg, val), reg)
  {
  }

  lemma PartsHold(r1: RegFile, r2: RegFile, r3: RegFile, t: Timings)
    requires HoldsVertical(r1, t) && HoldsHorizontal(r2, t) && HoldsDataEnable(r3, t)
    requires SameBelow(r1, r2, 0x24e) && SameBelow(r2, r3, 0x254)
    ensures Holds(r3, t) <==> RegistersWideEnough(t)
  {
    SameBelowKeeps3(r1, r3, 0x24e, 0x242);
    SameBelowKeeps3(r1, r3, 0x24e, 0x245);
    SameBelowKeeps3(r1, r3, 0x24e, 0x248);
    SameBelowKeeps3(r1, r3, 0x24e, 0x24b);
  }

  lemma VerticalReadBack(regs: RegFile, t: Timings)
    ensures HoldsVertical(SetVertical(regs, t), t)
  {
    var r1 := Sequence3(regs, 0x242, t.vsDly);
    var r2 := Sequence3(r1, 0x245, t.vsHigh);
    var r3 := Sequence3(r2, 0x248, t.vsLow);
    Sequence3RoundTrip(regs, 0x242, t.vsDly);
    Sequence3RoundTrip(r1, 0x245, t.vsHigh);
    Sequence3RoundTrip(r2, 0x248, t.vsLow);
    Sequence3RoundTrip(r3, 0x24b, t.v2h);
    Sequence3Above(r1, 0x245, t.vsHigh);
    Sequence3Above(r2, 0x248, t.vsLow);
    Sequence3Above(r3, 0x24b, t.v2h);
    var r4 := Sequence3(r3, 0x24b, t.v2h);
    SameBelowKeeps3(r1, r4, 0x245, 0x242);
    SameBelowKeeps3(r2, r4, 0x248, 0x245);
    SameBelowKeeps3(r3, r4, 0x24b, 0x248);
  }

  lemma HorizontalReadBack(regs: RegFile, t: Timings)
    ensures HoldsHorizontal(SetHorizontal(regs, t), t) && SameBelow(regs, SetHorizontal(regs, t), 0x24e)
  {
    var r1 := Sequence2(regs, 0x24e, t.hsHigh);
    var r2 := Sequence2(r1, 0x250, t.hsLow);
    Sequence2RoundTrip(regs, 0x24e, t.hsHigh);
    Sequence2RoundTrip(r1, 0x250, t.hsLow);
    Sequence2RoundTrip(r2, 0x252, t.hsCnt);
  }

  lemma DataEnableReadBack(regs: RegFile, t: Timings)
    ensures HoldsDataEnable(SetDataEnable(regs, t), t) && SameBelow(regs, SetDataEnable(regs, t), 0x254)
  {
    var r1 := Sequence3(regs, 0x254, t.v2d);
    var r2 := Sequence2(r1, 0x257, t.deHigh);
    var r3 := Sequence2(r2, 0x259, t.deLow);
    Sequence3RoundTrip(regs, 0x254, t.v2d);
    Sequence2RoundTrip(r1, 0x257, t.deHigh);
    Sequence2RoundTrip(r2, 0x259, t.deLow);
    Sequence2RoundTrip(r3, 0x25b, t.deCnt);
  }

  /** The eleven fields lie one after the other in consecutive registers: they read back as they were
      written exactly if each is narrow enough for its registers. */
  lemma TimingsReadBack(regs: RegFile, t: Timings)
    ensures Holds(SetTpgTimings(regs, t), t) <==> RegistersWideEnough(t)
  {
    VerticalReadBack(regs, t);
    HorizontalReadBack(SetVertical(regs, t), t);
    DataEnableReadBack(SetHorizontal(SetVertical(regs, t), t), t);
    PartsHold(SetVertical(regs, t), SetHorizontal(SetVertical(regs, t), t), SetTpgTimings(regs, t), t);
  }

  lemma WideEnough(vm: VideoMode)
    requires Fits(vm) && FewPixels(vm)
    ensures Wrap(Product(Wrap(FrameLines(vm)), Wrap(LineTotal(vm)))) > 0 && RegistersWideEnough(VmTimings(vm))
  {
    FrameConserved(vm);
    PlainTimings(vm);
  }

  /** Every supported mode fits, so the generator runs with exactly the derived timings. */
  lemma SupportedModesReadBack(regs: RegFile, vm: VideoMode)
    requires vm in MODES
    ensures Fits(vm) && Wrap(Product(Wrap(FrameLines(vm)), Wrap(LineTotal(vm)))) > 0
    ensures Holds(SetTpgTimings(regs, VmTimings(vm)), VmTimings(vm))
  {
    ModesFit();
    WideEnough(vm);
    TimingsReadBack(regs, VmTimings(vm));
  }
}
