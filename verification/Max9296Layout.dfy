/** Register addresses and fields of the MAX9296, and the decoder that says what the chip routes. */
module Max9296Layout {
  import opened Registers

  const NUM_LINKS: nat := 2
  const NUM_PIPES: nat := 4
  const NUM_MAPS: nat := 16
  const NUM_CSI: nat := 4

  const PIPE_EN: nat := 0x2
  const CTRL_MIPI_PHY0: nat := 0x330
  const PHY_MODE: Field := Field(0, 5)
  const PHY_ENABLE: nat := 0x332
  const STREAM_SELECT: Field := Field(0, 2)
  const VC_L: Field := Field(6, 2)
  const DT_L: Field := Field(0, 6)
  const SRC_VC_H: Field := Field(5, 3)
  const DST_VC_H: Field := Field(2, 3)
  const ALT_MEM: Field := Field(0, 3)
  const LANE_COUNT: Field := Field(6, 2)
  const DESKEW_AUTO: Field := Field(7, 1)
  const DESKEW_WIDTH: Field := Field(0, 3)
  const DPLL_MULTIPLE: Field := Field(0, 5)
  const DPLL_RUN: Field := Field(0, 1)

  function PipeSelect(pipe: nat): nat { 0x50 + pipe }

  function MipiTx(n: nat): nat { 0x400 + n * 0x40 }

  function MipiTxExt(pipe: nat): nat { 0x500 + pipe * 0x10 }

  function MapEnL(pipe: nat): nat { MipiTx(pipe) + 0x0B }

  function SrcL(pipe: nat, m: nat): nat { MipiTx(pipe) + 0x0D + m * 2 }

  function DstL(pipe: nat, m: nat): nat { MipiTx(pipe) + 0x0D + m * 2 + 1 }

  function SrcDstH(pipe: nat, m: nat): nat { MipiTxExt(pipe) + m }

  // Four maps share a destination register, two bits each.
  function DphyDest(pipe: nat, m: nat): nat { MipiTx(pipe) + 0x2D + m / 4 }

  function DestField(m: nat): Field { Field(m % 4 * 2, 2) }

  function LaneCount(csi: nat): nat { MipiTx(csi) + 0x0A }

  function DeskewInit(csi: nat): nat { MipiTx(csi) + 0x03 }

  function AltMem(csi: nat): nat { MipiTx(csi) + 0x33 }

  function LaneMap(csi: nat): nat { 0x333 + csi / 2 }

  function LaneMapField(csi: nat): Field { Field(csi % 2 * 4, 4) }

  function DpllFreq(csi: nat): nat { 0x31D + csi * 3 }

  function DpllReset(csi: nat): nat { 0x1C00 + csi * 0x100 }

  // The registers that start and stop a CSI output.
  predicate IsPhyControl(addr: nat) {
    || addr == PHY_ENABLE
    || addr in {DpllFreq(0), DpllFreq(1), DpllFreq(2), DpllFreq(3)}
    || addr in {DpllReset(0), DpllReset(1), DpllReset(2), DpllReset(3)}
  }

  predicate IsDeskew(addr: nat) {
    addr == DeskewInit(0) || addr == DeskewInit(1) || addr == DeskewInit(2) || addr == DeskewInit(3)
  }

  predicate PhyOn(regs: RegFile, csi: nat)
    requires csi < NUM_CSI
  {
    regs[PHY_ENABLE][csi + 4]
  }

  predicate DpllOn(regs: RegFile, csi: nat)
    requires csi < NUM_CSI
  {
    regs[DpllReset(csi)][0]
  }

  // ----- What the hardware routes -----

  const TABLE_SIZE: nat := 38

  // The registers that decide the routing of one pipe: the stream select, the stretch from the
  // low map enables to the last destination register, the sixteen high bytes, and one bit of PIPE_EN.
  datatype WindowData = Window(select: Byte, table: seq<Byte>, high: seq<Byte>, on: bool)

  type Window = w: WindowData | |w.table| == TABLE_SIZE && |w.high| == NUM_MAPS
    witness Window(ZERO, seq(TABLE_SIZE, _ => ZERO), seq(NUM_MAPS, _ => ZERO), false)

  // The `count` registers from address `from` on.
  function Stretch(regs: RegFile, from: nat, count: nat): (s: seq<Byte>)
    requires from + count <= |regs|
    ensures |s| == count
  {
    if count == 0 then [] else Stretch(regs, from, count - 1) + [regs[from + count - 1]]
  }

  lemma {:induction false} StretchIs(regs: RegFile, from: nat, count: nat)
    requires from + count <= |regs|
    ensures Stretch(regs, from, count) == regs[from..from + count]
  {
    if count == 0 {
    } else {
      StretchIs(regs, from, count - 1);
    }
  }

  // A write changes a stretch where it falls into it, and nowhere else.
  lemma StretchWrite(regs: RegFile, from: nat, count: nat, addr: nat, val: Byte)
    requires from + count <= |regs| && addr < |regs|
    ensures Stretch(regs[addr := val], from, count) ==
            if from <= addr < from + count then Stretch(regs, from, count)[addr - from := val]
            else Stretch(regs, from, count)
  {
    StretchIs(regs, from, count);
    StretchIs(regs[addr := val], from, count);
  }

  function WindowOf(regs: RegFile, pipe: nat): Window
    requires pipe < NUM_PIPES
  {
    Window(regs[PipeSelect(pipe)], Stretch(regs, MapEnL(pipe), TABLE_SIZE),
           Stretch(regs, SrcDstH(pipe, 0), NUM_MAPS), regs[PIPE_EN][pipe + 4])
  }

  function Windows(regs: RegFile): (ws: seq<Window>)
    ensures |ws| == NUM_PIPES
  {
    seq(NUM_PIPES, p requires 0 <= p < NUM_PIPES => WindowOf(regs, p))
  }

  // One entry of the chip's routing table: a source VC/DT, the VC/DT it leaves with, and the CSI
  // output it leaves from. The two high fields hold the VC again, three bits wide.
  datatype Route = Route(srcVc: nat, srcDt: nat, dstVc: nat, dstDt: nat, csi: nat, srcVcHigh: nat, dstVcHigh: nat)

  function DecodeMap(w: Window, m: nat): Route
    requires m < NUM_MAPS
  {
    var src, dst := w.table[SrcL(0, m) - MapEnL(0)], w.table[DstL(0, m) - MapEnL(0)];
    Route(Get(src, VC_L), Get(src, DT_L), Get(dst, VC_L), Get(dst, DT_L),
          Get(w.table[DphyDest(0, m) - MapEnL(0)], DestField(m)),
          Get(w.high[m], SRC_VC_H), Get(w.high[m], DST_VC_H))
  }

  predicate MapEnabled(w: Window, m: nat)
    requires m < NUM_MAPS
  {
    if m < 8 then w.table[0][m] else w.table[1][m - 8]
  }

  // ----- What one register write does to the windows -----

  lemma WindowWrite(regs: RegFile, addr: nat, val: Byte, q: nat)
    requires q < NUM_PIPES && addr < 0x1_0000
    ensures
      var w, after := WindowOf(regs, q), regs[addr := val];
      var table := if MapEnL(q) <= addr < MapEnL(q) + TABLE_SIZE then w.table[addr - MapEnL(q) := val] else w.table;
      var high := if SrcDstH(q, 0) <= addr < SrcDstH(q, 0) + NUM_MAPS then w.high[addr - SrcDstH(q, 0) := val]
                  else w.high;
      WindowOf(after, q) == Window(after[PipeSelect(q)], table, high, after[PIPE_EN][q + 4])
  {
    StretchWrite(regs, MapEnL(q), TABLE_SIZE, addr, val);
    StretchWrite(regs, SrcDstH(q, 0), NUM_MAPS, addr, val);
  }

  lemma WindowsWrite(regs: RegFile, addr: nat, val: Byte, p: nat, w: Window)
    requires p < NUM_PIPES && addr < 0x1_0000 && WindowOf(regs[addr := val], p) == w
    requires forall q: nat | q < NUM_PIPES && q != p :: WindowOf(regs[addr := val], q) == WindowOf(regs, q)
    ensures Windows(regs[addr := val]) == Windows(regs)[p := w]
  {
  }

  /** Pipes and CSI outputs share one address range, 0x40 apart, yet a write at one offset of one
      pipe's table changes that byte of that pipe's window, and no other window. */
  lemma WriteTable(regs: RegFile, p: nat, i: nat, val: Byte)
    requires p < NUM_PIPES && i < TABLE_SIZE
    ensures var w := Windows(regs)[p];
      Windows(regs[MapEnL(p) + i := val]) == Windows(regs)[p := w.(table := w.table[i := val])]
  {
    var addr := MapEnL(p) + i;
    forall q: nat | q < NUM_PIPES { WindowWrite(regs, addr, val, q); }
    WindowsWrite(regs, addr, val, p, WindowOf(regs[addr := val], p));
  }

  lemma WriteHigh(regs: RegFile, p: nat, m: nat, val: Byte)
    requires p < NUM_PIPES && m < NUM_MAPS
    ensures var w := Windows(regs)[p];
      Windows(regs[SrcDstH(p, m) := val]) == Windows(regs)[p := w.(high := w.high[m := val])]
  {
    var addr := SrcDstH(p, m);
    forall q: nat | q < NUM_PIPES { WindowWrite(regs, addr, val, q); }
    WindowsWrite(regs, addr, val, p, WindowOf(regs[addr := val], p));
  }

  lemma WriteSelect(regs: RegFile, p: nat, val: Byte)
    requires p < NUM_PIPES
    ensures Windows(regs[PipeSelect(p) := val]) == Windows(regs)[p := Windows(regs)[p].(select := val)]
  {
    forall q: nat | q < NUM_PIPES { WindowWrite(regs, PipeSelect(p), val, q); }
    WindowsWrite(regs, PipeSelect(p), val, p, WindowOf(regs[PipeSelect(p) := val], p));
  }

  lemma WritePipeBit(regs: RegFile, p: nat, on: bool)
    requires p < NUM_PIPES
    ensures Windows(regs[PIPE_EN := regs[PIPE_EN][p + 4 := on]]) == Windows(regs)[p := Windows(regs)[p].(on := on)]
  {
    var val := regs[PIPE_EN][p + 4 := on];
    forall q: nat | q < NUM_PIPES { WindowWrite(regs, PIPE_EN, val, q); }
    WindowsWrite(regs, PIPE_EN, val, p, WindowOf(regs[PIPE_EN := val], p));
  }

  // The registers of CSI outputs and PHYs lie outside every window.
  predicate OutsideWindows(addr: nat) {
    && addr != PIPE_EN && !(0x50 <= addr < 0x54) && !(0x500 <= addr < 0x540)
    && !(0x400 <= addr < 0x500 && 0x0B <= addr % 0x40 <= 0x30)
  }

  lemma WriteOutside(regs: RegFile, addr: nat, val: Byte)
    requires addr < 0x1_0000 && OutsideWindows(addr)
    ensures Windows(regs[addr := val]) == Windows(regs)
  {
    forall q: nat | q < NUM_PIPES { WindowWrite(regs, addr, val, q); }
    WindowsWrite(regs, addr, val, 0, WindowOf(regs, 0));
  }

  // GENMASK(n - 1, 0), and 0 when n is 0.
  function LowMask(n: nat): nat { Pow2(n) - 1 }

  lemma {:induction false} LowMaskBits(n: nat, width: nat, i: nat)
    requires i < width
    ensures ToBits(LowMask(n), width)[i] == (i < n)
  {
    if n == 0 {
      NoBits(width, i);
    } else if i == 0 {
      HalfMask(n);
    } else {
      HalfMask(n);
      LowMaskBits(n - 1, width - 1, i - 1);
    }
  }

  lemma {:induction false} LowMaskShifted(n: nat, k: nat)
    ensures LowMask(n) / Pow2(k) == LowMask(if n < k then 0 else n - k)
  {
    if k == 0 || n == 0 {
      ModIs(LowMask(n), Pow2(k), LowMask(if n < k then 0 else n - k), 0);
    } else {
      LowMaskShifted(n - 1, k - 1);
      HalfMask(n);
      ModByProduct(LowMask(n), Pow2(k - 1));
    }
  }

  lemma HalfMask(n: nat)
    requires n > 0
    ensures LowMask(n) / 2 == LowMask(n - 1) && LowMask(n) % 2 == 1
  {
    assert LowMask(n) == 2 * LowMask(n - 1) + 1;
  }
}
