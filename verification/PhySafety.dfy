/** What makes one register write safe for the CSI PHYs, and why each write of the driver is. */
module PhySafety {
  import opened Registers
  import opened Max9296Layout

  // One successful write: the registers around it, the counters at that moment, and the output the
  // driver is bringing up, or -1.
  datatype BusWrite = BusWrite(addr: nat, before: RegFile, after: RegFile, uses: seq<nat>, enabling: int)

  // The DPLL frequency of an output is not rewritten while its PHY is on, and a PHY that is on has
  // its DPLL running and has a user, except inside the call that is bringing it up.
  predicate SafeWrite(w: BusWrite) {
    && |w.uses| == NUM_CSI
    && forall c: nat | c < NUM_CSI ::
      && (w.addr == DpllFreq(c) ==> !PhyOn(w.before, c))
      && (PhyOn(w.after, c) ==> DpllOn(w.after, c) && (w.uses[c] > 0 || w.enabling == c))
  }

  predicate PhyUsed(regs: RegFile, uses: seq<nat>)
    requires |uses| == NUM_CSI
  {
    forall c: nat | c < NUM_CSI :: PhyOn(regs, c) ==> DpllOn(regs, c) && uses[c] > 0
  }

  predicate PhyExact(regs: RegFile, uses: seq<nat>)
    requires |uses| == NUM_CSI
  {
    forall c: nat | c < NUM_CSI :: PhyOn(regs, c) <==> uses[c] > 0
  }

  // No PHY and no DPLL has changed, except perhaps those of output `c`.
  predicate SamePhys(before: RegFile, after: RegFile, c: nat) {
    forall k: nat | k < NUM_CSI && k != c ::
      PhyOn(after, k) == PhyOn(before, k) && DpllOn(after, k) == DpllOn(before, k)
  }

  // The clock and deskew registers of an output ask for this much: the DPLL runs at the configured rate in steps
  // of 100 MHz, as far as five bits go, and the deskew width is cut at 7.
  predicate Tuned(clock: Byte, deskew: Byte, freqMhz: nat, autoDeskew: bool, deskewWidth: nat) {
    && 100 * Get(clock, DPLL_MULTIPLE) <= freqMhz % 3200 < 100 * Get(clock, DPLL_MULTIPLE) + 100
    && deskew[7] == autoDeskew && Get(deskew, DESKEW_WIDTH) == if deskewWidth > 7 then 7 else deskewWidth
  }

  lemma Hundreds(x: nat)
    ensures 100 * (x / 100 % 32) <= x % 3200 < 100 * (x / 100 % 32) + 100
  {
    var h, q := x / 100, x / 100 / 32;
    assert x == 3200 * q + (100 * (h % 32) + x % 100);
  }

  lemma ClockTuned(was: Byte, freqMhz: nat)
    ensures var f := 100 * Get(Put(was, DPLL_MULTIPLE, freqMhz / 100), DPLL_MULTIPLE); f <= freqMhz % 3200 < f + 100
  {
    GetPut(was, DPLL_MULTIPLE, freqMhz / 100);
    assert Pow2(5) == 32;
    Hundreds(freqMhz);
  }

  lemma DeskewTuned(autoDeskew: bool, width: nat)
    requires width <= 7
    ensures var deskew := Put(Put(ZERO, DESKEW_AUTO, if autoDeskew then 1 else 0), DESKEW_WIDTH, width);
      deskew[7] == autoDeskew && Get(deskew, DESKEW_WIDTH) == width
  {
    var first := Put(ZERO, DESKEW_AUTO, if autoDeskew then 1 else 0);
    PutBit(ZERO, 7, autoDeskew);
    GetPut(first, DESKEW_WIDTH, width);
    assert Pow2(3) == 8;
  }

  // The clock and deskew registers of all outputs but perhaps `c` are as before.
  predicate SameTuning(before: RegFile, after: RegFile, c: nat) {
    forall k: nat | k < NUM_CSI && k != c ::
      after[DpllFreq(k)] == before[DpllFreq(k)] && after[DeskewInit(k)] == before[DeskewInit(k)]
  }

  // Each lemma below says what one kind of write does to the PHYs, and that it is safe.

  lemma OtherWriteIsSafe(addr: nat, regs: RegFile, val: Byte, uses: seq<nat>, enabling: int)
    requires addr < 0x1_0000 && !IsPhyControl(addr) && |uses| == NUM_CSI
    ensures var after := regs[addr := val];
      && SamePhys(regs, after, NUM_CSI)
      && (PhyUsed(regs, uses) ==> SafeWrite(BusWrite(addr, regs, after, uses, enabling)))
  {
  }

  lemma FrequencyIsSafe(regs: RegFile, c: nat, val: Byte, uses: seq<nat>, enabling: int)
    requires c < NUM_CSI && |uses| == NUM_CSI && uses[c] == 0
    ensures var after := regs[DpllFreq(c) := val];
      && SamePhys(regs, after, NUM_CSI)
      && (PhyUsed(regs, uses) ==> SafeWrite(BusWrite(DpllFreq(c), regs, after, uses, enabling)))
  {
  }

  lemma DpllIsSafe(regs: RegFile, c: nat, on: bool, uses: seq<nat>, enabling: int)
    requires c < NUM_CSI && |uses| == NUM_CSI
    ensures var after := regs[DpllReset(c) := regs[DpllReset(c)][0 := on]];
      && DpllOn(after, c) == on && PhyOn(after, c) == PhyOn(regs, c)
      && SamePhys(regs, after, c)
      && (PhyUsed(regs, uses) && (on || !PhyOn(regs, c)) ==>
            SafeWrite(BusWrite(DpllReset(c), regs, after, uses, enabling)))
  {
  }

  lemma PhyIsSafe(regs: RegFile, c: nat, on: bool, uses: seq<nat>, enabling: int)
    requires c < NUM_CSI && |uses| == NUM_CSI
    ensures var after := regs[PHY_ENABLE := regs[PHY_ENABLE][c + 4 := on]];
      && PhyOn(after, c) == on && DpllOn(after, c) == DpllOn(regs, c)
      && SamePhys(regs, after, c)
      && (PhyUsed(regs, uses) && (on ==> DpllOn(regs, c) && enabling == c) ==>
            SafeWrite(BusWrite(PHY_ENABLE, regs, after, uses, enabling)))
  {
  }
}
