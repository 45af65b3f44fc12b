/** The MAX9296 deserialiser driver: it routes video pipes and shares the CSI outputs among their maps.

    Every register write goes through `Write`, which may fail and then leaves the register alone, and
    which records each successful write once the chip has been enabled. */
module Max9296 {
  import opened Registers
  import opened Max9296Layout
  import opened Max9xModel
  import opened PhySafety

  datatype Operation =
    | RouteLink(link: nat)
    | DisableLink(link: nat)
    | EnableChip
    | Stream(sinkPad: nat, on: bool, remote: int)

  // The maps that stream on/off of a link acts on: those of its enabled pipes whose output exists
  // and was not already started with the pipe.
  ghost predicate Streamed(pipes: seq<Pipe>, csi: seq<CsiConfig>, link: nat, k: MapId) {
    && IsMap(pipes, k) && Routed(pipes[k.0], link) && pipes[k.0].maps[k.1].dstCsi < |csi|
    && !csi[pipes[k.0].maps[k.1].dstCsi].autoStart
  }

  // A map that a stream start has yet to flag, and whose output cannot be started.
  ghost predicate Missing(pipes: seq<Pipe>, csi: seq<CsiConfig>, held: set<MapId>, link: nat, k: MapId) {
    Streamed(pipes, csi, link, k) && k !in held && !Startable(csi[pipes[k.0].maps[k.1].dstCsi])
  }

  ghost predicate StartMisses(pipes: seq<Pipe>, csi: seq<CsiConfig>, held: set<MapId>, link: nat) {
    exists k: MapId :: Missing(pipes, csi, held, link, k)
  }

  // The same, over the first maps of a pipe and over the first pipes.
  ghost predicate PipeMisses(pipes: seq<Pipe>, csi: seq<CsiConfig>, held: set<MapId>, link: nat, p: nat, count: nat) {
    exists m: nat | m < count :: Missing(pipes, csi, held, link, (p, m))
  }

  ghost predicate PipesMiss(pipes: seq<Pipe>, csi: seq<CsiConfig>, held: set<MapId>, link: nat, count: nat)
    requires count <= |pipes|
  {
    exists p: nat | p < count :: PipeMisses(pipes, csi, held, link, p, |pipes[p].maps|)
  }

  lemma StartMissesInSomePipe(pipes: seq<Pipe>, csi: seq<CsiConfig>, held: set<MapId>, link: nat)
    ensures StartMisses(pipes, csi, held, link) <==> PipesMiss(pipes, csi, held, link, |pipes|)
  {
    if k: MapId :| Missing(pipes, csi, held, link, k) {
      assert Missing(pipes, csi, held, link, (k.0, k.1)) && PipeMisses(pipes, csi, held, link, k.0, |pipes[k.0].maps|);
    }
  }

  lemma PipeMissesNext(pipes: seq<Pipe>, csi: seq<CsiConfig>, held: set<MapId>, link: nat, p: nat, m: nat)
    ensures PipeMisses(pipes, csi, held, link, p, m + 1) <==>
      PipeMisses(pipes, csi, held, link, p, m) || Missing(pipes, csi, held, link, (p, m))
  {
  }

  lemma PipesMissNext(pipes: seq<Pipe>, csi: seq<CsiConfig>, held: set<MapId>, link: nat, p: nat)
    requires p < |pipes|
    ensures PipesMiss(pipes, csi, held, link, p + 1) <==>
      PipesMiss(pipes, csi, held, link, p) || PipeMisses(pipes, csi, held, link, p, |pipes[p].maps|)
  {
  }

  // The flags after a stream change of the first maps of a pipe, and of the first pipes.
  ghost predicate PipeFlagged(pipes: seq<Pipe>, csi: seq<CsiConfig>, before: set<MapId>, now: set<MapId>, link: nat,
                              p: nat, count: nat, enable: bool) {
    forall k: MapId :: k in now <==>
      if k.0 == p && k.1 < count && Streamed(pipes, csi, link, k) then enable else k in before
  }

  ghost predicate PipesFlagged(pipes: seq<Pipe>, csi: seq<CsiConfig>, before: set<MapId>, now: set<MapId>, link: nat,
                               count: nat, enable: bool) {
    forall k: MapId :: k in now <==> if k.0 < count && Streamed(pipes, csi, link, k) then enable else k in before
  }

  lemma PipeFlaggedNext(pipes: seq<Pipe>, csi: seq<CsiConfig>, before: set<MapId>, mid: set<MapId>, now: set<MapId>,
                        link: nat, p: nat, m: nat, enable: bool)
    requires PipeFlagged(pipes, csi, before, mid, link, p, m, enable)
    requires forall k: MapId :: k in now <==> if k == (p, m) && Streamed(pipes, csi, link, k) then enable else k in mid
    ensures PipeFlagged(pipes, csi, before, now, link, p, m + 1, enable)
    ensures Missing(pipes, csi, mid, link, (p, m)) <==> Missing(pipes, csi, before, link, (p, m))
  {
  }

  lemma PipesFlaggedNext(pipes: seq<Pipe>, csi: seq<CsiConfig>, before: set<MapId>, mid: set<MapId>, now: set<MapId>,
                         link: nat, p: nat, enable: bool)
    requires p < |pipes| && PipesFlagged(pipes, csi, before, mid, link, p, enable)
    requires if Routed(pipes[p], link) then PipeFlagged(pipes, csi, mid, now, link, p, |pipes[p].maps|, enable)
             else now == mid
    ensures PipesFlagged(pipes, csi, before, now, link, p + 1, enable)
    ensures PipeMisses(pipes, csi, mid, link, p, |pipes[p].maps|) <==>
            PipeMisses(pipes, csi, before, link, p, |pipes[p].maps|)
  {
    PipeMissesAlone(pipes, csi, mid, before, link, p, |pipes[p].maps|);
  }

  // Flags of other pipes do not matter to a pipe.
  lemma PipeMissesAlone(pipes: seq<Pipe>, csi: seq<CsiConfig>, a: set<MapId>, b: set<MapId>, link: nat, p: nat,
                        count: nat)
    requires forall k: MapId | k.0 == p :: k in a <==> k in b
    ensures PipeMisses(pipes, csi, a, link, p, count) <==> PipeMisses(pipes, csi, b, link, p, count)
  {
    forall m: nat ensures Missing(pipes, csi, a, link, (p, m)) <==> Missing(pipes, csi, b, link, (p, m)) {
    }
  }

  lemma UnroutedPipeMisses(pipes: seq<Pipe>, csi: seq<CsiConfig>, held: set<MapId>, link: nat, p: nat, count: nat)
    requires p < |pipes| && !Routed(pipes[p], link)
    ensures !PipeMisses(pipes, csi, held, link, p, count)
  {
  }

  predicate IsLinkPad(sinkPad: nat) {
    NUM_CSI <= sinkPad < NUM_CSI + NUM_LINKS
  }

  // What a stream change on any other pad answers.
  const EINVAL: int := -22

  // Without a working bus no output starts or stops. An enable adds users: it leaves the PHY of a used output
  // alone, and an output that gets its first user has its PHY on.
  predicate Ran(dead: bool, enable: bool, before: RegFile, was: seq<nat>, after: RegFile, now: seq<nat>) {
    |was| == |now| == NUM_CSI && forall c: nat | c < NUM_CSI ::
      && (dead ==> (now[c] > 0 <==> was[c] > 0))
      && (enable && was[c] > 0 ==> now[c] > 0 && PhyOn(after, c) == PhyOn(before, c))
      && (enable && was[c] == 0 && now[c] > 0 ==> PhyOn(after, c))
  }

  lemma RanThen(dead: bool, enable: bool, before: RegFile, was: seq<nat>, mid: RegFile, between: seq<nat>,
                after: RegFile, now: seq<nat>)
    requires Ran(dead, enable, before, was, mid, between) && Ran(dead, enable, mid, between, after, now)
    ensures Ran(dead, enable, before, was, after, now)
  {
  }

  // Every output with users runs at the rate and with the deskew of its configuration.
  predicate UsersTuned(regs: RegFile, uses: seq<nat>, csi: seq<CsiConfig>)
    requires |uses| == |csi| == NUM_CSI
  {
    forall c: nat {:trigger TunedTo(regs, c, csi[c])} | c < NUM_CSI && uses[c] > 0 :: TunedTo(regs, c, csi[c])
  }

  lemma TunedKept(before: RegFile, was: seq<nat>, after: RegFile, now: seq<nat>, csi: seq<CsiConfig>)
    requires |was| == |now| == |csi| == NUM_CSI && forall c: nat | c < NUM_CSI && now[c] > 0 :: was[c] > 0
    requires UsersTuned(before, was, csi) && SameTuning(before, after, NUM_CSI)
    ensures UsersTuned(after, now, csi)
  {
    forall c: nat | c < NUM_CSI && now[c] > 0 ensures TunedTo(after, c, csi[c]) {
      assert TunedTo(before, c, csi[c]);
    }
  }

  lemma TunedStill(before: RegFile, after: RegFile, uses: seq<nat>, csi: seq<CsiConfig>, c: nat)
    requires |uses| == |csi| == NUM_CSI && c < NUM_CSI && uses[c] == 0
    requires UsersTuned(before, uses, csi) && SameTuning(before, after, c)
    ensures UsersTuned(after, uses, csi)
    ensures TunedTo(after, c, csi[c]) ==> UsersTuned(after, uses[c := 1], csi)
  {
    forall k: nat | k < NUM_CSI && k != c && uses[k] > 0 ensures TunedTo(after, k, csi[k]) {
      assert TunedTo(before, k, csi[k]);
    }
  }

  predicate TunedTo(regs: RegFile, c: nat, link: CsiConfig)
    requires c < NUM_CSI
  {
    Tuned(regs[DpllFreq(c)], regs[DeskewInit(c)], link.freqMhz, link.autoDeskew, link.deskewWidth)
  }

  const NONE_FAILED: seq<nat> := [0, 0, 0, 0]

  function PhyMode(csi: seq<CsiConfig>): nat
    requires |csi| == NUM_CSI
  {
    var fourA := csi[1].enabled && csi[1].numLanes == 4;
    var fourB := csi[2].enabled && csi[2].numLanes == 4;
    if fourA then (if fourB then 4 else 8) else (if fourB then 16 else 1)
  }

  // One bit a mode: four outputs of two lanes, two of four, or four lanes on the one pair and two by two on the
  // other. An output has four lanes if it is enabled with them, and only the second and the third can have them.
  predicate ModeFits(mode: Byte, csi: seq<CsiConfig>)
    requires |csi| == NUM_CSI
  {
    var first, second := csi[1].enabled && csi[1].numLanes == 4, csi[2].enabled && csi[2].numLanes == 4;
    && mode[0] == (!first && !second) && !mode[1] && mode[2] == (first && second)
    && mode[3] == (first && !second) && mode[4] == (!first && second)
  }

  lemma ModeBits(was: Byte, csi: seq<CsiConfig>)
    requires |csi| == NUM_CSI
    ensures ModeFits(Put(was, PHY_MODE, PhyMode(csi)), csi)
  {
    assert Pow2(0) == 1 && Pow2(2) == 4 && Pow2(3) == 8 && Pow2(4) == 16;
    var first, second := csi[1].enabled && csi[1].numLanes == 4, csi[2].enabled && csi[2].numLanes == 4;
    OneBit(was, PHY_MODE, if first then (if second then 2 else 3) else (if second then 4 else 0));
  }

  function ActiveLanes(link: CsiConfig): nat {
    if link.enabled then link.numLanes else 0
  }

  // What an output needs to be started, and a pipe to be routed, if no register write fails.
  predicate Startable(link: CsiConfig) {
    link.enabled && link.numLanes > 0 && (link.freqMhz == 0 || link.freqMhz >= 100)
  }

  predicate MapRoutable(pipe: Pipe, m: nat, csi: seq<CsiConfig>)
    requires m < |pipe.maps|
  {
    && pipe.dblPixelBpp in {0, 10, 12} && pipe.maps[m].dstCsi < |csi|
    && (csi[pipe.maps[m].dstCsi].autoStart ==> Startable(csi[pipe.maps[m].dstCsi]))
  }

  predicate Routable(pipe: Pipe, csi: seq<CsiConfig>) {
    forall m: nat | m < |pipe.maps| :: MapRoutable(pipe, m, csi)
  }

  predicate LinkRoutable(pipes: seq<Pipe>, csi: seq<CsiConfig>, link: nat) {
    forall p: nat | p < |pipes| && Routed(pipes[p], link) :: Routable(pipes[p], csi)
  }

  // num_lanes - 1 in 32 bits
  function LanesLessOne(numLanes: nat): nat { (numLanes + 0xFFFF_FFFF) % 0x1_0000_0000 }

  lemma LessOneModulo(numLanes: nat)
    ensures LanesLessOne(numLanes) % 4 == (numLanes + 3) % 4
  {
    var q := (numLanes + 0xFFFF_FFFF) / 0x1_0000_0000;
    assert LanesLessOne(numLanes) == numLanes + 3 + 4 * (0x3FFF_FFFF - q * 0x4000_0000);
  }

  lemma CountOfLanes(was: Byte, numLanes: nat)
    ensures (Get(Put(was, LANE_COUNT, LanesLessOne(numLanes)), LANE_COUNT) + 1) % 4 == numLanes % 4
  {
    GetPut(was, LANE_COUNT, LanesLessOne(numLanes));
    assert Pow2(2) == 4;
    LessOneModulo(numLanes);
  }

  predicate LanesFit(csi: seq<CsiConfig>)
    requires |csi| == NUM_CSI
  {
    ActiveLanes(csi[0]) + ActiveLanes(csi[1]) <= 4 && ActiveLanes(csi[2]) + ActiveLanes(csi[3]) <= 4
  }

  method DeskewByte(auto: bool, width: nat) returns (deskew: Byte)
    ensures deskew[7] == auto && Get(deskew, DESKEW_WIDTH) == if width > 7 then 7 else width
  {
    var cut := if width > 7 then 7 else width;
    DeskewTuned(auto, cut);
    deskew := Put(Put(ZERO, DESKEW_AUTO, if auto then 1 else 0), DESKEW_WIDTH, cut);
  }

  // The bit of the pixel depth that is doubled, if any.
  predicate Doubles(mode: Byte, bpp: nat) {
    !mode[1] && mode[2] == (bpp == 10) && mode[0] == (bpp == 12)
  }

  lemma DoublingBits(was: Byte, value: nat, bpp: nat)
    requires (bpp == 0 && value == 0) || (bpp == 10 && value == 4) || (bpp == 12 && value == 1)
    ensures Doubles(Put(was, ALT_MEM, value), bpp)
  {
    assert Put(was, ALT_MEM, value)[..3] == ToBits(value, 3);
  }

  // No output's double loading mode has changed, except perhaps that of output `c`.
  predicate SameDoubling(before: RegFile, after: RegFile, c: nat) {
    forall k: nat | k < NUM_CSI && k != c :: after[AltMem(k)] == before[AltMem(k)]
  }

  // Every output of a pipe is in the pipe's mode, and the modes of all other outputs have not changed.
  predicate PipeDoubled(regs: RegFile, pipe: Pipe, count: nat) {
    forall m: nat | m < count && m < |pipe.maps| && pipe.maps[m].dstCsi < NUM_CSI ::
      Doubles(regs[AltMem(pipe.maps[m].dstCsi)], pipe.dblPixelBpp)
  }

  predicate Feeds(pipe: Pipe, c: nat) {
    exists m: nat | m < |pipe.maps| :: pipe.maps[m].dstCsi == c
  }

  predicate SameDoublingBut(before: RegFile, after: RegFile, pipe: Pipe) {
    forall c: nat | c < NUM_CSI && !Feeds(pipe, c) :: after[AltMem(c)] == before[AltMem(c)]
  }

  lemma OneMoreDoubled(before: RegFile, after: RegFile, pipe: Pipe, m: nat)
    requires m < |pipe.maps| && pipe.maps[m].dstCsi < NUM_CSI && PipeDoubled(before, pipe, m)
    requires SameDoubling(before, after, pipe.maps[m].dstCsi)
    ensures Doubles(after[AltMem(pipe.maps[m].dstCsi)], pipe.dblPixelBpp) ==> PipeDoubled(after, pipe, m + 1)
    ensures SameDoublingBut(before, after, pipe)
  {
    assert Feeds(pipe, pipe.maps[m].dstCsi);
  }

  // A pipe of the link after pipe `p` feeds the same output.
  predicate Superseded(pipes: seq<Pipe>, link: nat, p: nat, c: nat, count: nat)
    requires count <= |pipes|
  {
    exists q: nat | p < q < count :: Routed(pipes[q], link) && Feeds(pipes[q], c)
  }

  // An output is in the mode of the last pipe of the link that feeds it.
  predicate LinkDoubled(regs: RegFile, pipes: seq<Pipe>, link: nat, count: nat)
    requires count <= |pipes|
  {
    forall p: nat, c: nat | p < count && c < NUM_CSI && Routed(pipes[p], link) && Feeds(pipes[p], c) ::
      Superseded(pipes, link, p, c, count) || Doubles(regs[AltMem(c)], pipes[p].dblPixelBpp)
  }

  lemma LinkDoubledNext(before: RegFile, after: RegFile, pipes: seq<Pipe>, link: nat, p: nat)
    requires p < |pipes| && LinkDoubled(before, pipes, link, p)
    requires if Routed(pipes[p], link) then PipeDoubled(after, pipes[p], |pipes[p].maps|)
               && SameDoublingBut(before, after, pipes[p]) else SameDoubling(before, after, NUM_CSI)
    ensures LinkDoubled(after, pipes, link, p + 1)
  {
    forall q: nat, c: nat | q < p + 1 && c < NUM_CSI && Routed(pipes[q], link) && Feeds(pipes[q], c)
      ensures Superseded(pipes, link, q, c, p + 1) || Doubles(after[AltMem(c)], pipes[q].dblPixelBpp)
    {
      if q < p && !(Routed(pipes[p], link) && Feeds(pipes[p], c)) {
        if Superseded(pipes, link, q, c, p) {
          var k: nat :| q < k < p && Routed(pipes[k], link) && Feeds(pipes[k], c);
          assert Superseded(pipes, link, q, c, p + 1);
        } else {
          assert after[AltMem(c)] == before[AltMem(c)];
        }
      } else if q < p {
        assert Superseded(pipes, link, q, c, p + 1);
      }
    }
  }

  function Plus(a: seq<nat>, b: seq<nat>): (sum: seq<nat>)
    requires |a| == |b|
    ensures |sum| == |a|
  {
    seq(|a|, i requires 0 <= i < |a| => a[i] + b[i])
  }

  lemma PlusNone(a: seq<nat>, b: seq<nat>)
    requires |a| == |b| == NUM_CSI
    ensures Plus(a, b) == NONE_FAILED <==> a == NONE_FAILED && b == NONE_FAILED
  {
    if Plus(a, b) == NONE_FAILED {
      assert forall i: nat | i < NUM_CSI :: Plus(a, b)[i] == NONE_FAILED[i] == 0;
    }
  }

  class Deserializer {
    var bus: nat -> bool      // the outcome of each register write, in order; no method changes it
    const pipes: seq<Pipe>
    const csi: seq<CsiConfig>
    var attempts: nat
    var regs: RegFile
    var usecount: seq<nat>
    var held: set<MapId>      // the maps whose is_csi_enabled flag is set
    ghost var up: bool        // a chip enable has succeeded
    ghost var faults: nat     // the register writes that have failed
    ghost var enabling: int   // the output being brought up, or -1
    ghost var log: seq<BusWrite>

    ghost predicate Logged()
      reads this
    {
      |usecount| == NUM_CSI && WellSized(pipes, csi) && forall w | w in log :: SafeWrite(w)
    }

    ghost predicate Valid()
      reads this
    {
      && Logged()
      && HoldersPlaced(held, pipes)
      && (up ==> PhyUsed(regs, usecount))
      && (up && faults == 0 ==> PhyExact(regs, usecount))
      && (faults == 0 ==> NoExcess(held, pipes, usecount))
      && UsersStartable() && UsersTuned(regs, usecount, csi)
      && enabling == -1
    }

    // An output with users is one that could be started.
    ghost predicate UsersStartable()
      reads this
      requires |usecount| == |csi|
    {
      forall c: nat | c < |csi| && usecount[c] > 0 :: Startable(csi[c])
    }

    // No write fails from here on, or none succeeds.
    ghost predicate Reliable()
      reads `bus
    {
      forall n :: bus(n)
    }

    ghost predicate Dead()
      reads `bus
    {
      forall n :: !bus(n)
    }

    ghost predicate Counted()
      reads this
    {
      InStep(held, pipes, usecount)
    }

    twostate predicate FaultsKept()
      reads `bus, `faults
    {
      bus == old(bus) && faults >= old(faults) && (Reliable() ==> faults == old(faults))
    }

    // By how much the counter of output `c` exceeds the number of flagged maps.
    ghost function Excess(c: nat): nat
      reads this
      requires c < |usecount|
    {
      ExcessOf(held, pipes, usecount, c)
    }

    twostate predicate ExcessKept()
      reads this
    {
      |usecount| == old(|usecount|) && forall c: nat | c < |usecount| :: Excess(c) == old(Excess(c))
    }

    // What every operation but a stream change keeps, whatever fails inside it.
    twostate predicate Kept()
      reads this
    {
      Valid() && FaultsKept() && up == old(up) && (old(Counted()) ==> Counted()) && ExcessKept()
    }

    constructor (bus: nat -> bool, regs: RegFile, pipes: seq<Pipe>, csi: seq<CsiConfig>)
      requires WellSized(pipes, csi)
      ensures Valid() && Counted() && !up && faults == 0 && held == {}
      ensures this.bus == bus && this.regs == regs && this.pipes == pipes && this.csi == csi
    {
      this.bus, this.pipes, this.csi := bus, pipes, csi;
      this.attempts, this.regs, this.usecount, this.held := 0, regs, [0, 0, 0, 0], {};
      this.up, this.faults, this.enabling, this.log := false, 0, -1, [];
      forall c: nat { OwnersNone(pipes, c); }
    }

    // ----- Register access -----

    method Write(addr: nat, val: Byte) returns (ok: bool)
      requires Logged() && addr < 0x1_0000
      requires up ==> SafeWrite(BusWrite(addr, regs, regs[addr := val], usecount, enabling))
      modifies `attempts, `regs, `faults, `log
      ensures Logged()
      ensures regs == if ok then old(regs)[addr := val] else old(regs)
      ensures FaultsKept() && faults == old(faults) + (if ok then 0 else 1)
      ensures ok == bus(old(attempts)) && attempts == old(attempts) + 1
      ensures log == if ok && up then old(log) + [BusWrite(addr, old(regs), regs, usecount, enabling)] else old(log)
    {
      ok := bus(attempts);
      attempts := attempts + 1;
      if ok {
        ghost var before := regs;
        regs := regs[addr := val];
        if up {
          log := log + [BusWrite(addr, before, regs, usecount, enabling)];
        }
      } else {
        faults := faults + 1;
      }
    }

    // A write that no PHY depends on.
    method Program(addr: nat, val: Byte) returns (ret: Status)
      requires Valid() && addr < 0x1_0000 && !IsPhyControl(addr) && !IsDeskew(addr)
      modifies `attempts, `regs, `faults, `log
      ensures Valid() && FaultsKept() && faults == old(faults) + (if ret == Ok then 0 else 1) && ret != Einval
      ensures regs == if ret == Ok then old(regs)[addr := val] else old(regs)
    {
      OtherWriteIsSafe(addr, regs, val, usecount, enabling);
      var ok := Write(addr, val);
      TunedKept(old(regs), usecount, regs, usecount, csi);
      ret := if ok then Ok else Eio;
    }

    method ProgramField(addr: nat, field: Field, x: nat) returns (ret: Status)
      requires Valid() && addr < 0x1_0000 && !IsPhyControl(addr) && !IsDeskew(addr)
      modifies `attempts, `regs, `faults, `log
      ensures Valid() && FaultsKept() && faults == old(faults) + (if ret == Ok then 0 else 1) && ret != Einval
      ensures regs == if ret == Ok then old(regs)[addr := Put(old(regs)[addr], field, x)] else old(regs)
    {
      ret := Program(addr, Put(regs[addr], field, x));
    }

    // ----- CSI outputs -----

    twostate predicate Running(enable: bool)
      reads this
    {
      Ran(Dead(), enable, old(regs), old(usecount), regs, usecount)
    }

    // What an enable or a disable of output `c` leads to.
    twostate predicate LinkChanged(c: nat, enable: bool, ret: Status)
      reads this
      requires old(|usecount|) == |csi| == NUM_CSI && c < NUM_CSI
    {
      && Logged() && enabling == -1 && FaultsKept() && UsersStartable() && UsersTuned(regs, usecount, csi)
      && (up ==> PhyUsed(regs, usecount)) && (up && faults == 0 ==> PhyExact(regs, usecount))
      && usecount == (if ret == Ok then Moved(old(usecount), c, enable) else old(usecount))
      && (ret == Ok && enable ==> Startable(csi[c]))
      && (ret == Ok && !enable && old(usecount[c]) == 1 ==> !PhyOn(regs, c) && !DpllOn(regs, c))
      && (if faults == old(faults) then ret == Ok <==> (enable ==> Startable(csi[c])) else enable || ret != Ok)
      && Running(enable) && Windows(regs) == Windows(old(regs)) && SameDoubling(old(regs), regs, NUM_CSI)
    }

    method SetCsiLinkEnabled(c: nat, enable: bool) returns (ret: Status)
      requires Valid()
      modifies `attempts, `regs, `faults, `log, `usecount, `enabling
      ensures Logged() && enabling == -1 && FaultsKept() && UsersStartable() && UsersTuned(regs, usecount, csi)
      ensures up ==> PhyUsed(regs, usecount)
      ensures up && faults == 0 ==> PhyExact(regs, usecount)
      ensures ret == Ok ==> c < NUM_CSI && usecount == Moved(old(usecount), c, enable)
      ensures ret != Ok ==> usecount == old(usecount)
      ensures ret != Ok && !enable && c < NUM_CSI ==> faults > old(faults)
      ensures ret == Ok && enable ==> Startable(csi[c])
      ensures ret == Ok && !enable && old(usecount[c]) == 1 ==> !PhyOn(regs, c) && !DpllOn(regs, c)
      ensures c < NUM_CSI && faults == old(faults) ==> (ret == Ok <==> (enable ==> Startable(csi[c])))
      ensures Running(enable) && Windows(regs) == Windows(old(regs)) && SameDoubling(old(regs), regs, NUM_CSI)
    {
      if c >= NUM_CSI {
        return Einval;
      }
      if enable && !csi[c].enabled {
        return Einval;
      }
      if enable && csi[c].numLanes == 0 {
        return Einval;
      }
      if enable && usecount[c] == 0 {
        ret := FirstUser(c);
      } else if !enable && usecount[c] == 1 {
        ret := LastUser(c);
      } else {
        ret := Ok;
        if enable {
          usecount := usecount[c := usecount[c] + 1];
        } else if usecount[c] > 0 {
          usecount := usecount[c := usecount[c] - 1];
        }
        TunedKept(regs, old(usecount), regs, usecount, csi);
      }
    }

    method FirstUser(c: nat) returns (ret: Status)
      requires Valid() && c < NUM_CSI && usecount[c] == 0 && csi[c].enabled && csi[c].numLanes > 0
      modifies `attempts, `regs, `faults, `log, `usecount, `enabling
      ensures LinkChanged(c, true, ret)
    {
      enabling := c;
      ret := BringUp(c);
      enabling := -1;
      TunedStill(old(regs), regs, usecount, csi, c);
      if ret == Ok {
        usecount := usecount[c := usecount[c] + 1];
      }
    }

    method LastUser(c: nat) returns (ret: Status)
      requires Valid() && c < NUM_CSI && usecount[c] == 1
      modifies `attempts, `regs, `faults, `log, `usecount, `enabling
      ensures LinkChanged(c, false, ret)
    {
      ret := TearDown(c);
      if ret == Ok {
        usecount := usecount[c := usecount[c] - 1];
      }
      TunedKept(old(regs), old(usecount), regs, usecount, csi);
    }

    // First user: deskew, DPLL frequency, DPLL on, PHY on, in that order.
    method BringUp(c: nat) returns (ret: Status)
      requires Logged() && c < NUM_CSI && usecount[c] == 0 && enabling == c
      requires up ==> PhyUsed(regs, usecount)
      modifies `attempts, `regs, `faults, `log
      ensures Logged() && FaultsKept() && faults == old(faults) + (if ret == Eio then 1 else 0)
      ensures (ret == Ok ==> TunedTo(regs, c, csi[c])) && SameTuning(old(regs), regs, c)
      ensures SameDoubling(old(regs), regs, NUM_CSI)
      ensures ret != Ok && up ==> PhyUsed(regs, usecount)
      ensures ret == Ok ==> PhyOn(regs, c) && DpllOn(regs, c)
      ensures ret == Einval ==> PhyOn(regs, c) == PhyOn(old(regs), c)
      ensures Dead() ==> ret != Ok
      ensures ret == Ok ==> !(0 < csi[c].freqMhz < 100)
      ensures ret == Einval ==> 0 < csi[c].freqMhz < 100
      ensures SamePhys(old(regs), regs, c)
      ensures Windows(regs) == Windows(old(regs))
    {
      var ok := WriteDeskew(c);
      if !ok {
        return Eio;
      }
      if 0 < csi[c].freqMhz < 100 {
        return Einval;
      }
      ret := StartClockAndPhy(c);
    }

    method WriteDeskew(c: nat) returns (ok: bool)
      requires Logged() && c < NUM_CSI
      requires up ==> PhyUsed(regs, usecount)
      modifies `attempts, `regs, `faults, `log
      ensures Logged() && FaultsKept() && faults == old(faults) + (if ok then 0 else 1)
      ensures up ==> PhyUsed(regs, usecount)
      ensures ok ==> var deskew, width := regs[DeskewInit(c)], csi[c].deskewWidth;
        deskew[7] == csi[c].autoDeskew && Get(deskew, DESKEW_WIDTH) == if width > 7 then 7 else width
      ensures regs == old(regs)[DeskewInit(c) := regs[DeskewInit(c)]] && SamePhys(old(regs), regs, NUM_CSI)
      ensures Dead() ==> !ok
      ensures Windows(regs) == Windows(old(regs))
    {
      var deskew := DeskewByte(csi[c].autoDeskew, csi[c].deskewWidth);
      OtherWriteIsSafe(DeskewInit(c), regs, deskew, usecount, enabling);
      WriteOutside(regs, DeskewInit(c), deskew);
      ok := Write(DeskewInit(c), deskew);
    }

    method StartClockAndPhy(c: nat) returns (ret: Status)
      requires Logged() && c < NUM_CSI && usecount[c] == 0 && enabling == c
      requires up ==> PhyUsed(regs, usecount)
      modifies `attempts, `regs, `faults, `log
      ensures Logged() && ret != Einval && FaultsKept() && faults == old(faults) + (if ret == Ok then 0 else 1)
      ensures ret != Ok && up ==> PhyUsed(regs, usecount)
      ensures ret == Ok ==> PhyOn(regs, c) && DpllOn(regs, c)
      ensures ret == Ok ==> var f := 100 * Get(regs[DpllFreq(c)], DPLL_MULTIPLE); f <= csi[c].freqMhz % 3200 < f + 100
      ensures regs[DeskewInit(c)] == old(regs)[DeskewInit(c)] && SameTuning(old(regs), regs, c)
      ensures SameDoubling(old(regs), regs, NUM_CSI)
      ensures SamePhys(old(regs), regs, c)
      ensures Windows(regs) == Windows(old(regs))
    {
      var ok := SetDpllFreq(c);
      if !ok {
        return Eio;
      }
      ok := SetDpll(c, true);
      if !ok {
        return Eio;
      }
      PutBit(regs[PHY_ENABLE], c + 4, true);
      PhyIsSafe(regs, c, true, usecount, c);
      WriteOutside(regs, PHY_ENABLE, Put(regs[PHY_ENABLE], Field(c + 4, 1), 1));
      ok := Write(PHY_ENABLE, Put(regs[PHY_ENABLE], Field(c + 4, 1), 1));
      ret := if ok then Ok else Eio;
    }

    method SetDpllFreq(c: nat) returns (ok: bool)
      requires Logged() && c < NUM_CSI && usecount[c] == 0
      requires up ==> PhyUsed(regs, usecount)
      modifies `attempts, `regs, `faults, `log
      ensures Logged() && FaultsKept() && faults == old(faults) + (if ok then 0 else 1)
      ensures up ==> PhyUsed(regs, usecount)
      ensures ok ==> var f := 100 * Get(regs[DpllFreq(c)], DPLL_MULTIPLE); f <= csi[c].freqMhz % 3200 < f + 100
      ensures regs == old(regs)[DpllFreq(c) := regs[DpllFreq(c)]] && SamePhys(old(regs), regs, NUM_CSI)
      ensures Windows(regs) == Windows(old(regs))
    {
      ClockTuned(regs[DpllFreq(c)], csi[c].freqMhz);
      var freq := Put(regs[DpllFreq(c)], DPLL_MULTIPLE, csi[c].freqMhz / 100);
      FrequencyIsSafe(regs, c, freq, usecount, enabling);
      WriteOutside(regs, DpllFreq(c), freq);
      ok := Write(DpllFreq(c), freq);
    }

    method SetDpll(c: nat, on: bool) returns (ok: bool)
      requires Logged() && c < NUM_CSI
      requires up ==> PhyUsed(regs, usecount) && (on || !PhyOn(regs, c))
      modifies `attempts, `regs, `faults, `log
      ensures Logged() && FaultsKept() && faults == old(faults) + (if ok then 0 else 1)
      ensures up ==> PhyUsed(regs, usecount)
      ensures PhyOn(regs, c) == PhyOn(old(regs), c)
      ensures ok ==> DpllOn(regs, c) == on
      ensures regs == old(regs)[DpllReset(c) := regs[DpllReset(c)]]
      ensures SamePhys(old(regs), regs, c)
      ensures Windows(regs) == Windows(old(regs))
    {
      PutBit(regs[DpllReset(c)], 0, on);
      var val := Put(regs[DpllReset(c)], DPLL_RUN, if on then 1 else 0);
      DpllIsSafe(regs, c, on, usecount, enabling);
      WriteOutside(regs, DpllReset(c), val);
      ok := Write(DpllReset(c), val);
    }

    // Last user: PHY off before its DPLL.
    method TearDown(c: nat) returns (ret: Status)
      requires Logged() && c < NUM_CSI
      requires up ==> PhyUsed(regs, usecount)
      modifies `attempts, `regs, `faults, `log
      ensures Logged() && ret != Einval && FaultsKept() && faults == old(faults) + (if ret == Eio then 1 else 0)
      ensures up ==> PhyUsed(regs, usecount)
      ensures Dead() ==> ret != Ok
      ensures ret == Ok ==> !PhyOn(regs, c) && !DpllOn(regs, c)
      ensures regs == old(regs)[PHY_ENABLE := regs[PHY_ENABLE]][DpllReset(c) := regs[DpllReset(c)]]
      ensures SamePhys(old(regs), regs, c)
      ensures Windows(regs) == Windows(old(regs))
    {
      PutBit(regs[PHY_ENABLE], c + 4, false);
      PhyIsSafe(regs, c, false, usecount, enabling);
      WriteOutside(regs, PHY_ENABLE, Put(regs[PHY_ENABLE], Field(c + 4, 1), 0));
      var ok := Write(PHY_ENABLE, Put(regs[PHY_ENABLE], Field(c + 4, 1), 0));
      if !ok {
        return Eio;
      }
      ok := SetDpll(c, false);
      ret := if ok then Ok else Eio;
    }

    // ----- Video pipes -----

    // One byte of the table of pipe `p`, `i` registers above its first map enable.
    method ProgramTable(p: nat, i: nat, val: Byte) returns (ret: Status)
      requires Valid() && p < NUM_PIPES && i < TABLE_SIZE
      modifies `attempts, `regs, `faults, `log
      ensures Valid() && FaultsKept() && faults == old(faults) + (if ret == Ok then 0 else 1) && ret != Einval
      ensures var ws := Windows(old(regs));
        Windows(regs) == if ret == Ok then ws[p := ws[p].(table := ws[p].table[i := val])] else ws
      ensures SameDoubling(old(regs), regs, NUM_CSI)
    {
      WriteTable(regs, p, i, val);
      ret := Program(MapEnL(p) + i, val);
    }

    method ProgramHigh(p: nat, m: nat, val: Byte) returns (ret: Status)
      requires Valid() && p < NUM_PIPES && m < NUM_MAPS
      modifies `attempts, `regs, `faults, `log
      ensures Valid() && FaultsKept() && faults == old(faults) + (if ret == Ok then 0 else 1) && ret != Einval
      ensures var ws := Windows(old(regs));
        Windows(regs) == if ret == Ok then ws[p := ws[p].(high := ws[p].high[m := val])] else ws
      ensures SameDoubling(old(regs), regs, NUM_CSI)
    {
      WriteHigh(regs, p, m, val);
      ret := Program(SrcDstH(p, m), val);
    }

    method ReadTable(p: nat, i: nat) returns (val: Byte)
      requires p < NUM_PIPES && i < TABLE_SIZE
      ensures val == Windows(regs)[p].table[i]
    {
      StretchIs(regs, MapEnL(p), TABLE_SIZE);
      val := regs[MapEnL(p) + i];
    }

    method SetVideoPipeSrc(p: nat, srcPipe: nat) returns (ret: Status)
      requires Valid() && p < NUM_PIPES
      modifies `attempts, `regs, `faults, `log
      ensures Valid() && FaultsKept() && faults == old(faults) + (if ret == Ok then 0 else 1)
      ensures var ws := Windows(old(regs));
        Windows(regs) == if ret == Ok then ws[p := ws[p].(select := Put(ws[p].select, STREAM_SELECT, srcPipe))] else ws
      ensures SameDoubling(old(regs), regs, NUM_CSI)
    {
      WriteSelect(regs, p, Put(regs[PipeSelect(p)], STREAM_SELECT, srcPipe));
      ret := ProgramField(PipeSelect(p), STREAM_SELECT, srcPipe);
    }

    method SetVideoPipeEnabled(p: nat, enable: bool) returns (ret: Status)
      requires Valid() && p < NUM_PIPES
      modifies `attempts, `regs, `faults, `log
      ensures Valid() && FaultsKept() && faults == old(faults) + (if ret == Ok then 0 else 1)
      ensures var ws := Windows(old(regs));
        Windows(regs) == if ret == Ok then ws[p := ws[p].(on := enable)] else ws
      ensures SameDoubling(old(regs), regs, NUM_CSI)
    {
      PutBit(regs[PIPE_EN], p + 4, enable);
      WritePipeBit(regs, p, enable);
      ret := ProgramField(PIPE_EN, Field(p + 4, 1), if enable then 1 else 0);
    }

    method SetVideoPipeMapsEnabled(p: nat, count: nat) returns (ret: Status)
      requires Valid() && p < NUM_PIPES && count <= NUM_MAPS
      modifies `attempts, `regs, `faults, `log
      ensures Valid() && FaultsKept() && faults == old(faults) + (if ret == Ok then 0 else 1)
      ensures var ws := Windows(old(regs)); Windows(regs) == ws[p := ws[p].(table := Windows(regs)[p].table)]
      ensures ret == Ok ==> MapsEnabled(Windows(regs)[p], count)
      ensures SameDoubling(old(regs), regs, NUM_CSI)
    {
      var mask := LowMask(count);
      ret := ProgramTable(p, 0, Put(ZERO, WHOLE, mask));
      if ret == Ok {
        ret := ProgramTable(p, 1, Put(ZERO, WHOLE, mask / 256));
      }
      if ret == Ok {
        MaskEnables(Windows(regs)[p], count);
      }
    }

    // The first two of the four writes.
    method SetMapSourceAndDestination(p: nat, m: nat, map_: MipiMap) returns (ret: Status)
      requires Valid() && p < NUM_PIPES && m < NUM_MAPS
      modifies `attempts, `regs, `faults, `log
      ensures Valid() && FaultsKept() && faults == old(faults) + (if ret == Ok then 0 else 1)
      ensures var ws := Windows(old(regs));
        && Windows(regs) == ws[p := Windows(regs)[p]]
        && (ret == Ok ==> Windows(regs)[p] == MapWrites(ws[p], m, map_, 2))
        && (ret != Ok ==> exists done: nat | done < 2 :: Windows(regs)[p] == MapWrites(ws[p], m, map_, done))
      ensures SameDoubling(old(regs), regs, NUM_CSI)
    {
      ghost var w := Windows(regs)[p];
      assert w == MapWrites(w, m, map_, 0);
      ret := ProgramTable(p, 2 + 2 * m, SourceByte(map_));
      if ret != Ok {
        return;
      }
      assert Windows(regs)[p] == MapWrites(w, m, map_, 1);
      ret := ProgramTable(p, 3 + 2 * m, DestinationByte(map_));
    }

    method SetVideoPipeMap(p: nat, m: nat, map_: MipiMap) returns (ret: Status)
      requires Valid() && p < NUM_PIPES && m < NUM_MAPS
      modifies `attempts, `regs, `faults, `log
      ensures Valid() && FaultsKept() && faults == old(faults) + (if ret == Ok then 0 else 1)
      ensures var ws := Windows(old(regs));
        && Windows(regs) == ws[p := Windows(regs)[p]]
        && (ret == Ok ==> Windows(regs)[p] == MapWrites(ws[p], m, map_, 4))
        && (ret != Ok ==> exists done: nat | done < 4 :: Windows(regs)[p] == MapWrites(ws[p], m, map_, done))
      ensures SameDoubling(old(regs), regs, NUM_CSI)
    {
      ghost var w := Windows(regs)[p];
      ret := SetMapSourceAndDestination(p, m, map_);
      if ret != Ok {
        return;
      }
      ret := ProgramHigh(p, m, HighByte(map_));
      if ret != Ok {
        return;
      }
      assert Windows(regs)[p] == MapWrites(w, m, map_, 3);
      var dest := ReadTable(p, 34 + m / 4);
      ret := ProgramTable(p, 34 + m / 4, Put(dest, DestField(m), map_.dstCsi));
    }

    method SetCsiDoubleLoadingMode(c: nat, bpp: nat) returns (ret: Status)
      requires Valid() && c < NUM_CSI
      modifies `attempts, `regs, `faults, `log
      ensures Valid() && FaultsKept()
      ensures Windows(regs) == Windows(old(regs))
      ensures ret == Ok ==> bpp in {0, 10, 12} && Doubles(regs[AltMem(c)], bpp)
      ensures SameDoubling(old(regs), regs, c)
      ensures faults == old(faults) && bpp in {0, 10, 12} ==> ret == Ok
    {
      var value;
      if bpp == 0 {
        value := 0;
      } else if bpp == 10 {
        value := 4;
      } else if bpp == 12 {
        value := 1;
      } else {
        return Einval;
      }
      DoublingBits(regs[AltMem(c)], value, bpp);
      WriteOutside(regs, AltMem(c), Put(regs[AltMem(c)], ALT_MEM, value));
      ret := ProgramField(AltMem(c), ALT_MEM, value);
    }

    // A map of an auto-started output claims it once, and keeps the claim in its flag.
    method ClaimOutput(p: nat, m: nat) returns (ret: Status)
      requires Valid() && IsMap(pipes, (p, m)) && pipes[p].enabled && pipes[p].srcLink < NUM_LINKS
      requires DestinationsExist(pipes[p])
      modifies this
      ensures Kept() && Windows(regs) == Windows(old(regs)) && SameDoubling(old(regs), regs, NUM_CSI)
      ensures old(held) <= held <= old(held) + {(p, m)}
      ensures ret == Ok && csi[pipes[p].maps[m].dstCsi].autoStart ==> (p, m) in held
      ensures faults == old(faults) && MapRoutable(pipes[p], m, csi) ==> ret == Ok
    {
      var c := pipes[p].maps[m].dstCsi;
      ret := Ok;
      if (p, m) !in held && csi[c].autoStart {
        FlagInStep(held, pipes, usecount, (p, m), true);
        ret := SetCsiLinkEnabled(c, true);
        if ret == Ok {
          held := held + {(p, m)};
        }
      }
    }

    method RouteMap(p: nat, m: nat) returns (ret: Status)
      requires Valid() && IsMap(pipes, (p, m)) && pipes[p].enabled && pipes[p].srcLink < NUM_LINKS
      requires DestinationsExist(pipes[p])
      modifies this
      ensures Kept()
      ensures ret == Ok ==>
        var ws := Windows(old(regs)); Windows(regs) == ws[p := MapWrites(ws[p], m, pipes[p].maps[m], 4)]
      ensures ret == Ok ==> Doubles(regs[AltMem(pipes[p].maps[m].dstCsi)], pipes[p].dblPixelBpp)
      ensures SameDoubling(old(regs), regs, pipes[p].maps[m].dstCsi)
      ensures SameElsewhere(Windows(old(regs)), Windows(regs), p)
      ensures old(held) <= held <= old(held) + {(p, m)}
      ensures ret == Ok && csi[pipes[p].maps[m].dstCsi].autoStart ==> (p, m) in held
      ensures faults == old(faults) && MapRoutable(pipes[p], m, csi) ==> ret == Ok
    {
      ret := SetVideoPipeMap(p, m, pipes[p].maps[m]);
      if ret == Ok {
        ret := SetCsiDoubleLoadingMode(pipes[p].maps[m].dstCsi, pipes[p].dblPixelBpp);
      }
      if ret == Ok {
        ret := ClaimOutput(p, m);
      }
    }

    // Stream select and map enables: what comes before the maps.
    method PreparePipe(p: nat) returns (ret: Status)
      requires Valid() && p < NUM_PIPES
      modifies `attempts, `regs, `faults, `log
      ensures Kept()
      ensures ret == Ok ==> Selected(Windows(regs)[p], pipes[p])
      ensures SameDoubling(old(regs), regs, NUM_CSI)
      ensures faults == old(faults) ==> ret == Ok
      ensures SameElsewhere(Windows(old(regs)), Windows(regs), p)
    {
      GetPut(Windows(regs)[p].select, STREAM_SELECT, pipes[p].srcPipe);
      assert Pow2(2) == 4;
      ret := SetVideoPipeSrc(p, pipes[p].srcPipe);
      if ret == Ok {
        ret := SetVideoPipeMapsEnabled(p, |pipes[p].maps|);
      }
    }

    method RouteMaps(p: nat) returns (ret: Status)
      requires Valid() && p < NUM_PIPES && pipes[p].enabled && pipes[p].srcLink < NUM_LINKS
      requires DestinationsExist(pipes[p])
      requires Selected(Windows(regs)[p], pipes[p])
      modifies this
      ensures Kept()
      ensures ret == Ok ==> Selected(Windows(regs)[p], pipes[p])
      ensures ret == Ok ==> MapsProgrammed(Windows(regs)[p], pipes[p].maps, |pipes[p].maps|)
      ensures ret == Ok ==> PipeDoubled(regs, pipes[p], |pipes[p].maps|)
      ensures SameDoublingBut(old(regs), regs, pipes[p])
      ensures SameElsewhere(Windows(old(regs)), Windows(regs), p)
      ensures old(held) <= held
      ensures ret == Ok ==>
        forall m: nat | m < |pipes[p].maps| && csi[pipes[p].maps[m].dstCsi].autoStart :: (p, m) in held
      ensures faults == old(faults) && Routable(pipes[p], csi) ==> ret == Ok
    {
      var maps := pipes[p].maps;
      ret := Ok;
      var m := 0;
      while m < |maps| && ret == Ok
        invariant m <= |maps| && Kept() && SameElsewhere(Windows(old(regs)), Windows(regs), p)
        invariant old(held) <= held
        invariant ret == Ok ==> Selected(Windows(regs)[p], pipes[p]) && MapsProgrammed(Windows(regs)[p], maps, m)
        invariant ret == Ok ==> forall n: nat | n < m && csi[maps[n].dstCsi].autoStart :: (p, n) in held
        invariant faults == old(faults) && Routable(pipes[p], csi) ==> ret == Ok
        invariant (ret == Ok ==> PipeDoubled(regs, pipes[p], m)) && SameDoublingBut(old(regs), regs, pipes[p])
      {
        MapsAdvance(Windows(regs)[p], m, pipes[p]);
        ghost var before := regs;
        ret := RouteMap(p, m);
        OneMoreDoubled(before, regs, pipes[p], m);
        m := m + 1;
      }
    }

    method RoutePipe(p: nat) returns (ret: Status)
      requires Valid() && p < NUM_PIPES && pipes[p].enabled && pipes[p].srcLink < NUM_LINKS
      requires DestinationsExist(pipes[p])
      modifies this
      ensures Kept()
      ensures ret == Ok ==> Programmed(Windows(regs)[p], pipes[p]) && PipeDoubled(regs, pipes[p], |pipes[p].maps|)
      ensures SameDoublingBut(old(regs), regs, pipes[p])
      ensures SameElsewhere(Windows(old(regs)), Windows(regs), p)
      ensures old(held) <= held
      ensures ret == Ok ==>
        forall m: nat | m < |pipes[p].maps| && csi[pipes[p].maps[m].dstCsi].autoStart :: (p, m) in held
      ensures faults == old(faults) && Routable(pipes[p], csi) ==> ret == Ok
    {
      ret := PreparePipe(p);
      if ret == Ok {
        ret := RouteMaps(p);
      }
      if ret == Ok {
        PipeOnProgrammed(Windows(regs)[p], pipes[p]);
        ret := SetVideoPipeEnabled(p, true);
      }
    }

    method SetSerialLinkRouting(link: nat) returns (ret: Status)
      requires Valid() && link < NUM_LINKS
      requires forall p: nat | p < NUM_PIPES && Routed(pipes[p], link) :: DestinationsExist(pipes[p])
      modifies this
      ensures Kept() && old(held) <= held
      ensures ret == Ok ==> LinkProgrammed(Windows(regs), pipes, link, NUM_PIPES)
      ensures ret == Ok ==> LinkDoubled(regs, pipes, link, NUM_PIPES)
      ensures faults == old(faults) && LinkRoutable(pipes, csi, link) ==> ret == Ok
      ensures OthersKept(Windows(old(regs)), Windows(regs), pipes, link, NUM_PIPES)
    {
      ret := Ok;
      for p := 0 to NUM_PIPES
        invariant Kept() && ret == Ok && old(held) <= held
        invariant LinkProgrammed(Windows(regs), pipes, link, p) && LinkDoubled(regs, pipes, link, p)
        invariant OthersKept(Windows(old(regs)), Windows(regs), pipes, link, p)
      {
        ret := RouteTurn(link, p, Windows(old(regs)));
        if ret != Ok {
          return;
        }
      }
    }

    // One turn of the loop over the pipes; `start` is what they routed before it.
    method RouteTurn(link: nat, p: nat, ghost start: seq<Window>) returns (ret: Status)
      requires Valid() && link < NUM_LINKS && p < NUM_PIPES && |start| == NUM_PIPES
      requires Routed(pipes[p], link) ==> DestinationsExist(pipes[p])
      requires OthersKept(start, Windows(regs), pipes, link, p)
      requires LinkProgrammed(Windows(regs), pipes, link, p) && LinkDoubled(regs, pipes, link, p)
      modifies this
      ensures Kept() && old(held) <= held
      ensures ret == Ok ==> LinkProgrammed(Windows(regs), pipes, link, p + 1)
      ensures ret == Ok ==> LinkDoubled(regs, pipes, link, p + 1)
      ensures faults == old(faults) && LinkRoutable(pipes, csi, link) ==> ret == Ok
      ensures OthersKept(start, Windows(regs), pipes, link, p + 1)
    {
      ret := Ok;
      if pipes[p].enabled && pipes[p].srcLink == link {
        ret := RoutePipe(p);
      }
      OthersKeptNext(start, Windows(old(regs)), Windows(regs), pipes, link, p);
      if ret == Ok {
        LinkDoubledNext(old(regs), regs, pipes, link, p);
        LinkProgrammedNext(Windows(old(regs)), Windows(regs), pipes, link, p);
      }
    }

    // The flag is cleared once its output has been given up.
    method ReleaseOutput(p: nat, m: nat) returns (ret: Status)
      requires Valid() && IsMap(pipes, (p, m))
      modifies this
      ensures Kept() && Windows(regs) == Windows(old(regs))
      ensures held == if ret == Ok then old(held) - {(p, m)} else old(held)
      ensures faults == old(faults) ==> ret == Ok
    {
      ret := Ok;
      if (p, m) in held {
        FlagInStep(held, pipes, usecount, (p, m), false);
        ret := SetCsiLinkEnabled(pipes[p].maps[m].dstCsi, false);
        if ret == Ok {
          held := held - {(p, m)};
        }
      }
    }

    method DisablePipe(p: nat) returns (ret: Status)
      requires Valid() && p < NUM_PIPES
      modifies this
      ensures Kept() && held <= old(held)
      ensures ret == Ok ==> Silent(Windows(regs)[p]) && forall k | k in held :: k.0 != p
      ensures faults == old(faults) ==> ret == Ok
      ensures SameElsewhere(Windows(old(regs)), Windows(regs), p)
    {
      ret := SetVideoPipeEnabled(p, false);
      if ret == Ok {
        ret := SetVideoPipeMapsEnabled(p, 0);
      }
      ghost var silenced := Windows(regs);
      var m := 0;
      while m < |pipes[p].maps| && ret == Ok
        invariant m <= |pipes[p].maps| && Kept() && held <= old(held)
        invariant Windows(regs) == silenced && SameElsewhere(Windows(old(regs)), silenced, p)
        invariant ret == Ok ==> Silent(silenced[p]) && forall k | k in held && k.0 == p :: k.1 >= m
        invariant faults == old(faults) ==> ret == Ok
      {
        ret := ReleaseOutput(p, m);
        m := m + 1;
      }
    }

    method DisableSerialLink(link: nat) returns (ret: Status)
      requires Valid()
      modifies this
      ensures Kept() && held <= old(held)
      ensures ret == Ok ==> LinkSilent(Windows(regs), pipes, link, NUM_PIPES)
      ensures faults == old(faults) ==> ret == Ok
      ensures ret == Ok ==> LinkReleased(held, pipes, link, NUM_PIPES)
      ensures OthersKept(Windows(old(regs)), Windows(regs), pipes, link, NUM_PIPES)
    {
      ret := Ok;
      for p := 0 to NUM_PIPES
        invariant Kept() && held <= old(held) && ret == Ok
        invariant LinkSilent(Windows(regs), pipes, link, p) && LinkReleased(held, pipes, link, p)
        invariant OthersKept(Windows(old(regs)), Windows(regs), pipes, link, p)
      {
        ghost var mid, flags := Windows(regs), held;
        if pipes[p].enabled && pipes[p].srcLink == link {
          ret := DisablePipe(p);
        }
        OthersKeptNext(Windows(old(regs)), mid, Windows(regs), pipes, link, p);
        if ret != Ok {
          return;
        }
        LinkSilentNext(mid, Windows(regs), pipes, link, p);
        LinkReleasedNext(flags, held, pipes, link, p);
      }
    }

    // ----- Chip enable -----

    // Lane map and lane count of an output, as its registers hold them.
    ghost predicate LanesSet(regs: RegFile, c: nat)
      requires c < NUM_CSI && |csi| == NUM_CSI
    {
      && Get(regs[LaneMap(c)], LaneMapField(c)) == csi[c].laneMap % 16
      && (Get(regs[LaneCount(c)], LANE_COUNT) + 1) % 4 == csi[c].numLanes % 4
    }

    ghost predicate OtherLanesKept(before: RegFile, after: RegFile, c: nat)
      requires |csi| == NUM_CSI
    {
      forall k: nat | k < NUM_CSI && k != c :: LanesSet(before, k) ==> LanesSet(after, k)
    }

    lemma ControlsKeepLanes(before: RegFile, after: RegFile, c: nat)
      requires c < NUM_CSI && |csi| == NUM_CSI
      requires after == before[PHY_ENABLE := after[PHY_ENABLE]][DpllReset(c) := after[DpllReset(c)]]
      ensures forall k: nat | k < NUM_CSI :: LanesSet(after, k) <==> LanesSet(before, k)
    {
    }

    method SetLaneMap(c: nat) returns (ret: Status)
      requires Valid() && c < NUM_CSI
      modifies `attempts, `regs, `faults, `log
      ensures Valid() && ret != Einval && FaultsKept() && faults == old(faults) + (if ret == Ok then 0 else 1)
      ensures regs == old(regs)[LaneMap(c) := regs[LaneMap(c)]]
      ensures ret == Ok ==> Get(regs[LaneMap(c)], LaneMapField(c)) == csi[c].laneMap % 16
      ensures OtherLanesKept(old(regs), regs, c)
      ensures SamePhys(old(regs), regs, NUM_CSI) && Windows(regs) == Windows(old(regs))
    {
      var was := regs[LaneMap(c)];
      var lanes := Put(was, LaneMapField(c), csi[c].laneMap);
      OtherWriteIsSafe(LaneMap(c), regs, lanes, usecount, enabling);
      WriteOutside(regs, LaneMap(c), lanes);
      GetPut(was, LaneMapField(c), csi[c].laneMap);
      assert Pow2(4) == 16;
      forall k: nat | k < NUM_CSI && k != c && LaneMap(k) == LaneMap(c)
        ensures Get(lanes, LaneMapField(k)) == Get(was, LaneMapField(k))
      {
        GetPutOther(was, LaneMapField(c), csi[c].laneMap, LaneMapField(k));
      }
      ret := Program(LaneMap(c), lanes);
    }

    method SetLaneCount(c: nat) returns (ret: Status)
      requires Valid() && c < NUM_CSI
      modifies `attempts, `regs, `faults, `log
      ensures Valid() && ret != Einval && FaultsKept() && faults == old(faults) + (if ret == Ok then 0 else 1)
      ensures regs == old(regs)[LaneCount(c) := regs[LaneCount(c)]]
      ensures ret == Ok ==> (Get(regs[LaneCount(c)], LANE_COUNT) + 1) % 4 == csi[c].numLanes % 4
      ensures OtherLanesKept(old(regs), regs, c)
      ensures SamePhys(old(regs), regs, NUM_CSI) && Windows(regs) == Windows(old(regs))
    {
      var count := Put(regs[LaneCount(c)], LANE_COUNT, LanesLessOne(csi[c].numLanes));
      OtherWriteIsSafe(LaneCount(c), regs, count, usecount, enabling);
      WriteOutside(regs, LaneCount(c), count);
      CountOfLanes(regs[LaneCount(c)], csi[c].numLanes);
      ret := Program(LaneCount(c), count);
    }

    method ConfigureOutput(c: nat) returns (ret: Status)
      requires Valid() && c < NUM_CSI && (faults == 0 ==> usecount[c] == 0)
      modifies `attempts, `regs, `faults, `log
      ensures Valid() && ret != Einval && FaultsKept() && faults == old(faults) + (if ret == Ok then 0 else 1)
      ensures ret == Ok ==> !PhyOn(regs, c) && !DpllOn(regs, c) && LanesSet(regs, c)
      ensures OtherLanesKept(old(regs), regs, c) && regs[CTRL_MIPI_PHY0] == old(regs)[CTRL_MIPI_PHY0]
      ensures SamePhys(old(regs), regs, c)
      ensures Windows(regs) == Windows(old(regs))
    {
      ret := TearDown(c);
      TunedKept(old(regs), usecount, regs, usecount, csi);
      ControlsKeepLanes(old(regs), regs, c);
      if ret == Ok {
        ret := SetLaneMap(c);
      }
      if ret == Ok {
        ret := SetLaneCount(c);
      }
    }

    method ConfigureCsiDphy() returns (ret: Status)
      requires Valid() && (faults == 0 ==> forall c: nat | c < NUM_CSI :: usecount[c] == 0)
      modifies `attempts, `regs, `faults, `log
      ensures Valid() && FaultsKept()
      ensures ret == Ok ==> forall c: nat | c < NUM_CSI :: !PhyOn(regs, c) && !DpllOn(regs, c) && LanesSet(regs, c)
      ensures ret == Ok ==> LanesFit(csi) && ModeFits(regs[CTRL_MIPI_PHY0], csi)
      ensures faults == old(faults) && LanesFit(csi) ==> ret == Ok
      ensures Windows(regs) == Windows(old(regs))
    {
      if ActiveLanes(csi[0]) + ActiveLanes(csi[1]) > 4 || ActiveLanes(csi[2]) + ActiveLanes(csi[3]) > 4 {
        return Einval;
      }
      var mode := Put(regs[CTRL_MIPI_PHY0], PHY_MODE, PhyMode(csi));
      WriteOutside(regs, CTRL_MIPI_PHY0, mode);
      ModeBits(regs[CTRL_MIPI_PHY0], csi);
      ret := Program(CTRL_MIPI_PHY0, mode);
      var c := 0;
      while c < NUM_CSI && ret == Ok
        invariant c <= NUM_CSI && Valid() && FaultsKept()
        invariant faults == 0 ==> forall k: nat | k < NUM_CSI :: usecount[k] == 0
        invariant ret == Ok ==> forall k: nat | k < c :: !PhyOn(regs, k) && !DpllOn(regs, k) && LanesSet(regs, k)
        invariant ret == Ok ==> regs[CTRL_MIPI_PHY0] == mode
        invariant faults == old(faults) ==> ret == Ok
        invariant Windows(regs) == Windows(old(regs))
      {
        ret := ConfigureOutput(c);
        c := c + 1;
      }
    }

    /** After a successful enable no flag is set, no PHY is on, no pipe of an existing link is routed, and each
        counter is what it exceeded its flags by before: so all are 0 exactly if none was ahead of its flags. */
    method Enable() returns (ret: Status)
      requires Valid()
      modifies this
      ensures Valid() && FaultsKept() && ExcessKept() && (old(Counted()) ==> Counted())
      ensures up == (old(up) || ret == Ok) && held <= old(held)
      ensures ret == Ok ==> held == {}
      ensures ret == Ok ==> forall c: nat | c < NUM_CSI :: !PhyOn(regs, c) && !DpllOn(regs, c) && LanesSet(regs, c)
      ensures ret == Ok ==> LanesFit(csi)
      ensures faults == old(faults) && LanesFit(csi) ==> ret == Ok
      ensures ret == Ok ==> forall c: nat | c < NUM_CSI :: usecount[c] == old(Excess(c))
      ensures ret == Ok ==>
        ((forall c: nat | c < NUM_CSI :: usecount[c] == 0) <==> old(NoExcess(held, pipes, usecount)))
      ensures ret == Ok ==> forall p: nat | p < NUM_PIPES && pipes[p].enabled && pipes[p].srcLink < NUM_LINKS ::
        Silent(Windows(regs)[p])
      ensures forall p: nat | p < NUM_PIPES && !pipes[p].enabled :: Windows(regs)[p] == Windows(old(regs))[p]
    {
      ret := DisableLinks();
      if ret != Ok {
        return;
      }
      ret := StartUp();
      NoExcessIs(old(held), pipes, old(usecount));
    }

    // With no flag set, the outputs are configured, all off.
    method StartUp() returns (ret: Status)
      requires Valid() && held == {}
      modifies `attempts, `regs, `faults, `log, `up
      ensures Valid() && FaultsKept() && up == (old(up) || ret == Ok) && Windows(regs) == Windows(old(regs))
      ensures ret == Ok ==> LanesFit(csi)
      ensures ret == Ok ==> forall c: nat | c < NUM_CSI :: !PhyOn(regs, c) && !DpllOn(regs, c) && LanesSet(regs, c)
      ensures faults == old(faults) && LanesFit(csi) ==> ret == Ok
      ensures forall c: nat | c < NUM_CSI :: Excess(c) == usecount[c]
    {
      ExcessWithoutFlags(pipes, usecount);
      ret := ConfigureCsiDphy();
      if ret == Ok {
        up := true;
      }
    }

    method DisableLinks() returns (ret: Status)
      requires Valid()
      modifies this
      ensures Kept() && held <= old(held)
      ensures ret == Ok ==> held == {}
      ensures faults == old(faults) ==> ret == Ok
      ensures ret == Ok ==> forall p: nat | p < NUM_PIPES && pipes[p].enabled && pipes[p].srcLink < NUM_LINKS ::
        Silent(Windows(regs)[p])
      ensures forall p: nat | p < NUM_PIPES && !pipes[p].enabled :: Windows(regs)[p] == Windows(old(regs))[p]
    {
      ret := Ok;
      for link := 0 to NUM_LINKS
        invariant Kept() && held <= old(held) && ret == Ok
        invariant forall k | k in held :: pipes[k.0].srcLink >= link
        invariant forall p: nat | p < NUM_PIPES && pipes[p].enabled && pipes[p].srcLink < link ::
          Silent(Windows(regs)[p])
        invariant forall p: nat | p < NUM_PIPES && !pipes[p].enabled :: Windows(regs)[p] == Windows(old(regs))[p]
      {
        ret := DisableSerialLink(link);
        if ret != Ok {
          return;
        }
      }
      assert held == {};
    }

    // ----- Streaming -----

    // How far the flags of output `c` are ahead of its counter.
    ghost function Drift(c: nat): int
      reads this
      requires |usecount| == NUM_CSI && c < NUM_CSI
    {
      Owners(held, pipes, c) - usecount[c]
    }

    // Output by output, flags and counter have moved apart by one for each failed operation. The counter
    // stops at zero, so when disabling this is said of outputs whose counter was not behind.
    twostate predicate Drifted(failed: seq<nat>, enable: bool)
      reads this
    {
      old(|usecount|) == |usecount| == |failed| == NUM_CSI && forall c: nat | c < NUM_CSI ::
        if enable then Drift(c) == old(Drift(c)) + failed[c]
        else old(Drift(c)) <= 0 ==> Drift(c) == old(Drift(c)) - failed[c]
    }

    // What every stream change keeps.
    twostate predicate StreamKept(enable: bool)
      reads this
    {
      Valid() && FaultsKept() && up == old(up) && Running(enable) && Windows(regs) == Windows(old(regs))
    }

    // One map of a stream change: the flag takes the new value whether or not the output followed.
    method StreamMap(p: nat, m: nat, enable: bool) returns (failed: bool)
      requires Valid() && IsMap(pipes, (p, m)) && pipes[p].enabled && pipes[p].srcLink < NUM_LINKS
      requires pipes[p].maps[m].dstCsi < NUM_CSI && ((p, m) in held <==> !enable)
      modifies this
      ensures StreamKept(enable)
      ensures held == Flag(old(held), (p, m), enable)
      ensures forall c: nat | c < NUM_CSI ::
        var miss := if failed && c == pipes[p].maps[m].dstCsi then 1 else 0;
        if enable then Drift(c) == old(Drift(c)) + miss else old(Drift(c)) <= 0 ==> Drift(c) == old(Drift(c)) - miss
      ensures faults == old(faults) ==> (failed <==> enable && !Startable(csi[pipes[p].maps[m].dstCsi]))
    {
      OwnersFlag(held, pipes, (p, m), enable);
      var ret := SetCsiLinkEnabled(pipes[p].maps[m].dstCsi, enable);
      failed := ret != Ok;
      held := Flag(held, (p, m), enable);
    }

    // One turn of the loop over the maps of a pipe, begun with the flags in `before`.
    method StreamTurn(p: nat, m: nat, enable: bool, ghost before: set<MapId>) returns (failed: seq<nat>)
      requires Valid() && IsMap(pipes, (p, m)) && pipes[p].enabled && pipes[p].srcLink < NUM_LINKS
      requires PipeFlagged(pipes, csi, before, held, pipes[p].srcLink, p, m, enable)
      modifies this
      ensures StreamKept(enable) && Drifted(failed, enable)
      ensures PipeFlagged(pipes, csi, before, held, pipes[p].srcLink, p, m + 1, enable)
      ensures faults == old(faults) ==>
        (failed == NONE_FAILED <==> !(enable && Missing(pipes, csi, before, pipes[p].srcLink, (p, m))))
    {
      failed := NONE_FAILED;
      var c := pipes[p].maps[m].dstCsi;
      if c < NUM_CSI && !csi[c].autoStart && ((p, m) in held) != enable {
        var missed := StreamMap(p, m, enable);
        failed := NONE_FAILED[c := if missed then 1 else 0];
        assert failed[c] == 0 <==> !missed;
      }
      PipeFlaggedNext(pipes, csi, before, old(held), held, pipes[p].srcLink, p, m, enable);
    }

    method StreamPipe(p: nat, enable: bool) returns (failed: seq<nat>)
      requires Valid() && p < NUM_PIPES && pipes[p].enabled && pipes[p].srcLink < NUM_LINKS
      modifies this
      ensures StreamKept(enable) && Drifted(failed, enable)
      ensures PipeFlagged(pipes, csi, old(held), held, pipes[p].srcLink, p, |pipes[p].maps|, enable)
      ensures faults == old(faults) ==> (failed == NONE_FAILED <==>
        !(enable && PipeMisses(pipes, csi, old(held), pipes[p].srcLink, p, |pipes[p].maps|)))
    {
      failed := NONE_FAILED;
      for m := 0 to |pipes[p].maps|
        invariant StreamKept(enable) && Drifted(failed, enable)
        invariant PipeFlagged(pipes, csi, old(held), held, pipes[p].srcLink, p, m, enable)
        invariant faults == old(faults) ==> (failed == NONE_FAILED <==>
          !(enable && PipeMisses(pipes, csi, old(held), pipes[p].srcLink, p, m)))
      {
        ghost var mid, between := regs, usecount;
        var missed := StreamTurn(p, m, enable, old(held));
        assert Running(enable) by {
          RanThen(Dead(), enable, old(regs), old(usecount), mid, between, regs, usecount);
        }
        ghost var was := failed;
        failed := Plus(failed, missed);
        PlusNone(was, missed);
        PipeMissesNext(pipes, csi, old(held), pipes[p].srcLink, p, m);
      }
    }

    // max9x_des_s_csi_link: every map of the link's pipes is flagged as asked; `failed` counts, output
    // by output, the operations that failed all the same. Unless a write fails these are the starts of
    // outputs that cannot be started.
    method DesSCsiLink(link: nat, enable: bool) returns (failed: seq<nat>)
      requires Valid() && link < NUM_LINKS
      modifies this
      ensures StreamKept(enable)
      ensures forall k :: k in held <==> if Streamed(pipes, csi, link, k) then enable else k in old(held)
      ensures Drifted(failed, enable)
      ensures old(Counted()) ==> (Counted() <==> failed == NONE_FAILED)
      ensures faults == old(faults) ==>
        (failed == NONE_FAILED <==> !(enable && StartMisses(pipes, csi, old(held), link)))
    {
      failed := StreamPipes(link, enable);
      StartMissesInSomePipe(pipes, csi, old(held), link);
      if old(Counted()) {
        assert forall c: nat | c < NUM_CSI :: old(Drift(c)) == 0;
        assert forall c: nat | c < NUM_CSI :: usecount[c] == Owners(held, pipes, c) <==> failed[c] == 0;
      }
    }

    method StreamPipes(link: nat, enable: bool) returns (failed: seq<nat>)
      requires Valid() && link < NUM_LINKS
      modifies this
      ensures StreamKept(enable) && Drifted(failed, enable)
      ensures PipesFlagged(pipes, csi, old(held), held, link, NUM_PIPES, enable)
      ensures faults == old(faults) ==>
        (failed == NONE_FAILED <==> !(enable && PipesMiss(pipes, csi, old(held), link, NUM_PIPES)))
    {
      failed := NONE_FAILED;
      for p := 0 to NUM_PIPES
        invariant StreamKept(enable) && Drifted(failed, enable)
        invariant PipesFlagged(pipes, csi, old(held), held, link, p, enable)
        invariant faults == old(faults) ==>
          (failed == NONE_FAILED <==> !(enable && PipesMiss(pipes, csi, old(held), link, p)))
      {
        ghost var mid, between := regs, usecount;
        var missed := StreamIfRouted(link, p, enable, old(held));
        assert Running(enable) by {
          RanThen(Dead(), enable, old(regs), old(usecount), mid, between, regs, usecount);
        }
        ghost var was := failed;
        failed := Plus(failed, missed);
        PlusNone(was, missed);
        PipesMissNext(pipes, csi, old(held), link, p);
      }
    }

    // One turn of the loop over the pipes, begun with the flags in `before`.
    method StreamIfRouted(link: nat, p: nat, enable: bool, ghost before: set<MapId>) returns (failed: seq<nat>)
      requires Valid() && link < NUM_LINKS && p < NUM_PIPES && PipesFlagged(pipes, csi, before, held, link, p, enable)
      modifies this
      ensures StreamKept(enable) && Drifted(failed, enable)
      ensures PipesFlagged(pipes, csi, before, held, link, p + 1, enable)
      ensures faults == old(faults) ==>
        (failed == NONE_FAILED <==> !(enable && PipeMisses(pipes, csi, before, link, p, |pipes[p].maps|)))
    {
      failed := NONE_FAILED;
      if pipes[p].enabled && pipes[p].srcLink == link {
        failed := StreamPipe(p, enable);
      } else {
        UnroutedPipeMisses(pipes, csi, before, link, p, |pipes[p].maps|);
      }
      PipesFlaggedNext(pipes, csi, before, old(held), held, link, p, enable);
    }

    /** A stream change on the pad of a link, whose remote source answers `remote`, 0 for success: outputs start
        before the source and stop after it. A start leaves the PHY of an output with users off exactly if the
        output had users before and its PHY was off. */
    method SetStream(sinkPad: nat, remote: int, enable: bool) returns (ret: int, missed: bool)
      requires Valid()
      modifies this
      ensures StreamKept(enable)
      ensures ret == if IsLinkPad(sinkPad) then remote else EINVAL
      ensures !IsLinkPad(sinkPad) || (!enable && remote != 0) ==>
        held == old(held) && usecount == old(usecount) && !missed
      ensures IsLinkPad(sinkPad) && (enable || remote == 0) ==>
        forall k :: k in held <==> if Streamed(pipes, csi, sinkPad - NUM_CSI, k) then enable else k in old(held)
      ensures old(Counted()) ==> (Counted() <==> !missed)
      ensures faults == old(faults) ==> (missed <==>
        enable && IsLinkPad(sinkPad) && StartMisses(pipes, csi, old(held), sinkPad - NUM_CSI))
      ensures enable ==> forall c: nat | c < NUM_CSI && usecount[c] > 0 ::
        PhyOn(regs, c) <==> old(usecount[c]) == 0 || PhyOn(old(regs), c)
    {
      missed := false;
      if !(NUM_CSI <= sinkPad < NUM_CSI + NUM_LINKS) {
        return EINVAL, false;
      }
      var failed: seq<nat>;
      if enable {
        failed := DesSCsiLink(sinkPad - NUM_CSI, true);
        missed := failed != NONE_FAILED;
      }
      if remote != 0 {
        return remote, missed;
      }
      if !enable {
        failed := DesSCsiLink(sinkPad - NUM_CSI, false);
        missed := failed != NONE_FAILED;
      }
      ret := 0;
    }

    // ----- Any run of the driver -----

    // A stream start on a link one of whose outputs cannot be started.
    ghost predicate StartsUnstartable(op: Operation) {
      op.Stream? && op.on && IsLinkPad(op.sinkPad) && StartMisses(pipes, csi, {}, op.sinkPad - NUM_CSI)
    }

    // As long as counters and flags are in step, no flagged map keeps an output that cannot be started.
    lemma CountedMissing(link: nat)
      requires Valid() && Counted()
      ensures StartMisses(pipes, csi, held, link) <==> StartMisses(pipes, csi, {}, link)
    {
      forall k: MapId | Missing(pipes, csi, {}, link, k) ensures Missing(pipes, csi, held, link, k) {
        if k in held {
          OwnersSome(held, pipes, k);
        }
      }
      forall k: MapId | Missing(pipes, csi, held, link, k) ensures Missing(pipes, csi, {}, link, k) {
      }
    }

    /** Any sequence of operations with any failures. Every logged write was safe; counters equal the numbers of
        flagged maps after every operation exactly if no output operation failed; and unless a write fails
        that is exactly if no stream start asks for an output that cannot be started. */
    method Run(ops: seq<Operation>) returns (missed: bool, ghost inStep: bool)
      requires Valid() && forall p: nat | p < NUM_PIPES :: DestinationsExist(pipes[p])
      modifies this
      ensures Valid() && FaultsKept() && (old(up) ==> up)
      ensures old(Counted()) ==> (inStep <==> !missed) && (inStep ==> Counted())
      ensures old(Counted()) && faults == old(faults) ==>
        (missed <==> exists i: nat | i < |ops| :: StartsUnstartable(ops[i]))
      ensures forall w | w in log :: SafeWrite(w)
      ensures up && faults == 0 ==> forall c: nat | c < NUM_CSI :: PhyOn(regs, c) <==> usecount[c] > 0
      ensures UsersTuned(regs, usecount, csi)
    {
      missed, inStep := false, true;
      for i := 0 to |ops|
        invariant Valid() && FaultsKept() && (old(up) ==> up)
        invariant old(Counted()) ==> (inStep <==> !missed) && (inStep ==> Counted())
        invariant old(Counted()) && faults == old(faults) ==>
          (missed <==> exists j: nat | j < i :: StartsUnstartable(ops[j]))
      {
        var miss := RunOne(ops[i]);
        missed := missed || miss;
        inStep := inStep && Counted();
      }
    }

    method RunOne(op: Operation) returns (missed: bool)
      requires Valid() && forall p: nat | p < NUM_PIPES :: DestinationsExist(pipes[p])
      modifies this
      ensures Valid() && FaultsKept() && (old(up) ==> up)
      ensures old(Counted()) ==> (Counted() <==> !missed)
      ensures old(Counted()) && faults == old(faults) ==> (missed <==> StartsUnstartable(op))
    {
      missed := false;
      match op {
        case RouteLink(link) =>
          if link < NUM_LINKS {
            var ret := SetSerialLinkRouting(link);
          }
        case DisableLink(link) =>
          var ret := DisableSerialLink(link);
        case EnableChip =>
          var ret := Enable();
        case Stream(sinkPad, on, remote) =>
          if Counted() && IsLinkPad(sinkPad) {
            CountedMissing(sinkPad - NUM_CSI);
          }
          var ret, miss := SetStream(sinkPad, remote, on);
          missed := miss;
      }
    }
  }
}
