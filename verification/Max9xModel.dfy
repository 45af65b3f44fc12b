/** Configuration of a deserialiser, which map holds which CSI output, and what a routed pipe decodes to. */
module Max9xModel {
  import opened Registers
  import opened Max9296Layout

  datatype Status = Ok | Einval | Eio

  datatype MipiMap = MipiMap(srcVc: nat, srcDt: nat, dstVc: nat, dstDt: nat, dstCsi: nat)

  datatype Pipe = Pipe(enabled: bool, srcLink: nat, srcPipe: nat, dblPixelBpp: nat, maps: seq<MipiMap>)

  datatype CsiConfig = CsiConfig(enabled: bool, numLanes: nat, laneMap: nat, freqMhz: nat,
                                 autoDeskew: bool, deskewWidth: nat, autoStart: bool)

  predicate WellSized(pipes: seq<Pipe>, csi: seq<CsiConfig>) {
    && |csi| == NUM_CSI && |pipes| == NUM_PIPES
    && forall p: nat | p < NUM_PIPES :: |pipes[p].maps| <= NUM_MAPS
  }

  predicate DestinationsExist(pipe: Pipe) {
    forall m: nat | m < |pipe.maps| :: pipe.maps[m].dstCsi < NUM_CSI
  }

  predicate Routed(pipe: Pipe, link: nat) {
    pipe.enabled && pipe.srcLink == link
  }

  // ----- Ownership of the CSI outputs -----

  // A map of the configuration: its pipe and its index there.
  type MapId = (nat, nat)

  predicate IsMap(pipes: seq<Pipe>, k: MapId) {
    k.0 < |pipes| && k.1 < |pipes[k.0].maps|
  }

  predicate Targets(pipes: seq<Pipe>, k: MapId, c: nat) {
    IsMap(pipes, k) && pipes[k.0].maps[k.1].dstCsi == c
  }

  // The number of maps with dst_csi = c whose is_csi_enabled flag is set; `held` is the set of flagged maps.
  function Owners(held: set<MapId>, pipes: seq<Pipe>, c: nat): nat {
    |set k | k in held && Targets(pipes, k, c)|
  }

  predicate InStep(held: set<MapId>, pipes: seq<Pipe>, usecount: seq<nat>) {
    forall c: nat | c < |usecount| :: usecount[c] == Owners(held, pipes, c)
  }

  predicate NoExcess(held: set<MapId>, pipes: seq<Pipe>, usecount: seq<nat>) {
    forall c: nat | c < |usecount| :: usecount[c] <= Owners(held, pipes, c)
  }

  // Only maps of an enabled pipe that is fed by an existing link ever hold an output, and it exists.
  predicate HoldersPlaced(held: set<MapId>, pipes: seq<Pipe>) {
    forall k | k in held :: IsMap(pipes, k) && pipes[k.0].enabled && pipes[k.0].srcLink < NUM_LINKS
                            && pipes[k.0].maps[k.1].dstCsi < NUM_CSI
  }

  /** Setting one flag moves the count of that map's CSI output by one, and no other count. */
  lemma OwnersClaim(held: set<MapId>, pipes: seq<Pipe>, k: MapId, c: nat)
    requires k !in held
    ensures Owners(held + {k}, pipes, c) == Owners(held, pipes, c) + (if Targets(pipes, k, c) then 1 else 0)
  {
    var before, after := set j | j in held && Targets(pipes, j, c), set j | j in held + {k} && Targets(pipes, j, c);
    assert after == if Targets(pipes, k, c) then before + {k} else before;
  }

  lemma OwnersRelease(held: set<MapId>, pipes: seq<Pipe>, k: MapId, c: nat)
    requires k in held
    ensures Owners(held - {k}, pipes, c) == Owners(held, pipes, c) - (if Targets(pipes, k, c) then 1 else 0)
  {
    OwnersClaim(held - {k}, pipes, k, c);
    assert held - {k} + {k} == held;
  }

  function Flag(held: set<MapId>, k: MapId, on: bool): set<MapId> {
    if on then held + {k} else held - {k}
  }

  lemma OwnersFlag(held: set<MapId>, pipes: seq<Pipe>, k: MapId, on: bool)
    requires k in held <==> !on
    ensures forall c: nat ::
      (Owners(Flag(held, k, on), pipes, c) ==
       Owners(held, pipes, c) + (if !Targets(pipes, k, c) then 0 else if on then 1 else -1))
  {
    forall c: nat
      ensures Owners(Flag(held, k, on), pipes, c) ==
        Owners(held, pipes, c) + (if !Targets(pipes, k, c) then 0 else if on then 1 else -1)
    {
      if on {
        OwnersClaim(held, pipes, k, c);
      } else {
        OwnersRelease(held, pipes, k, c);
      }
    }
  }

  lemma OwnersSome(held: set<MapId>, pipes: seq<Pipe>, k: MapId)
    requires k in held && IsMap(pipes, k)
    ensures Owners(held, pipes, pipes[k.0].maps[k.1].dstCsi) > 0
  {
    var c := pipes[k.0].maps[k.1].dstCsi;
    var owners := set j | j in held && Targets(pipes, j, c);
    assert k in owners;
  }

  lemma OwnersNone(pipes: seq<Pipe>, c: nat)
    ensures Owners({}, pipes, c) == 0
  {
  }

  // How many users the counter has beyond the flagged maps.
  function ExcessOf(held: set<MapId>, pipes: seq<Pipe>, usecount: seq<nat>, c: nat): nat
    requires c < |usecount|
  {
    if usecount[c] > Owners(held, pipes, c) then usecount[c] - Owners(held, pipes, c) else 0
  }

  lemma NoExcessIs(held: set<MapId>, pipes: seq<Pipe>, usecount: seq<nat>)
    ensures NoExcess(held, pipes, usecount) <==>
            forall c: nat | c < |usecount| :: ExcessOf(held, pipes, usecount, c) == 0
  {
    forall c: nat | c < |usecount|
      ensures ExcessOf(held, pipes, usecount, c) == 0 <==> usecount[c] <= Owners(held, pipes, c)
    {
    }
    if forall c: nat | c < |usecount| :: ExcessOf(held, pipes, usecount, c) == 0 {
      forall c: nat | c < |usecount| ensures usecount[c] <= Owners(held, pipes, c) {
        assert ExcessOf(held, pipes, usecount, c) == 0;
      }
    }
  }

  lemma ExcessWithoutFlags(pipes: seq<Pipe>, usecount: seq<nat>)
    ensures forall c: nat | c < |usecount| :: ExcessOf({}, pipes, usecount, c) == usecount[c]
  {
    forall c: nat { OwnersNone(pipes, c); }
  }

  // The counter of one output after an enable or a disable that succeeds.
  function Moved(usecount: seq<nat>, c: nat, enable: bool): seq<nat>
    requires c < |usecount|
  {
    usecount[c := if enable then usecount[c] + 1 else if usecount[c] > 0 then usecount[c] - 1 else 0]
  }

  /** A flag and the counter of its output that move together stay in step. */
  lemma FlagInStep(held: set<MapId>, pipes: seq<Pipe>, usecount: seq<nat>, k: MapId, on: bool)
    requires IsMap(pipes, k) && (k in held <==> !on) && pipes[k.0].maps[k.1].dstCsi < |usecount|
    ensures var moved := Moved(usecount, pipes[k.0].maps[k.1].dstCsi, on);
      && (InStep(held, pipes, usecount) ==> InStep(Flag(held, k, on), pipes, moved))
      && (NoExcess(held, pipes, usecount) ==> NoExcess(Flag(held, k, on), pipes, moved))
      && forall c: nat | c < |usecount| ::
           ExcessOf(Flag(held, k, on), pipes, moved, c) == ExcessOf(held, pipes, usecount, c)
  {
    OwnersFlag(held, pipes, k, on);
  }

  // ----- What a routed pipe decodes to -----

  function RouteOf(map_: MipiMap): Route {
    Route(map_.srcVc % 4, map_.srcDt % 64, map_.dstVc % 4, map_.dstDt % 64, map_.dstCsi % 4,
          map_.srcVc % 8, map_.dstVc % 8)
  }

  predicate MapsEnabled(w: Window, count: nat) {
    forall m: nat | m < NUM_MAPS :: MapEnabled(w, m) == (m < count)
  }

  predicate MapsProgrammed(w: Window, maps: seq<MipiMap>, count: nat)
    requires count <= |maps| <= NUM_MAPS
  {
    forall m: nat | m < count :: DecodeMap(w, m) == RouteOf(maps[m])
  }

  // Exactly the maps of the pipe, that many of them enabled, its stream selected, and the pipe on.
  predicate Programmed(w: Window, pipe: Pipe)
    requires |pipe.maps| <= NUM_MAPS
  {
    && Get(w.select, STREAM_SELECT) == pipe.srcPipe % 4
    && w.on
    && MapsEnabled(w, |pipe.maps|)
    && MapsProgrammed(w, pipe.maps, |pipe.maps|)
  }

  predicate Silent(w: Window) {
    !w.on && MapsEnabled(w, 0)
  }

  // ----- The writes that program one pipe -----

  lemma MaskEnables(w: Window, count: nat)
    requires count <= NUM_MAPS
    requires w.table[0] == Put(ZERO, WHOLE, LowMask(count)) && w.table[1] == Put(ZERO, WHOLE, LowMask(count) / 256)
    ensures MapsEnabled(w, count)
  {
    LowMaskShifted(count, 8);
    assert Pow2(8) == 256;
    forall m: nat | m < NUM_MAPS ensures MapEnabled(w, m) == (m < count) {
      if m < 8 {
        LowMaskBits(count, 8, m);
      } else {
        LowMaskBits(if count < 8 then 0 else count - 8, 8, m - 8);
      }
    }
  }

  function SourceByte(map_: MipiMap): Byte { Put(Put(ZERO, VC_L, map_.srcVc), DT_L, map_.srcDt) }

  function DestinationByte(map_: MipiMap): Byte { Put(Put(ZERO, VC_L, map_.dstVc), DT_L, map_.dstDt) }

  function HighByte(map_: MipiMap): Byte { Put(Put(ZERO, SRC_VC_H, map_.srcVc), DST_VC_H, map_.dstVc) }

  // The window once the first `done` of the four writes of map `m` have taken effect.
  function MapWrites(w: Window, m: nat, map_: MipiMap, done: nat): Window
    requires m < NUM_MAPS && done <= 4
  {
    var src, dst, dest := 2 + 2 * m, 3 + 2 * m, 34 + m / 4;
    var one := if done >= 1 then w.(table := w.table[src := SourceByte(map_)]) else w;
    var two := if done >= 2 then one.(table := one.table[dst := DestinationByte(map_)]) else one;
    var three := if done >= 3 then two.(high := two.high[m := HighByte(map_)]) else two;
    if done == 4 then three.(table := three.table[dest := Put(w.table[dest], DestField(m), map_.dstCsi)]) else three
  }

  lemma TwoFields(f: Field, x: nat, g: Field, y: nat)
    requires Disjoint(f, g)
    ensures var b := Put(Put(ZERO, f, x), g, y);
      Get(b, f) == x % Pow2(f.width) && Get(b, g) == y % Pow2(g.width)
  {
    GetPut(ZERO, f, x);
    GetPutOther(Put(ZERO, f, x), g, y, f);
    GetPut(Put(ZERO, f, x), g, y);
  }

  /** The four writes of a map decode to that map. */
  lemma MapDecodes(w: Window, m: nat, map_: MipiMap)
    requires m < NUM_MAPS
    ensures DecodeMap(MapWrites(w, m, map_, 4), m) == RouteOf(map_)
  {
    TwoFields(VC_L, map_.srcVc, DT_L, map_.srcDt);
    TwoFields(VC_L, map_.dstVc, DT_L, map_.dstDt);
    TwoFields(SRC_VC_H, map_.srcVc, DST_VC_H, map_.dstVc);
    GetPut(w.table[34 + m / 4], DestField(m), map_.dstCsi);
    assert Pow2(2) == 4 && Pow2(3) == 8 && Pow2(6) == 64;
  }

  lemma OtherMapBytes(w: Window, m: nat, map_: MipiMap, done: nat, k: nat)
    requires m < NUM_MAPS && done <= 4 && k < NUM_MAPS && k != m
    ensures var after := MapWrites(w, m, map_, done);
      && after.table[2 + 2 * k] == w.table[2 + 2 * k] && after.table[3 + 2 * k] == w.table[3 + 2 * k]
      && after.high[k] == w.high[k]
      && after.table[34 + k / 4] ==
         if done == 4 && m / 4 == k / 4 then Put(w.table[34 + m / 4], DestField(m), map_.dstCsi)
         else w.table[34 + k / 4]
  {
  }

  /** However many of the four writes took effect, no other map of the pipe decodes differently,
      although four maps share one destination register. */
  lemma OtherMapKept(w: Window, m: nat, map_: MipiMap, done: nat, k: nat)
    requires m < NUM_MAPS && done <= 4 && k < NUM_MAPS && k != m
    ensures DecodeMap(MapWrites(w, m, map_, done), k) == DecodeMap(w, k)
  {
    OtherMapBytes(w, m, map_, done, k);
    if m / 4 == k / 4 {
      GetPutOther(w.table[34 + m / 4], DestField(m), map_.dstCsi, DestField(k));
    }
    SameBytesSameMap(w, MapWrites(w, m, map_, done), k);
  }

  lemma SameBytesSameMap(w: Window, v: Window, k: nat)
    requires k < NUM_MAPS && v.table[2 + 2 * k] == w.table[2 + 2 * k] && v.table[3 + 2 * k] == w.table[3 + 2 * k]
    requires v.high[k] == w.high[k] && Get(v.table[34 + k / 4], DestField(k)) == Get(w.table[34 + k / 4], DestField(k))
    ensures DecodeMap(v, k) == DecodeMap(w, k)
  {
  }

  // Stream selected and maps enabled, as they are before the maps are written.
  predicate Selected(w: Window, pipe: Pipe) {
    Get(w.select, STREAM_SELECT) == pipe.srcPipe % 4 && MapsEnabled(w, |pipe.maps|)
  }

  predicate SameElsewhere(before: seq<Window>, after: seq<Window>, p: nat)
    requires |before| == |after|
  {
    forall q: nat | q < |before| && q != p :: after[q] == before[q]
  }

  // Half way through the pipes of a link: those not yet reached, and those of other links, are as before.
  predicate OthersKept(before: seq<Window>, now: seq<Window>, pipes: seq<Pipe>, link: nat, count: nat)
    requires |before| == |now| == |pipes|
  {
    forall q: nat | q < |pipes| && (q >= count || !Routed(pipes[q], link)) :: now[q] == before[q]
  }

  predicate LinkProgrammed(ws: seq<Window>, pipes: seq<Pipe>, link: nat, count: nat)
    requires count <= |ws| == |pipes| && forall p: nat | p < |pipes| :: |pipes[p].maps| <= NUM_MAPS
  {
    forall q: nat | q < count && Routed(pipes[q], link) :: Programmed(ws[q], pipes[q])
  }

  predicate LinkSilent(ws: seq<Window>, pipes: seq<Pipe>, link: nat, count: nat)
    requires count <= |ws| == |pipes|
  {
    forall q: nat | q < count && Routed(pipes[q], link) :: Silent(ws[q])
  }

  ghost predicate LinkReleased(held: set<MapId>, pipes: seq<Pipe>, link: nat, count: nat)
    requires count <= |pipes|
  {
    forall k | k in held && k.0 < count :: !Routed(pipes[k.0], link)
  }

  lemma OthersKeptNext(before: seq<Window>, mid: seq<Window>, now: seq<Window>, pipes: seq<Pipe>, link: nat, p: nat)
    requires |before| == |mid| == |now| == |pipes| && p < |pipes| && OthersKept(before, mid, pipes, link, p)
    requires if Routed(pipes[p], link) then SameElsewhere(mid, now, p) else now == mid
    ensures OthersKept(before, now, pipes, link, p + 1)
  {
  }

  lemma LinkProgrammedNext(mid: seq<Window>, now: seq<Window>, pipes: seq<Pipe>, link: nat, p: nat)
    requires |mid| == |now| == |pipes| && p < |pipes| && forall q: nat | q < |pipes| :: |pipes[q].maps| <= NUM_MAPS
    requires LinkProgrammed(mid, pipes, link, p)
    requires if Routed(pipes[p], link) then SameElsewhere(mid, now, p) && Programmed(now[p], pipes[p]) else now == mid
    ensures LinkProgrammed(now, pipes, link, p + 1)
  {
  }

  lemma LinkSilentNext(mid: seq<Window>, now: seq<Window>, pipes: seq<Pipe>, link: nat, p: nat)
    requires |mid| == |now| == |pipes| && p < |pipes| && LinkSilent(mid, pipes, link, p)
    requires if Routed(pipes[p], link) then SameElsewhere(mid, now, p) && Silent(now[p]) else now == mid
    ensures LinkSilent(now, pipes, link, p + 1)
  {
  }

  lemma LinkReleasedNext(mid: set<MapId>, now: set<MapId>, pipes: seq<Pipe>, link: nat, p: nat)
    requires p < |pipes| && LinkReleased(mid, pipes, link, p) && now <= mid
    requires Routed(pipes[p], link) ==> forall k | k in now :: k.0 != p
    ensures LinkReleased(now, pipes, link, p + 1)
  {
  }

  // One map more, and everything programmed before it stands.
  lemma MapsAdvance(w: Window, m: nat, pipe: Pipe)
    requires m < |pipe.maps| <= NUM_MAPS && Selected(w, pipe) && MapsProgrammed(w, pipe.maps, m)
    ensures var after := MapWrites(w, m, pipe.maps[m], 4);
      Selected(after, pipe) && MapsProgrammed(after, pipe.maps, m + 1)
  {
    var after := MapWrites(w, m, pipe.maps[m], 4);
    MapDecodes(w, m, pipe.maps[m]);
    forall k: nat | k < m ensures DecodeMap(after, k) == RouteOf(pipe.maps[k]) {
      OtherMapKept(w, m, pipe.maps[m], 4, k);
    }
    assert after.table[0] == w.table[0] && after.table[1] == w.table[1];
    forall k: nat | k < NUM_MAPS ensures MapEnabled(after, k) == MapEnabled(w, k) {
    }
  }

  lemma PipeOnProgrammed(w: Window, pipe: Pipe)
    requires |pipe.maps| <= NUM_MAPS && Selected(w, pipe) && MapsProgrammed(w, pipe.maps, |pipe.maps|)
    ensures Programmed(w.(on := true), pipe)
  {
    var after := w.(on := true);
    forall m: nat | m < NUM_MAPS
      ensures MapEnabled(after, m) == MapEnabled(w, m) && DecodeMap(after, m) == DecodeMap(w, m)
    {
    }
  }
}
