/** From platform data to registers: the serdes parser, and what the routing it leads to amounts to. */
module SerdesPdata {
  import opened Registers
  import opened Max9296Layout
  import opened Max9xModel
  import opened Max9296
  import opened StreamRoutes

  datatype PlatformData = PlatformData(sensorDt: seq<nat>, desPort: nat, deserLanes: nat)

  datatype VideoPipePdata = VideoPipePdata(serialLinkId: nat, pipeId: nat, srcPipeId: nat, maps: seq<MipiMap>)

  datatype CsiLinkPdata = CsiLinkPdata(linkId: nat, numLanes: nat, txRateMbps: nat, autoDeskew: bool,
                                       deskewWidth: nat, autoStart: bool)

  datatype Pdata = Pdata(serialLinks: seq<nat>, videoPipes: seq<VideoPipePdata>, csiLinks: seq<CsiLinkPdata>)

  const U16: nat := 0x1_0000

  // Ports are 90 apart.
  function CsiPort(platform: PlatformData): (csi: nat)
    ensures 90 * csi <= platform.desPort < 90 * (csi + 1)
  {
    platform.desPort / 90
  }

  // Three maps a port: frame start, frame end and the sensor's data type, from VC 0 to the port's own
  // VC. The fields are 16 bits wide.
  function PortMaps(port: nat, dt: nat, csi: nat): seq<MipiMap> {
    [MipiMap(0, 0, port % U16, 0, csi % U16), MipiMap(0, 1, port % U16, 1, csi % U16),
     MipiMap(0, dt % U16, port % U16, dt % U16, csi % U16)]
  }

  function PortPdata(platform: PlatformData, port: nat): VideoPipePdata
    requires port < |platform.sensorDt|
  {
    VideoPipePdata(port, port, port, PortMaps(port, platform.sensorDt[port], CsiPort(platform)))
  }

  method ParseSerdesPdata(platform: PlatformData) returns (pdata: Pdata)
    ensures |pdata.serialLinks| == |pdata.videoPipes| == |platform.sensorDt|
    ensures forall i: nat | i < |platform.sensorDt| ::
      pdata.serialLinks[i] == i && pdata.videoPipes[i] == PortPdata(platform, i)
    ensures pdata.csiLinks == [CsiLinkPdata(CsiPort(platform), platform.deserLanes, 2000, true, 7, false)]
  {
    var links: seq<nat> := [];
    var videoPipes: seq<VideoPipePdata> := [];
    var csiPort := platform.desPort / 90;
    for i := 0 to |platform.sensorDt|
      invariant |links| == |videoPipes| == i
      invariant forall k: nat | k < i :: links[k] == k && videoPipes[k] == PortPdata(platform, k)
    {
      links := links + [i];
      var dt := platform.sensorDt[i];
      var maps := [MipiMap(0, 0, i % U16, 0, csiPort % U16),
                   MipiMap(0, 1, i % U16, 1, csiPort % U16),
                   MipiMap(0, dt % U16, i % U16, dt % U16, csiPort % U16)];
      videoPipes := videoPipes + [VideoPipePdata(i, i, i, maps)];
    }
    pdata := Pdata(links, videoPipes, [CsiLinkPdata(csiPort, platform.deserLanes, 2000, true, 7, false)]);
  }

  const NO_PIPE: Pipe := Pipe(false, 0, 0, 0, [])
  const NO_CSI: CsiConfig := CsiConfig(false, 0, 0, 0, false, 0, false)

  function PortPipe(platform: PlatformData, port: nat): Pipe
    requires port < |platform.sensorDt|
  {
    Pipe(true, port, port, 0, PortMaps(port, platform.sensorDt[port], CsiPort(platform)))
  }

  // What the parser leaves in the driver's tables for this platform.
  predicate ParsedPipes(pipes: seq<Pipe>, platform: PlatformData, ports: nat)
    requires ports <= |platform.sensorDt|
  {
    && |pipes| == NUM_PIPES && ports <= NUM_PIPES
    && (forall p: nat | p < ports :: pipes[p] == PortPipe(platform, p))
    && (forall p: nat | ports <= p < NUM_PIPES :: pipes[p] == NO_PIPE)
  }

  predicate Parsed(pipes: seq<Pipe>, csi: seq<CsiConfig>, platform: PlatformData) {
    && |platform.sensorDt| <= NUM_LINKS && CsiPort(platform) < NUM_CSI
    && ParsedPipes(pipes, platform, |platform.sensorDt|)
    && csi == [NO_CSI, NO_CSI, NO_CSI, NO_CSI]
      [CsiPort(platform) := CsiConfig(true, platform.deserLanes, 0, 2000, true, 7, false)]
  }

  // An output with its platform data; the deskew width is taken over only with automatic deskew.
  function Configured(was: CsiConfig, link: CsiLinkPdata): CsiConfig {
    CsiConfig(true, link.numLanes, was.laneMap, link.txRateMbps, link.autoDeskew,
              if link.autoDeskew then link.deskewWidth else was.deskewWidth, link.autoStart)
  }

  // The tables of the driver while platform data is parsed into them.
  class Common {
    var linkEnabled: seq<bool>
    var pipes: seq<Pipe>
    var csi: seq<CsiConfig>

    ghost predicate Valid()
      reads this
    {
      |linkEnabled| == NUM_LINKS && WellSized(pipes, csi)
    }

    constructor ()
      ensures Valid() && pipes == [NO_PIPE, NO_PIPE, NO_PIPE, NO_PIPE] && csi == [NO_CSI, NO_CSI, NO_CSI, NO_CSI]
    {
      linkEnabled := [false, false];
      pipes := [NO_PIPE, NO_PIPE, NO_PIPE, NO_PIPE];
      csi := [NO_CSI, NO_CSI, NO_CSI, NO_CSI];
    }

    method ParseSerialLink(link: nat) returns (ret: Status)
      requires Valid()
      modifies `linkEnabled
      ensures Valid() && (ret == Ok <==> link < NUM_LINKS)
      ensures linkEnabled == if ret == Ok then old(linkEnabled)[link := true] else old(linkEnabled)
    {
      if link >= NUM_LINKS {
        return Einval;
      }
      linkEnabled := linkEnabled[link := true];
      ret := Ok;
    }

    method ParseVideoPipe(pipe: VideoPipePdata) returns (ret: Status)
      requires Valid()
      modifies `pipes
      ensures Valid()
      ensures ret == Ok <==> pipe.serialLinkId < NUM_LINKS && pipe.pipeId < NUM_PIPES && |pipe.maps| <= NUM_MAPS
      ensures ret == Ok ==> pipes == old(pipes)[pipe.pipeId := Pipe(true, pipe.serialLinkId, pipe.srcPipeId,
        old(pipes)[pipe.pipeId].dblPixelBpp, pipe.maps)]
    {
      if pipe.serialLinkId >= NUM_LINKS || pipe.pipeId >= NUM_PIPES {
        return Einval;
      }
      pipes := pipes[pipe.pipeId := pipes[pipe.pipeId].(enabled := true)];
      if |pipe.maps| > NUM_MAPS {
        return Einval;
      }
      var maps: seq<MipiMap> := [];
      for i := 0 to |pipe.maps|
        invariant maps == pipe.maps[..i]
      {
        maps := maps + [pipe.maps[i]];
      }
      assert maps == pipe.maps;
      pipes := pipes[pipe.pipeId := pipes[pipe.pipeId].(
        srcLink := pipe.serialLinkId, srcPipe := pipe.srcPipeId, maps := maps)];
      ret := Ok;
    }

    method ParseCsiLink(link: CsiLinkPdata) returns (ret: Status)
      requires Valid()
      modifies `csi
      ensures Valid() && (ret == Ok <==> link.linkId < NUM_CSI)
      ensures csi == if ret == Ok then old(csi)[link.linkId := Configured(old(csi)[link.linkId], link)] else old(csi)
    {
      if link.linkId >= NUM_CSI {
        return Einval;
      }
      var was := csi[link.linkId];
      csi := csi[link.linkId := was.(enabled := true, numLanes := link.numLanes, freqMhz := link.txRateMbps,
        autoDeskew := link.autoDeskew, deskewWidth := if link.autoDeskew then link.deskewWidth else was.deskewWidth,
        autoStart := link.autoStart)];
      ret := Ok;
    }

    /** Parsing succeeds exactly for at most two ports on one of the four CSI outputs. */
    method ParsePlatform(platform: PlatformData) returns (ret: Status)
      requires Valid() && pipes == [NO_PIPE, NO_PIPE, NO_PIPE, NO_PIPE] && csi == [NO_CSI, NO_CSI, NO_CSI, NO_CSI]
      modifies this
      ensures Valid()
      ensures ret == Ok <==> |platform.sensorDt| <= NUM_LINKS && CsiPort(platform) < NUM_CSI
      ensures ret == Ok ==> Parsed(pipes, csi, platform)
      ensures ret == Ok ==> forall i: nat | i < |platform.sensorDt| :: linkEnabled[i]
    {
      var pdata := ParseSerdesPdata(platform);
      for i := 0 to |pdata.serialLinks|
        invariant Valid() && pipes == old(pipes) && csi == old(csi) && i <= NUM_LINKS
        invariant forall k: nat | k < i :: linkEnabled[k]
      {
        ret := ParseSerialLink(pdata.serialLinks[i]);
        if ret != Ok {
          return;
        }
      }
      for i := 0 to |pdata.videoPipes|
        invariant Valid() && csi == old(csi) && ParsedPipes(pipes, platform, i)
        invariant forall k: nat | k < |platform.sensorDt| :: linkEnabled[k]
      {
        ret := ParseVideoPipe(pdata.videoPipes[i]);
      }
      ret := ParseCsiLink(pdata.csiLinks[0]);
    }
  }

  // ----- What the registers route, end to end -----

  // A stream with this data type, on VC 0, leaves from this CSI output with this VC and data type.
  ghost predicate Carries(ws: seq<Window>, stream: nat, dt: nat, csi: nat, vc: nat, outDt: nat)
    requires |ws| == NUM_PIPES
  {
    exists p: nat, m: nat | p < NUM_PIPES && m < NUM_MAPS :: CarriedBy(ws[p], m, stream, dt, csi, vc, outDt)
  }

  predicate CarriedBy(w: Window, m: nat, stream: nat, dt: nat, csi: nat, vc: nat, outDt: nat)
    requires m < NUM_MAPS
  {
    && w.on && MapEnabled(w, m) && Get(w.select, STREAM_SELECT) == stream
    && var route := DecodeMap(w, m);
      route.srcVc == 0 && route.srcDt == dt && route.csi == csi && route.dstVc == vc && route.dstDt == outDt
  }

  // A pipe that carries nothing: off, or without an enabled map.
  predicate Quiet(w: Window) {
    !w.on || MapsEnabled(w, 0)
  }

  // Every port is routed as parsed, and the pipes the platform does not use carry nothing.
  predicate BroughtUp(ws: seq<Window>, platform: PlatformData) {
    && |ws| == NUM_PIPES && |platform.sensorDt| <= NUM_LINKS && CsiPort(platform) < NUM_CSI
    && (forall p: nat | p < |platform.sensorDt| :: Programmed(ws[p], PortPipe(platform, p)))
    && (forall p: nat | |platform.sensorDt| <= p < NUM_PIPES :: Quiet(ws[p]))
  }

  // Entry `m` of a port's table: frame start, frame end, sensor data type.
  function Entry(platform: PlatformData, p: nat, m: nat): Route
    requires p < |platform.sensorDt| && m < 3
  {
    var dt := if m == 0 then 0 else if m == 1 then 1 else platform.sensorDt[p] % 64;
    Route(0, dt, p, dt, CsiPort(platform), 0, p)
  }

  lemma EntryIsRoute(platform: PlatformData, p: nat, m: nat)
    requires p < |platform.sensorDt| <= NUM_LINKS && CsiPort(platform) < NUM_CSI && m < 3
    ensures RouteOf(PortPipe(platform, p).maps[m]) == Entry(platform, p, m)
  {
    Mod64(platform.sensorDt[p]);
  }

  lemma PortCarries(w: Window, platform: PlatformData, p: nat)
    requires p < |platform.sensorDt| <= NUM_LINKS && CsiPort(platform) < NUM_CSI
    requires Programmed(w, PortPipe(platform, p))
    ensures w.on && Get(w.select, STREAM_SELECT) == p
    ensures forall m: nat | m < NUM_MAPS :: MapEnabled(w, m) <==> m < 3
    ensures forall m: nat | m < 3 :: DecodeMap(w, m) == Entry(platform, p, m)
  {
    forall m: nat | m < 3 ensures DecodeMap(w, m) == Entry(platform, p, m) {
      assert DecodeMap(w, m) == RouteOf(PortPipe(platform, p).maps[m]);
      EntryIsRoute(platform, p, m);
    }
  }

  lemma Mod64(x: nat)
    ensures x % U16 % 64 == x % 64
  {
  }

  /** Exactly these streams are carried: each port's frame start, frame end and sensor data type, to the
      platform's CSI output, on the VC with the port's number, with the data type it came with. */
  lemma CarriedExactly(ws: seq<Window>, platform: PlatformData, stream: nat, dt: nat, csi: nat, vc: nat, outDt: nat)
    requires BroughtUp(ws, platform)
    ensures Carries(ws, stream, dt, csi, vc, outDt) <==>
      && stream < |platform.sensorDt| && vc == stream && csi == CsiPort(platform) && outDt == dt
      && dt in {0, 1, platform.sensorDt[stream] % 64}
  {
    if Carries(ws, stream, dt, csi, vc, outDt) {
      var p: nat, m: nat :| p < NUM_PIPES && m < NUM_MAPS && CarriedBy(ws[p], m, stream, dt, csi, vc, outDt);
      assert p < |platform.sensorDt|;
      PortCarries(ws[p], platform, p);
      assert DecodeMap(ws[p], m) == Entry(platform, p, m);
    }
    if stream < |platform.sensorDt| && vc == stream && csi == CsiPort(platform) && outDt == dt
      && dt in {0, 1, platform.sensorDt[stream] % 64} {
      var m := if dt == 0 then 0 else if dt == 1 then 1 else 2;
      PortCarries(ws[stream], platform, stream);
      assert DecodeMap(ws[stream], m) == Entry(platform, stream, m);
      assert CarriedBy(ws[stream], m, stream, dt, csi, vc, outDt);
    }
  }

  /** Two streams never leave the chip on the same output with the same VC and data type. */
  lemma RoutingIsInjective(ws: seq<Window>, platform: PlatformData, s1: nat, d1: nat, s2: nat, d2: nat,
                           csi: nat, vc: nat, dt: nat)
    requires BroughtUp(ws, platform)
    requires Carries(ws, s1, d1, csi, vc, dt) && Carries(ws, s2, d2, csi, vc, dt)
    ensures s1 == s2 && d1 == d2
  {
    CarriedExactly(ws, platform, s1, d1, csi, vc, dt);
    CarriedExactly(ws, platform, s2, d2, csi, vc, dt);
  }

  /** Each port has three different table entries exactly when its sensor's data type, cut to the six
      bits of the field, is neither frame start nor frame end. */
  lemma EntriesDistinct(ws: seq<Window>, platform: PlatformData, p: nat)
    requires BroughtUp(ws, platform) && p < |platform.sensorDt|
    ensures (forall m: nat, k: nat | m < k < 3 :: DecodeMap(ws[p], m) != DecodeMap(ws[p], k)) <==>
            platform.sensorDt[p] % 64 !in {0, 1}
  {
    PortCarries(ws[p], platform, p);
    EntriesApart(ws[p], platform, p);
  }

  lemma EntriesApart(w: Window, platform: PlatformData, p: nat)
    requires p < |platform.sensorDt| && forall m: nat | m < 3 :: DecodeMap(w, m) == Entry(platform, p, m)
    ensures (forall m: nat, k: nat | m < k < 3 :: DecodeMap(w, m) != DecodeMap(w, k)) <==>
            platform.sensorDt[p] % 64 !in {0, 1}
  {
    assert DecodeMap(w, 0) == Entry(platform, p, 0) && DecodeMap(w, 1) == Entry(platform, p, 1);
    assert DecodeMap(w, 2) == Entry(platform, p, 2);
  }

  // The pipes of the first ports are routed.
  predicate PortsProgrammed(ws: seq<Window>, pipes: seq<Pipe>, count: nat)
    requires count <= |ws| == |pipes| && forall p: nat | p < |pipes| :: |pipes[p].maps| <= NUM_MAPS
  {
    forall p: nat | p < count :: Programmed(ws[p], pipes[p])
  }

  // The pipes of no port are as before.
  predicate PortsKept(before: seq<Window>, now: seq<Window>, platform: PlatformData)
    requires |before| == |now|
  {
    forall p: nat | |platform.sensorDt| <= p < |now| :: now[p] == before[p]
  }

  lemma PortRouted(mid: seq<Window>, now: seq<Window>, pipes: seq<Pipe>, csi: seq<CsiConfig>, platform: PlatformData,
                   link: nat, ok: bool)
    requires Parsed(pipes, csi, platform) && link < |platform.sensorDt| && |mid| == |now| == |pipes|
    requires OthersKept(mid, now, pipes, link, NUM_PIPES) && (ok ==> LinkProgrammed(now, pipes, link, NUM_PIPES))
    ensures ok && PortsProgrammed(mid, pipes, link) ==> PortsProgrammed(now, pipes, link + 1)
    ensures forall p: nat | |platform.sensorDt| <= p < |now| :: now[p] == mid[p]
  {
  }

  method RoutePort(chip: Deserializer, platform: PlatformData, link: nat) returns (ret: Status)
    requires chip.Valid() && Parsed(chip.pipes, chip.csi, platform) && link < |platform.sensorDt|
    modifies chip
    ensures chip.Kept()
    ensures ret == Ok && PortsProgrammed(Windows(old(chip.regs)), chip.pipes, link) ==>
      PortsProgrammed(Windows(chip.regs), chip.pipes, link + 1)
    ensures PortsKept(Windows(old(chip.regs)), Windows(chip.regs), platform)
    ensures chip.faults == old(chip.faults) ==> ret == Ok
  {
    ret := chip.SetSerialLinkRouting(link);
    PortRouted(Windows(old(chip.regs)), Windows(chip.regs), chip.pipes, chip.csi, platform, link, ret == Ok);
  }

  method RoutePorts(chip: Deserializer, platform: PlatformData) returns (ret: Status)
    requires chip.Valid() && Parsed(chip.pipes, chip.csi, platform)
    modifies chip
    ensures chip.Kept()
    ensures ret == Ok ==> PortsProgrammed(Windows(chip.regs), chip.pipes, |platform.sensorDt|)
    ensures PortsKept(Windows(old(chip.regs)), Windows(chip.regs), platform)
    ensures chip.faults == old(chip.faults) ==> ret == Ok
  {
    ret := Ok;
    var link := 0;
    while link < |platform.sensorDt| && ret == Ok
      invariant link <= |platform.sensorDt| && chip.Kept()
      invariant ret == Ok ==> PortsProgrammed(Windows(chip.regs), chip.pipes, link)
      invariant PortsKept(Windows(old(chip.regs)), Windows(chip.regs), platform)
      invariant chip.faults == old(chip.faults) ==> ret == Ok
    {
      ret := RoutePort(chip, platform, link);
      link := link + 1;
    }
  }

  /** Parse the platform, enable the chip, and route every port: if nothing fails, the registers carry
      exactly the streams above, provided the unused pipes carried nothing to begin with. */
  method BringUp(platform: PlatformData, bus: nat -> bool, regs: RegFile) returns (ret: Status, d: Deserializer?)
    requires forall p: nat | |platform.sensorDt| <= p < NUM_PIPES :: Quiet(Windows(regs)[p])
    ensures ret == Ok ==> d != null && fresh(d) && d.Valid() && d.Counted() && BroughtUp(Windows(d.regs), platform)
    ensures d != null <==> |platform.sensorDt| <= NUM_LINKS && CsiPort(platform) < NUM_CSI
    ensures d != null && d.faults == 0 ==> (ret == Ok <==> platform.deserLanes <= 4)
  {
    var common := new Common();
    ret := common.ParsePlatform(platform);
    d := null;
    if ret != Ok {
      return;
    }
    var chip := new Deserializer(bus, regs, common.pipes, common.csi);
    ret := chip.Enable();
    if ret == Ok {
      ret := RoutePorts(chip, platform);
    }
    d := chip;
  }

  // ----- Streaming on a parsed platform -----

  lemma PortStreamed(pipes: seq<Pipe>, csi: seq<CsiConfig>, platform: PlatformData, link: nat, k: MapId)
    requires Parsed(pipes, csi, platform)
    ensures Streamed(pipes, csi, link, k) <==> k.0 == link < |platform.sensorDt| && k.1 < 3
    ensures Streamed(pipes, csi, link, k) ==> pipes[k.0].maps[k.1].dstCsi == CsiPort(platform)
  {
  }

  /** A stream start on a parsed platform asks for an output that cannot be started exactly if the platform
      gives its port to a deserialiser without lanes. */
  lemma ParsedStartMisses(pipes: seq<Pipe>, csi: seq<CsiConfig>, platform: PlatformData, link: nat)
    requires Parsed(pipes, csi, platform)
    ensures StartMisses(pipes, csi, {}, link) <==> link < |platform.sensorDt| && platform.deserLanes == 0
  {
    PortStreamed(pipes, csi, platform, link, (link, 0));
    assert link < |platform.sensorDt| && platform.deserLanes == 0 ==> Missing(pipes, csi, {}, link, (link, 0));
    forall k: MapId | Missing(pipes, csi, {}, link, k) ensures link < |platform.sensorDt| && platform.deserLanes == 0 {
      PortStreamed(pipes, csi, platform, link, k);
    }
  }

  const PORT_MAPS: set<MapId> := {(0, 0), (0, 1), (0, 2)}

  // A deserialiser for one port on output 0, enabled, on a bus that works.
  method EnabledChip(platform: PlatformData) returns (d: Deserializer)
    requires |platform.sensorDt| == 1 && CsiPort(platform) == 0 && platform.deserLanes <= 4
    ensures fresh(d) && d.Valid() && d.Counted() && d.up && d.Reliable() && d.held == {}
    ensures Parsed(d.pipes, d.csi, platform)
    ensures forall k: MapId :: Streamed(d.pipes, d.csi, 0, k) <==> k in PORT_MAPS
  {
    var common := new Common();
    var ret := common.ParsePlatform(platform);
    d := new Deserializer(_ => true, seq(0x1_0000, _ => ZERO), common.pipes, common.csi);
    ret := d.Enable();
    forall k: MapId ensures Streamed(d.pipes, d.csi, 0, k) <==> k in PORT_MAPS {
      PortStreamed(d.pipes, d.csi, platform, 0, k);
    }
  }

  /** A platform without lanes: a successful stream start flags all three maps and counts none. */
  method StreamWithoutLanes() returns (d: Deserializer)
    ensures fresh(d) && d.Valid() && Parsed(d.pipes, d.csi, PlatformData([0x1E], 0, 0))
    ensures d.held == PORT_MAPS && d.usecount[0] == 0 && !d.Counted()
  {
    d := EnabledChip(PlatformData([0x1E], 0, 0));
    ParsedStartMisses(d.pipes, d.csi, PlatformData([0x1E], 0, 0), 0);
    var ret, missed := d.SetStream(NUM_CSI, 0, true);
    assert ret == 0 && missed;
    assert !Startable(d.csi[0]);
  }

  predicate OnePort(pipes: seq<Pipe>, csi: seq<CsiConfig>) {
    Parsed(pipes, csi, PlatformData([0x1E], 0, 4))
  }

  lemma OnePortStreamed(pipes: seq<Pipe>, csi: seq<CsiConfig>)
    requires OnePort(pipes, csi)
    ensures forall k: MapId :: Streamed(pipes, csi, 0, k) <==> k in PORT_MAPS
  {
    forall k: MapId ensures Streamed(pipes, csi, 0, k) <==> k in PORT_MAPS {
      PortStreamed(pipes, csi, PlatformData([0x1E], 0, 4), 0, k);
    }
  }

  method StartedPort() returns (d: Deserializer)
    ensures fresh(d) && d.Valid() && OnePort(d.pipes, d.csi) && d.held == PORT_MAPS && d.usecount[0] > 0
  {
    d := EnabledChip(PlatformData([0x1E], 0, 4));
    ParsedStartMisses(d.pipes, d.csi, PlatformData([0x1E], 0, 4), 0);
    var ret, missed := d.SetStream(NUM_CSI, 0, true);
    assert d.held == PORT_MAPS;
    OwnersSome(d.held, d.pipes, (0, 0));
  }

  // A stop without a working bus clears the flags, and the count stays.
  method StopInVain(d: Deserializer)
    requires d.Valid() && OnePort(d.pipes, d.csi) && d.held == PORT_MAPS && d.usecount[0] > 0
    modifies d
    ensures d.Valid() && d.held == {} && d.usecount[0] > 0
  {
    d.bus := _ => false;
    OnePortStreamed(d.pipes, d.csi);
    var ret, missed := d.SetStream(NUM_CSI, 0, false);
    assert d.held == {};
  }

  // Nor does a chip enable on a working bus take it away, though it switches the PHY off.
  method EnableAgain(d: Deserializer)
    requires d.Valid() && OnePort(d.pipes, d.csi) && d.held == {} && d.usecount[0] > 0
    modifies d
    ensures d.Valid() && d.held == {} && d.usecount[0] > 0 && !PhyOn(d.regs, 0)
  {
    d.bus := _ => true;
    ExcessWithoutFlags(d.pipes, d.usecount);
    var ret := d.Enable();
    assert ret == Ok;
  }

  /** A stream stop on a bus that has gone away clears the flags and leaves a count. A chip enable that succeeds
      later leaves it too, with the PHY off, and the stream start after that finds a user and leaves the PHY off. */
  method LeftoverCountKeepsPhyOff() returns (d: Deserializer, ret: int)
    ensures fresh(d) && d.Valid() && OnePort(d.pipes, d.csi)
    ensures ret == 0 && d.held == PORT_MAPS && d.usecount[0] > 0 && !PhyOn(d.regs, 0)
  {
    d := StartedPort();
    StopInVain(d);
    EnableAgain(d);
    OnePortStreamed(d.pipes, d.csi);
    var missed;
    ret, missed := d.SetStream(NUM_CSI, 0, true);
    assert d.held == PORT_MAPS;
  }

  // ----- Frame descriptors -----

  datatype DescEntry = DescEntry(flags: nat, stream: nat, pixelCode: nat, length: nat, vc: nat, dt: nat)

  // What the subdevice behind a sink pad answers.
  datatype Remote = Unlinked | Failing | Answer(entries: seq<DescEntry>)

  const NUM_PADS: nat := NUM_CSI + NUM_LINKS

  function SerialLinkToPad(link: nat): nat
    requires link < NUM_LINKS
  {
    NUM_CSI + link
  }

  // sink_pad - num_csi_links in 32 bits, kept in an 8-bit vc.
  function VcOfPad(sinkPad: nat): nat {
    (sinkPad + 0x1_0000_0000 - NUM_CSI) % 0x1_0000_0000 % 0x100
  }

  lemma VcOfLink(link: nat)
    requires link < NUM_LINKS
    ensures VcOfPad(SerialLinkToPad(link)) == link
  {
  }

  function StreamEntry(entries: seq<DescEntry>, stream: nat): (e: seq<DescEntry>)
    ensures e == [] || (|e| == 1 && e[0] in entries && e[0].stream == stream)
    ensures e == [] <==> forall x | x in entries :: x.stream != stream
  {
    if entries == [] then []
    else if entries[0].stream == stream then [entries[0]]
    else StreamEntry(entries[1..], stream)
  }

  // What a route contributes: nothing unless it is active, feeds the pad and has a linked sink pad, and then
  // the first entry of the remote for its stream, renumbered and with the link's number as VC.
  function RouteEntry(r: StreamRoute, pad: nat, remotes: seq<Remote>): seq<DescEntry> {
    if r.active && r.sourcePad == pad && r.sinkPad < |remotes| && remotes[r.sinkPad].Answer?
      && StreamEntry(remotes[r.sinkPad].entries, r.sinkStream) != [] then
      [StreamEntry(remotes[r.sinkPad].entries, r.sinkStream)[0].(stream := r.sourceStream, vc := VcOfPad(r.sinkPad))]
    else []
  }

  function DescOf(routes: seq<StreamRoute>, pad: nat, remotes: seq<Remote>): (desc: seq<DescEntry>)
    ensures |desc| <= |routes|
    ensures forall e | e in desc :: exists r | r in routes :: e in RouteEntry(r, pad, remotes)
  {
    if routes == [] then []
    else DescOf(routes[..|routes| - 1], pad, remotes) + RouteEntry(routes[|routes| - 1], pad, remotes)
  }

  // A route that makes the descriptor fail: a missing pad, a failing remote, or a stream it does not list.
  predicate Undescribable(r: StreamRoute, remotes: seq<Remote>) {
    || r.sinkPad >= |remotes| || remotes[r.sinkPad] == Failing
    || (remotes[r.sinkPad].Answer? && forall x | x in remotes[r.sinkPad].entries :: x.stream != r.sinkStream)
  }

  /** What a route contributes describes the remote's entry for its sink stream, under the route's source stream
      and with the link as VC (an output's pad wraps around): everything else is as the remote says. */
  lemma EntryDescribes(r: StreamRoute, pad: nat, remotes: seq<Remote>, e: DescEntry)
    requires |remotes| == NUM_PADS && e in RouteEntry(r, pad, remotes)
    ensures r.active && r.sourcePad == pad && r.sinkPad < NUM_PADS && remotes[r.sinkPad].Answer?
    ensures e.stream == r.sourceStream && e.vc == if r.sinkPad < NUM_CSI then 252 + r.sinkPad else r.sinkPad - NUM_CSI
    ensures exists x :: x in remotes[r.sinkPad].entries && x.stream == r.sinkStream && x.dt == e.dt
                        && x.flags == e.flags && x.pixelCode == e.pixelCode && x.length == e.length
  {
    var x := StreamEntry(remotes[r.sinkPad].entries, r.sinkStream)[0];
    assert x in remotes[r.sinkPad].entries;
  }

  /** The descriptor is what the routes contribute, in their order, and it fails exactly for a missing pad, if
      no route contributes, or if a route of the pad is undescribable. */
  method GetFrameDesc(pad: nat, routes: seq<StreamRoute>, remotes: seq<Remote>) returns (ok: bool, desc: seq<DescEntry>)
    requires |remotes| == NUM_PADS
    ensures ok ==> desc == DescOf(routes, pad, remotes) && |desc| <= |routes|
    ensures ok <==> pad < NUM_PADS && DescOf(routes, pad, remotes) != [] &&
                    forall r | r in routes && r.active && r.sourcePad == pad :: !Undescribable(r, remotes)
  {
    ok, desc := false, [];
    if pad >= NUM_PADS {
      return;
    }
    for i := 0 to |routes|
      invariant (ok <==> desc != []) && desc == DescOf(routes[..i], pad, remotes)
      invariant forall k: nat | k < i && routes[k].active && routes[k].sourcePad == pad ::
        !Undescribable(routes[k], remotes)
    {
      assert routes[..i + 1][..i] == routes[..i];
      if !routes[i].active || routes[i].sourcePad != pad {
        continue;
      }
      var described, entry := DescribeRoute(routes[i], pad, remotes);
      if !described {
        ok := false;
        return;
      }
      if entry != [] {
        desc := desc + entry;
        ok := true;
      }
    }
    assert routes[..|routes|] == routes;
  }

  // One active route of the pad.
  method DescribeRoute(r: StreamRoute, pad: nat, remotes: seq<Remote>) returns (ok: bool, entry: seq<DescEntry>)
    requires |remotes| == NUM_PADS && r.active && r.sourcePad == pad
    ensures ok <==> !Undescribable(r, remotes)
    ensures ok ==> entry == RouteEntry(r, pad, remotes)
  {
    ok, entry := r.sinkPad < NUM_PADS, [];
    if ok {
      match remotes[r.sinkPad] {
        case Unlinked =>
        case Failing =>
          ok := false;
        case Answer(entries) =>
          var source := StreamEntry(entries, r.sinkStream);
          ok := source != [];
          if ok {
            var e := source[0];
            entry := [DescEntry(e.flags, r.sourceStream, e.pixelCode, e.length, VcOfPad(r.sinkPad), e.dt)];
          }
      }
    }
  }

  /** The VC a frame descriptor reports for the sink pad of a port is the VC its streams are carried on. */
  lemma DescribedVcIsCarried(ws: seq<Window>, platform: PlatformData, link: nat, e: DescEntry, r: StreamRoute,
                             pad: nat, remotes: seq<Remote>, dt: nat, csi: nat, vc: nat, outDt: nat)
    requires BroughtUp(ws, platform) && link < |platform.sensorDt|
    requires e in RouteEntry(r, pad, remotes) && r.sinkPad == SerialLinkToPad(link)
    requires Carries(ws, link, dt, csi, vc, outDt)
    ensures e.vc == vc
  {
    VcOfLink(link);
    CarriedExactly(ws, platform, link, dt, csi, vc, outDt);
  }
}
