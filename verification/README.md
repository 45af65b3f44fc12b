# Verified models of the GMSL, AR0830 and D4xx camera drivers

A Dafny 4.11 project about the stateful cores of four kernel drivers: the MAX9296 deserialiser of the `max9x`
stack, the `maxim-serdes` stream, depth, timing, lane and pin code, the AR0830 firmware window loader, and the
firmware update (DFU) session of the D4xx camera. `dafny verify dfyconfig.toml` checks all of it.

| files | what they model |
|---|---|
| `Registers.dfy` | eight-bit registers as bits, bit fields, 16-bit register files |
| `Max9296Layout.dfy`, `Max9xModel.dfy`, `PhySafety.dfy`, `Max9296.dfy` | register layout and the decoder that says what the chip routes; ownership of CSI outputs; the class `Deserializer` with every register write able to fail |
| `SerdesPdata.dfy` | platform data parsed into the driver's tables, bring-up, frame descriptors |
| `LinkMux.dfy` | select and isolate of the two serial links, as interleaved steps and as poll loops |
| `StreamRoutes.dfy`, `StreamMasks.dfy`, `StreamTransaction.dfy` | route tables; stream masks along them; enabling across sources with roll-back |
| `Bpp.dfy`, `TpgTimings.dfy` | pixel depths that may share a link; test-pattern timings and their registers |
| `LaneMaps.dfy`, `PinDecoder.dfy`, `PinConfig.dfy` | lane maps completed to permutations and packed; what the pin registers say bit by bit; the recursive pin configuration |
| `Ar0830Firmware.dfy` | the record parser, an encoder it inverts, and the wrapping register window |
| `DfuFlag.dfy`, `DfuExclusion.dfy`, `DfuProtocol.dfy`, `DfuQueries.dfy`, `DfuSession.dfy` | mutual exclusion of video and firmware update; what a download must look like on the bus; which reads make a status; the class `Camera` down to single bus transfers |

How the source is represented:

- A register file is a sequence of 65536 bytes and a byte is its eight bits. `regmap_update_bits` is one
  transaction, `Put`; it either happens or fails and then leaves the register alone. Whether each transaction
  succeeds comes from an oracle, `bus`, so a theorem about a method holds for every pattern of failures; `faults`
  counts the failures, and a clause "unless a write fails" is about calls that leave it as it was.
- `csi_link->usecount` is the field `usecount`; the flags `map[].is_csi_enabled` are the field `held`, the set of
  flagged (pipe, map) pairs. `Windows(regs)` is everything that decides the routing of the four pipes.
- 64-bit stream masks are sets of stream numbers, 32-bit depth masks are sequences of 32 bits. Sums and products
  that the source takes in 32 bits are wrapped where that can matter.
- Contracts say what happens on failure and also when failure is ruled out: a routing call fails only after a
  failed write or for a pipe that is not `Routable`; a firmware load stops only at the transfer that failed; a
  poll loop answers what its first poll that is not busy gets; a firmware write is refused only if the log holds a
  `Cause`, which is an event such as a failed transfer or a bad status.
- Bus transfers of the camera are log events with register and bytes, reads and failures included. A `Status` is an
  event only if the reads before it brought it (`AllRead`).

Results worth knowing before reading the table:

- **Usecounts.** Failures inside routing and disable-link keep counts and flags in step. Stream on/off keeps them in
  step exactly if no output operation failed, because `max9x_des_s_csi_link` stores the flag either way; unless a
  register write fails, that is exactly if no start meets an output that is disabled, without lanes or below 100 MHz.
- **Chip enable.** It does not reset the counts: each keeps what it exceeded its flags by, so all are 0 if and only if
  none did. `LeftoverCountKeepsPhyOff` runs into this from a parsed platform: a stop on a dead bus leaves a count, the
  chip enable switches the PHY off, and the next stream start takes the output for running. That is the only way:
  `SetStream` leaves the PHY of an output with users off exactly if it had users before and its PHY was off.
- **Exclusion of video and firmware update.** The opens check and then count without a lock, and a release counts and
  then resets the flag without one. Exclusion holds over a run if and only if no step is an overtaken video open, or a
  firmware open or start of sending beside an open video handle. It holds whenever no firmware open overlaps another
  open or a release; `OverlappingOpensLoseExclusion`, `SecondFileLosesExclusion` and `LateReleaseLosesExclusion` are
  runs that lose it, the last one without overlapping opens.
- **DFU release.** The test that would set up video again after a finished update can never be true, since the flag
  has just been reset (`ReleaseFile` always returns false). An image whose length is a multiple of 1024 never ends the
  session: download-complete follows only a short block.
- **Stream masks.** Updates keep the ends of all routes in agreement if and only if the routes are one to one.
- **Deisolate.** Any client may end the isolation of another's link (`DeisolateIsNotOwned`).
- **Firmware window.** Addresses follow a ring of 0x2000 bytes exactly until a transfer runs past its end.
- **Pin configuration.** A get returns the argument of the set for exactly the parameters and arguments listed in
  `ReturnedExactly`; a flag that was set to 0 reads back as an error. What a set makes of a pin is said by `Configured`
  over a decoder of the registers that does not know the driver's table.
- **Routing table entries.** The three entries of a port differ exactly if the sensor's data type modulo 64 is neither
  0 nor 1.

## Model

| member | source | states |
|---|---|---|
| Registers.GetPut | drivers/media/i2c/maxim-serdes/max_serdes.h:28-29 | a field written reads back as the value cut to the field's width |
| Registers.GetPutOther | drivers/media/i2c/maxim-serdes/max_serdes.h:28-29 | writing one field keeps every disjoint field of the register |
| Registers.PutCommutes | drivers/media/i2c/maxim-serdes/max_serdes.h:28-29 | updates of disjoint fields commute |
| Max9296Layout.WriteTable | drivers/media/i2c/max9x/max9296.h:96-120 | although pipes and outputs share one address range, a write into one pipe's table changes that byte of that pipe's window and no other window |
| Max9296Layout.WriteHigh | drivers/media/i2c/max9x/max9296.h:85-117 | the same for the high VC bytes of the maps |
| Max9296Layout.WriteOutside | drivers/media/i2c/max9x/max9296.h:77-124 | writes to lane counts, deskew, double loading, PHY and DPLL registers change no pipe's routing |
| Max9xModel.MaskEnables | drivers/media/i2c/max9x/max9296.c:393-414 | the two halves of GENMASK(num_maps - 1, 0) enable exactly the first num_maps of sixteen maps, 0 and 16 included |
| Max9xModel.MapDecodes | drivers/media/i2c/max9x/max9296.c:416-448 | the four writes of a map decode to exactly that map, cut to the fields |
| Max9xModel.OtherMapKept | drivers/media/i2c/max9x/max9296.c:416-448 | however many of the four writes took effect, all other maps of the pipe decode as before, though four share a register |
| Max9xModel.FlagInStep | drivers/media/i2c/max9x/max9296.c:621-637 | a flag and the count of its output that move together keep every count equal to the number of flagged maps |
| PhySafety.OtherWriteIsSafe | drivers/media/i2c/max9x/max9296.h:77-124 | a write to a register that is not a PHY control leaves every PHY and DPLL as it was, and is a safe write |
| PhySafety.FrequencyIsSafe | drivers/media/i2c/max9x/max9296.c:123-137 | rewriting the DPLL frequency of an output without users is safe: its PHY is off |
| PhySafety.DpllIsSafe | drivers/media/i2c/max9x/max9296.c:111-121 | starting a DPLL, or stopping one whose PHY is off, is safe and touches no other output |
| PhySafety.PhyIsSafe | drivers/media/i2c/max9x/max9296.c:86-96 | switching a PHY off, or on once its DPLL runs inside the call that brings it up, is safe and touches no other output |
| Max9296.Deserializer.Write | drivers/media/i2c/max9x/max9296.c:86-96 | a failed write changes nothing; every successful one after chip enable is logged and had to be safe: no PHY on without DPLL and user, no frequency change under a running PHY |
| Max9296.Deserializer.SetCsiLinkEnabled | drivers/media/i2c/max9x/max9296.c:499-559 | first user brings the output up with the DPLL at the configured rate and the configured deskew, last user takes PHY and DPLL down; the count moves by one exactly on success; unless a write fails it succeeds exactly for a disable or an output that can be started; PHYs on have users and a running DPLL whatever fails, and with no failed write a PHY is on exactly if its count is positive; whatever failed before, an output that gets its first user has its PHY on, and an enable leaves the PHY of a used output alone; without a working bus no output starts or stops |
| Max9296.Deserializer.SetVideoPipeMapsEnabled | drivers/media/i2c/max9x/max9296.c:393-414 | on success exactly the first maps are enabled, and only this pipe's table changes in any case |
| Max9296.Deserializer.SetVideoPipeMap | drivers/media/i2c/max9x/max9296.c:416-448 | all four writes of the map on success, a proper prefix of them on failure |
| Max9296.Deserializer.SetCsiDoubleLoadingMode | drivers/media/i2c/max9x/max9296.c:463-497 | succeeds only for 0, 10 and 12 bits, always so without failed writes; sets exactly the bit of that depth, and changes no routing and no other output's mode |
| Max9296.Deserializer.RoutePipe | drivers/media/i2c/max9x/max9296.c:602-641 | a routed pipe decodes to its maps, enable count, stream and enable bit; auto-started outputs of all its maps are claimed; every output it feeds is in its double loading mode; all other pipes decode, and all other outputs double, as before |
| Max9296.Deserializer.SetSerialLinkRouting | drivers/media/i2c/max9x/max9296.c:597-645 | on success every enabled pipe of the link decodes to exactly its configuration; every output it feeds is in the double loading mode of the last pipe of the link that feeds it; every other pipe's decoded table is unchanged, also on failure; counts stay in step; it fails only after a failed write or for a pipe that is not routable |
| Max9296.Deserializer.ReleaseOutput | drivers/media/i2c/max9x/max9296.c:814-821 | a flag is cleared exactly if its output was given up |
| Max9296.Deserializer.DisableSerialLink | drivers/media/i2c/max9x/max9296.c:790-825 | on success no pipe of the link routes and no map of it is flagged; other pipes are unchanged; counts stay in step; it fails only after a failed write |
| Max9296.Deserializer.ConfigureCsiDphy | drivers/media/i2c/max9x/max9296.c:231-323 | on success every PHY and DPLL is off, the one bit of the mode register is set that says which pairs of PHYs have four lanes, and lane map and lane count of every output read back; unless a write fails it succeeds exactly if no controller has more than four lanes |
| Max9296.Deserializer.Enable | drivers/media/i2c/max9x/max9296.c:850-870 | after success no flag is set, all PHYs and DPLLs are off and no pipe of an existing link routes; each count is what it exceeded its flagged maps by before, so all are 0 if and only if none did; unless a write fails it succeeds exactly if the lanes fit |
| Max9296.Deserializer.StreamMap | drivers/media/i2c/max9x/serdes.c:1341-1365 | the flag takes the new value whether or not the output followed; a failed operation moves flags and count apart by one; unless a write fails it fails exactly for the start of an output that cannot be started |
| Max9296.Deserializer.DesSCsiLink | drivers/media/i2c/max9x/serdes.c:1311-1369 | exactly the maps of the link whose output is not auto-started change flag; counts stay in step if and only if no output operation failed; unless a write fails one fails exactly if a start meets an unflagged map whose output cannot be started |
| Max9296.Deserializer.SetStream | drivers/media/i2c/max9x/serdes.c:1416-1446 | refuses pads that are not a link's, and answers what the remote answers on the others; outputs start before the remote and stop only after it stopped; a remote that fails to stop leaves everything as it was; the same exact condition for counts and flags to stay in step; whatever failed before, a start leaves the PHY of an output with users off if and only if the output had users before and its PHY was off |
| Max9296.Deserializer.Run | drivers/media/i2c/max9x/serdes.c:1311-1369 | over any sequence of routing, disable-link, chip enable and stream on/off with any failures: every logged write was safe; counts equal flags after every operation exactly if no output operation failed, and unless a write fails exactly if no stream start is on a link with an output that cannot be started; without failed writes a PHY is on exactly if its count is positive; whatever failed, every output with users has its clock and deskew as configured |
| SerdesPdata.ParseSerdesPdata | drivers/media/i2c/max9x/serdes.c:335-454 | a link and a pipe a port, and a pipe's three maps: frame start, frame end and the sensor's type from VC 0 to the port's VC on the platform's output, in 16 bits |
| SerdesPdata.Common.ParseSerialLink | drivers/media/i2c/max9x/serdes.c:2333-2364 | enables exactly the named link, or refuses a link the chip does not have |
| SerdesPdata.Common.ParseVideoPipe | drivers/media/i2c/max9x/serdes.c:2366-2446 | accepted exactly for an existing link and pipe and at most sixteen maps, and then the pipe holds the given maps in order and no other pipe changes |
| SerdesPdata.Common.ParseCsiLink | drivers/media/i2c/max9x/serdes.c:2448-2482 | the output takes its lanes, rate and start mode, the deskew width only with automatic deskew; a missing output is refused |
| SerdesPdata.Common.ParsePlatform | drivers/media/i2c/max9x/serdes.c:2299-2331 | succeeds exactly for at most two ports on an existing output, and leaves exactly their pipes and that output configured |
| SerdesPdata.CarriedExactly | drivers/media/i2c/max9x/serdes.c:369-415 | end to end, the registers carry exactly each port's frame start, frame end and sensor type, unchanged, on the VC with the port's number, to the platform's output |
| SerdesPdata.RoutingIsInjective | drivers/media/i2c/max9x/serdes.c:369-415 | two different (stream select, data type) streams never leave on the same output, VC and data type |
| SerdesPdata.EntriesDistinct | drivers/media/i2c/max9x/serdes.c:369-415 | a port's three table entries are different exactly if the sensor's type modulo 64 is neither 0 nor 1 |
| SerdesPdata.BringUp | drivers/media/i2c/max9x/serdes.c:2299-2331 | parse, enable and route: on success the registers are as CarriedExactly needs them, if the unused pipes were off or had no map enabled; unless a write fails it succeeds exactly with at most four lanes |
| SerdesPdata.ParsedStartMisses | drivers/media/i2c/max9x/serdes.c:421-450 | on a parsed platform a stream start of a port asks for an output that cannot be started exactly if the deserialiser is given no lanes |
| SerdesPdata.StreamWithoutLanes | drivers/media/i2c/max9x/serdes.c:1348-1353 | from such a platform, after a chip enable and a successful stream start, three maps are flagged and none is counted |
| SerdesPdata.LeftoverCountKeepsPhyOff | drivers/media/i2c/max9x/serdes.c:1359-1364 | a run from a parsed platform that meets the condition of SetStream: a stream stop on a dead bus leaves a count, the next successful chip enable leaves it too and switches the PHY off, and the stream start after that succeeds with the PHY off |
| SerdesPdata.GetFrameDesc | drivers/media/i2c/max9x/serdes.c:1614-1688 | the descriptor is, in route order, one entry for each active route of the pad with a linked remote, the remote's first entry for its stream with the stream renumbered and the link as VC, so never more entries than routes; it fails exactly for a missing pad, if there is no entry, or if a route of the pad cannot be described |
| SerdesPdata.EntryDescribes | drivers/media/i2c/max9x/serdes.c:1658-1682 | an entry carries the source stream of an active route of the pad, the link as VC (252 more than the number for an output's pad, as the subtraction wraps), and data type, flags, pixel code and length of a remote entry for the sink stream |
| SerdesPdata.DescribedVcIsCarried | drivers/media/i2c/max9x/serdes.c:1673-1682 | the VC of a route's entry is the VC the registers carry that link's streams on |
| LinkMux.IsolatesSeparated | drivers/media/i2c/max9x/serdes.c:2557-2615 | over any interleaving of any clients, two granted isolates have a deisolate between them |
| LinkMux.SelectionExcludes | drivers/media/i2c/max9x/serdes.c:2505-2595 | between a granted select and the next deselect no other link is selected or isolated |
| LinkMux.IsolatedExactly | drivers/media/i2c/max9x/serdes.c:2557-2615 | a link is isolated if and only if its isolate was granted and nobody has deisolated since |
| LinkMux.SelectGrantedExactly | drivers/media/i2c/max9x/serdes.c:2505-2537 | over any trace a select is granted if and only if its number is at most 2 and no granted select of another channel is still without a deselect |
| LinkMux.IsolateGrantedExactly | drivers/media/i2c/max9x/serdes.c:2557-2595 | over any trace an isolate is refused for a link from 2 on, told if its link is isolated, granted if and only if no isolation and no selection of another channel stands, and busy otherwise |
| LinkMux.VainPollsChangeNothing | drivers/media/i2c/max9x/serdes.c:2512-2527 | a poll loop that times out changes nothing: polls and others' actions together lead where the others' actions alone lead |
| LinkMux.DeisolateIsNotOwned | drivers/media/i2c/max9x/serdes.c:2597-2615 | a trace in which link 1's deisolate ends the isolation of link 0 |
| LinkMux.Mux.Select | drivers/media/i2c/max9x/serdes.c:2505-2537 | the answer is that of the first poll that does not find the other link selected, or busy if every one does; what happened is exactly one poll a round and the others' actions, and up to the answer the state is what the others alone make it |
| LinkMux.Mux.Isolate | drivers/media/i2c/max9x/serdes.c:2557-2595 | the same for isolation, with granted, already-isolated and busy each exactly when the first poll that is not busy says so |
| StreamMasks.GetStreamsMasks | drivers/media/i2c/maxim-serdes/max_serdes.c:246-291 | the new masks are the old ones with the streams, and what active routes translate them to on every other pad, added or removed; all else is carried forward |
| StreamMasks.UpdateKeepsAgreement | drivers/media/i2c/maxim-serdes/max_serdes.c:265-286 | with one-to-one routes every update keeps both ends of every route on or off together |
| StreamMasks.RunKeepsAgreement | drivers/media/i2c/maxim-serdes/max_serdes.c:246-291 | so does any sequence of updates on any pads |
| StreamMasks.AgreementKeptExactly | drivers/media/i2c/maxim-serdes/max_serdes.c:265-286 | with sinks and sources on different pads, updates keep both ends of all routes in agreement if and only if the active routes are one to one |
| StreamMasks.UnroutedPadCarriedForward | drivers/media/i2c/maxim-serdes/max_serdes.c:265-286 | a pad no route joins to the updated pad keeps its mask |
| StreamMasks.UndoExactly | drivers/media/i2c/maxim-serdes/max_serdes.c:265-286 | enabling and then disabling restores all masks if and only if nothing the update touches was on |
| StreamMasks.UndoOnAgreement | drivers/media/i2c/maxim-serdes/max_serdes.c:265-286 | where ends agree, undo works if and only if the streams were off on the updated pad |
| StreamMasks.DisjointUpdatesCommute | drivers/media/i2c/maxim-serdes/max_serdes.c:265-286 | updates that touch disjoint streams of every pad commute, in any mix of enable and disable |
| StreamMasks.IndependentUpdatesCommute | drivers/media/i2c/maxim-serdes/max_serdes.c:265-286 | updates of disjoint streams of one pad, or of two pads no route joins, commute |
| StreamTransaction.OppositeChange | drivers/media/i2c/maxim-serdes/max_serdes.c:183-244 | a change that every source allows is undone by the opposite change |
| StreamTransaction.Change.ForJoined | drivers/media/i2c/maxim-serdes/max_serdes.c:197-202 | a sink pad is asked for exactly the streams that an active route, in either direction, joins to an updated stream of the pad |
| StreamTransaction.Sources.MovePads | drivers/media/i2c/maxim-serdes/max_serdes.c:196-219 | stops at the first refusal with exactly the sink pads before it moved |
| StreamTransaction.Sources.MovePadsBack | drivers/media/i2c/maxim-serdes/max_serdes.c:221-244 | if every compensating call succeeds all sources are as before, otherwise each is either as before or moved |
| StreamTransaction.Sources.XlateEnableDisable | drivers/media/i2c/maxim-serdes/max_serdes.c:183-244 | all or nothing: on success, stream by stream, on the sources in range exactly the streams that an active route joins to an updated one are on or off as asked, and all else is as before; on failure with successful compensation all are as before; sources out of range, the one that refused and those after it are never touched; willing sources never make it fail for nothing |
| Bpp.ProcessBpps | drivers/media/i2c/maxim-serdes/max_serdes.c:114-181 | the bit algorithm agrees with the rules over sets: which depth is doubled, and success exactly if all depths are then at most 16 or there is one of at most 24 |
| Bpp.AllowingMoreNeverHurts | drivers/media/i2c/maxim-serdes/max_serdes.c:114-181 | allowing more depths to be doubled never turns success into failure |
| Bpp.DoublingHelpsExactly | drivers/media/i2c/maxim-serdes/max_serdes.c:114-181 | doubling turns failure into success exactly for 10 with 20 and 12 with 24 |
| Bpp.DoubledDepth | drivers/media/i2c/maxim-serdes/max_serdes.c:114-181 | the doubled depth is a permitted one of 8, 10 and 12, was present, and is replaced by its double |
| TpgTimings.FrameConserved | drivers/media/i2c/maxim-serdes/max_serdes.c:329-363 | for any mode that fits 32 bits the frame is conserved by every account and the last active pixel ends vfp lines and hfp pixels before its end |
| TpgTimings.FrameRateWithinHalfFrame | drivers/media/i2c/maxim-serdes/max_serdes.c:344-362 | the rounded frame rate misses the pixel clock by at most half a frame |
| TpgTimings.GetTpgTimings | drivers/media/i2c/maxim-serdes/max_serdes.c:365-393 | without an entry the timings stay as they are; with one they are found exactly for the three supported sizes and rates, and are those of a mode of that size and rate |
| TpgTimings.Sequence3RoundTrip | drivers/media/i2c/maxim-serdes/max_serdes.h:18-21 | three registers read back the value modulo 2^24, so the value itself exactly if it is below that |
| TpgTimings.Sequence2RoundTrip | drivers/media/i2c/maxim-serdes/max_serdes.h:14-16 | two registers read back the value modulo 2^16, so the value itself exactly if it is below that |
| TpgTimings.TimingsReadBack | drivers/media/i2c/maxim-serdes/max9296a.c:909-929 | the eleven timing fields do not disturb each other: they all read back exactly if each is narrow enough |
| TpgTimings.SupportedModesReadBack | drivers/media/i2c/maxim-serdes/max9296a.c:909-929 | every supported mode does |
| LaneMaps.CompleteLanes | drivers/media/i2c/maxim-serdes/max9296a.c:459-470 | distinct data lanes are completed with the lowest unused lane each time to a permutation, and the packed byte decodes to it |
| LaneMaps.PackingDecodes | drivers/media/i2c/maxim-serdes/max9296a.c:459-470 | lane lists packed alike are equal |
| LaneMaps.NibbleSwapIsInvolution | drivers/media/i2c/maxim-serdes/max9296a.c:472-473 | the nibble swap undoes itself |
| LaneMaps.NibbleSwapMovesLanes | drivers/media/i2c/maxim-serdes/max9296a.c:472-473 | it moves lane i to lane i + 2, cyclically |
| LaneMaps.SwappedPermutation | drivers/media/i2c/maxim-serdes/max9296a.c:472-473 | it keeps a permutation a permutation |
| LaneMaps.InitPhyMax9296a | drivers/media/i2c/maxim-serdes/max9296a.c:459-479 | if the update goes through the PHY's register holds the packed permutation, swapped exactly where lanes 0 and 1 sit on the second PHY, and no other register changes; if not, none does |
| LaneMaps.SplitDecodes | drivers/media/i2c/maxim-serdes/max96717.c:1070-1108 | a map split over two shared registers decodes as written and keeps the other PHY's map |
| LaneMaps.SplitsCommute | drivers/media/i2c/maxim-serdes/max96717.c:1070-1108 | the two PHYs can be set up in either order |
| LaneMaps.InitPhyMax96717 | drivers/media/i2c/maxim-serdes/max96717.c:1056-1108 | refuses a third PHY; if both updates go through the PHY's map is the packed permutation; whichever fails, the other PHY's map is kept and a failed second update leaves only the first register changed |
| PinConfig.SetThenGet | drivers/media/i2c/maxim-serdes/max96717.c:506-685 | for every parameter, argument and pin, what was set successfully reads back as ReadsBack says, pull strength quantised and numbers cut to their field |
| PinConfig.SetConfigures | drivers/media/i2c/maxim-serdes/max96717.c:396-504 | read bit by bit, the registers after a set say of the pin what was asked (driving, sending, receiving, level, pull up or down and its strength, drive type, ids, slew) and everything else as before; it succeeds exactly for the parameters a pin has |
| PinConfig.GetAnswers | drivers/media/i2c/maxim-serdes/max96717.c:506-604 | the getter answers what the registers, read bit by bit, say of the pin |
| PinConfig.ListConfigures | drivers/media/i2c/maxim-serdes/max96717.c:687-706 | a list of settable configurations makes of the pin what they make one after the other |
| PinConfig.ListRefused | drivers/media/i2c/maxim-serdes/max96717.c:687-706 | with a configuration the pin does not have, the list is set up to the first of them and ends with its error |
| PinConfig.ArgumentReturnedExactly | drivers/media/i2c/maxim-serdes/max96717.c:506-685 | the getter returns the very argument if and only if it is of the listed form |
| PinConfig.OutputDrives | drivers/media/i2c/maxim-serdes/max96717.c:668-676 | setting a level enables the output and stops the receiver |
| PinConfig.PinsApart | drivers/media/i2c/maxim-serdes/max96717.c:396-504 | no field of one pin overlaps a field of another, the shared slew registers included |
| PinConfig.KeptFieldsKeepAnswers | drivers/media/i2c/maxim-serdes/max96717.c:506-604 | a pin whose fields are kept gives the same answer to every get |
| PinConfig.SetOnePlanned | drivers/media/i2c/maxim-serdes/max96717.c:606-685 | the updates of a set, applied in order, give what the specification of the recursive setter gives |
| PinConfig.ExecutedKeepsOtherPins | drivers/media/i2c/maxim-serdes/max96717.c:606-706 | however many updates of a set or a list went through, every other pin answers every get as before |
| PinConfig.PinControl.ConfPinConfigSetOne | drivers/media/i2c/maxim-serdes/max96717.c:606-685 | the recursion ends, by a rank on parameters; exactly the planned updates are tried in order; either all go through and it ends as planned, or it stops at the first that fails with exactly those before it in the registers; success means the registers say of the pin what was asked and all else as before, refusal is exactly for what the pin does not have, and other pins are as before in any case |
| PinConfig.PinControl.ConfPinConfigSet | drivers/media/i2c/maxim-serdes/max96717.c:687-706 | the same for a list: the registers say of the pin what the configurations up to the first refused one ask, one after the other; no other pin changes, however far it got, and after success the last setting reads back |
| Ar0830Firmware.Loader.WriteFirmwareWindow | drivers/media/i2c/ar0830.c:873-959 | every byte read is in bounds; the transfers are exactly the decoder's output on success, and on an I2C error its proper prefix up to the failed transfer |
| Ar0830Firmware.BlockPayloadsExactly | drivers/media/i2c/ar0830.c:899-949 | what is sent of a block are exactly the payloads of its records in order: the tag is the payload's length, the payload is the end of the five bytes, and the first other tag, the 50th record or the end of the file ends the block |
| Ar0830Firmware.EncodeThenDecode | drivers/media/i2c/ar0830.c:899-949 | round trip: of an encoded file, whatever its first block holds, exactly the encoded payloads are sent, block after block and in order |
| Ar0830Firmware.WritesStayNearWindow | drivers/media/i2c/ar0830.c:906-954 | every write starts in [0x8000, 0x9fff], is not empty and ends at most three bytes past the window |
| Ar0830Firmware.RingExactly | drivers/media/i2c/ar0830.c:940-954 | addresses are 0x8000 plus the bytes so far modulo 0x2000 up to a point if and only if no payload before it straddled the window's end |
| Ar0830Firmware.UploadFollowsRingExactly | drivers/media/i2c/ar0830.c:940-954 | of any upload, the addresses up to a transfer are 0x8000 plus the bytes before modulo 0x2000 if and only if no earlier transfer ran past the window's end |
| Ar0830Firmware.FoursNeverStraddle | drivers/media/i2c/ar0830.c:906-954 | payloads of four bytes stay aligned and never straddle the window's end |
| Ar0830Firmware.UploadOfFours | drivers/media/i2c/ar0830.c:906-954 | if every record carries four bytes transfer k goes to 0x8000 plus 4k modulo 0x2000 |
| DfuExclusion.StepKeepsInvariant | drivers/media/i2c/d4xx.c:4758-4893 | every step of an open, close, write or release, with any failure, keeps the invariant, as long as no firmware open overlaps another open or a release; video opens may overlap each other, and releases and video opens too |
| DfuExclusion.NoFirmwareWhileVideoIsOpen | drivers/media/i2c/d4xx.c:1525-1543 | over every interleaving in which no firmware open overlaps another open or a release, recovery, open, in progress and done mean no video handle, and so does being able to send a block |
| DfuExclusion.StepLosesExclusionExactly | drivers/media/i2c/d4xx.c:4758-4893 | from any exclusive state a step loses exclusion if and only if it is a video open that commits while the update is under way, or a firmware open or a write's start of sending that comes while a video handle is open |
| DfuExclusion.RunExclusiveExactly | drivers/media/i2c/d4xx.c:4758-4893 | over every interleaving of the single statements of any number of opens, closes and releases with the steps of writes, with any failures, exclusion holds throughout if and only if no step is one of these |
| DfuExclusion.OverlappingOpensLoseExclusion | drivers/media/i2c/d4xx.c:4847-4864 | a concrete run of overlapping opens in which a block can be sent with a video handle open |
| DfuExclusion.SecondFileLosesExclusion | drivers/media/i2c/d4xx.c:4868-4875 | a concrete run of two overlapping firmware opens: releasing one file during the other's write lets video open while blocks are being sent |
| DfuExclusion.LateReleaseLosesExclusion | drivers/media/i2c/d4xx.c:4873-4875 | a concrete run in which no open overlaps another: the file is opened again and written between the two statements of a release, the late reset makes the flag idle, and video opens while blocks are being sent |
| DfuExclusion.FailedOpenKeepsVideoOut | drivers/media/i2c/d4xx.c:4852-4860 | as long as no firmware open overlaps another open or a release, an update file that could not be opened for lack of memory keeps video out for good, in recovery or not |
| DfuProtocol.EveryBlockAcknowledgedBeforeTheNext | drivers/media/i2c/d4xx.c:4789-4824 | in a legal log any two blocks of a session have an acknowledgement between them, and the first is a full one |
| DfuProtocol.ShortBlockEnds | drivers/media/i2c/d4xx.c:4808-4823 | a finished log contains one short block, nothing is sent after it, and its acknowledgement, the one download-complete and the manifest answer follow in order |
| DfuProtocol.CompleteFollowsAnAckedShortBlock | drivers/media/i2c/d4xx.c:4811-4819 | download-complete is sent only after an acknowledged short block and once for it |
| DfuProtocol.DetachFollowsSwitch | drivers/media/i2c/d4xx.c:4622-4637 | a detach is the first of its session; before it come exactly the one switch command with its bytes and the one word that executes it, or neither in a session opened in recovery |
| DfuProtocol.BlockFollowsSwitch | drivers/media/i2c/d4xx.c:4767-4804 | before every block of a session come its one detach and the idle answer to it, and before the detach the switch as above |
| DfuQueries.QueryEffect | drivers/media/i2c/d4xx.c:4639-4686 | a query for the status counts for the session as its answer does; the answer was read, after polls that ended well and the length 6; a bad one is a cause |
| DfuSession.Camera.PollCommand | drivers/media/i2c/d4xx.c:4648-4659 | polls until the command is done or has failed, no shorter and no longer |
| DfuSession.Camera.ReadStatus | drivers/media/i2c/d4xx.c:4647-4674 | asks, polls, reads length and answer; the status is the answer that was read, and it fails only at a read that stops it |
| DfuSession.Camera.PollBoot | drivers/media/i2c/d4xx.c:4631-4636 | reads until one goes through, 101 times at most |
| DfuSession.Camera.WaitForCommand | drivers/media/i2c/d4xx.c:4600-4620 | polls until zero, one or two, 100 times at most, and fails only for one and two |
| DfuSession.Camera.GetDeviceInfo | drivers/media/i2c/d4xx.c:4687-4707 | success means the version record of the expected length was asked for and read |
| DfuSession.Camera.SwitchToDfu | drivers/media/i2c/d4xx.c:4622-4637 | success means the switch command and its execution went out and the device answered after them |
| DfuSession.Camera.WaitForStatus | drivers/media/i2c/d4xx.c:4639-4686 | succeeds exactly if the last answer is good and in the awaited state; every answer before said busy, and only while downloading; it fails only for a cause |
| DfuSession.Camera.SendBlock | drivers/media/i2c/d4xx.c:4799-4804 | needs an acknowledged predecessor, an exclusion state in which sending is allowed and 1 to 1024 bytes; success means exactly these bytes went out and were acknowledged |
| DfuSession.Camera.SendFullBlocks | drivers/media/i2c/d4xx.c:4790-4806 | on success exactly the full blocks of the buffer went out, in order; on failure a prefix of the buffer; never more than user space could supply |
| DfuSession.Camera.WriteFile | drivers/media/i2c/d4xx.c:4758-4845 | accepted writes send the whole buffer after what was sent before and are done exactly for a length that is no multiple of 1024; refused ones send a prefix and bar all further writes; an idle, done or failed session sends nothing; a refusal has a cause in the log, an unreadable buffer or a session that does not take writes |
| DfuSession.Camera.OpenFile | drivers/media/i2c/d4xx.c:4847-4866 | opens exactly if nothing is open and there is memory; a count taken without memory stays taken; the log tells whether the session begins in recovery |
| DfuSession.Camera.ReleaseFile | drivers/media/i2c/d4xx.c:4868-4893 | recovery stays recovery, all else becomes idle, and video is never set up again |
| DfuSession.Camera.OpenVideo | drivers/media/i2c/d4xx.c:1525-1535 | a video handle opens exactly in the idle state |
| DfuSession.Camera.CloseVideo | drivers/media/i2c/d4xx.c:1536-1543 | takes one video handle off the count and leaves the update file alone |
| DfuSession.Camera.Session | drivers/media/i2c/d4xx.c:4758-4845 | over a whole session the payloads are the accepted buffers in order and a prefix of the refused one; only the last accepted buffer may end in a short block |

## Left out

- Register access: each `regmap_update_bits` is one transaction, so a failed read and a failed write of it are not told apart; sleeps and debug output are not modelled.
- VC width: the high VC fields hold the low three bits of the VC, as the code writes them; VC bits beyond the fields are cut off.
- Max9296.Deserializer.ConfigureCsiDphy: the lane map of an output is an input value; how `max9296_conf_phy_maps` computes it from the PHY maps of the platform is not modelled, nor are the PHY maps themselves.
- Chip bring-up: soft reset, link rates and locking of serial links are hardware waits and not part of this model.
- SerdesPdata.BringUp: pipes that the platform does not use must be off or without an enabled map beforehand, because no code of the driver sees to that; `max9x_create_adapters` and `max9x_remap_serializers`, their retries and the one-shot link setup are not modelled.
- Platform data: allocation failures, board information and the serialiser's and sensor's own platform data are left out.
- SerdesPdata.GetFrameDesc: which error a failing descriptor returns is left out, and so is the limit of eight routes that the routing validation enforces.
- Serialisers: that a link's serialiser sends the stream with its own number (serdes.c:276-277) is not modelled; the link of `RoutingIsInjective` and `CarriedExactly` is the value of the stream-select register.
- Stream changes: the remote subdevice is an oracle that answers any code; frequency changes through V4L2 controls are left out.
- Mux clients: bodies run under the mutex and are single steps; that the callers ever deisolate is not claimed, since one error path of `max9x_remap_serializers` does not.
- Route translation (`Xlate`): a small model of the kernel's route translation, which is not part of this repository; masks are sets, so the 64-bit limit on stream numbers is not modelled.
- Remote sources (`SetStreams`): a model of `v4l2_subdev_enable_streams` and `v4l2_subdev_disable_streams`, which are not part of this repository; it refuses streams that are already on or off, and possibly others.
- Test pattern registers: the multi-register write succeeds as a whole; the polarity bits of PATGEN_0 are left out.
- LaneMaps.InitPhyMax96717: lane counts, the checks of the lane number, polarity and C-PHY settings are left out.
- Pin getter: register reads of the getter do not fail; the pinctrl framework's packing of a configuration is left out.
- Firmware upload: page caching, the header in block 0 and the upload around the window are left out; one transfer a record as in the source, without its delays.
- Interleavings: each statement of an open, close or release is atomic, also `device_open_count++` and `--`, which the source does without a lock, and the tests that the flag is not in recovery together with the assignment after them; a lost update of the count could break exclusion too. A write is its steps under the mutex, so waiting for the mutex and being interrupted there are not modelled; neither is the message buffer that two open files share.
- Camera: its methods run one after another; interleavings are those of DfuExclusion.
- DfuSession.Camera.WaitForStatus: the source polls for as long as the device asks; here the bus answers a script of any finite length and then fails, so a device that never answers is cut off.
- DFU release: the communication check afterwards is left out.
- Sensor drivers, the LT6911 bridges, the D4xx video controls and format tables, `max96724.c` and `max9295.c`: register tables or the same protocol with fewer steps, which would add only easy members.
- Suspend and resume, line faults, GPIO, regulators, sysfs and probe wiring.
