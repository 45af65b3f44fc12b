/** The routing tables of V4L2 subdevices. */
module StreamRoutes {
  // One route, from a stream of a sink pad to a stream of a source pad.
  datatype StreamRoute = StreamRoute(sinkPad: nat, sinkStream: nat, sourcePad: nat, sourceStream: nat, active: bool)
}
