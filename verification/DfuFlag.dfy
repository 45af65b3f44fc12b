/** The driver's state flag for the firmware update file. */
module DfuFlag {
  datatype Flag = Idle | Recovery | Open | InProgress | Done | Error {
    // Opened, and nothing sent yet.
    predicate Fresh() { Open? || Recovery? }

    // A write may send.
    predicate Active() { Fresh() || InProgress? }

    // Video must be kept out.
    predicate Busy() { Active() || Done? }
  }
}
