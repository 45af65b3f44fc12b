/** What a firmware download has to look like on the bus, said without reference to the driver: an automaton
    over the driver's successful writes and the device's status answers, and what every log it accepts obeys.
    States and the six-byte status answer follow USB DFU 1.1, section 6.1.2 and Appendix A. */
module DfuProtocol {

  const DFU_IDLE := 2
  const DNBUSY := 4
  const DNLOAD_IDLE := 5
  const MANIFEST := 7

  const BLOCK_SIZE: nat := 1024
  const BLOCK_REG := 0x4a00
  const COMPLETE_REG := 0x4a04
  const DETACH_REG := 0x500c
  const RESET_REG := 0x5010
  const SWITCH_REG := 0x4900
  const EXECUTE_REG := 0x490c

  type Octet = x: int | 0 <= x < 256

  // bStatus, three bytes of poll timeout, bState, iString.
  type StatusAnswer = a: seq<Octet> | |a| == 6 witness [0, 0, 0, 0, 0, 0]

  // The file is opened, in recovery or not; a write the device took, a read it answered, a transfer that failed;
  // and the device's status, once all of its answer has been read.
  datatype Event =
    | Opened(recovery: bool)
    | Wrote(reg: int, data: seq<Octet>)
    | Got(reg: int, data: seq<Octet>)
    | Fault
    | Status(answer: StatusAnswer)

  type Log = seq<Event>

  predicate Good(e: Event, state: int) {
    e.Status? && e.answer[0] == 0 && e.answer[4] == state
  }

  predicate IsBlock(e: Event) {
    e.Wrote? && e.reg == BLOCK_REG
  }

  predicate IsComplete(e: Event) {
    e == Wrote(COMPLETE_REG, [0, 0])
  }

  // Opening the file and resetting the device both end the session so far.
  predicate EndsSession(e: Event) {
    e.Opened? || e == Wrote(RESET_REG, [0, 0])
  }

  predicate IsSwitch(e: Event) {
    e.Wrote? && (e.reg == SWITCH_REG || e.reg == EXECUTE_REG)
  }

  // The camera command that starts the update firmware: length, magic word, opcode 0x1e with parameter 1.
  predicate IsOrder(e: Event) {
    && e.Wrote? && e.reg == SWITCH_REG && |e.data| == 24
    && e.data[0] == 0x14 && e.data[2] == 0xab && e.data[3] == 0xcd && e.data[4] == 0x1e && e.data[8] == 1
    && forall k: nat | k < 24 && k != 0 && k != 2 && k != 3 && k != 4 && k != 8 :: e.data[k] == 0
  }

  predicate IsExecute(e: Event) {
    e == Wrote(EXECUTE_REG, [1, 0])
  }

  predicate IsDetach(e: Event) {
    e == Wrote(DETACH_REG, [0, 0])
  }

  // A device in recovery runs the update firmware already; any other is switched to it first.
  datatype Host =
    | Off
    | InRecovery
    | Ordered
    | Switched
    | Detaching
    | Ready
    | Outstanding(size: nat)
    | ShortAcked
    | Completed
    | Finished
    | Violated

  function Advance(h: Host, e: Event): Host {
    if h.Violated? then h
    else if e == Opened(true) then InRecovery
    else if EndsSession(e) then Off
    else if IsBlock(e) then
      if h.Ready? && 0 < |e.data| <= BLOCK_SIZE then Outstanding(|e.data|) else Violated
    else if IsComplete(e) then if h.ShortAcked? then Completed else Violated
    else if e.Wrote? then Prepared(h, e)
    else Answered(h, e)
  }

  // The writes that lead to the first block; all others are free.
  function Prepared(h: Host, e: Event): Host
    requires e.Wrote?
  {
    if IsOrder(e) && h.Off? then Ordered
    else if IsExecute(e) && h.Ordered? then Switched
    else if IsDetach(e) && (h.InRecovery? || h.Switched?) then Detaching
    else if IsSwitch(e) || e.reg == DETACH_REG || e.reg == COMPLETE_REG || e.reg == RESET_REG then Violated
    else h
  }

  function Answered(h: Host, e: Event): Host {
    match h
    case Detaching => if Good(e, DFU_IDLE) then Ready else h
    case Outstanding(size) =>
      if !Good(e, DNLOAD_IDLE) then h else if size == BLOCK_SIZE then Ready else ShortAcked
    case Completed => if Good(e, MANIFEST) then Finished else h
    case _ => h
  }

  function Scan(log: Log): Host {
    if log == [] then Off else Advance(Scan(log[..|log| - 1]), log[|log| - 1])
  }

  // The firmware bytes written since the file was last opened.
  function Payload(log: Log): seq<Octet> {
    if log == [] || log[|log| - 1].Opened? then []
    else Payload(log[..|log| - 1]) + (if IsBlock(log[|log| - 1]) then log[|log| - 1].data else [])
  }

  lemma Appended(log: Log, e: Event)
    ensures Scan(log + [e]) == Advance(Scan(log), e)
    ensures Payload(log + [e]) ==
      if e.Opened? then [] else if IsBlock(e) then Payload(log) + e.data else Payload(log)
  {
  }

  predicate Legal(log: Log) {
    !Scan(log).Violated?
  }

  /** A log is legal only if everything before was. */
  lemma {:induction false} PrefixLegal(log: Log, n: nat)
    requires Legal(log) && n <= |log|
    ensures Legal(log[..n])
    decreases |log|
  {
    if n < |log| {
      assert log[..|log| - 1][..n] == log[..n];
      PrefixLegal(log[..|log| - 1], n);
    } else {
      assert log[..n] == log;
    }
  }

  lemma ScanStep(log: Log, n: nat)
    requires n < |log|
    ensures Scan(log[..n + 1]) == Advance(Scan(log[..n]), log[n])
  {
    assert log[..n + 1] == log[..n] + [log[n]];
    Appended(log[..n], log[n]);
  }

  // Nothing from `from` up to, not including, `to` ends the session.
  predicate InSession(log: Log, from: nat, to: nat)
    requires to <= |log|
  {
    forall k :: from <= k < to ==> !EndsSession(log[k])
  }

  // What the automaton's state says about the log: which block is the last one and what has answered it.
  predicate LastBlockAt(log: Log, i: nat) {
    && i < |log| && IsBlock(log[i]) && 0 < |log[i].data| <= BLOCK_SIZE
    && InSession(log, i, |log|)
    && (forall k :: i < k < |log| ==> !IsBlock(log[k]))
  }

  predicate AnsweredAt(log: Log, i: nat, state: int, k: nat) {
    i < k < |log| && Good(log[k], state)
  }

  ghost predicate Acknowledged(log: Log, i: nat) {
    exists k :: AnsweredAt(log, i, DNLOAD_IDLE, k)
  }

  /** A legal log that has sent a short block and had it acknowledged, or has gone further, contains that
      block, nothing is sent after it, and the acknowledgement, the single download-complete and the manifest
      answer follow in this order. */
  lemma {:induction false} ShortBlockEnds(log: Log) returns (block: nat, ack: nat, complete: nat, manifest: nat)
    requires Scan(log).ShortAcked? || Scan(log).Completed? || Scan(log).Finished?
    ensures LastBlockAt(log, block) && |log[block].data| < BLOCK_SIZE
    ensures AnsweredAt(log, block, DNLOAD_IDLE, ack)
    ensures Scan(log).ShortAcked? ==> forall k :: block < k < |log| ==> !IsComplete(log[k])
    ensures !Scan(log).ShortAcked? ==> ack < complete < |log| && IsComplete(log[complete])
    ensures !Scan(log).ShortAcked? ==> forall k :: block < k < |log| && IsComplete(log[k]) ==> k == complete
    ensures Scan(log).Finished? ==> AnsweredAt(log, complete, MANIFEST, manifest)
  {
    var last := |log| - 1;
    var before := log[..last];
    block, ack, complete, manifest := 0, 0, 0, 0;
    if Scan(before).Outstanding? {
      block := Unanswered(before);
      ack := last;
    } else {
      block, ack, complete, manifest := ShortBlockEnds(before);
      if IsComplete(log[last]) {
        complete := last;
      }
      if Scan(before).Completed? && Good(log[last], MANIFEST) {
        manifest := last;
      }
    }
  }

  /** While a block is outstanding it is the last thing sent and nothing has acknowledged it. */
  lemma {:induction false} Unanswered(log: Log) returns (block: nat)
    requires Scan(log).Outstanding?
    ensures LastBlockAt(log, block) && |log[block].data| == Scan(log).size
    ensures forall k :: block < k < |log| ==> !Good(log[k], DNLOAD_IDLE) && !IsComplete(log[k])
  {
    var last := |log| - 1;
    if IsBlock(log[last]) {
      block := last;
    } else {
      block := Unanswered(log[..last]);
    }
  }

  /** Stop and wait: between any two blocks of one session the first was acknowledged, and it was a full one. */
  lemma EveryBlockAcknowledgedBeforeTheNext(log: Log, i: nat, j: nat)
    requires Legal(log) && i < j < |log| && IsBlock(log[i]) && IsBlock(log[j]) && InSession(log, i, j)
    ensures |log[i].data| == BLOCK_SIZE
    ensures Acknowledged(log[..j], i)
  {
    PrefixLegal(log, j + 1);
    ScanStep(log, j);
    var before := log[..j];
    PrefixLegal(log, j);
    assert before[i] == log[i];
    assert before[..i + 1] == log[..i + 1] && before[..i] == log[..i];
    ScanStep(before, i);
    PrefixLegal(before, i + 1);
    AfterBlock(before, i, j);
    assert before[..j] == before;
  }

  predicate Ending(h: Host) {
    h.ShortAcked? || h.Completed? || h.Finished?
  }

  lemma NextAfterBlock(h: Host, e: Event)
    requires !EndsSession(e) && !Advance(h, e).Violated?
    ensures h.Outstanding? ==> Advance(h, e) == h || Good(e, DNLOAD_IDLE)
    ensures h.Outstanding? && h.size != BLOCK_SIZE ==> Advance(h, e) == h || Advance(h, e).ShortAcked?
    ensures Ending(h) ==> Ending(Advance(h, e))
  {
  }

  lemma AcknowledgedStill(log: Log, i: nat, n: nat)
    requires i < n <= |log| && Acknowledged(log[..n - 1], i)
    ensures Acknowledged(log[..n], i)
  {
    var k :| AnsweredAt(log[..n - 1], i, DNLOAD_IDLE, k);
    assert AnsweredAt(log[..n], i, DNLOAD_IDLE, k);
  }

  // Where a session can be, `n` events on from the start, once a block went out at `i`.
  ghost predicate PastBlock(log: Log, i: nat, n: nat)
    requires i < n <= |log| && IsBlock(log[i])
  {
    var h := Scan(log[..n]);
    || h == Outstanding(|log[i].data|)
    || (|log[i].data| == BLOCK_SIZE && Acknowledged(log[..n], i))
    || Ending(h)
  }

  lemma OnePastBlock(log: Log, i: nat, n: nat)
    requires i + 1 < n <= |log| && IsBlock(log[i]) && InSession(log, i, |log|) && Legal(log[..n])
    requires PastBlock(log, i, n - 1)
    ensures PastBlock(log, i, n)
  {
    ScanStep(log, n - 1);
    NextAfterBlock(Scan(log[..n - 1]), log[n - 1]);
    if Acknowledged(log[..n - 1], i) {
      AcknowledgedStill(log, i, n);
    } else if Good(log[n - 1], DNLOAD_IDLE) {
      assert AnsweredAt(log[..n], i, DNLOAD_IDLE, n - 1);
    }
  }

  lemma {:induction false} AfterBlock(log: Log, i: nat, n: nat)
    requires Legal(log) && i < n <= |log| && IsBlock(log[i]) && InSession(log, i, |log|)
    requires Scan(log[..i + 1]) == Outstanding(|log[i].data|)
    ensures PastBlock(log, i, n)
  {
    if n == i + 1 {
    } else {
      AfterBlock(log, i, n - 1);
      PrefixLegal(log, n);
      OnePastBlock(log, i, n);
    }
  }

  /** Download-complete is never sent in a legal log except after a short block that was acknowledged, and
      not twice after the same one. */
  lemma CompleteFollowsAnAckedShortBlock(log: Log, j: nat) returns (block: nat, ack: nat)
    requires Legal(log) && j < |log| && IsComplete(log[j])
    ensures LastBlockAt(log[..j], block) && |log[block].data| < BLOCK_SIZE
    ensures AnsweredAt(log[..j], block, DNLOAD_IDLE, ack)
    ensures forall k :: block < k < j ==> !IsComplete(log[k])
  {
    PrefixLegal(log, j + 1);
    ScanStep(log, j);
    var before := log[..j];
    var complete, manifest;
    block, ack, complete, manifest := ShortBlockEnds(before);
    assert forall k :: block < k < j ==> before[k] == log[k];
  }

  // ----- How a session begins -----

  // The session that reaches up to `n` began after `start` events.
  predicate SessionStart(log: Log, start: nat, n: nat) {
    start <= n <= |log| && InSession(log, start, n) && (start == 0 || EndsSession(log[start - 1]))
  }

  predicate ByRecovery(log: Log, start: nat) {
    0 < start <= |log| && log[start - 1] == Opened(true)
  }

  // From `start` on exactly these two events talk to the switch registers: the command, and the word that
  // executes it.
  predicate SwitchedAt(log: Log, start: nat, order: nat, execute: nat) {
    && start <= order < execute < |log|
    && IsOrder(log[order]) && IsExecute(log[execute])
    && forall k :: start <= k < |log| && IsSwitch(log[k]) ==> k == order || k == execute
  }

  predicate OrderedAt(log: Log, start: nat, order: nat) {
    && start <= order < |log| && IsOrder(log[order])
    && forall k :: start <= k < |log| && IsSwitch(log[k]) ==> k == order
  }

  predicate Unswitched(log: Log, start: nat) {
    forall k :: start <= k < |log| ==> !IsSwitch(log[k])
  }

  // Switched if it had to be, and only then.
  predicate Entered(log: Log, start: nat, order: nat, execute: nat) {
    if ByRecovery(log, start) then Unswitched(log, start) else SwitchedAt(log, start, order, execute)
  }

  predicate Undetached(log: Log, start: nat) {
    forall k :: start <= k < |log| ==> !IsDetach(log[k])
  }

  predicate DetachedAt(log: Log, start: nat, detach: nat) {
    start <= detach < |log| && IsDetach(log[detach])
    && forall k :: start <= k < |log| && IsDetach(log[k]) ==> k == detach
  }

  // The one detach, after the switch, and the answer that the device is idle after the detach.
  predicate BegunAt(log: Log, start: nat, order: nat, execute: nat, detach: nat, idle: nat) {
    && DetachedAt(log, start, detach) && Entered(log, start, order, execute)
    && (!ByRecovery(log, start) ==> execute < detach)
    && (!Scan(log).Detaching? ==> AnsweredAt(log, detach, DFU_IDLE, idle))
  }

  // What the automaton's state says about the session so far.
  predicate Told(log: Log, start: nat, order: nat, execute: nat, detach: nat, idle: nat) {
    match Scan(log)
    case Off => !ByRecovery(log, start) && Unswitched(log, start) && Undetached(log, start)
    case InRecovery => ByRecovery(log, start) && Unswitched(log, start) && Undetached(log, start)
    case Ordered => !ByRecovery(log, start) && OrderedAt(log, start, order) && Undetached(log, start)
    case Switched => !ByRecovery(log, start) && SwitchedAt(log, start, order, execute) && Undetached(log, start)
    case Violated => true
    case _ => BegunAt(log, start, order, execute, detach, idle)
  }

  lemma OtherEvent(log: Log, e: Event, start: nat, order: nat, execute: nat, detach: nat, idle: nat)
    requires start <= |log| && !IsSwitch(e)
    ensures ByRecovery(log + [e], start) <==> ByRecovery(log, start)
    ensures Unswitched(log, start) ==> Unswitched(log + [e], start)
    ensures OrderedAt(log, start, order) ==> OrderedAt(log + [e], start, order)
    ensures SwitchedAt(log, start, order, execute) ==> SwitchedAt(log + [e], start, order, execute)
    ensures AnsweredAt(log, detach, DFU_IDLE, idle) ==> AnsweredAt(log + [e], detach, DFU_IDLE, idle)
  {
  }

  lemma NoDetach(log: Log, e: Event, start: nat, detach: nat)
    requires start <= |log| && !IsDetach(e)
    ensures Undetached(log, start) ==> Undetached(log + [e], start)
    ensures DetachedAt(log, start, detach) ==> DetachedAt(log + [e], start, detach)
  {
  }

  // The two events that switch the device.
  lemma SwitchEvent(log: Log, e: Event, start: nat, order: nat)
    requires start <= |log|
    ensures ByRecovery(log + [e], start) <==> ByRecovery(log, start)
    ensures Unswitched(log, start) && IsOrder(e) ==> OrderedAt(log + [e], start, |log|)
    ensures OrderedAt(log, start, order) && IsExecute(e) ==> SwitchedAt(log + [e], start, order, |log|)
  {
  }

  lemma Began(log: Log, e: Event, start: nat, order: nat, execute: nat)
    requires start <= |log| && IsDetach(e) && Undetached(log, start) && Entered(log, start, order, execute)
    requires Scan(log + [e]).Detaching?
    ensures BegunAt(log + [e], start, order, execute, |log|, 0)
  {
    OtherEvent(log, e, start, order, execute, 0, 0);
  }

  lemma GoesOn(log: Log, e: Event, start: nat, order: nat, execute: nat, detach: nat, idle: nat)
    requires start <= |log| && !IsSwitch(e) && !IsDetach(e) && BegunAt(log, start, order, execute, detach, idle)
    requires Scan(log).Detaching? ==> Scan(log + [e]).Detaching? || Good(e, DFU_IDLE)
    ensures BegunAt(log + [e], start, order, execute, detach,
                    if Scan(log).Detaching? && Good(e, DFU_IDLE) then |log| else idle)
  {
    OtherEvent(log, e, start, order, execute, detach, idle);
    NoDetach(log, e, start, detach);
  }

  lemma SwitchTold(log: Log, e: Event, start: nat, order: nat, execute: nat, detach: nat, idle: nat)
    requires Legal(log + [e]) && IsSwitch(e) && start <= |log| && Told(log, start, order, execute, detach, idle)
    ensures if IsOrder(e) then Told(log + [e], start, |log|, execute, detach, idle)
            else Told(log + [e], start, order, |log|, detach, idle)
  {
    Appended(log, e);
    SwitchEvent(log, e, start, order);
    NoDetach(log, e, start, detach);
  }

  // Nothing that counts has happened since the session began or since the switch.
  predicate Preparing(h: Host) {
    h.Off? || h.InRecovery? || h.Ordered? || h.Switched?
  }

  lemma PreparingStays(h: Host, e: Event)
    requires !EndsSession(e) && !IsSwitch(e) && !IsDetach(e) && !Advance(h, e).Violated?
    ensures if Preparing(h) then Advance(h, e) == h else !Preparing(Advance(h, e))
    ensures h.Detaching? ==> Advance(h, e).Detaching? || Good(e, DFU_IDLE)
    ensures Advance(h, e).Detaching? ==> h.Detaching?
  {
  }

  lemma DetachTold(log: Log, e: Event, start: nat, order: nat, execute: nat, detach: nat, idle: nat)
    requires Legal(log + [e]) && IsDetach(e) && start <= |log| && Told(log, start, order, execute, detach, idle)
    ensures Told(log + [e], start, order, execute, |log|, 0)
  {
    Appended(log, e);
    Began(log, e, start, order, execute);
  }

  lemma IdleTold(log: Log, e: Event, start: nat, order: nat, execute: nat, detach: nat, idle: nat)
    requires Legal(log + [e]) && !EndsSession(e) && !IsSwitch(e) && !IsDetach(e) && Preparing(Scan(log))
    requires start <= |log| && Told(log, start, order, execute, detach, idle)
    ensures Told(log + [e], start, order, execute, detach, idle)
  {
    Appended(log, e);
    PreparingStays(Scan(log), e);
    OtherEvent(log, e, start, order, execute, detach, idle);
    NoDetach(log, e, start, detach);
  }

  lemma LaterTold(log: Log, e: Event, start: nat, order: nat, execute: nat, detach: nat, idle: nat)
    requires Legal(log + [e]) && !EndsSession(e) && !IsSwitch(e) && !IsDetach(e) && !Preparing(Scan(log))
    requires start <= |log| && Told(log, start, order, execute, detach, idle)
    ensures Told(log + [e], start, order, execute, detach,
                 if Scan(log).Detaching? && Good(e, DFU_IDLE) then |log| else idle)
  {
    Appended(log, e);
    PreparingStays(Scan(log), e);
    GoesOn(log, e, start, order, execute, detach, idle);
  }

  lemma NextEvent(log: Log, e: Event, start: nat, order: nat, execute: nat, detach: nat, idle: nat)
      returns (o: nat, x: nat, d: nat, i: nat)
    requires Legal(log + [e]) && !EndsSession(e) && start <= |log| && Told(log, start, order, execute, detach, idle)
    ensures Told(log + [e], start, o, x, d, i)
  {
    o, x, d, i := order, execute, detach, idle;
    if IsSwitch(e) {
      SwitchTold(log, e, start, order, execute, detach, idle);
      if IsOrder(e) {
        o := |log|;
      } else {
        x := |log|;
      }
    } else if IsDetach(e) {
      DetachTold(log, e, start, order, execute, detach, idle);
      d, i := |log|, 0;
    } else if Preparing(Scan(log)) {
      IdleTold(log, e, start, order, execute, detach, idle);
    } else {
      LaterTold(log, e, start, order, execute, detach, idle);
      i := if Scan(log).Detaching? && Good(e, DFU_IDLE) then |log| else idle;
    }
  }

  lemma {:induction false} SessionSoFar(log: Log)
      returns (start: nat, order: nat, execute: nat, detach: nat, idle: nat)
    requires Legal(log)
    ensures SessionStart(log, start, |log|) && Told(log, start, order, execute, detach, idle)
  {
    start, order, execute, detach, idle := |log|, 0, 0, 0, 0;
    if log != [] && !EndsSession(log[|log| - 1]) {
      var before, e := log[..|log| - 1], log[|log| - 1];
      assert log == before + [e];
      start, order, execute, detach, idle := SessionSoFar(before);
      order, execute, detach, idle := NextEvent(before, e, start, order, execute, detach, idle);
    }
  }

  /** A detach is the first of its session. In a session opened in recovery nothing has been written to the switch
      registers before it; in any other exactly the switch command and then the word that executes it. */
  lemma DetachFollowsSwitch(log: Log, j: nat) returns (start: nat, order: nat, execute: nat)
    requires Legal(log) && j < |log| && IsDetach(log[j])
    ensures SessionStart(log, start, j) && Undetached(log[..j], start)
    ensures Entered(log[..j], start, order, execute)
  {
    PrefixLegal(log, j + 1);
    PrefixLegal(log, j);
    ScanStep(log, j);
    var detach, idle;
    start, order, execute, detach, idle := SessionSoFar(log[..j]);
  }

  /** Before every block of a session come its one detach and the answer that the device is idle, and before the
      detach, unless the session was opened in recovery, the one switch command and the one word that executes it. */
  lemma BlockFollowsSwitch(log: Log, j: nat)
      returns (start: nat, order: nat, execute: nat, detach: nat, idle: nat)
    requires Legal(log) && j < |log| && IsBlock(log[j])
    ensures SessionStart(log, start, j) && DetachedAt(log[..j], start, detach)
    ensures AnsweredAt(log[..j], detach, DFU_IDLE, idle)
    ensures Entered(log[..j], start, order, execute) && (!ByRecovery(log, start) ==> execute < detach)
  {
    PrefixLegal(log, j + 1);
    PrefixLegal(log, j);
    ScanStep(log, j);
    start, order, execute, detach, idle := SessionSoFar(log[..j]);
  }
}
