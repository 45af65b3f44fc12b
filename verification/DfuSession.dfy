/** The firmware update file of the d4xx camera: open, write and release, down to single bus transfers.

    Every operation also takes the steps of the exclusion machine, so that what is proved there holds here:
    a block may only be written to the bus while no video handle is open. */
module DfuSession {
  import opened DfuFlag
  import opened DfuProtocol
  import opened DfuQueries
  import E = DfuExclusion

  // What the next bus transfer gives: an error, or success with the bytes read, if it reads.
  datatype Transfer = Failed | Success(data: seq<Octet>)

  const START_MAX_COUNT: nat := 100

  // The camera command that starts the update firmware: header, magic word, opcode and four parameters, each
  // with its low byte first.
  method SwitchCommand() returns (bytes: seq<Octet>)
    ensures IsOrder(Wrote(SWITCH_REG, bytes))
  {
    bytes := [0x14, 0, 0xab, 0xcd, 0x1e, 0, 0, 0, 1, 0, 0, 0] + seq(12, _ => 0);
  }

  lemma Grown(a: Log, b: Log, c: Log)
    requires a <= b <= c
    ensures a <= c && (a < b || b < c ==> a < c)
  {
  }

  lemma TwoParts(base: seq<Octet>, buffer: seq<Octet>, from: nat, to: nat, count: nat)
    requires from <= to <= |buffer| && count <= to - from
    ensures base + buffer[..from] + buffer[from..to][..count] == base + buffer[..from + count]
  {
  }

  class Camera {
    var flag: Flag
    var openCount: int
    // The size of the device's version record.
    const recordSize: nat
    // What the bus will answer. Once it is used up every transfer fails, so polling ends.
    var script: seq<Transfer>
    ghost var log: Log

    // Who has the device open, and where a write is.
    ghost var users: E.State

    ghost predicate Valid()
      reads `log, `flag, `openCount, `users
    {
      && BusValid() && Consistent()
      && users.flag == flag && users.phase == E.NoWrite
      && (flag == Recovery && users.dfu > 0 ==> Scan(log) == InRecovery)
    }

    ghost predicate BusValid()
      reads `log, `flag
    {
      && Legal(log) && AllRead(log)
      && (flag == InProgress ==> Scan(log) == Ready)
      && (flag == Done ==> Scan(log) == Finished)
      && (flag == Open ==> Scan(log) == Off)
      && (flag.Fresh() ==> Payload(log) == [])
    }

    ghost predicate Consistent()
      reads `openCount, `users
    {
      E.Invariant(users) && users.count == openCount && users.videoChecked == 0 && users.dfuChecked == 0
      && users.opening == 0 && users.releasing == 0
    }

    ghost predicate Writing(phase: E.Phase)
      reads `openCount, `users
    {
      Consistent() && users.dfu > 0 && users.phase == phase
    }

    ghost method Take(step: E.Step)
      requires E.Invariant(users) && E.Enabled(users, step)
      requires !E.Overlaps(users, step)
      modifies `users
      ensures users == E.Do(old(users), step) && E.Invariant(users)
    {
      E.StepKeepsInvariant(users, step);
      users := E.Do(users, step);
    }

    constructor (inRecovery: bool, recordSize: nat, script: seq<Transfer>)
      ensures Valid() && openCount == 0 && users.dfu == 0 && log == []
      ensures flag == if inRecovery then Recovery else Idle
    {
      var start := if inRecovery then Recovery else Idle;
      ghost var nobody := E.Start(start);
      flag := start;
      openCount := 0;
      this.recordSize := recordSize;
      this.script := script;
      log := [];
      users := nobody;
    }

    method Next() returns (t: Transfer)
      modifies `script
      ensures t == if old(script) == [] then Failed else old(script)[0]
      ensures script == if old(script) == [] then [] else old(script)[1..]
    {
      if script == [] {
        t := Failed;
      } else {
        t := script[0];
        script := script[1..];
      }
    }

    method Send(reg: int, data: seq<Octet>) returns (ok: bool)
      requires reg == BLOCK_REG ==> users.video == 0
      modifies `script, `log
      ensures script == if old(script) == [] then [] else old(script)[1..]
      ensures ok <==> old(script) != [] && old(script)[0].Success?
      ensures log == old(log) + [if ok then Wrote(reg, data) else Fault]
    {
      var t := Next();
      ok := t.Success?;
      log := log + [if ok then Wrote(reg, data) else Fault];
    }

    method Write(reg: int, data: seq<Octet>) returns (ok: bool)
      requires reg == BLOCK_REG ==> users.video == 0
      modifies `script, `log
      ensures |script| <= |old(script)|
      ensures log == old(log) + [if ok then Wrote(reg, data) else Fault]
      ensures Scan(log) == if ok then Advance(old(Scan(log)), Wrote(reg, data)) else old(Scan(log))
      ensures Payload(log) == if ok && reg == BLOCK_REG then old(Payload(log)) + data else old(Payload(log))
      ensures old(AllRead(log)) ==> AllRead(log)
    {
      ok := Send(reg, data);
      ghost var e := if ok then Wrote(reg, data) else Fault;
      Appended(old(log), e);
      if old(AllRead(log)) {
        StillAllRead(old(log), e);
      }
    }

    // A read that brings less or more than was asked for has failed. The reads below only note what they brought;
    // `more` are their events.
    method Read(reg: int, length: nat) returns (ok: bool, data: seq<Octet>)
      modifies `script, `log
      ensures script == if old(script) == [] then [] else old(script)[1..]
      ensures ok <==> old(script) != [] && old(script)[0].Success? && |old(script)[0].data| == length
      ensures ok ==> data == old(script)[0].data
      ensures log == old(log) + [if ok then Got(reg, data) else Fault]
    {
      var t := Next();
      ok := t.Success? && |t.data| == length;
      data := if ok then t.data else [];
      log := log + [if ok then Got(reg, data) else Fault];
    }

    // Polls the command status register until the command is done or has failed.
    method PollCommand() returns (ok: bool, ghost more: Log)
      modifies `script, `log
      ensures log == old(log) + more && Reads(more) && IsPoll(more, ok) && |script| <= |old(script)|
    {
      var status := 2;
      ok, more := true, [];
      while ok && status != 0
        invariant log == old(log) + more && Reads(more) && |script| <= |old(script)|
        invariant if ok && status != 0 then forall k: nat | k < |more| :: StillBusy(more[k]) else IsPoll(more, ok)
        decreases |script|, ok
      {
        var bytes;
        ok, bytes := Read(STATUS_REG, 2);
        more := more + [if ok then Got(STATUS_REG, bytes) else Fault];
        if ok {
          status := Word(bytes);
          ok := status != 1;
        }
      }
    }

    method ReadAnswer() returns (ok: bool, answer: StatusAnswer, ghost more: Log)
      modifies `script, `log
      ensures log == old(log) + more && |script| <= |old(script)|
      ensures if ok then IsQuery([Asked(3)] + more + [Status(answer)], answer) else IsFailedQuery([Asked(3)] + more)
    {
      answer := [0, 0, 0, 0, 0, 0];
      var bytes: seq<Octet> := [];
      ghost var polls;
      ok, polls := PollCommand();
      more := polls;
      if ok {
        ok, bytes := Read(LENGTH_REG, 2);
        more := polls + [if ok then Got(LENGTH_REG, bytes) else Fault];
        ok := ok && Word(bytes) == 6;
      }
      if ok {
        assert bytes == [6, 0];
        ok, bytes := Read(ANSWER_REG, 6);
        more := polls + [Got(LENGTH_REG, [6, 0])] + [if ok then Got(ANSWER_REG, bytes) else Fault];
        if ok {
          answer := bytes;
          assert more[..|more| - 2] == polls;
        }
      }
      AnswerMade(more, ok, answer, recordSize);
    }

    // One query for the status, which the log then also holds.
    method ReadStatus() returns (ok: bool, answer: StatusAnswer, ghost more: Log)
      modifies `script, `log
      ensures log == old(log) + more && |script| <= |old(script)| && (ok ==> |script| < |old(script)|)
      ensures if ok then IsQuery(more, answer) else IsFailedQuery(more)
    {
      ok, answer, more := QueryStatus();
      if ok {
        log := log + [Status(answer)];
        more := more + [Status(answer)];
      }
    }

    method QueryStatus() returns (ok: bool, answer: StatusAnswer, ghost more: Log)
      modifies `script, `log
      ensures log == old(log) + more && |script| <= |old(script)| && (ok ==> |script| < |old(script)|)
      ensures if ok then IsQuery(more + [Status(answer)], answer) else IsFailedQuery(more)
    {
      answer := [0, 0, 0, 0, 0, 0];
      ok := Send(COMMAND_REG, [3, 0]);
      if !ok {
        more := [Fault];
        return;
      }
      ghost var got;
      ok, answer, got := ReadAnswer();
      more := [Asked(3)] + got;
    }

    // One question: the answer is the awaited one, or the device is busy downloading, or there is a reason to stop.
    method AskStatus(expected: int) returns (ok: bool, busy: bool, ghost more: Log)
      requires expected == Awaited(Scan(log)) && expected != 0
      modifies `script, `log
      ensures log == old(log) + more && more != []
      ensures |script| <= |old(script)| && (ok || busy ==> |script| < |old(script)|)
      ensures Payload(log) == old(Payload(log)) && (old(AllRead(log)) ==> AllRead(log))
      ensures forall k: nat | k < |more| - 1 :: !more[k].Status?
      ensures ok <==> Good(more[|more| - 1], expected)
      ensures busy <==> Good(more[|more| - 1], DNBUSY) && expected == DNLOAD_IDLE
      ensures Scan(log) == if ok then Acked(old(Scan(log))) else old(Scan(log))
      ensures !ok && !busy ==> Cause(log, |old(log)|, recordSize)
    {
      var answer;
      ok, answer, more := ReadStatus();
      busy := false;
      if ok {
        busy := answer[0] == 0 && answer[4] == DNBUSY && expected == DNLOAD_IDLE;
        ok := answer[0] == 0 && answer[4] == expected;
        QueryEffect(old(log), more, answer, recordSize);
        AnswerLeads(old(Scan(log)), Status(answer));
        assert forall k: nat | k < |more| - 1 :: k == 0 || more[k] == more[1..|more| - 1][k - 1];
      } else {
        FailedQueryEffect(old(log), more, recordSize);
      }
    }

    /** Asks for the status until the device is no longer busy. Succeeds exactly if the last answer is the
        awaited one; every earlier answer said busy, which is put up with only while downloading. */
    method WaitForStatus(expected: int) returns (ok: bool, ghost more: Log)
      requires expected == Awaited(Scan(log)) && expected != 0
      modifies `script, `log
      ensures log == old(log) + more && more != [] && |script| <= |old(script)|
      ensures Payload(log) == old(Payload(log)) && (old(AllRead(log)) ==> AllRead(log))
      ensures Scan(log) == if ok then Acked(old(Scan(log))) else old(Scan(log))
      ensures ok <==> Good(more[|more| - 1], expected)
      ensures OnlyBusy(more, expected)
      ensures !ok ==> Cause(log, |old(log)|, recordSize)
    {
      var busy;
      ok, busy, more := AskStatus(expected);
      while busy
        invariant log == old(log) + more && more != [] && |script| <= |old(script)|
        invariant Payload(log) == old(Payload(log)) && (old(AllRead(log)) ==> AllRead(log))
        invariant ok <==> Good(more[|more| - 1], expected)
        invariant busy <==> Good(more[|more| - 1], DNBUSY) && expected == DNLOAD_IDLE
        invariant Scan(log) == if ok then Acked(old(Scan(log))) else old(Scan(log))
        invariant OnlyBusy(more, expected)
        invariant !ok && !busy ==> Cause(log, |old(log)|, recordSize)
        decreases |script|, busy
      {
        ghost var before, next := log, [];
        ok, busy, next := AskStatus(expected);
        ThenMore(old(log), more, next);
        OnlyBusyStill(more, next, expected);
        more := more + next;
        if !ok && !busy {
          CauseSince(log, |old(log)|, |before|, recordSize);
        }
      }
    }

    // Waits for the update firmware to boot: 101 reads at most, until one goes through.
    method PollBoot() returns (ok: bool, ghost more: Log)
      modifies `script, `log
      ensures log == old(log) + more && Reads(more) && 0 < |more| <= 101
      ensures forall k: nat | k < |more| - 1 :: more[k] == Fault
      ensures var last := more[|more| - 1];
        if ok then last.Got? && last.reg == STATUS_REG && |last.data| == 2 else last == Fault && |more| == 101
    {
      var bytes;
      ok, bytes := Read(STATUS_REG, 2);
      more := [if ok then Got(STATUS_REG, bytes) else Fault];
      var i := START_MAX_COUNT;
      while !ok && i > 0
        invariant log == old(log) + more && Reads(more) && 0 <= i <= START_MAX_COUNT && |more| == 101 - i
        invariant forall k: nat | k < |more| - 1 :: more[k] == Fault
        invariant var last := more[|more| - 1];
          if ok then last.Got? && last.reg == STATUS_REG && |last.data| == 2 else last == Fault
      {
        i := i - 1;
        ok, bytes := Read(STATUS_REG, 2);
        more := more + [if ok then Got(STATUS_REG, bytes) else Fault];
      }
    }

    // The switch command, its execution, and the wait for the update firmware.
    method SwitchToDfu() returns (ok: bool)
      requires Scan(log) == Off && AllRead(log)
      modifies `script, `log
      ensures Payload(log) == old(Payload(log)) && old(log) <= log && Legal(log) && AllRead(log)
      ensures ok ==> Scan(log) == Switched
      ensures ok ==> |log| >= |old(log)| + 3 && IsOrder(log[|old(log)|]) && IsExecute(log[|old(log)| + 1])
      ensures ok ==> log[|log| - 1].Got? && log[|log| - 1].reg == STATUS_REG
      ensures !ok ==> Cause(log, |old(log)|, recordSize)
    {
      ok := OrderSwitch();
      if ok {
        ghost var ordered, more := log, [];
        ok, more := PollBoot();
        ReadsChangeNothing(ordered, more);
        assert !ok ==> Breaks(log, |log| - 1, recordSize);
      }
    }

    method OrderSwitch() returns (ok: bool)
      requires Scan(log) == Off && AllRead(log)
      modifies `script, `log
      ensures Payload(log) == old(Payload(log)) && old(log) <= log && Legal(log) && AllRead(log)
      ensures ok ==> Scan(log) == Switched && |log| == |old(log)| + 2
      ensures ok ==> IsOrder(log[|old(log)|]) && IsExecute(log[|old(log)| + 1])
      ensures !ok ==> Cause(log, |old(log)|, recordSize)
    {
      var command := SwitchCommand();
      ok := Write(SWITCH_REG, command);
      if ok {
        ok := Execute();
      } else {
        assert Breaks(log, |log| - 1, recordSize);
      }
    }

    method Execute() returns (ok: bool)
      requires Scan(log) == Ordered && AllRead(log)
      modifies `script, `log
      ensures Payload(log) == old(Payload(log)) && AllRead(log)
      ensures Scan(log) == if ok then Switched else Ordered
      ensures log == old(log) + [if ok then Wrote(EXECUTE_REG, [1, 0]) else Fault]
      ensures !ok ==> Breaks(log, |log| - 1, recordSize)
    {
      ok := Write(EXECUTE_REG, [1, 0]);
    }

    // The value a failed read leaves behind is whatever it was before, and at first anything at all. One or two
    // ends the wait badly, and so it goes on for 100 reads or until it is zero.
    method WaitForCommand() returns (ok: bool, ghost more: Log)
      modifies `script, `log
      ensures log == old(log) + more && Reads(more) && 0 < |more| <= 100
      ensures if ok then forall k: nat | k < |more| :: more[k].Fault? || !Stops(more[k], true, recordSize)
              else exists k: nat | k < |more| :: Stops(more[k], true, recordSize)
      ensures ok && |more| < 100 ==> more[|more| - 1] == Got(STATUS_REG, [0, 0]) || more[|more| - 1] == Fault
      ensures forall k: nat | k < |more| - 1 :: more[k] != Got(STATUS_REG, [0, 0])
      ensures !ok ==> Stops(more[|more| - 1], true, recordSize)
    {
      var status: int := *;
      var i := 0;
      ok, more := true, [];
      while ok && i < START_MAX_COUNT
        invariant log == old(log) + more && Reads(more) && i >= 0
        invariant if i < START_MAX_COUNT then |more| == i else 0 < |more| <= 100
        invariant ok ==> forall k: nat | k < |more| :: more[k].Fault? || !Stops(more[k], true, recordSize)
        invariant ok && i >= START_MAX_COUNT && |more| < 100 ==>
          more[|more| - 1] == Got(STATUS_REG, [0, 0]) || more[|more| - 1] == Fault
        invariant forall k: nat | k < |more| - 1 :: more[k] != Got(STATUS_REG, [0, 0])
        invariant ok && 0 < |more| && i < START_MAX_COUNT ==> more[|more| - 1] != Got(STATUS_REG, [0, 0])
        invariant !ok ==> more != [] && Stops(more[|more| - 1], true, recordSize)
      {
        var read, bytes := Read(STATUS_REG, 2);
        more := more + [if read then Got(STATUS_REG, bytes) else Fault];
        if read {
          status := Word(bytes);
        }
        ok := status != 1 && status != 2;
        i := if status == 0 then START_MAX_COUNT else i + 1;
      }
    }

    method ReadRecord() returns (ok: bool, ghost more: Log)
      modifies `script, `log
      ensures log == old(log) + more && Reads(more) && more != []
      ensures ok ==> IsRecord(more, recordSize)
      ensures !ok ==> Stops(more[|more| - 1], true, recordSize)
    {
      ok, more := WaitForCommand();
      var bytes: seq<Octet> := [];
      if ok {
        ok, bytes := Read(LENGTH_REG, 2);
        more := more + [if ok then Got(LENGTH_REG, bytes) else Fault];
        ok := ok && Word(bytes) == recordSize;
      }
      if ok {
        ok, bytes := Read(ANSWER_REG, recordSize);
        more := more + [if ok then Got(ANSWER_REG, bytes) else Fault];
      }
    }

    method GetDeviceInfo() returns (ok: bool, ghost more: Log)
      requires AllRead(log)
      modifies `script, `log
      ensures Scan(log) == old(Scan(log)) && Payload(log) == old(Payload(log)) && AllRead(log)
      ensures log == old(log) + more && more != []
      ensures ok ==> more[0] == Asked(2) && IsRecord(more[1..], recordSize)
      ensures !ok ==> Cause(log, |old(log)|, recordSize)
    {
      ok := Send(COMMAND_REG, [2, 0]);
      if ok {
        ghost var got;
        ok, got := ReadRecord();
        RecordEffect(old(log), got, ok, recordSize);
        more := [Asked(2)] + got;
        assert more[1..] == got;
        ThenMore(old(log), [Asked(2)], got);
      } else {
        more := [Fault];
        ReadsChangeNothing(old(log), [Fault]);
        assert Breaks(log, |log| - 1, recordSize);
      }
    }

    method PutDetach() returns (ok: bool)
      requires Scan(log) == InRecovery || Scan(log) == Switched
      modifies `script, `log
      ensures log == old(log) + [if ok then Wrote(DETACH_REG, [0, 0]) else Fault]
      ensures old(AllRead(log)) ==> AllRead(log)
      ensures Scan(log) == (if ok then Detaching else old(Scan(log))) && Payload(log) == old(Payload(log))
      ensures !ok ==> Cause(log, |old(log)|, recordSize)
    {
      ok := Write(DETACH_REG, [0, 0]);
      assert !ok ==> Breaks(log, |log| - 1, recordSize);
    }

    method WaitForIdle() returns (ok: bool)
      requires (Scan(log) == InRecovery || Scan(log) == Switched) && AllRead(log)
      modifies `script, `log
      ensures Payload(log) == old(Payload(log)) && old(log) <= log && Legal(log) && AllRead(log)
      ensures ok ==> Scan(log) == Ready
      ensures !ok ==> Cause(log, |old(log)|, recordSize)
    {
      ok := PutDetach();
      if ok {
        ghost var detached, more := log, [];
        ok, more := WaitForStatus(DFU_IDLE);
        if !ok {
          CauseSince(log, |old(log)|, |detached|, recordSize);
        }
      }
    }

    method Detach() returns (ok: bool)
      requires (Scan(log) == InRecovery || Scan(log) == Switched) && AllRead(log)
      modifies `script, `log
      ensures Payload(log) == old(Payload(log)) && old(log) <= log && Legal(log) && AllRead(log)
      ensures ok ==> Scan(log) == Ready && log[|log| - 1].Got? && log[|log| - 1].reg == ANSWER_REG
      ensures !ok ==> Cause(log, |old(log)|, recordSize)
    {
      ok := WaitForIdle();
      if ok {
        ghost var idle, more := log, [];
        ok, more := GetDeviceInfo();
        if !ok {
          CauseSince(log, |old(log)|, |idle|, recordSize);
        }
      }
    }

    /** Brings the device to where it takes blocks: from an open file by way of the switch command. */
    method Begin() returns (ok: bool)
      requires Valid() && users.dfu > 0
      modifies `script, `log, `flag, `users
      ensures Legal(log) && AllRead(log) && Payload(log) == old(Payload(log)) && old(log) <= log
      ensures ok ==> Scan(log) == Ready && Writing(E.Sending) && flag == InProgress
      ensures ok ==> old(flag).Active()
      ensures !ok ==> Writing(E.Failing) && old(flag) != InProgress
      ensures !ok ==> Cause(log, |old(log)|, recordSize) || !old(flag).Active()
    {
      ok := flag.Active();
      Take(E.WriteBegin);
      if flag == Open {
        ok := SwitchToDfu();
        Take(E.SwitchDone(ok));
      }
      if ok && flag.Fresh() {
        ok := Detach();
        Take(E.DetachDone(ok));
        if ok {
          flag := InProgress;
        }
      }
    }

    method PutBlock(block: seq<Octet>) returns (ok: bool)
      requires Scan(log) == Ready && users.video == 0 && 0 < |block| <= BLOCK_SIZE
      modifies `script, `log
      ensures log == old(log) + [if ok then Wrote(BLOCK_REG, block) else Fault]
      ensures old(AllRead(log)) ==> AllRead(log)
      ensures Scan(log) == if ok then Outstanding(|block|) else Ready
      ensures Payload(log) == if ok then old(Payload(log)) + block else old(Payload(log))
      ensures !ok ==> Cause(log, |old(log)|, recordSize)
    {
      ok := Write(BLOCK_REG, block);
      assert !ok ==> Breaks(log, |log| - 1, recordSize);
    }

    /** Sends one block and waits until it is acknowledged. The block counts as sent once the bus took it. */
    method SendBlock(block: seq<Octet>) returns (ok: bool, ghost sent: nat)
      requires Scan(log) == Ready && AllRead(log) && Writing(E.Sending) && 0 < |block| <= BLOCK_SIZE
      modifies `script, `log
      ensures !ok ==> Cause(log, |old(log)|, recordSize)
      ensures Legal(log) && AllRead(log) && old(log) <= log
      ensures sent == 0 || sent == |block|
      ensures Payload(log) == old(Payload(log)) + block[..sent]
      ensures ok ==> sent == |block| && Scan(log) == if |block| == BLOCK_SIZE then Ready else ShortAcked
    {
      ok := PutBlock(block);
      sent := if ok then |block| else 0;
      if ok {
        ghost var put, more := log, [];
        ok, more := WaitForStatus(DNLOAD_IDLE);
        if !ok {
          CauseSince(log, |old(log)|, |put|, recordSize);
        }
      }
    }

    method CompleteDownload() returns (ok: bool)
      requires Scan(log) == ShortAcked && AllRead(log)
      modifies `script, `log
      ensures !ok ==> Cause(log, |old(log)|, recordSize)
      ensures Legal(log) && AllRead(log) && old(log) <= log && Payload(log) == old(Payload(log))
      ensures ok ==> Scan(log) == Finished
    {
      ok := Write(COMPLETE_REG, [0, 0]);
      assert !ok ==> Breaks(log, |log| - 1, recordSize);
      if ok {
        ghost var completed, more := log, [];
        ok, more := WaitForStatus(MANIFEST);
        if !ok {
          CauseSince(log, |old(log)|, |completed|, recordSize);
        }
      }
    }

    /** The full blocks of `buffer`, of which user space can supply the first `readable` bytes. */
    method SendFullBlocks(buffer: seq<Octet>, readable: nat) returns (ok: bool, ghost sent: nat)
      requires Scan(log) == Ready && AllRead(log) && Writing(E.Sending)
      modifies `script, `log
      ensures !ok ==> Cause(log, |old(log)|, recordSize) || |buffer| > readable
      ensures Legal(log) && AllRead(log) && old(log) <= log
      ensures sent <= |buffer| && sent <= readable && Payload(log) == old(Payload(log)) + buffer[..sent]
      ensures ok ==> Scan(log) == Ready && sent == |buffer| - |buffer| % BLOCK_SIZE
    {
      var done := 0;
      var blocks, part := |buffer| / BLOCK_SIZE, |buffer| % BLOCK_SIZE;
      ok, sent := true, 0;
      while ok && blocks > 0
        invariant blocks >= 0
        invariant ok ==> done + blocks * BLOCK_SIZE + part == |buffer|
        invariant old(log) <= log && Legal(log) && AllRead(log) && Writing(E.Sending)
        invariant sent <= |buffer| && sent <= readable && Payload(log) == old(Payload(log)) + buffer[..sent]
        invariant ok ==> Scan(log) == Ready && sent == done
        invariant !ok ==> Cause(log, |old(log)|, recordSize) || |buffer| > readable
        decreases blocks, ok
      {
        blocks := blocks - 1;
        ok := done + BLOCK_SIZE <= readable;
        if ok {
          ghost var before, count := log, 0;
          ok, count := SendBlock(buffer[done..done + BLOCK_SIZE]);
          Grown(old(log), before, log);
          if !ok {
            CauseSince(log, |old(log)|, |before|, recordSize);
          }
          TwoParts(old(Payload(log)), buffer, done, done + BLOCK_SIZE, count);
          sent := done + count;
          done := done + BLOCK_SIZE;
        }
      }
    }

    /** The part after the last full block, which is never empty when it is sent, and what ends the download. */
    method SendRest(rest: seq<Octet>, readable: bool) returns (ok: bool, ghost sent: nat)
      requires Scan(log) == Ready && AllRead(log) && Writing(E.Sending) && |rest| < BLOCK_SIZE
      modifies `script, `log
      ensures !ok ==> Cause(log, |old(log)|, recordSize) || !readable
      ensures Legal(log) && AllRead(log) && old(log) <= log
      ensures sent <= |rest| && Payload(log) == old(Payload(log)) + rest[..sent] && (!readable ==> sent == 0 && !ok)
      ensures ok ==> sent == |rest| && Scan(log) == if rest == [] then Ready else Finished
    {
      ok, sent := readable, 0;
      if ok && |rest| > 0 {
        ok, sent := SendBlock(rest);
        if ok {
          ok := CompleteDownload();
        }
      }
    }

    method Download(buffer: seq<Octet>, readable: nat) returns (ok: bool, ghost sent: nat)
      requires Scan(log) == Ready && AllRead(log) && Writing(E.Sending)
      modifies `script, `log
      ensures !ok ==> Cause(log, |old(log)|, recordSize) || |buffer| > readable
      ensures Legal(log) && AllRead(log) && old(log) <= log
      ensures sent <= |buffer| && sent <= readable && Payload(log) == old(Payload(log)) + buffer[..sent]
      ensures ok ==> sent == |buffer| && Scan(log) == if |buffer| % BLOCK_SIZE == 0 then Ready else Finished
    {
      ok, sent := SendFullBlocks(buffer, readable);
      if ok {
        var done := |buffer| - |buffer| % BLOCK_SIZE;
        ghost var count;
        ok, count := SendRest(buffer[done..|buffer|], |buffer| <= readable || done == |buffer|);
        TwoParts(old(Payload(log)), buffer, done, |buffer|, count);
        sent := done + count;
      }
    }

    method ResetDevice() returns (ok: bool)
      requires Legal(log) && AllRead(log)
      modifies `script, `log
      ensures Legal(log) && AllRead(log) && old(log) <= log && Payload(log) == old(Payload(log))
      ensures log == old(log) + [if ok then Wrote(RESET_REG, [0, 0]) else Fault] && (ok ==> Scan(log) == Off)
    {
      ok := Write(RESET_REG, [0, 0]);
    }

    // A failed write resets the device, and only if that goes through does it leave the error state.
    method Fail()
      requires Legal(log) && AllRead(log) && Writing(E.Failing)
      modifies `script, `log, `flag, `users
      ensures Valid() && (flag == Error || flag == Idle) && users.dfu == old(users.dfu)
      ensures old(log) <= log && Payload(log) == old(Payload(log))
    {
      flag := Error;
      var ok := ResetDevice();
      if ok {
        flag := Idle;
      }
      assert BusValid();
      TakeReset(ok);
    }

    ghost method TakeReset(ok: bool)
      requires Writing(E.Failing)
      modifies `users
      ensures Consistent() && users.dfu == old(users.dfu)
      ensures users.phase == E.NoWrite && users.flag == if ok then Idle else Error
    {
      Take(E.ResetDone(ok));
    }

    /** A write to the file. It is accepted only whole: then every byte of it went out after what was sent
        before, and the session is done exactly if the length is no multiple of the block size. Otherwise a
        prefix went out, and the flag bars every further write of this session. */
    method WriteFile(buffer: seq<Octet>, readable: nat) returns (accepted: bool, ghost sent: nat)
      requires Valid() && users.dfu > 0
      modifies `script, `log, `flag, `users
      ensures Valid() && users.dfu > 0 && old(log) <= log
      ensures sent <= |buffer| && sent <= readable && Payload(log) == old(Payload(log)) + buffer[..sent]
      ensures accepted ==> sent == |buffer| && old(flag).Active()
      ensures accepted ==> flag == if |buffer| % BLOCK_SIZE == 0 then InProgress else Done
      ensures !accepted ==> flag == Error || flag == Idle
      ensures !accepted ==> Cause(log, |old(log)|, recordSize) || |buffer| > readable || !old(flag).Active()
      ensures !old(flag).Active() ==> !accepted && sent == 0
    {
      accepted := Begin();
      sent := 0;
      if accepted {
        accepted, sent := Download(buffer, readable);
        Take(if accepted then E.FinishWrite(|buffer| % BLOCK_SIZE != 0) else E.SendBlock(false));
        if accepted && |buffer| % BLOCK_SIZE != 0 {
          flag := Done;
        }
      }
      if !accepted {
        ghost var stopped := log;
        Fail();
        if Cause(stopped, |old(log)|, recordSize) {
          CauseKept(stopped, log, |old(log)|, recordSize);
        }
      }
    }

    // The steps of an open, with no other open between them.
    ghost method TakeOpen(hasMemory: bool)
      requires Consistent() && openCount == 0
      modifies `users
      ensures E.Invariant(users) && users == E.DfuOpened(old(users), hasMemory)
    {
      E.DfuOpenSteps(users, hasMemory);
      Take(E.DfuCheck);
      Take(E.DfuCount);
      Take(E.DfuCommit(hasMemory));
    }

    ghost method NewSession(recovery: bool)
      requires Legal(log) && AllRead(log)
      modifies `log
      ensures log == old(log) + [Opened(recovery)] && AllRead(log)
      ensures Scan(log) == (if recovery then InRecovery else Off) && Payload(log) == []
    {
      Appended(log, Opened(recovery));
      StillAllRead(log, Opened(recovery));
      log := log + [Opened(recovery)];
    }

    method OpenFile(hasMemory: bool) returns (ok: bool)
      requires Valid()
      modifies `openCount, `flag, `log, `users
      ensures Valid() && (ok <==> old(openCount) == 0 && hasMemory)
      ensures ok ==> flag.Fresh() && Payload(log) == [] && users.dfu > 0
      ensures old(openCount) == 0 ==> log == old(log) + [Opened(old(flag) == Recovery)]
      ensures old(openCount) != 0 ==> flag == old(flag) && log == old(log) && users == old(users)
      ensures old(openCount) == 0 ==> openCount == 1 && (flag == Recovery <==> old(flag) == Recovery)
    {
      ok := openCount == 0;
      if ok {
        TakeOpen(hasMemory);
        openCount := openCount + 1;
        NewSession(flag == Recovery);
        if flag != Recovery {
          flag := Open;
        }
        ok := hasMemory;
      }
    }

    /** Closing the file. The test for a finished update comes after the flag was reset, so video is never
        set up again, however the session went. */
    method ReleaseFile() returns (videoRestarted: bool)
      requires Valid() && users.dfu > 0
      modifies `openCount, `flag, `users
      ensures Valid() && openCount == old(openCount) - 1
      ensures flag == (if old(flag) == Recovery then Recovery else Idle)
      ensures !videoRestarted
    {
      openCount := openCount - 1;
      Take(E.Release);
      if flag != Recovery {
        flag := Idle;
      }
      Take(E.ReleaseDone);
      videoRestarted := flag == Done;
    }

    /** A video handle opens exactly if the flag is idle. */
    method OpenVideo() returns (ok: bool)
      requires Valid()
      modifies `openCount, `users
      ensures Valid() && (ok <==> flag == Idle)
      ensures users.video == old(users.video) + (if ok then 1 else 0) && users.dfu == old(users.dfu)
    {
      ok := flag == Idle;
      if ok {
        Take(E.VideoCheck);
        openCount := openCount + 1;
        Take(E.VideoCommit);
      }
    }

    method CloseVideo()
      requires Valid() && users.video > 0
      modifies `openCount, `users
      ensures Valid() && users.video == old(users.video) - 1 && users.dfu == old(users.dfu)
    {
      openCount := openCount - 1;
      Take(E.VideoClose);
    }

    /** A whole session: the file is written buffer after buffer until a write is refused. What reaches the
        device is the buffers in order, cut at the failure. It ends done exactly if the last buffer's length
        is no multiple of the block size while all before it are; nothing is accepted after that. */
    method Session(buffers: seq<seq<Octet>>, readable: seq<nat>) returns (accepted: nat, ghost sent: nat)
      requires Valid() && users.dfu > 0 && flag.Fresh() && 0 < |buffers| == |readable|
      modifies `script, `log, `flag, `users
      ensures Valid() && old(log) <= log
      ensures accepted <= |buffers|
      ensures accepted == |buffers| ==> Payload(log) == Concat(buffers)
      ensures accepted < |buffers| ==> sent <= |buffers[accepted]|
      ensures accepted < |buffers| ==> Payload(log) == Concat(buffers[..accepted]) + buffers[accepted][..sent]
      ensures accepted > 0 ==> WholeBlocks(buffers, accepted - 1)
      ensures accepted == |buffers| ==> flag == FlagAfter(buffers, accepted)
      ensures accepted < |buffers| ==> flag == Error || flag == Idle
      ensures accepted < |buffers| ==> Cause(log, |old(log)|, recordSize) || Refusable(buffers, readable, accepted)
    {
      accepted, sent := 0, 0;
      var ok := true;
      while ok && accepted < |buffers|
        invariant accepted <= |buffers| && Valid() && users.dfu > 0 && old(log) <= log
        invariant ok ==> Payload(log) == Concat(buffers[..accepted])
        invariant ok ==> if accepted == 0 then flag.Fresh() else flag == FlagAfter(buffers, accepted)
        invariant !ok ==> accepted < |buffers| && sent <= |buffers[accepted]| && (flag == Error || flag == Idle)
        invariant !ok ==> Payload(log) == Concat(buffers[..accepted]) + buffers[accepted][..sent]
        invariant !ok ==> Cause(log, |old(log)|, recordSize) || Refusable(buffers, readable, accepted)
        invariant accepted > 0 ==> WholeBlocks(buffers, accepted - 1)
        decreases |buffers| - accepted, ok
      {
        ok, sent := WriteFile(buffers[accepted], readable[accepted]);
        if ok {
          assert buffers[accepted][..sent] == buffers[accepted];
          ConcatOneMore(buffers, accepted);
          accepted := accepted + 1;
        }
      }
      assert buffers[..|buffers|] == buffers;
    }
  }

  predicate WholeBlocks(buffers: seq<seq<Octet>>, n: nat)
    requires n <= |buffers|
  {
    forall k: nat | k < n :: |buffers[k]| % BLOCK_SIZE == 0
  }

  function FlagAfter(buffers: seq<seq<Octet>>, n: nat): Flag
    requires 0 < n <= |buffers|
  {
    if |buffers[n - 1]| % BLOCK_SIZE == 0 then InProgress else Done
  }

  // With a device that never misbehaves a buffer is refused only if it cannot be read, or after a short block.
  predicate Refusable(buffers: seq<seq<Octet>>, readable: seq<nat>, n: nat)
    requires n < |buffers| == |readable|
  {
    |buffers[n]| > readable[n] || (n > 0 && FlagAfter(buffers, n) == Done)
  }

  function Concat(buffers: seq<seq<Octet>>): seq<Octet> {
    if buffers == [] then [] else Concat(buffers[..|buffers| - 1]) + buffers[|buffers| - 1]
  }

  lemma ConcatOneMore(buffers: seq<seq<Octet>>, n: nat)
    requires n < |buffers|
    ensures Concat(buffers[..n + 1]) == Concat(buffers[..n]) + buffers[n]
  {
    assert buffers[..n + 1][..n] == buffers[..n];
  }
}
