/** How the device is asked, said of the raw transfers in the log: which reads a status answer came from, and which
    event gave a reason to stop. */
module DfuQueries {
  import opened DfuProtocol

  const COMMAND_REG := 0x5008
  const STATUS_REG := 0x5000
  const LENGTH_REG := 0x5004
  const ANSWER_REG := 0x4e00

  // Tells the device what to answer next: 2 for its version record, 3 for its status.
  function Asked(code: Octet): Event {
    Wrote(COMMAND_REG, [code, 0])
  }

  // The code last asked for, and 0 before the first.
  function LastAsked(log: Log): int {
    if log == [] then 0
    else
      var e := log[|log| - 1];
      if e.Wrote? && e.reg == COMMAND_REG && |e.data| == 2 then e.data[0] else LastAsked(log[..|log| - 1])
  }

  // A poll that finds the command neither done, which is zero, nor failed, which is one.
  predicate StillBusy(e: Event) {
    e.Got? && e.reg == STATUS_REG && |e.data| == 2 && e.data != [0, 0] && e.data != [1, 0]
  }

  // Polls that found the device busy, and a last one that ended the polling.
  predicate IsPoll(more: Log, ok: bool) {
    && more != [] && (forall k: nat | k < |more| - 1 :: StillBusy(more[k]))
    && var last := more[|more| - 1];
      if ok then last == Got(STATUS_REG, [0, 0]) else last == Fault || last == Got(STATUS_REG, [1, 0])
  }

  // A poll that ended well, the length 6, and an answer of that length.
  predicate IsAnswer(more: Log, answer: StatusAnswer) {
    && |more| >= 3 && IsPoll(more[..|more| - 2], true)
    && more[|more| - 2] == Got(LENGTH_REG, [6, 0]) && more[|more| - 1] == Got(ANSWER_REG, answer)
  }

  // Reads that went through or failed.
  predicate Reads(more: Log) {
    forall k: nat | k < |more| :: more[k].Got? || more[k].Fault?
  }

  // The device's version record of the expected size, after a poll and its length.
  predicate IsRecord(more: Log, recordSize: nat) {
    && |more| >= 3 && var length, record := more[|more| - 2], more[|more| - 1];
      && length.Got? && length.reg == LENGTH_REG && |length.data| == 2 && Word(length.data) == recordSize
      && record.Got? && record.reg == ANSWER_REG && |record.data| == recordSize
  }

  // The question for the status, what was read, and the status it makes.
  predicate IsQuery(more: Log, answer: StatusAnswer) {
    && |more| >= 5 && more[0] == Asked(3) && IsAnswer(more[1..|more| - 1], answer)
    && Reads(more[1..|more| - 1]) && more[|more| - 1] == Status(answer)
  }

  // A question that failed, or reads after it that did.
  predicate IsFailedQuery(more: Log) {
    || more == [Fault]
    || (|more| > 1 && more[0] == Asked(3) && Reads(more[1..]) && Stops(more[|more| - 1], false, 0))
  }

  // A read that ends a query: a failed transfer, a failed command, or a length other than expected. When asked
  // for its record the device must not answer 2 either. The size of the record matters only then.
  predicate Stops(e: Event, record: bool, recordSize: nat) {
    || e.Fault?
    || (e.Got? && e.reg == STATUS_REG && (e.data == [1, 0] || (record && e.data == [2, 0])))
    || (e.Got? && e.reg == LENGTH_REG && |e.data| == 2 && Word(e.data) != if record then recordSize else 6)
  }

  lemma AnswerMade(got: Log, ok: bool, answer: StatusAnswer, recordSize: nat)
    requires Reads(got) && got != []
    requires if ok then IsAnswer(got, answer) else Stops(got[|got| - 1], false, recordSize)
    ensures if ok then IsQuery([Asked(3)] + got + [Status(answer)], answer) else IsFailedQuery([Asked(3)] + got)
  {
    var more := [Asked(3)] + got;
    assert more[1..] == got && (more + [Status(answer)])[1..|more|] == got;
  }

  // The status at `k` was asked for at `j`; the polls said busy until one said done, and the length was right.
  predicate ReadAt(log: Log, j: nat, k: nat) {
    && j + 4 <= k < |log| && log[j] == Asked(3) && log[k].Status?
    && (forall i :: j < i < k - 3 ==> StillBusy(log[i]))
    && log[k - 3] == Got(STATUS_REG, [0, 0]) && log[k - 2] == Got(LENGTH_REG, [6, 0])
    && log[k - 1] == Got(ANSWER_REG, log[k].answer)
  }

  ghost predicate ReadSomewhere(log: Log, k: nat) {
    exists j: nat :: ReadAt(log, j, k)
  }

  // No status is made up: each was read from the device.
  ghost predicate AllRead(log: Log) {
    forall k: nat {:trigger ReadSomewhere(log, k)} | k < |log| && log[k].Status? :: ReadSomewhere(log, k)
  }

  function Word(bytes: seq<Octet>): int
    requires |bytes| == 2
  {
    bytes[0] as int + 256 * bytes[1] as int
  }

  // The state whose status answer the host waits for.
  function Awaited(h: Host): int {
    match h
    case Detaching => DFU_IDLE
    case Outstanding(_) => DNLOAD_IDLE
    case Completed => MANIFEST
    case _ => 0
  }

  // Where the awaited answer leads.
  function Acked(h: Host): Host {
    match h
    case Detaching => Ready
    case Outstanding(size) => if size == BLOCK_SIZE then Ready else ShortAcked
    case Completed => Finished
    case _ => h
  }

  lemma AnswerLeads(h: Host, e: Event)
    requires Awaited(h) != 0 && e.Status?
    ensures Advance(h, e) == if Good(e, Awaited(h)) then Acked(h) else h
  {
  }

  predicate BadStatus(h: Host, answer: StatusAnswer) {
    answer[0] != 0 || !(answer[4] == Awaited(h) || (answer[4] == DNBUSY && Awaited(h) == DNLOAD_IDLE))
  }

  // Event `k` is a reason to stop: a read that ends a query, or a status that is bad, or neither the awaited one
  // nor busy while downloading.
  predicate Breaks(log: Log, k: nat, recordSize: nat)
    requires k < |log|
  {
    match log[k]
    case Fault => true
    case Got(_, _) => Stops(log[k], LastAsked(log[..k]) == 2, recordSize)
    case Status(answer) => BadStatus(Scan(log[..k]), answer)
    case _ => false
  }

  // There is one from event `from` on.
  ghost predicate Cause(log: Log, from: nat, recordSize: nat) {
    exists k: nat {:trigger Breaks(log, k, recordSize)} :: from <= k < |log| && Breaks(log, k, recordSize)
  }

  lemma CauseSince(log: Log, from: nat, later: nat, recordSize: nat)
    requires from <= later && Cause(log, later, recordSize)
    ensures Cause(log, from, recordSize)
  {
    var k: nat :| later <= k < |log| && Breaks(log, k, recordSize);
    assert from <= k;
  }

  lemma CauseKept(log: Log, longer: Log, from: nat, recordSize: nat)
    requires log <= longer && Cause(log, from, recordSize)
    ensures Cause(longer, from, recordSize)
  {
    var k: nat :| from <= k < |log| && Breaks(log, k, recordSize);
    assert log[..k] == longer[..k] && Breaks(longer, k, recordSize);
  }

  lemma ReadKept(log: Log, e: Event, k: nat)
    requires k < |log| && ReadSomewhere(log, k)
    ensures ReadSomewhere(log + [e], k)
  {
    var j: nat :| ReadAt(log, j, k);
    assert ReadAt(log + [e], j, k);
  }

  lemma StillAllRead(log: Log, e: Event)
    requires AllRead(log) && (e.Status? ==> ReadSomewhere(log + [e], |log|))
    ensures AllRead(log + [e])
  {
    forall k: nat | k < |log + [e]| && (log + [e])[k].Status? ensures ReadSomewhere(log + [e], k) {
      if k < |log| {
        assert ReadSomewhere(log, k);
        ReadKept(log, e, k);
      }
    }
  }

  lemma Noted(log: Log, e: Event)
    ensures LastAsked(log + [e]) ==
      if e.Wrote? && e.reg == COMMAND_REG && |e.data| == 2 then e.data[0] else LastAsked(log)
  {
  }

  // Reads leave the session as it is, and so is what was asked for.
  lemma {:induction false} ReadsChangeNothing(log: Log, more: Log)
    requires Reads(more)
    ensures Scan(log + more) == Scan(log) && Payload(log + more) == Payload(log)
    ensures LastAsked(log + more) == LastAsked(log) && (AllRead(log) ==> AllRead(log + more))
  {
    if more == [] {
      assert log + more == log;
    } else {
      var init, e := more[..|more| - 1], more[|more| - 1];
      ReadsChangeNothing(log, init);
      assert log + more == log + init + [e];
      Appended(log + init, e);
      Noted(log + init, e);
      if AllRead(log) {
        StillAllRead(log + init, e);
      }
    }
  }

  lemma ReadsAskNothing(log: Log, more: Log)
    requires Reads(more)
    ensures LastAsked(log + more) == LastAsked(log)
  {
    ReadsChangeNothing(log, more);
  }

  lemma StoppedRead(log: Log, more: Log, recordSize: nat)
    requires Reads(more) && more != [] && Stops(more[|more| - 1], LastAsked(log) == 2, recordSize)
    ensures Cause(log + more, |log|, recordSize)
  {
    var init, k := more[..|more| - 1], |log + more| - 1;
    ReadsAskNothing(log, init);
    assert (log + more)[..k] == log + init && (log + more)[k] == more[|more| - 1];
    assert Breaks(log + more, k, recordSize);
  }

  // All statuses but perhaps the last event say that the device is busy, which is put up with only while downloading.
  predicate OnlyBusy(more: Log, expected: int) {
    forall k: nat | k < |more| - 1 && more[k].Status? :: Good(more[k], DNBUSY) && expected == DNLOAD_IDLE
  }

  lemma OnlyBusyStill(more: Log, next: Log, expected: int)
    requires OnlyBusy(more, expected) && more != [] && next != []
    requires Good(more[|more| - 1], DNBUSY) && expected == DNLOAD_IDLE
    requires forall k: nat | k < |next| - 1 :: !next[k].Status?
    ensures OnlyBusy(more + next, expected) && (more + next)[|more + next| - 1] == next[|next| - 1]
  {
    var all := more + next;
    assert forall k: nat | |more| <= k < |all| :: all[k] == next[k - |more|];
  }

  lemma ThenMore(log: Log, more: Log, next: Log)
    ensures log + more + next == log + (more + next)
  {
  }

  lemma AskedChangesNothing(log: Log, code: Octet)
    ensures Scan(log + [Asked(code)]) == Scan(log) && Payload(log + [Asked(code)]) == Payload(log)
    ensures LastAsked(log + [Asked(code)]) == code && (AllRead(log) ==> AllRead(log + [Asked(code)]))
  {
    Appended(log, Asked(code));
    Noted(log, Asked(code));
    if AllRead(log) {
      StillAllRead(log, Asked(code));
    }
  }

  lemma QueryRead(log: Log, more: Log, answer: StatusAnswer)
    requires IsQuery(more, answer)
    ensures ReadAt(log + more, |log|, |log + more| - 1)
  {
    var got, all := more[1..|more| - 1], log + more;
    var polls := got[..|got| - 2];
    assert forall i: nat | i < |more| :: all[|log| + i] == more[i];
    assert forall i: nat | i < |got| :: got[i] == more[i + 1];
    forall i | |log| < i < |all| - 4 ensures StillBusy(all[i]) {
      assert polls[i - |log| - 1] == all[i];
    }
    assert polls[|polls| - 1] == got[|got| - 3] == all[|all| - 4];
  }

  lemma BeforeStatus(log: Log, more: Log, answer: StatusAnswer) returns (before: Log)
    requires IsQuery(more, answer)
    ensures log + more == before + [Status(answer)] && Scan(before) == Scan(log) && Payload(before) == Payload(log)
    ensures |before| == |log| + |more| - 1 && (AllRead(log) ==> AllRead(before))
  {
    var asked, got := log + [Asked(3)], more[1..|more| - 1];
    before := asked + got;
    AskedChangesNothing(log, 3);
    ReadsChangeNothing(asked, got);
  }

  lemma QueryAllRead(log: Log, more: Log, answer: StatusAnswer)
    requires IsQuery(more, answer) && AllRead(log)
    ensures AllRead(log + more)
  {
    var before := BeforeStatus(log, more, answer);
    QueryRead(log, more, answer);
    assert ReadSomewhere(before + [Status(answer)], |before|);
    StillAllRead(before, Status(answer));
  }

  lemma BadStatusBreaks(log: Log, answer: StatusAnswer, from: nat, recordSize: nat)
    requires BadStatus(Scan(log), answer) && from <= |log|
    ensures Cause(log + [Status(answer)], from, recordSize)
  {
    assert (log + [Status(answer)])[..|log|] == log;
    assert Breaks(log + [Status(answer)], |log|, recordSize);
  }

  /** A whole query counts for the session as its answer does. */
  lemma QueryEffect(log: Log, more: Log, answer: StatusAnswer, recordSize: nat)
    requires IsQuery(more, answer)
    ensures Scan(log + more) == Advance(Scan(log), Status(answer)) && Payload(log + more) == Payload(log)
    ensures AllRead(log) ==> AllRead(log + more)
    ensures BadStatus(Scan(log), answer) ==> Cause(log + more, |log|, recordSize)
  {
    var before := BeforeStatus(log, more, answer);
    Appended(before, Status(answer));
    if AllRead(log) {
      QueryAllRead(log, more, answer);
    }
    if BadStatus(Scan(log), answer) {
      BadStatusBreaks(before, answer, |log|, recordSize);
    }
  }

  lemma FailedQueryEffect(log: Log, more: Log, recordSize: nat)
    requires IsFailedQuery(more)
    ensures Scan(log + more) == Scan(log) && Payload(log + more) == Payload(log)
    ensures AllRead(log) ==> AllRead(log + more)
    ensures Cause(log + more, |log|, recordSize)
  {
    if more == [Fault] {
      ReadsChangeNothing(log, more);
      assert Breaks(log + more, |log|, recordSize);
    } else {
      var asked := log + [Asked(3)];
      assert log + more == asked + more[1..];
      AskedChangesNothing(log, 3);
      ReadsChangeNothing(asked, more[1..]);
      StoppedRead(asked, more[1..], recordSize);
      CauseSince(log + more, |log|, |asked|, recordSize);
    }
  }

  // The question for the record and what was read.
  lemma RecordEffect(log: Log, more: Log, ok: bool, recordSize: nat)
    requires Reads(more) && more != [] && (!ok ==> Stops(more[|more| - 1], true, recordSize))
    ensures var now := log + [Asked(2)] + more;
      && Scan(now) == Scan(log) && Payload(now) == Payload(log) && (AllRead(log) ==> AllRead(now))
      && (!ok ==> Cause(now, |log|, recordSize))
  {
    var asked := log + [Asked(2)];
    AskedChangesNothing(log, 2);
    ReadsChangeNothing(asked, more);
    if !ok {
      StoppedRead(asked, more, recordSize);
      CauseSince(asked + more, |log|, |asked|, recordSize);
    }
  }
}
