/** Mutual exclusion between firmware update and video: every interleaving of V4L2 opens and closes, DFU
    opens and releases, and the steps of a DFU write.

    Writes hold the mutex; opens and releases take no lock, so each of their statements is a step of its own:
    a video open checks and counts, a firmware open checks, counts and sets the flag, and a release takes
    the count back and then resets the flag. */
module DfuExclusion {
  import opened DfuFlag

  // Where the writer is that holds the mutex, if there is one.
  datatype Phase = NoWrite | Switching | Detaching | Sending | Failing

  // `count` is the driver's open count; `video` and `dfu` are the handles that are really open, `failed`
  // the DFU opens that ran out of memory after counting, and the last four are opens and releases between
  // their steps.
  datatype State = State(flag: Flag, count: int, video: nat, dfu: nat, failed: nat, phase: Phase,
                         videoChecked: nat, dfuChecked: nat, opening: nat, releasing: nat)

  // A write's `SendBlock` step is a block, or the end of the download, that goes through or fails.
  datatype Step =
    | VideoCheck
    | VideoCommit
    | VideoClose
    | DfuCheck
    | DfuCount
    | DfuCommit(hasMemory: bool)
    | WriteBegin
    | SwitchDone(ok: bool)
    | DetachDone(ok: bool)
    | SendBlock(ok: bool)
    | FinishWrite(short: bool)
    | ResetDone(ok: bool)
    | Release
    | ReleaseDone

  // Nothing is open or about to be.
  function Closed(flag: Flag): State {
    State(flag, 0, 0, 0, 0, NoWrite, 0, 0, 0, 0)
  }

  predicate Initial(s: State) {
    s == Closed(Idle) || s == Closed(Recovery)
  }

  predicate Enabled(s: State, step: Step) {
    match step
    case VideoCheck | DfuCheck => true
    case VideoCommit => s.videoChecked > 0
    case VideoClose => s.video > 0
    case DfuCount => s.dfuChecked > 0
    case DfuCommit(_) => s.opening > 0
    case WriteBegin => s.dfu > 0 && s.phase == NoWrite
    case SwitchDone(_) => s.phase == Switching
    case DetachDone(_) => s.phase == Detaching
    case SendBlock(_) | FinishWrite(_) => s.phase == Sending
    case ResetDone(_) => s.phase == Failing
    case Release => s.dfu > (if s.phase == NoWrite then 0 else 1)  // not the file that is being written
    case ReleaseDone => s.releasing > 0
  }

  function WriteFailed(s: State): State {
    s.(flag := Error, phase := Failing)
  }

  function Do(s: State, step: Step): State
    requires Enabled(s, step)
  {
    match step
    case VideoCheck => if s.flag != Idle then s else s.(videoChecked := s.videoChecked + 1)
    case VideoCommit => s.(videoChecked := s.videoChecked - 1, count := s.count + 1, video := s.video + 1)
    case VideoClose => s.(count := s.count - 1, video := s.video - 1)
    case DfuCheck => if s.count != 0 then s else s.(dfuChecked := s.dfuChecked + 1)
    case DfuCount => s.(dfuChecked := s.dfuChecked - 1, count := s.count + 1, opening := s.opening + 1)
    case DfuCommit(hasMemory) =>
      var flagged := s.(opening := s.opening - 1, flag := if s.flag == Recovery then Recovery else Open);
      if hasMemory then flagged.(dfu := s.dfu + 1) else flagged.(failed := s.failed + 1)
    case WriteBegin =>
      (match s.flag
       case Open => s.(phase := Switching)
       case Recovery => s.(phase := Detaching)
       case InProgress => s.(phase := Sending)
       case _ => WriteFailed(s))
    case SwitchDone(ok) => if ok then s.(phase := Detaching) else WriteFailed(s)
    case DetachDone(ok) => if ok then s.(flag := InProgress, phase := Sending) else WriteFailed(s)
    case SendBlock(ok) => if ok then s else WriteFailed(s)
    case FinishWrite(short) => s.(flag := if short then Done else s.flag, phase := NoWrite)
    case ResetDone(ok) => s.(flag := if ok then Idle else s.flag, phase := NoWrite)
    case Release => s.(count := s.count - 1, dfu := s.dfu - 1, releasing := s.releasing + 1)
    case ReleaseDone => s.(releasing := s.releasing - 1, flag := if s.flag == Recovery then Recovery else Idle)
  }

  predicate Runs(s: State, steps: seq<Step>)
    decreases |steps|
  {
    steps == [] || (Enabled(s, steps[0]) && Runs(Do(s, steps[0]), steps[1..]))
  }

  function After(s: State, steps: seq<Step>): State
    requires Runs(s, steps)
    decreases |steps|
  {
    if steps == [] then s else After(Do(s, steps[0]), steps[1..])
  }

  // While the flag keeps video out, and while firmware is being sent, no video handle is open.
  predicate Exclusive(s: State) {
    s.flag.Busy() || s.phase == Sending ==> s.video == 0
  }

  // A video open that commits although the update has begun since it checked, or a firmware open, or a
  // write that gets to sending, while a video handle is open.
  predicate Collides(s: State, step: Step) {
    match step
    case VideoCommit => s.flag.Busy() || s.phase == Sending
    case DfuCommit(_) => s.video > 0
    case DetachDone(ok) => ok && s.video > 0
    case _ => false
  }

  /** A step out of an exclusive state loses exclusion exactly if it is one of these three. */
  lemma StepLosesExclusionExactly(s: State, step: Step)
    requires Exclusive(s) && Enabled(s, step)
    ensures Exclusive(Do(s, step)) <==> !Collides(s, step)
  {
  }

  // The state before step `n` of a run.
  function StateAt(s: State, steps: seq<Step>, n: nat): State
    requires Runs(s, steps) && n <= |steps|
    decreases n
  {
    if n == 0 then s else StateAt(Do(s, steps[0]), steps[1..], n - 1)
  }

  lemma {:induction false} NextState(s: State, steps: seq<Step>, n: nat)
    requires Runs(s, steps) && n < |steps|
    ensures Enabled(StateAt(s, steps, n), steps[n])
    ensures StateAt(s, steps, n + 1) == Do(StateAt(s, steps, n), steps[n])
    decreases n
  {
    if n == 0 {
    } else {
      NextState(Do(s, steps[0]), steps[1..], n - 1);
    }
  }

  lemma {:induction false} ExclusiveUpTo(s: State, steps: seq<Step>, n: nat)
    requires Runs(s, steps) && n <= |steps| && Exclusive(s)
    ensures (forall k: nat | k <= n :: Exclusive(StateAt(s, steps, k))) <==>
            (forall k: nat | k < n :: !Collides(StateAt(s, steps, k), steps[k]))
    decreases n
  {
    if n == 0 {
    } else {
      ExclusiveUpTo(s, steps, n - 1);
      NextState(s, steps, n - 1);
      if Exclusive(StateAt(s, steps, n - 1)) {
        StepLosesExclusionExactly(StateAt(s, steps, n - 1), steps[n - 1]);
      }
    }
  }

  /** Over every interleaving of any number of handles, with any mixture of failed allocations, writes and
      resets: video and firmware update exclude each other throughout if and only if no step collides. */
  lemma RunExclusiveExactly(s: State, steps: seq<Step>)
    requires Initial(s) && Runs(s, steps)
    ensures (forall n: nat | n <= |steps| :: Exclusive(StateAt(s, steps, n))) <==>
            (forall n: nat | n < |steps| :: !Collides(StateAt(s, steps, n), steps[n]))
  {
    ExclusiveUpTo(s, steps, |steps|);
  }

  // A check that passes while an open of the other kind, or another firmware open, is not through.
  predicate OverlapsOpen(s: State, step: Step) {
    match step
    case VideoCheck => s.flag == Idle && (s.dfuChecked > 0 || s.opening > 0)
    case DfuCheck => s.count == 0 && (s.dfuChecked > 0 || s.opening > 0 || s.videoChecked > 0)
    case _ => false
  }

  predicate OverlapsRelease(s: State, step: Step) {
    step.DfuCheck? && s.count == 0 && s.releasing > 0
  }

  // No firmware open overlaps another open. Video opens may overlap each other.
  predicate OpensApart(s: State, steps: seq<Step>)
    requires Runs(s, steps)
    decreases |steps|
  {
    steps == [] || (!OverlapsOpen(s, steps[0]) && OpensApart(Do(s, steps[0]), steps[1..]))
  }

  predicate Overlaps(s: State, step: Step) {
    OverlapsOpen(s, step) || OverlapsRelease(s, step)
  }

  // No firmware open overlaps another open or a release.
  predicate OpensInTurn(s: State, steps: seq<Step>)
    requires Runs(s, steps)
    decreases |steps|
  {
    steps == [] || (!Overlaps(s, steps[0]) && OpensInTurn(Do(s, steps[0]), steps[1..]))
  }

  // At most one firmware file is open, being opened or being released; `count - video` of these are counted.
  predicate Invariant(s: State) {
    && Exclusive(s)
    && s.count == s.video + s.dfu + s.failed + s.opening
    && s.dfuChecked + s.releasing <= 1 - (s.count - s.video)
    && (s.dfuChecked > 0 || s.opening > 0 ==> s.videoChecked == 0 && s.video == 0)
    && (s.videoChecked > 0 ==> s.flag == Idle || s.flag == Error)
    && (s.phase != NoWrite ==> s.dfu > 0)
    && (s.phase == Switching ==> s.flag == Open)
    && (s.phase == Detaching ==> s.flag == Open || s.flag == Recovery)
    && (s.phase == Sending <==> s.flag == InProgress && s.phase != NoWrite)
    && (s.phase == Failing ==> s.flag == Error)
    && (s.failed > 0 ==> s.flag.Fresh())
  }

  lemma InitialInvariant(s: State)
    requires Initial(s)
    ensures Invariant(s)
  {
  }

  // A device that has just been set up.
  lemma Start(flag: Flag) returns (s: State)
    requires flag == Idle || flag == Recovery
    ensures Invariant(s)
    ensures s.flag == flag && s.phase == NoWrite && s.count == s.dfu == 0
    ensures s.videoChecked == s.dfuChecked == s.opening == s.releasing == 0
  {
    s := Closed(flag);
  }

  lemma StepKeepsInvariant(s: State, step: Step)
    requires Invariant(s) && Enabled(s, step)
    requires !Overlaps(s, step)
    ensures Invariant(Do(s, step))
  {
  }

  // A DFU open from check to commit, with nothing in between.
  function DfuOpened(s: State, hasMemory: bool): State {
    var counted := s.(flag := if s.flag == Recovery then Recovery else Open, count := s.count + 1);
    if hasMemory then counted.(dfu := s.dfu + 1) else counted.(failed := s.failed + 1)
  }

  lemma DfuOpenSteps(s: State, hasMemory: bool)
    requires s.count == 0
    ensures var checked := Do(s, DfuCheck);
      && Enabled(checked, DfuCount) && Enabled(Do(checked, DfuCount), DfuCommit(hasMemory))
      && Do(Do(checked, DfuCount), DfuCommit(hasMemory)) == DfuOpened(s, hasMemory)
  {
  }

  lemma {:induction false} RunKeepsInvariant(s: State, steps: seq<Step>)
    requires Invariant(s) && Runs(s, steps) && OpensInTurn(s, steps)
    ensures Invariant(After(s, steps))
    decreases |steps|
  {
    if steps == [] {
    } else {
      StepKeepsInvariant(s, steps[0]);
      RunKeepsInvariant(Do(s, steps[0]), steps[1..]);
    }
  }

  /** After any run in which no firmware open overlaps another open or a release, with any mixture of failed
      allocations, writes and resets: while the flag says recovery, open, in progress or done no video handle
      is open, and a firmware block is only ever sent in such a state. */
  lemma NoFirmwareWhileVideoIsOpen(s: State, steps: seq<Step>)
    requires Initial(s) && Runs(s, steps) && OpensInTurn(s, steps)
    ensures var now := After(s, steps); (now.flag.Busy() || Enabled(now, SendBlock(true))) ==> now.video == 0
  {
    InitialInvariant(s);
    NoFirmwareFrom(s, steps);
  }

  lemma NoFirmwareFrom(s: State, steps: seq<Step>)
    requires Invariant(s) && Runs(s, steps) && OpensInTurn(s, steps)
    ensures var now := After(s, steps); (now.flag.Busy() || Enabled(now, SendBlock(true))) ==> now.video == 0
  {
    RunKeepsInvariant(s, steps);
    assert Exclusive(After(s, steps));
  }

  /** At most one DFU open is ever outstanding, and one that failed for lack of memory keeps video out for good. */
  lemma {:induction false} FailedOpenKeepsVideoOut(s: State, steps: seq<Step>)
    requires Invariant(s) && s.failed > 0 && Runs(s, steps) && OpensInTurn(s, steps)
    ensures var now := After(s, steps); now.failed > 0 && now.flag == s.flag && now.video == 0 && now.dfu == 0
    decreases |steps|
  {
    if steps == [] {
    } else {
      StepKeepsInvariant(s, steps[0]);
      FailedOpenKeepsVideoOut(Do(s, steps[0]), steps[1..]);
    }
  }

  // ----- Runs that lose exclusion -----

  // A run of one more step, named so that the proofs below need not unfold it.
  lemma RunCons(s: State, step: Step, next: State, rest: seq<Step>) returns (steps: seq<Step>)
    requires Enabled(s, step) && next == Do(s, step) && Runs(next, rest)
    ensures Runs(s, steps) && After(s, steps) == After(next, rest)
    ensures OpensInTurn(s, steps) ==> OpensInTurn(next, rest) && !Overlaps(s, step)
    ensures OpensApart(s, steps) <==> OpensApart(next, rest) && !OverlapsOpen(s, step)
  {
    steps := [step] + rest;
    assert steps[1..] == rest;
  }

  // `video` handles open, `dfu` files, and so many of each kind of open and release under way.
  function At(flag: Flag, video: nat, dfu: nat, phase: Phase, videoChecked: nat, dfuChecked: nat, opening: nat,
              releasing: nat): State {
    State(flag, video + dfu + opening, video, dfu, 0, phase, videoChecked, dfuChecked, opening, releasing)
  }

  predicate SendsBesideVideo(s: State, steps: seq<Step>) {
    Runs(s, steps) && Enabled(After(s, steps), SendBlock(true)) && After(s, steps).video == 1
  }

  // A write to an open file gets as far as sending; the other handles are `video`, `dfu` and `releasing`.
  lemma WriteGoesOn(video: nat, dfu: nat, releasing: nat, rest: seq<Step>) returns (steps: seq<Step>)
    requires dfu > 0 && SendsBesideVideo(At(InProgress, video, dfu, Sending, 0, 0, 0, releasing), rest)
    ensures SendsBesideVideo(At(Open, video, dfu, NoWrite, 0, 0, 0, releasing), steps)
    ensures OpensApart(At(InProgress, video, dfu, Sending, 0, 0, 0, releasing), rest) ==>
      OpensApart(At(Open, video, dfu, NoWrite, 0, 0, 0, releasing), steps)
  {
    var waiting := At(Open, video, dfu, NoWrite, 0, 0, 0, releasing);
    var switching := At(Open, video, dfu, Switching, 0, 0, 0, releasing);
    var detaching := At(Open, video, dfu, Detaching, 0, 0, 0, releasing);
    var sending := At(InProgress, video, dfu, Sending, 0, 0, 0, releasing);
    steps := RunCons(detaching, DetachDone(true), sending, rest);
    steps := RunCons(switching, SwitchDone(true), detaching, steps);
    steps := RunCons(waiting, WriteBegin, switching, steps);
  }

  // A firmware open that has checked gets through.
  lemma OpenGoesOn(videoChecked: nat, dfu: nat, dfuChecked: nat, releasing: nat, flag: Flag, rest: seq<Step>)
      returns (steps: seq<Step>)
    requires flag != Recovery
    requires SendsBesideVideo(At(Open, 0, dfu + 1, NoWrite, videoChecked, dfuChecked, 0, releasing), rest)
    ensures var checked := At(flag, 0, dfu, NoWrite, videoChecked, dfuChecked + 1, 0, releasing);
      var done := At(Open, 0, dfu + 1, NoWrite, videoChecked, dfuChecked, 0, releasing);
      && SendsBesideVideo(checked, steps)
      && (OpensApart(done, rest) ==> OpensApart(checked, steps))
      && (OpensInTurn(checked, steps) ==> OpensInTurn(done, rest))
  {
    var checked := At(flag, 0, dfu, NoWrite, videoChecked, dfuChecked + 1, 0, releasing);
    var counted := At(flag, 0, dfu, NoWrite, videoChecked, dfuChecked, 1, releasing);
    var done := At(Open, 0, dfu + 1, NoWrite, videoChecked, dfuChecked, 0, releasing);
    steps := RunCons(counted, DfuCommit(true), done, rest);
    steps := RunCons(checked, DfuCount, counted, steps);
  }

  // Once a release resets the flag while another file is being written, video opens.
  lemma VideoOpensBesideWrite(dfu: nat) returns (steps: seq<Step>)
    requires dfu > 0
    ensures var s := At(InProgress, 0, dfu, Sending, 0, 0, 0, 1); SendsBesideVideo(s, steps) && OpensApart(s, steps)
  {
    var released, checked := At(Idle, 0, dfu, Sending, 0, 0, 0, 0), At(Idle, 0, dfu, Sending, 1, 0, 0, 0);
    steps := RunCons(checked, VideoCommit, At(Idle, 1, dfu, Sending, 0, 0, 0, 0), []);
    steps := RunCons(released, VideoCheck, checked, steps);
    steps := RunCons(At(InProgress, 0, dfu, Sending, 0, 0, 0, 1), ReleaseDone, released, steps);
  }

  lemma WriteBesideVideo() returns (steps: seq<Step>)
    ensures SendsBesideVideo(At(Open, 1, 1, NoWrite, 0, 0, 0, 0), steps)
  {
    steps := [];
    assert SendsBesideVideo(At(InProgress, 1, 1, Sending, 0, 0, 0, 0), steps);
    steps := WriteGoesOn(1, 1, 0, steps);
  }

  // Both opens have checked, and the firmware open goes through first.
  lemma BothGoOn() returns (steps: seq<Step>)
    ensures SendsBesideVideo(At(Idle, 0, 0, NoWrite, 1, 1, 0, 0), steps)
  {
    var waiting := At(Open, 0, 1, NoWrite, 1, 0, 0, 0);
    steps := WriteBesideVideo();
    steps := RunCons(waiting, VideoCommit, At(Open, 1, 1, NoWrite, 0, 0, 0, 0), steps);
    steps := OpenGoesOn(1, 0, 0, 0, Idle, steps);
  }

  /** When opens do overlap exclusion can fail: a video open checks, a DFU open goes through, and the video
      open commits. The firmware block that follows is sent with a video handle open. */
  lemma OverlappingOpensLoseExclusion() returns (start: State, steps: seq<Step>)
    ensures Initial(start) && SendsBesideVideo(start, steps) && !OpensApart(start, steps)
  {
    start := Closed(Idle);
    var checked, both := At(Idle, 0, 0, NoWrite, 1, 0, 0, 0), At(Idle, 0, 0, NoWrite, 1, 1, 0, 0);
    steps := BothGoOn();
    steps := RunCons(checked, DfuCheck, both, steps);
    steps := RunCons(start, VideoCheck, checked, steps);
  }

  // Two files are open; one is written and the other one closed meanwhile.
  lemma WriteOfOneOfTwo() returns (steps: seq<Step>)
    ensures SendsBesideVideo(At(Open, 0, 2, NoWrite, 0, 0, 0, 0), steps)
  {
    var sending := At(InProgress, 0, 2, Sending, 0, 0, 0, 0);
    steps := VideoOpensBesideWrite(1);
    steps := RunCons(sending, Release, At(InProgress, 0, 1, Sending, 0, 0, 0, 1), steps);
    steps := WriteGoesOn(0, 2, 0, steps);
  }

  lemma TwoFilesGoOn() returns (steps: seq<Step>)
    ensures SendsBesideVideo(At(Idle, 0, 0, NoWrite, 0, 2, 0, 0), steps)
  {
    steps := WriteOfOneOfTwo();
    steps := OpenGoesOn(0, 1, 0, 0, Open, steps);
    steps := OpenGoesOn(0, 0, 1, 0, Idle, steps);
  }

  /** Two firmware opens that overlap are enough: closing one file during the other's write makes the flag
      idle, video opens, and the block loop goes on. */
  lemma SecondFileLosesExclusion() returns (start: State, steps: seq<Step>)
    ensures Initial(start) && SendsBesideVideo(start, steps) && !OpensApart(start, steps)
  {
    start := Closed(Idle);
    var one, two := At(Idle, 0, 0, NoWrite, 0, 1, 0, 0), At(Idle, 0, 0, NoWrite, 0, 2, 0, 0);
    steps := TwoFilesGoOn();
    steps := RunCons(one, DfuCheck, two, steps);
    steps := RunCons(start, DfuCheck, one, steps);
  }

  // A firmware open that has checked between the two steps of a release.
  lemma LateResetGoesOn() returns (steps: seq<Step>)
    ensures var s := At(Open, 0, 0, NoWrite, 0, 1, 0, 1); SendsBesideVideo(s, steps) && OpensApart(s, steps)
  {
    steps := VideoOpensBesideWrite(1);
    steps := WriteGoesOn(0, 1, 1, steps);
    steps := OpenGoesOn(0, 0, 0, 1, Open, steps);
  }

  // The only open file is closed, and opened again before the flag is reset.
  lemma ReopenedFileGoesOn() returns (steps: seq<Step>)
    ensures var s := At(Open, 0, 1, NoWrite, 0, 0, 0, 0);
      SendsBesideVideo(s, steps) && OpensApart(s, steps) && !OpensInTurn(s, steps)
  {
    var released := At(Open, 0, 0, NoWrite, 0, 0, 0, 1);
    steps := LateResetGoesOn();
    steps := RunCons(released, DfuCheck, At(Open, 0, 0, NoWrite, 0, 1, 0, 1), steps);
    steps := RunCons(At(Open, 0, 1, NoWrite, 0, 0, 0, 0), Release, released, steps);
  }

  /** So is a firmware open that overlaps a release, though no open overlaps another: between the two steps of
      the release the file is opened again and written, the flag is reset under the write, and video opens. */
  lemma LateReleaseLosesExclusion() returns (start: State, steps: seq<Step>)
    ensures Initial(start) && SendsBesideVideo(start, steps) && OpensApart(start, steps) && !OpensInTurn(start, steps)
  {
    start := Closed(Idle);
    steps := ReopenedFileGoesOn();
    steps := OpenGoesOn(0, 0, 0, 0, Idle, steps);
    steps := RunCons(start, DfuCheck, At(Idle, 0, 0, NoWrite, 0, 1, 0, 0), steps);
  }
}
