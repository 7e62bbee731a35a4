/** Shutdown of the audio pipeline: once `running` is false every interleaving ends, and ends well. */
module AudioShutdown {
  import opened FrameSlots
  import opened AudioPipeline
  import opened AudioInvariant
  import S = SpscRing
  import M = MpscPool

  predicate AllDone(s: State) { s.cap.CapDone? && s.codec.CdDone? && s.play.PbDone? }

  predicate IsSpurious(step: Step) { step == PbPool(M.ConsSpurious) }

  // ---- No reachable state is stuck ----

  /** Some thread can move without a second Stop and without a spurious wakeup. */
  ghost predicate CanProgress(s: State)
    requires WellFormed(s)
  {
    exists step :: Enabled(s, step) && !step.Stop? && !IsSpurious(step)
  }

  function NextCaptureStep(s: State): Step {
    match s.cap
    case CapCheck => CapTest
    case CapAcquire =>
      CapPool(if s.sp.prod.ProdIdle? then S.ProdLoadWrite
              else if s.sp.prod.ProdSawWrite? then S.ProdLoadRead else S.ProdCas)
    case CapDiscard => CapDiscardRead(Ok)
    case CapRead(_) => CapReadFail(false)
    case CapCommit => CapCommits
    case CapFailed(_) => CapHandleFail
    case _ => CapStoreError
  }

  lemma CaptureMoves(s: State)
    requires CaptureFacts(s) && WellFormed(s) && !s.cap.CapDone?
    ensures CaptureEnabled(s, NextCaptureStep(s))
  {
  }

  /** A device that delivers a whole period can always be accommodated: the buffer has room for every byte. */
  lemma CaptureHasRoom(s: State, b: byte)
    requires Buffers(s) && CaptureFacts(s) && WellFormed(s) && s.cap.CapRead?
    ensures s.cap.k < s.cfg.capacity ==> Enabled(s, CapByte(b))
    ensures s.cap.k in s.cfg.readSizes ==> Enabled(s, CapReadOk)
  {
  }

  function NextDequeueStep(pc: S.ConsumerPc): S.Step {
    match pc
    case ConsIdle => S.ConsLoadWrite
    case ConsSawWrite(_) => S.ConsLoadRead
    case ConsCheck(_) => S.ConsLoadRef
    case ConsAdvance(_) => S.ConsFetchAdd
  }

  function NextPublishStep(pc: M.ProducerPc): M.Step {
    match pc
    case ProdOwn(_) => M.ProdMark(0)
    case ProdMarked(_) => M.ProdLock(0)
    case ProdLocked => M.ProdAdd(0)
    case ProdAdded => M.ProdSignal(0)
    case _ => M.ProdRelinquish(0)
  }

  function NextCodecStep(s: State): Step
    requires WellFormed(s)
  {
    var pc := s.mp.prods[0];
    match s.codec
    case CdCheck => CdTest
    case CdDequeue => CdPool(NextDequeueStep(s.sp.cons))
    case CdDrain => CdPool(NextDequeueStep(s.sp.cons))
    case CdAcquire(_) => CdScan(if pc.ProdIdle? then M.ProdBegin(0) else M.ProdCas(0))
    case CdSentinel(_) => CdScan(if pc.ProdIdle? then M.ProdBegin(0) else M.ProdCas(0))
    case CdDrop(_) => CdDropRelease
    case CdCopy(i, k) => if k < s.sp.slots[i].size then CdByte else CdSetSize
    case CdReleaseSp(_) => CdReleasesSp
    case CdEnqueue => CdPublish(NextPublishStep(pc))
    case CdSentinelEnqueue => CdPublish(NextPublishStep(pc))
    case CdDrainRelease(_) => CdDrainReleases
    case _ => CdSentinelZero
  }

  /** Waiting for the mutex is the only thing that can hold the codec thread up. */
  predicate CodecWaits(s: State)
    requires |s.mp.prods| == 1
  {
    s.mp.prods[0].ProdMarked? && !s.mp.mutex.Nobody?
  }

  lemma CodecMoves(s: State)
    requires CodecFacts(s) && WellFormed(s) && !s.codec.CdDone? && !CodecWaits(s)
    ensures CodecEnabled(s, NextCodecStep(s))
  {
  }

  function NextMpDequeueStep(pc: M.ConsumerPc): M.Step {
    match pc
    case ConsIdle => M.ConsBegin
    case ConsTest => M.ConsLoadPending
    case ConsScan(_) => M.ConsLoadRef
    case ConsFound(_) => M.ConsTake
    case ConsMissed => M.ConsTakeNothing
    case ConsUnlock(_) => M.ConsRelinquish
    case ConsUnlockNull => M.ConsRelinquish
    case _ => M.ConsLock
  }

  function NextPlaybackStep(s: State): Step {
    match s.play
    case PbCheck => PbTest
    case PbDequeue => PbPool(NextMpDequeueStep(s.mp.cons))
    case PbGot => PbReadSize
    case PbWrite => PbWritten(Ok)
    case PbGiveUp => PbStoreError
    case _ => PbReleases
  }

  /** Playback is held up only by the mutex or asleep on the condition. */
  predicate PlaybackWaits(s: State) {
    s.play.PbDequeue? &&
    (s.mp.cons.ConsSleep? || ((s.mp.cons.ConsWant? || s.mp.cons.ConsWoken?) && !s.mp.mutex.Nobody?))
  }

  lemma PlaybackMoves(s: State)
    requires PlaybackFacts(s) && WellFormed(s) && !s.play.PbDone? && !PlaybackWaits(s)
    ensures PlaybackEnabled(s, NextPlaybackStep(s)) && !IsSpurious(NextPlaybackStep(s))
  {
  }

  /** Whoever holds the mutex can move. */
  lemma MutexHolderMoves(s: State)
    requires M.MutexOk(s.mp) && CodecFacts(s) && PlaybackFacts(s) && WellFormed(s) && !s.mp.mutex.Nobody?
    ensures CodecEnabled(s, NextCodecStep(s)) ||
            (PlaybackEnabled(s, NextPlaybackStep(s)) && !IsSpurious(NextPlaybackStep(s)))
  {
    if s.mp.mutex.Producer? {
      assert M.InsideLock(s.mp.prods[0]);
      CodecMoves(s);
    } else {
      assert M.ConsumerInsideLock(s.mp.cons);
      PlaybackMoves(s);
    }
  }

  lemma InvCanProgress(s: State)
    requires Inv(s) && WellFormed(s) && !AllDone(s)
    ensures CanProgress(s)
  {
    if !s.cap.CapDone? {
      CaptureMoves(s);
      assert Enabled(s, NextCaptureStep(s));
    } else if !s.mp.mutex.Nobody? {
      MutexHolderMoves(s);
      assert Enabled(s, NextCodecStep(s)) || Enabled(s, NextPlaybackStep(s));
    } else if !s.codec.CdDone? {
      CodecMoves(s);
      assert Enabled(s, NextCodecStep(s));
    } else {
      assert SentinelSettled(s);
      PlaybackMoves(s);
      assert Enabled(s, NextPlaybackStep(s));
    }
  }

  /**
    No deadlock: every reachable state in which some thread has not ended allows a step of some thread
    that needs no spurious wakeup and no Stop. In particular playback is never left asleep after the
    codec thread has gone, even when every one of the sentinel tries met a full pool.
  */
  lemma NeverStuck(cfg: Config, spMemory: seq<seq<byte>>, mpMemory: seq<seq<byte>>, s: State)
    requires Reachable(cfg, spMemory, mpMemory, s) && !AllDone(s)
    ensures WellFormed(s) && CanProgress(s)
  {
    ReachableInv(cfg, spMemory, mpMemory, s);
    InvCanProgress(s);
  }

  /** Once all threads have ended, at most one committed frame is left in the ring, and nobody holds any. */
  lemma AtMostOneFrameLeft(cfg: Config, spMemory: seq<seq<byte>>, mpMemory: seq<seq<byte>>, s: State)
    requires Reachable(cfg, spMemory, mpMemory, s) && AllDone(s)
    ensures s.sp.readIdx <= s.sp.writeIdx <= s.sp.readIdx + 1
    ensures s.sp.held == {} && s.mp.mutex.Nobody? && !s.sp.prod.ProdOwn?
  {
    ReachableInv(cfg, spMemory, mpMemory, s);
  }

  /** A capture or playback thread that ends while the stream runs has set the error flag. */
  lemma EarlyExitIsReported(cfg: Config, spMemory: seq<seq<byte>>, mpMemory: seq<seq<byte>>, s: State)
    requires Reachable(cfg, spMemory, mpMemory, s) && s.running && (s.cap.CapDone? || s.play.PbDone?)
    ensures s.error
  {
    ReachableInv(cfg, spMemory, mpMemory, s);
  }

  // ---- A bound on the steps still to come ----

  /** Steps that many full-pool sentinel tries can take, over a pool of n slots. */
  function Tries(count: nat, n: nat): nat {
    if count == 0 then 0 else n + 2 + Tries(count - 1, n)
  }

  function CaptureLeft(s: State): int {
    match s.cap
    case CapDone => 0
    case CapCheck => 1
    case CapGiveUp => 1
    case CapFailed(_) => 2
    case CapCommit => 2
    case CapDiscard => 2
    case CapRead(k) => s.cfg.capacity - k + 3
    case CapAcquire => s.cfg.capacity + (match s.sp.prod case ProdIdle => 7 case ProdSawWrite(_) => 6 case _ => 5)
  }

  /** Frames the drain loop may still find. */
  function ToDrain(s: State): int { s.sp.writeIdx + MayCommit(s.cap) - s.sp.readIdx }

  /** Publishing steps left, 3 of them paying for the wakeup that the signal may cause. */
  function PublishLeft(pc: M.ProducerPc): int {
    match pc
    case ProdOwn(_) => 7
    case ProdMarked(_) => 6
    case ProdLocked => 5
    case ProdAdded => 4
    case _ => 1
  }

  function ScanLeft(pc: M.ProducerPc, n: nat): int {
    match pc case ProdScan(i) => n - i case _ => n + 1
  }

  function DequeueLeft(pc: S.ConsumerPc): int {
    match pc case ConsIdle => 5 case ConsSawWrite(_) => 4 case ConsCheck(_) => 3 case ConsAdvance(_) => 2
  }

  function CodecLeft(s: State): int
    requires WellFormed(s)
  {
    var n, pc := |s.mp.slots|, s.mp.prods[0];
    var drain := Tries(SENTINEL_TRIES, n) + 20 + 6 * ToDrain(s);
    var loop := drain + 6;
    match s.codec
    case CdDone => 0
    case CdSentinelEnqueue => PublishLeft(pc)
    case CdSentinelSize => 8
    case CdSentinel(retry) =>
      (if retry < SENTINEL_TRIES then Tries(SENTINEL_TRIES - 1 - retry, n) else 0) + 9 + ScanLeft(pc, n)
    case CdDrain => drain + DequeueLeft(s.sp.cons)
    case CdDrainRelease(_) => drain + 6
    case CdCheck => loop
    case CdEnqueue => loop + PublishLeft(pc)
    case CdReleaseSp(_) => loop + 8
    case CdCopy(i, k) => loop + 9 + s.sp.slots[i].size - k
    case CdDrop(_) => loop + 1
    case CdAcquire(_) => loop + 10 + s.cfg.capacity + ScanLeft(pc, n)
    case CdDequeue => loop + 12 + s.cfg.capacity + n + DequeueLeft(s.sp.cons)
  }

  function PlaybackLeft(s: State): int {
    var n := |s.mp.slots|;
    match s.play
    case PbDone => 0
    case PbCheck => 1
    case PbReleaseLast => 1
    case PbRelease => 2
    case PbGiveUp => 2
    case PbWrite => 3
    case PbGot => 4
    case PbDequeue =>
      (match s.mp.cons
       case ConsUnlock(_) => 5
       case ConsUnlockNull => 5
       case ConsFound(_) => 6
       case ConsMissed => 6
       case ConsScan(i) => 6 + n - i
       case ConsSleep => n + 7
       case ConsTest => n + 8
       case ConsIdle => n + 10
       case _ => n + 9)
  }

  /** An upper bound on the steps the three threads can still take, spurious wakeups aside. */
  function StepsLeft(s: State): int
    requires WellFormed(s)
  {
    CaptureLeft(s) + CodecLeft(s) + PlaybackLeft(s)
  }

  lemma StepsLeftNatural(s: State)
    requires Inv(s) && WellFormed(s)
    ensures StepsLeft(s) >= 0
  {
  }

  /** Capture can only lower the number of frames still to drain, and moves nothing else of the others'. */
  lemma CaptureLeavesCodecCount(s: State, s': State)
    requires WellFormed(s) && WellFormed(s') && CodecFacts(s) && CaptureFrame(s, s') && ToDrain(s') <= ToDrain(s)
    ensures CodecLeft(s') <= CodecLeft(s)
  {
  }

  lemma CaptureLeavesPlaybackCount(s: State, s': State)
    requires CaptureFrame(s, s')
    ensures PlaybackLeft(s') == PlaybackLeft(s)
  {
  }

  lemma CaptureCounts(s: State, step: Step)
    requires WellFormed(s) && CaptureAt(s) && !s.running && CaptureEnabled(s, step)
    ensures CaptureLeft(CaptureStep(s, step)) < CaptureLeft(s)
    ensures ToDrain(CaptureStep(s, step)) <= ToDrain(s)
  {
  }

  lemma CaptureStepCounts(s: State, step: Step, s': State)
    requires WellFormed(s) && CaptureEnabled(s, step) && s' == CaptureStep(s, step)
    requires WellFormed(s') && CaptureAt(s) && !s.running && CodecFacts(s) && CaptureFrame(s, s')
    ensures StepsLeft(s') < StepsLeft(s)
  {
    CaptureCounts(s, step);
    CaptureLeavesCodecCount(s, s');
    CaptureLeavesPlaybackCount(s, s');
  }

  lemma PlaybackLeavesCodecCount(s: State, s': State)
    requires WellFormed(s) && WellFormed(s') && PlaybackFrame(s, s')
    ensures CodecLeft(s') == CodecLeft(s) && CaptureLeft(s') == CaptureLeft(s)
  {
  }

  lemma PlaybackCounts(s: State, step: Step)
    requires PlaybackFacts(s) && WellFormed(s) && !s.running && PlaybackEnabled(s, step)
    ensures PlaybackLeft(PlaybackStep(s, step)) < PlaybackLeft(s) + if IsSpurious(step) then 3 else 0
  {
  }

  lemma PlaybackStepCounts(s: State, step: Step)
    requires PlaybackFacts(s) && WellFormed(s) && !s.running && PlaybackEnabled(s, step)
    requires WellFormed(PlaybackStep(s, step)) && PlaybackFrame(s, PlaybackStep(s, step))
    ensures StepsLeft(PlaybackStep(s, step)) < StepsLeft(s) + if IsSpurious(step) then 3 else 0
  {
    PlaybackCounts(s, step);
    PlaybackLeavesCodecCount(s, PlaybackStep(s, step));
  }

  predicate IsSignal(step: Step) { step == CdPublish(M.ProdSignal(0)) }

  lemma PublishMovesPlaybackLittle(s: State, step: Step)
    requires WellFormed(s) && CodecEnabled(s, step) && step.CdPublish?
    ensures PlaybackLeft(CodecStep(s, step)) <= PlaybackLeft(s) + if IsSignal(step) then 2 else 0
  {
  }

  lemma CodecLeavesPlayback(s: State, step: Step)
    requires WellFormed(s) && CodecEnabled(s, step) && !step.CdPublish?
    ensures var s' := CodecStep(s, step);
            s'.mp.cons == s.mp.cons && s'.play == s.play && |s'.mp.slots| == |s.mp.slots|
  {
  }

  /** Only the signal can send playback back, from sleep to the retaking of the mutex. */
  lemma CodecMovesPlaybackLittle(s: State, step: Step)
    requires WellFormed(s) && CodecEnabled(s, step)
    ensures PlaybackLeft(CodecStep(s, step)) <= PlaybackLeft(s) + if IsSignal(step) then 2 else 0
  {
    if step.CdPublish? { PublishMovesPlaybackLittle(s, step); } else { CodecLeavesPlayback(s, step); }
  }

  lemma CodecTestCounts(s: State, step: Step)
    requires S.Inv(s.sp) && WellFormed(s) && !s.running && CodecEnabled(s, step) && step.CdTest?
    requires CodecFacts(s) && WellFormed(CodecStep(s, step))
    ensures CodecLeft(CodecStep(s, step)) < CodecLeft(s)
  {
  }

  lemma CodecDequeueCounts(s: State, step: Step)
    requires S.WellFormed(s.sp) && S.ConsumerOk(s.sp) && WellFormed(s) && CodecEnabled(s, step) && step.CdPool?
    requires s.sp.readIdx <= s.sp.writeIdx && |s.mp.prods| == 1 && CodecAt(s) && WellFormed(CodecStep(s, step))
    ensures CodecLeft(CodecStep(s, step)) < CodecLeft(s)
  {
    assert Tries(SENTINEL_TRIES, |s.mp.slots|) == |s.mp.slots| + 2 + Tries(SENTINEL_TRIES - 1, |s.mp.slots|);
  }

  lemma CodecScanCounts(s: State, step: Step)
    requires WellFormed(s) && Buffers(s) && CodecAt(s) && CodecEnabled(s, step) && step.CdScan?
    requires WellFormed(CodecStep(s, step))
    requires s.codec.CdAcquire? ==> s.codec.i < |s.sp.slots|
    ensures CodecLeft(CodecStep(s, step)) < CodecLeft(s)
  {
    var n := |s.mp.slots|;
    if s.codec.CdSentinel? && s.codec.retry + 1 < SENTINEL_TRIES {
      assert Tries(SENTINEL_TRIES - 1 - s.codec.retry, n) == n + 2 + Tries(SENTINEL_TRIES - 2 - s.codec.retry, n);
    }
  }

  lemma CodecPublishCounts(s: State, step: Step)
    requires WellFormed(s) && CodecAt(s) && CodecEnabled(s, step) && step.CdPublish?
    requires WellFormed(CodecStep(s, step))
    ensures CodecLeft(CodecStep(s, step)) < CodecLeft(s) - if IsSignal(step) then 2 else 0
  {
  }

  lemma CodecOtherCounts(s: State, step: Step)
    requires CodecFacts(s) && WellFormed(s) && CodecEnabled(s, step)
    requires !step.CdPool? && !step.CdTest? && !step.CdScan? && !step.CdPublish?
    requires WellFormed(CodecStep(s, step))
    ensures CodecLeft(CodecStep(s, step)) < CodecLeft(s)
  {
  }

  lemma CodecLeavesCaptureCount(s: State, step: Step)
    requires WellFormed(s) && CodecEnabled(s, step) && S.ConsumerFrame(s.sp, CodecStep(s, step).sp)
    ensures CaptureLeft(CodecStep(s, step)) == CaptureLeft(s)
  {
  }

  lemma CodecStepCounts(s: State, step: Step)
    requires Inv(s) && WellFormed(s) && !s.running && CodecEnabled(s, step) && WellFormed(CodecStep(s, step))
    requires S.ConsumerFrame(s.sp, CodecStep(s, step).sp)
    ensures StepsLeft(CodecStep(s, step)) < StepsLeft(s)
  {
    CodecLeavesCaptureCount(s, step);
    CodecMovesPlaybackLittle(s, step);
    if step.CdPool? {
      CodecDequeueCounts(s, step);
    } else if step.CdTest? {
      CodecTestCounts(s, step);
    } else if step.CdScan? {
      CodecScanCounts(s, step);
    } else if step.CdPublish? {
      CodecPublishCounts(s, step);
    } else {
      CodecOtherCounts(s, step);
    }
  }

  /** How many steps one step may add back: a spurious wakeup sends playback round its wait loop once more. */
  function Slack(step: Step): nat { if IsSpurious(step) then 3 else if step.Stop? then 1 else 0 }

  lemma CaptureFalls(s: State, step: Step)
    requires Inv(s) && WellFormed(s) && !s.running && CaptureEnabled(s, step) && WellFormed(CaptureStep(s, step))
    ensures StepsLeft(CaptureStep(s, step)) < StepsLeft(s)
  {
    CaptureKeepsRing(s, step);
    CaptureStepCounts(s, step, CaptureStep(s, step));
  }

  lemma PlaybackFalls(s: State, step: Step)
    requires Inv(s) && WellFormed(s) && !s.running && PlaybackEnabled(s, step) && WellFormed(PlaybackStep(s, step))
    ensures StepsLeft(PlaybackStep(s, step)) < StepsLeft(s) + if IsSpurious(step) then 3 else 0
  {
    PlaybackStepFrame(s, step);
    PlaybackStepCounts(s, step);
  }

  lemma CodecFalls(s: State, step: Step)
    requires Inv(s) && WellFormed(s) && !s.running && CodecEnabled(s, step) && WellFormed(CodecStep(s, step))
    ensures StepsLeft(CodecStep(s, step)) < StepsLeft(s)
  {
    CodecKeepsRing(s, step);
    CodecStepCounts(s, step);
  }

  lemma RunningStaysFalse(s: State, step: Step)
    requires WellFormed(s) && Enabled(s, step) && !s.running
    ensures !Apply(s, step).running && (step.Stop? ==> Apply(s, step) == s)
  {
  }

  lemma EveryStepCounts(s: State, step: Step)
    requires Inv(s) && WellFormed(s) && !s.running && Enabled(s, step)
    ensures Inv(Apply(s, step)) && WellFormed(Apply(s, step)) && !Apply(s, step).running
    ensures StepsLeft(Apply(s, step)) < StepsLeft(s) + Slack(step)
  {
    StepKeepsInv(s, step);
    RunningStaysFalse(s, step);
    if !step.Stop? {
      if CaptureEnabled(s, step) {
        CaptureFalls(s, step);
      } else if CodecEnabled(s, step) {
        CodecFalls(s, step);
      } else {
        PlaybackFalls(s, step);
      }
    }
  }

  function TotalSlack(steps: seq<Step>): nat {
    if steps == [] then 0 else Slack(steps[0]) + TotalSlack(steps[1..])
  }

  lemma {:induction false} ShutdownRunCounts(s: State, steps: seq<Step>, s': State)
    requires Inv(s) && WellFormed(s) && !s.running && Reaches(s, steps, s')
    ensures Inv(s') && WellFormed(s')
    ensures |steps| + StepsLeft(s') <= StepsLeft(s) + TotalSlack(steps)
    decreases |steps|
  {
    if steps != [] {
      EveryStepCounts(s, steps[0]);
      ShutdownRunCounts(Apply(s, steps[0]), steps[1..], s');
    }
  }

  /**
    Once `running` is false every run is finite: whatever the interleaving, from state s on it has at most
    StepsLeft(s) steps, plus three for each spurious wakeup (and one for each repeated Stop).
  */
  lemma {:induction false} ShutdownTerminates(s: State, steps: seq<Step>, s': State)
    requires Inv(s) && WellFormed(s) && !s.running && Reaches(s, steps, s')
    ensures Inv(s') && WellFormed(s')
    ensures |steps| <= StepsLeft(s) + TotalSlack(steps)
    decreases |steps|
  {
    ShutdownRunCounts(s, steps, s');
    StepsLeftNatural(s');
  }

  lemma OneStepCloser(s: State) returns (step: Step, next: State)
    requires Inv(s) && WellFormed(s) && !s.running && !AllDone(s)
    ensures Enabled(s, step) && next == Apply(s, step) && !step.Stop? && !IsSpurious(step)
    ensures Inv(next) && WellFormed(next) && !next.running && 0 <= StepsLeft(next) < StepsLeft(s)
  {
    InvCanProgress(s);
    step :| Enabled(s, step) && !step.Stop? && !IsSpurious(step);
    EveryStepCounts(s, step);
    next := Apply(s, step);
    StepsLeftNatural(next);
  }

  lemma ReachesVia(s: State, step: Step, next: State, rest: seq<Step>, s': State)
    requires WellFormed(s) && Enabled(s, step) && next == Apply(s, step) && Reaches(next, rest, s')
    ensures Reaches(s, [step] + rest, s')
  {
    assert ([step] + rest)[1..] == rest;
  }

  lemma EndedStays(s: State)
    requires Inv(s) && WellFormed(s) && AllDone(s)
    ensures !CanProgress(s)
  {
  }

  /**
    And there is no other end: from a stopped state, every run that cannot be continued without a spurious
    wakeup, whatever steps it took, has ended all three threads.
  */
  lemma MaximalRunsEnd(s: State, steps: seq<Step>, s': State)
    requires Inv(s) && WellFormed(s) && !s.running && Reaches(s, steps, s')
    ensures WellFormed(s') && |steps| <= StepsLeft(s) + TotalSlack(steps)
    ensures CanProgress(s') <==> !AllDone(s')
  {
    ShutdownTerminates(s, steps, s');
    if AllDone(s') {
      EndedStays(s');
    } else {
      InvCanProgress(s');
    }
  }

  /** From any stopped state with at most `bound` steps left, some run of no more ends all threads. */
  lemma {:induction false} EndWithin(s: State, bound: nat) returns (steps: seq<Step>, s': State)
    requires Inv(s) && WellFormed(s) && !s.running && StepsLeft(s) <= bound
    ensures Reaches(s, steps, s') && AllDone(s') && |steps| <= bound
    ensures forall k :: 0 <= k < |steps| ==> !steps[k].Stop? && !IsSpurious(steps[k])
    decreases bound
  {
    if AllDone(s) {
      steps, s' := [], s;
    } else {
      var step, next := OneStepCloser(s);
      var rest;
      rest, s' := EndWithin(next, bound - 1);
      steps := [step] + rest;
      ReachesVia(s, step, next, rest, s');
    }
  }

  /** All three threads can end from any stopped state, within StepsLeft(s) steps and without spurious wakeups. */
  lemma AllThreadsEnd(s: State) returns (steps: seq<Step>, s': State)
    requires Inv(s) && WellFormed(s) && !s.running
    ensures Reaches(s, steps, s') && AllDone(s') && |steps| <= StepsLeft(s)
    ensures forall k :: 0 <= k < |steps| ==> !steps[k].Stop? && !IsSpurious(steps[k])
  {
    StepsLeftNatural(s);
    steps, s' := EndWithin(s, StepsLeft(s));
  }
}
