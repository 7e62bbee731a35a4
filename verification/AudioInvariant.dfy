/** What holds in every state the audio pipeline can reach, whatever the interleaving. */
module AudioInvariant {
  import opened FrameSlots
  import opened AudioPipeline
  import S = SpscRing
  import M = MpscPool

  // ---- The invariant, thread by thread ----

  predicate Buffers(s: State) {
    && s.cfg.Valid() && |s.mp.prods| == 1
    && (forall i :: 0 <= i < |s.sp.slots| ==> |s.sp.slots[i].data| == s.cfg.capacity)
    && (forall i :: 0 <= i < |s.mp.slots| ==> |s.mp.slots[i].data| == s.cfg.capacity)
  }

  /** The ring's producer is where the capture thread's program counter says. */
  predicate CaptureAt(s: State)
    requires S.WellFormed(s.sp)
  {
    match s.cap
    case CapAcquire => !s.sp.prod.ProdOwn?
    case CapRead(k) => s.sp.prod.ProdOwn? && k <= s.cfg.capacity
    case CapCommit => s.sp.prod.ProdOwn? && s.sp.slots[s.sp.prod.idx].size in s.cfg.readSizes
    case _ => s.sp.prod.ProdIdle?
  }

  predicate Publishing(pc: M.ProducerPc) {
    pc.ProdMarked? || pc.ProdLocked? || pc.ProdAdded? || pc.ProdSignalled?
  }

  /** The slot and copy the codec thread is working on, and nothing else, are in its hands. */
  predicate CodecAt(s: State)
    requires S.WellFormed(s.sp) && M.WellFormed(s.mp) && |s.mp.prods| == 1
  {
    var pc := s.mp.prods[0];
    match s.codec
    case CdCheck => s.sp.held == {} && pc.ProdIdle? && s.sp.cons.ConsIdle?
    case CdDequeue => s.sp.held == {} && pc.ProdIdle?
    case CdAcquire(i) => s.sp.held == {i} && (pc.ProdIdle? || pc.ProdScan?) && s.sp.cons.ConsIdle?
    case CdDrop(i) => s.sp.held == {i} && pc.ProdIdle? && s.sp.cons.ConsIdle?
    case CdCopy(i, k) => s.sp.held == {i} && pc.ProdOwn? && s.sp.cons.ConsIdle?
    case CdReleaseSp(i) => s.sp.held == {i} && pc.ProdOwn? && s.sp.cons.ConsIdle?
    case CdEnqueue => s.sp.held == {} && (pc.ProdOwn? || Publishing(pc)) && s.sp.cons.ConsIdle?
    case CdDrain => s.sp.held == {} && pc.ProdIdle?
    case CdDrainRelease(i) => s.sp.held == {i} && pc.ProdIdle? && s.sp.cons.ConsIdle?
    case CdSentinel(retry) =>
      s.sp.held == {} && (pc.ProdIdle? || pc.ProdScan?) && s.sp.cons.ConsIdle? && retry < SENTINEL_TRIES
    case CdSentinelSize => s.sp.held == {} && pc.ProdOwn? && s.sp.cons.ConsIdle?
    case CdSentinelEnqueue => s.sp.held == {} && (pc.ProdOwn? || Publishing(pc)) && s.sp.cons.ConsIdle?
    case CdDone => s.sp.held == {} && pc.ProdIdle? && s.sp.cons.ConsIdle?
  }

  predicate PlaybackAt(s: State) {
    match s.play
    case PbCheck => s.mp.cons.ConsIdle?
    case PbDequeue => !s.mp.cons.ConsHold?
    case PbDone => s.mp.cons.ConsIdle?
    case _ => s.mp.cons.ConsHold?
  }

  /** The codec has taken a buffer off the ring whose fate is still open. */
  predicate Unresolved(s: State)
    requires |s.mp.prods| == 1
  {
    s.codec.CdAcquire? || s.codec.CdDrop? || s.codec.CdCopy? || s.codec.CdReleaseSp? ||
    s.codec.CdDrainRelease? || (s.codec.CdEnqueue? && s.mp.prods[0].ProdOwn?)
  }

  function OpenBuffers(s: State): nat
    requires |s.mp.prods| == 1
  {
    if Unresolved(s) then 1 else 0
  }

  /** The bytes copied so far, and the finished copy, are those of the buffer dequeued last. */
  predicate CopyAt(s: State)
    requires S.WellFormed(s.sp) && M.WellFormed(s.mp) && |s.mp.prods| == 1
  {
    && (Unresolved(s) ==> 1 <= s.sp.readIdx <= |s.sp.committed|)
    && (s.codec.CdAcquire? || s.codec.CdCopy? ==>
          s.codec.i < |s.sp.slots| && s.sp.fills[s.codec.i] == s.sp.readIdx - 1)
    && (s.codec.CdCopy? ==>
          && s.mp.prods[0].ProdOwn?
          && var from, into := s.sp.slots[s.codec.i], s.mp.slots[s.mp.prods[0].idx];
             && s.codec.k <= from.size <= |into.data|
             && forall b :: 0 <= b < s.codec.k ==> into.data[b] == from.data[b])
    && (s.codec.CdReleaseSp? || (s.codec.CdEnqueue? && s.mp.prods[0].ProdOwn?) ==>
          s.mp.prods[0].ProdOwn? && s.mp.slots[s.mp.prods[0].idx].Bytes() == s.sp.committed[s.sp.readIdx - 1])
    && (s.codec.CdSentinelEnqueue? && s.mp.prods[0].ProdOwn? ==> s.mp.slots[s.mp.prods[0].idx].size == 0)
  }

  /** Every captured buffer is what some successful read delivered. */
  predicate CapturedOk(s: State) {
    forall t: nat :: t < |s.sp.committed| ==> |s.sp.committed[t]| in s.cfg.readSizes
  }

  /** Enqueue number e passed on capture number origins[e], byte for byte; the sentinel comes last, once. */
  predicate OriginsOk(s: State)
    requires |s.mp.prods| == 1
  {
    && |s.origins| <= |s.mp.sent| <= |s.origins| + 1
    && s.sp.readIdx <= |s.sp.committed|
    && (forall e: nat :: e < |s.origins| ==>
          s.origins[e] < s.sp.readIdx - OpenBuffers(s) && s.mp.sent[e] == s.sp.committed[s.origins[e]])
    && (forall e: nat, f: nat :: e < f < |s.origins| ==> s.origins[e] < s.origins[f])
    && (|s.mp.sent| > |s.origins| ==>
          s.mp.sent[|s.origins|] == [] &&
          (s.codec.CdDone? || (s.codec.CdSentinelEnqueue? && Publishing(s.mp.prods[0]))))
  }

  /** Each buffer taken off the ring is dropped, drained, passed on, or still open. */
  predicate TakenOk(s: State)
    requires |s.mp.prods| == 1
  {
    s.sp.readIdx == s.dropped + s.drained + |s.origins| + OpenBuffers(s)
  }

  /** Each frame handed to playback is released or still held. */
  predicate HandedOk(s: State) {
    |s.mp.handed| == s.released + (if s.mp.cons.ConsUnlock? || s.mp.cons.ConsHold? then 1 else 0)
  }

  // ---- Shutdown ----

  predicate CodecLeftLoop(pc: CodecPc) {
    pc.CdDrain? || pc.CdDrainRelease? || pc.CdSentinel? || pc.CdSentinelSize? || pc.CdSentinelEnqueue? || pc.CdDone?
  }

  predicate CodecDrained(pc: CodecPc) {
    pc.CdSentinel? || pc.CdSentinelSize? || pc.CdSentinelEnqueue? || pc.CdDone?
  }

  /** Capture passed the loop test and has not yet committed or failed. */
  function MayCommit(pc: CapturePc): nat {
    if pc.CapAcquire? || pc.CapRead? || pc.CapCommit? then 1 else 0
  }

  predicate DrainOk(s: State) {
    && (CodecLeftLoop(s.codec) ==> !s.running)
    && (CodecDrained(s.codec) ==> s.sp.writeIdx + MayCommit(s.cap) <= s.sp.readIdx + 1)
    && (s.codec.CdDrain? && s.sp.cons.ConsSawWrite? ==> s.sp.writeIdx + MayCommit(s.cap) <= s.sp.cons.w + 1)
  }

  /** Playback is inside bb_pool_mp_dequeue and has no frame yet. */
  predicate AwaitingFrame(s: State) {
    s.play.PbDequeue? && !s.mp.cons.ConsUnlock? && !s.mp.cons.ConsUnlockNull? && !s.mp.cons.ConsHold?
  }

  /** The codec has met a full pool in the sentinel phase, or has counted the sentinel, or is gone. */
  predicate SentinelSettled(s: State)
    requires |s.mp.prods| == 1
  {
    var pc := s.mp.prods[0];
    || s.codec.CdDone?
    || (s.codec.CdSentinel? && (s.codec.retry > 0 || (pc.ProdScan? && pc.idx > 0)))
    || (s.codec.CdSentinelEnqueue? && (pc.ProdAdded? || pc.ProdSignalled?))
  }

  predicate PlaybackCanFinish(s: State)
    requires |s.mp.prods| == 1
  {
    SentinelSettled(s) && AwaitingFrame(s) ==> s.mp.pending >= 1
  }

  /** Capture and playback leave their loops only after a stop or a reported error. */
  predicate ErrorsOk(s: State) {
    s.cap.CapDone? || s.play.PbReleaseLast? || s.play.PbDone? ==> !s.running || s.error
  }

  predicate CaptureFacts(s: State) {
    S.WellFormed(s.sp) && CaptureAt(s) && CapturedOk(s)
  }

  predicate CodecFacts(s: State) {
    && S.WellFormed(s.sp) && M.WellFormed(s.mp) && |s.mp.prods| == 1
    && CodecAt(s) && CopyAt(s) && OriginsOk(s) && TakenOk(s)
  }

  predicate PlaybackFacts(s: State) { PlaybackAt(s) && HandedOk(s) }

  predicate ShutdownFacts(s: State) {
    |s.mp.prods| == 1 && DrainOk(s) && PlaybackCanFinish(s) && ErrorsOk(s)
  }

  ghost predicate Inv(s: State) {
    && S.Inv(s.sp) && M.Inv(s.mp) && Buffers(s)
    && CaptureFacts(s) && CodecFacts(s) && PlaybackFacts(s) && ShutdownFacts(s)
  }

  lemma InitInv(cfg: Config, spMemory: seq<seq<byte>>, mpMemory: seq<seq<byte>>)
    requires cfg.Valid() && |spMemory| >= 1 && |mpMemory| >= 1
    requires forall i :: 0 <= i < |spMemory| ==> |spMemory[i]| == cfg.capacity
    requires forall i :: 0 <= i < |mpMemory| ==> |mpMemory[i]| == cfg.capacity
    ensures Inv(Init(cfg, spMemory, mpMemory))
  {
    S.InitInv(spMemory);
    M.InitInv(mpMemory, 1);
  }

  lemma InvWellFormed(s: State)
    requires Inv(s)
    ensures WellFormed(s)
  {
    if s.codec.CdCopy? { assert s.codec.i in s.sp.held; }
  }

  // ---- What a thread may change, and why the others need not care ----

  predicate CaptureFrame(s: State, s': State) {
    && s' == s.(sp := s'.sp, cap := s'.cap, capXruns := s'.capXruns, error := s'.error)
    && S.ProducerFrame(s.sp, s'.sp)
  }

  predicate CodecFrame(s: State, s': State) {
    && s' == s.(sp := s'.sp, mp := s'.mp, codec := s'.codec, origins := s'.origins,
                dropped := s'.dropped, drained := s'.drained)
    && S.ConsumerFrame(s.sp, s'.sp) && M.ProducerFrame(s.mp, s'.mp)
  }

  predicate PlaybackFrame(s: State, s': State) {
    && s' == s.(mp := s'.mp, play := s'.play, playXruns := s'.playXruns, error := s'.error, released := s'.released)
    && M.ConsumerFrame(s.mp, s'.mp)
  }

  lemma CodecUnaffectedByCapture(s: State, s': State)
    requires CodecFacts(s) && CaptureFrame(s, s') && S.WellFormed(s'.sp)
    ensures CodecFacts(s')
  {
  }

  lemma CodecUnaffectedByPlayback(s: State, s': State)
    requires CodecFacts(s) && PlaybackFrame(s, s') && M.WellFormed(s'.mp)
    ensures CodecFacts(s')
  {
  }

  lemma CaptureUnaffectedByCodec(s: State, s': State)
    requires CaptureFacts(s) && CodecFrame(s, s') && S.WellFormed(s'.sp)
    ensures CaptureFacts(s')
  {
  }

  lemma PlaybackUnaffectedByCodec(s: State, s': State)
    requires PlaybackFacts(s) && CodecFrame(s, s')
    ensures PlaybackFacts(s')
  {
  }

  lemma BuffersKept(s: State, s': State)
    requires Buffers(s) && s'.cfg == s.cfg
    requires |s'.mp.prods| == 1
    requires |s'.sp.slots| == |s.sp.slots| && |s'.mp.slots| == |s.mp.slots|
    requires forall i :: 0 <= i < |s.sp.slots| ==> |s'.sp.slots[i].data| == |s.sp.slots[i].data|
    requires forall i :: 0 <= i < |s.mp.slots| ==> |s'.mp.slots[i].data| == |s.mp.slots[i].data|
    ensures Buffers(s')
  {
  }

  // ---- Capture thread ----

  lemma CaptureKeepsRing(s: State, step: Step)
    requires S.Inv(s.sp) && WellFormed(s) && CaptureEnabled(s, step)
    ensures S.Inv(CaptureStep(s, step).sp) && CaptureFrame(s, CaptureStep(s, step))
  {
    if step.CapPool? {
      S.StepKeepsInv(s.sp, step.sp);
      S.ProducerStepFrame(s.sp, step.sp);
    } else if step.CapByte? {
      S.StepKeepsInv(s.sp, S.ProdFill(s.cap.k, step.b));
      S.ProducerStepFrame(s.sp, S.ProdFill(s.cap.k, step.b));
    } else if step.CapReadOk? {
      S.StepKeepsInv(s.sp, S.ProdSetSize(s.cap.k));
      S.ProducerStepFrame(s.sp, S.ProdSetSize(s.cap.k));
    } else if step.CapReadFail? {
      S.StepKeepsInv(s.sp, S.ProdAbandon);
      S.ProducerStepFrame(s.sp, S.ProdAbandon);
    } else if step.CapCommits? {
      S.StepKeepsInv(s.sp, S.ProdCommit);
      S.ProducerStepFrame(s.sp, S.ProdCommit);
    }
  }

  lemma CaptureKeepsFacts(s: State, step: Step)
    requires CaptureFacts(s) && WellFormed(s) && CaptureEnabled(s, step)
    requires S.WellFormed(CaptureStep(s, step).sp)
    ensures CaptureFacts(CaptureStep(s, step))
  {
  }

  lemma CaptureKeepsDrain(s: State, step: Step)
    requires WellFormed(s) && CaptureAt(s) && DrainOk(s) && CaptureEnabled(s, step)
    ensures DrainOk(CaptureStep(s, step))
  {
  }

  lemma CaptureKeepsErrors(s: State, step: Step)
    requires WellFormed(s) && DrainOk(s) && ErrorsOk(s) && CaptureEnabled(s, step)
    ensures ErrorsOk(CaptureStep(s, step))
  {
  }

  lemma CaptureKeepsShutdown(s: State, step: Step)
    requires WellFormed(s) && CaptureAt(s) && ShutdownFacts(s) && CaptureEnabled(s, step)
    requires CaptureFrame(s, CaptureStep(s, step))
    ensures ShutdownFacts(CaptureStep(s, step))
  {
    CaptureKeepsDrain(s, step);
    CaptureKeepsErrors(s, step);
    var s' := CaptureStep(s, step);
    assert s'.mp == s.mp && s'.codec == s.codec && s'.play == s.play;
  }

  lemma CaptureKeepsInv(s: State, step: Step)
    requires Inv(s) && WellFormed(s) && CaptureEnabled(s, step)
    ensures Inv(CaptureStep(s, step))
  {
    var s' := CaptureStep(s, step);
    CaptureKeepsRing(s, step);
    CaptureKeepsFacts(s, step);
    CodecUnaffectedByCapture(s, s');
    CaptureKeepsShutdown(s, step);
    BuffersKept(s, s');
  }

  // ---- Playback thread ----

  lemma PlaybackKeepsPool(s: State, step: Step)
    requires M.Inv(s.mp) && WellFormed(s) && PlaybackEnabled(s, step)
    ensures M.Inv(PlaybackStep(s, step).mp)
  {
    if step.PbPool? {
      M.StepKeepsInv(s.mp, step.mp);
    } else if step.PbReleases? {
      M.StepKeepsInv(s.mp, M.ConsRelease);
    }
  }

  lemma PlaybackStepFrame(s: State, step: Step)
    requires M.Inv(s.mp) && WellFormed(s) && PlaybackEnabled(s, step)
    ensures PlaybackFrame(s, PlaybackStep(s, step))
  {
    if step.PbPool? {
      M.ConsumerStepFrame(s.mp, step.mp);
    } else if step.PbReleases? {
      M.ConsumerStepFrame(s.mp, M.ConsRelease);
    }
  }

  lemma PlaybackKeepsFacts(s: State, step: Step)
    requires PlaybackFacts(s) && WellFormed(s) && PlaybackEnabled(s, step)
    ensures PlaybackFacts(PlaybackStep(s, step))
  {
  }

  /** The enqueue the frame in playback's hands came from. */
  function PlayedEnqueue(s: State): nat
    requires M.WellFormed(s.mp) && s.mp.cons.ConsHold?
  {
    s.mp.tags[s.mp.cons.idx]
  }

  /** A held frame carries the bytes of one captured buffer; without any it is the sentinel, sent after the stop. */
  lemma HeldFrame(s: State)
    requires Inv(s) && WellFormed(s) && s.mp.cons.ConsHold?
    ensures var f, e := s.mp.slots[s.mp.cons.idx], PlayedEnqueue(s);
            && (f.size == 0 ==> !s.running)
            && (f.size == 0 || (e < |s.origins| && f.Bytes() == s.sp.committed[s.origins[e]]))
  {
    var i := s.mp.cons.idx;
    assert M.Holds(s.mp, i);
    assert s.mp.slots[i].Bytes() == s.mp.sent[s.mp.tags[i]];
    if s.mp.tags[i] < |s.origins| {
      assert s.mp.sent[s.mp.tags[i]] == s.sp.committed[s.origins[s.mp.tags[i]]];
    }
  }

  lemma PlaybackKeepsShutdown(s: State, step: Step)
    requires WellFormed(s) && M.ScanOk(s.mp) && PlaybackAt(s) && ShutdownFacts(s) && CodecAt(s)
    requires PlaybackEnabled(s, step)
    requires s.play.PbGot? && s.mp.slots[s.mp.cons.idx].size == 0 ==> !s.running
    ensures ShutdownFacts(PlaybackStep(s, step))
  {
  }

  lemma PlaybackKeepsInv(s: State, step: Step)
    requires Inv(s) && WellFormed(s) && PlaybackEnabled(s, step)
    ensures Inv(PlaybackStep(s, step))
  {
    var s' := PlaybackStep(s, step);
    PlaybackKeepsPool(s, step);
    PlaybackStepFrame(s, step);
    PlaybackKeepsFacts(s, step);
    CodecUnaffectedByPlayback(s, s');
    if s.play.PbGot? { HeldFrame(s); }
    PlaybackKeepsShutdown(s, step);
    BuffersKept(s, s');
  }

  // ---- Codec thread ----

  lemma CodecKeepsRing(s: State, step: Step)
    requires S.Inv(s.sp) && WellFormed(s) && CodecEnabled(s, step)
    ensures S.Inv(CodecStep(s, step).sp) && S.ConsumerFrame(s.sp, CodecStep(s, step).sp)
  {
    if step.CdPool? {
      S.StepKeepsInv(s.sp, step.sp);
      S.ConsumerStepFrame(s.sp, step.sp);
    } else if step.CdDropRelease? || step.CdReleasesSp? || step.CdDrainReleases? {
      S.StepKeepsInv(s.sp, S.ConsRelease(s.codec.i));
      S.ConsumerStepFrame(s.sp, S.ConsRelease(s.codec.i));
    }
  }

  /** The pool operation a codec step performs, if any. */
  predicate CodecUsesPool(step: Step) {
    step.CdScan? || step.CdByte? || step.CdSetSize? || step.CdPublish? || step.CdSentinelZero?
  }

  function PoolStepOf(s: State, step: Step): M.Step
    requires WellFormed(s) && CodecEnabled(s, step) && CodecUsesPool(step)
  {
    match step
    case CdScan(st) => st
    case CdByte => M.ProdFill(0, s.codec.k, s.sp.slots[s.codec.i].data[s.codec.k])
    case CdSetSize => M.ProdSetSize(0, s.codec.k)
    case CdPublish(st) => st
    case CdSentinelZero => M.ProdSetSize(0, 0)
  }

  lemma CodecKeepsPool(s: State, step: Step)
    requires M.Inv(s.mp) && WellFormed(s) && CodecEnabled(s, step)
    ensures M.Inv(CodecStep(s, step).mp)
  {
    if CodecUsesPool(step) {
      M.StepKeepsInv(s.mp, PoolStepOf(s, step));
    }
  }

  lemma CodecStepFrame(s: State, step: Step)
    requires S.Inv(s.sp) && M.Inv(s.mp) && WellFormed(s) && CodecEnabled(s, step)
    requires S.ConsumerFrame(s.sp, CodecStep(s, step).sp)
    ensures CodecFrame(s, CodecStep(s, step))
  {
    if CodecUsesPool(step) {
      M.ProducerStepFrame(s.mp, PoolStepOf(s, step));
    }
  }

  lemma CodecTestKeepsFacts(s: State, step: Step)
    requires CodecFacts(s) && WellFormed(s) && CodecEnabled(s, step) && step.CdTest?
    ensures CodecFacts(CodecStep(s, step))
  {
  }

  lemma CodecDequeueKeepsFacts(s: State, step: Step)
    requires S.Inv(s.sp) && CodecFacts(s) && WellFormed(s) && CodecEnabled(s, step)
    requires step.CdPool? && !step.sp.ConsFetchAdd?
    requires S.WellFormed(CodecStep(s, step).sp)
    ensures CodecFacts(CodecStep(s, step))
  {
  }

  lemma CodecTakesFrameKeepsFacts(s: State, step: Step)
    requires S.Inv(s.sp) && CodecFacts(s) && WellFormed(s) && CodecEnabled(s, step)
    requires step == CdPool(S.ConsFetchAdd)
    requires S.WellFormed(CodecStep(s, step).sp)
    ensures CodecFacts(CodecStep(s, step))
  {
    assert s.sp.fills[S.SlotOf(s.sp.readIdx, |s.sp.slots|)] == s.sp.readIdx;
  }

  lemma CodecScanKeepsFacts(s: State, step: Step)
    requires S.Inv(s.sp) && Buffers(s) && CodecFacts(s) && WellFormed(s) && CodecEnabled(s, step) && step.CdScan?
    requires M.WellFormed(CodecStep(s, step).mp)
    ensures CodecFacts(CodecStep(s, step))
  {
  }

  lemma CodecByteKeepsFacts(s: State, step: Step)
    requires S.Inv(s.sp) && CodecFacts(s) && WellFormed(s) && CodecEnabled(s, step) && step.CdByte?
    requires M.WellFormed(CodecStep(s, step).mp)
    ensures CodecFacts(CodecStep(s, step))
  {
  }

  lemma CodecSizeKeepsFacts(s: State, step: Step)
    requires S.Inv(s.sp) && CodecFacts(s) && WellFormed(s) && CodecEnabled(s, step)
    requires step.CdSetSize? || step.CdSentinelZero?
    requires M.WellFormed(CodecStep(s, step).mp)
    ensures CodecFacts(CodecStep(s, step))
  {
    if step.CdSetSize? {
      var i, j := s.codec.i, s.mp.prods[0].idx;
      assert s.sp.slots[i].Bytes() == s.sp.committed[s.sp.readIdx - 1];
      assert CodecStep(s, step).mp.slots[j].Bytes() == s.sp.slots[i].Bytes();
    }
  }

  lemma CodecReleaseKeepsFacts(s: State, step: Step)
    requires CodecFacts(s) && WellFormed(s) && CodecEnabled(s, step)
    requires step.CdDropRelease? || step.CdReleasesSp? || step.CdDrainReleases?
    requires S.WellFormed(CodecStep(s, step).sp)
    ensures CodecFacts(CodecStep(s, step))
  {
  }

  lemma CodecMarkKeepsFacts(s: State, step: Step)
    requires CodecFacts(s) && WellFormed(s) && CodecEnabled(s, step) && step == CdPublish(M.ProdMark(0))
    requires M.WellFormed(CodecStep(s, step).mp)
    ensures CodecFacts(CodecStep(s, step))
  {
  }

  lemma CodecPublishKeepsFacts(s: State, step: Step)
    requires CodecFacts(s) && WellFormed(s) && CodecEnabled(s, step) && step.CdPublish? && !step.mp.ProdMark?
    requires M.WellFormed(CodecStep(s, step).mp)
    ensures CodecFacts(CodecStep(s, step))
  {
  }

  lemma CodecKeepsFacts(s: State, step: Step)
    requires S.Inv(s.sp) && Buffers(s) && CodecFacts(s) && WellFormed(s) && CodecEnabled(s, step)
    requires S.WellFormed(CodecStep(s, step).sp) && M.WellFormed(CodecStep(s, step).mp)
    ensures CodecFacts(CodecStep(s, step))
  {
    match step {
      case CdTest => CodecTestKeepsFacts(s, step);
      case CdPool(st) =>
        if st.ConsFetchAdd? { CodecTakesFrameKeepsFacts(s, step); } else { CodecDequeueKeepsFacts(s, step); }
      case CdScan(_) => CodecScanKeepsFacts(s, step);
      case CdByte => CodecByteKeepsFacts(s, step);
      case CdSetSize => CodecSizeKeepsFacts(s, step);
      case CdSentinelZero => CodecSizeKeepsFacts(s, step);
      case CdPublish(st) =>
        if st.ProdMark? { CodecMarkKeepsFacts(s, step); } else { CodecPublishKeepsFacts(s, step); }
      case CdDropRelease => CodecReleaseKeepsFacts(s, step);
      case CdReleasesSp => CodecReleaseKeepsFacts(s, step);
      case CdDrainReleases => CodecReleaseKeepsFacts(s, step);
    }
  }

  /** With one producer, still scanning, and no frame held, an occupied slot is a counted frame. */
  lemma OccupiedMeansPending(mp: M.Pool, i: nat)
    requires M.Inv(mp) && |mp.prods| == 1 && mp.prods[0].ProdScan?
    requires i < |mp.slots| && mp.slots[i].refcount != 0 && !M.Holds(mp, i)
    ensures mp.pending >= 1
  {
    assert !M.OwnerAt(mp, i, M.ProdOwn(i));
    assert i in M.ReadySlots(mp);
    assert M.InflightProducers(mp) == {};
  }

  lemma CodecScanKeepsShutdown(s: State, step: Step)
    requires M.Inv(s.mp) && WellFormed(s) && CodecAt(s) && PlaybackAt(s) && ShutdownFacts(s)
    requires CodecEnabled(s, step) && step.CdScan?
    ensures ShutdownFacts(CodecStep(s, step))
  {
    var pc := s.mp.prods[0];
    if pc.ProdScan? && s.mp.slots[pc.idx].refcount != 0 && AwaitingFrame(s) {
      OccupiedMeansPending(s.mp, pc.idx);
    }
  }

  lemma CodecPublishKeepsShutdown(s: State, step: Step)
    requires WellFormed(s) && s.mp.pending >= 0 && CodecAt(s) && ShutdownFacts(s)
    requires CodecEnabled(s, step) && step.CdPublish?
    ensures ShutdownFacts(CodecStep(s, step))
  {
  }

  /** The drain ends only on an empty ring: the refcount test of a committed slot never fails. */
  lemma CodecDequeueKeepsShutdown(s: State, step: Step)
    requires S.Inv(s.sp) && WellFormed(s) && CodecAt(s) && ShutdownFacts(s)
    requires CodecEnabled(s, step) && step.CdPool?
    ensures ShutdownFacts(CodecStep(s, step))
  {
    S.NullExits(s.sp, step.sp);
  }

  lemma CodecOtherKeepsShutdown(s: State, step: Step)
    requires WellFormed(s) && CodecAt(s) && ShutdownFacts(s)
    requires CodecEnabled(s, step) && !step.CdScan? && !step.CdPublish? && !step.CdPool?
    ensures ShutdownFacts(CodecStep(s, step))
  {
  }

  lemma CodecKeepsInv(s: State, step: Step)
    requires Inv(s) && WellFormed(s) && CodecEnabled(s, step)
    ensures Inv(CodecStep(s, step))
  {
    var s' := CodecStep(s, step);
    CodecKeepsRing(s, step);
    CodecKeepsPool(s, step);
    CodecStepFrame(s, step);
    CodecKeepsFacts(s, step);
    CaptureUnaffectedByCodec(s, s');
    PlaybackUnaffectedByCodec(s, s');
    if step.CdScan? {
      CodecScanKeepsShutdown(s, step);
    } else if step.CdPublish? {
      CodecPublishKeepsShutdown(s, step);
    } else if step.CdPool? {
      CodecDequeueKeepsShutdown(s, step);
    } else {
      CodecOtherKeepsShutdown(s, step);
    }
    BuffersKept(s, s');
  }

  // ---- Runs ----

  lemma StopKeepsInv(s: State)
    requires Inv(s) && WellFormed(s)
    ensures Inv(s.(running := false))
  {
    var s' := s.(running := false);
    assert CaptureFacts(s') && CodecFacts(s') && ShutdownFacts(s');
  }

  lemma StepKeepsInv(s: State, step: Step)
    requires Inv(s) && WellFormed(s) && Enabled(s, step)
    ensures Inv(Apply(s, step)) && WellFormed(Apply(s, step))
  {
    if step.Stop? {
      StopKeepsInv(s);
    } else if CaptureEnabled(s, step) {
      CaptureKeepsInv(s, step);
    } else if CodecEnabled(s, step) {
      CodecKeepsInv(s, step);
    } else {
      PlaybackKeepsInv(s, step);
    }
    InvWellFormed(Apply(s, step));
  }

  predicate Reaches(s: State, steps: seq<Step>, s': State)
    decreases |steps|
  {
    if steps == [] then s' == s
    else WellFormed(s) && Enabled(s, steps[0]) && Reaches(Apply(s, steps[0]), steps[1..], s')
  }

  lemma {:induction false} RunKeepsInv(s: State, steps: seq<Step>, s': State)
    requires Inv(s) && WellFormed(s) && Reaches(s, steps, s')
    ensures Inv(s') && WellFormed(s')
    decreases |steps|
  {
    if steps != [] {
      StepKeepsInv(s, steps[0]);
      RunKeepsInv(Apply(s, steps[0]), steps[1..], s');
    }
  }

  /** Buffers sized as bb_audio_stream_init does: every frame of both pools holds one period. */
  predicate GoodStart(cfg: Config, spMemory: seq<seq<byte>>, mpMemory: seq<seq<byte>>) {
    && cfg.Valid() && |spMemory| >= 1 && |mpMemory| >= 1
    && (forall i :: 0 <= i < |spMemory| ==> |spMemory[i]| == cfg.capacity)
    && (forall i :: 0 <= i < |mpMemory| ==> |mpMemory[i]| == cfg.capacity)
  }

  ghost predicate Reachable(cfg: Config, spMemory: seq<seq<byte>>, mpMemory: seq<seq<byte>>, s: State) {
    GoodStart(cfg, spMemory, mpMemory) && exists steps :: Reaches(Init(cfg, spMemory, mpMemory), steps, s)
  }

  lemma ReachableInv(cfg: Config, spMemory: seq<seq<byte>>, mpMemory: seq<seq<byte>>, s: State)
    requires Reachable(cfg, spMemory, mpMemory, s)
    ensures Inv(s) && WellFormed(s)
  {
    var steps :| Reaches(Init(cfg, spMemory, mpMemory), steps, s);
    InitInv(cfg, spMemory, mpMemory);
    InvWellFormed(Init(cfg, spMemory, mpMemory));
    RunKeepsInv(Init(cfg, spMemory, mpMemory), steps, s);
  }

  // ---- What reaches the loudspeaker ----

  /**
    In every reachable state, the frame in playback's hands comes from enqueue e, the one handed out last and
    never before. Unless it is the sentinel, it is a byte copy of captured buffer number origins[e], within the
    capacity of the slot, and none of the frames handed out before was a copy of that buffer.
  */
  lemma PlayedBufferIsCaptured(cfg: Config, spMemory: seq<seq<byte>>, mpMemory: seq<seq<byte>>, s: State)
    requires Reachable(cfg, spMemory, mpMemory, s)
    requires s.play.PbGot? || s.play.PbWrite?
    ensures WellFormed(s) && s.mp.cons.ConsHold?
    ensures var f, e, handed := s.mp.slots[s.mp.cons.idx], PlayedEnqueue(s), s.mp.handed;
            && handed != [] && handed[|handed| - 1] == e && e !in handed[..|handed| - 1]
            && f.size <= |f.data|
            && (f.size == 0 ==> !s.running)
            && (f.size == 0 || (e < |s.origins| && s.origins[e] < |s.sp.committed| &&
                                f.Bytes() == s.sp.committed[s.origins[e]] &&
                                forall k :: 0 <= k < |handed| - 1 && handed[k] < |s.origins| ==>
                                  s.origins[handed[k]] != s.origins[e]))
  {
    ReachableInv(cfg, spMemory, mpMemory, s);
    HeldFrame(s);
    assert M.Holds(s.mp, s.mp.cons.idx);
  }

  /** No captured buffer is passed on twice, nor handed to playback twice; and capture order is enqueue order. */
  lemma NoBufferPlayedTwice(cfg: Config, spMemory: seq<seq<byte>>, mpMemory: seq<seq<byte>>, s: State)
    requires Reachable(cfg, spMemory, mpMemory, s)
    ensures forall e: nat, f: nat :: e < f < |s.origins| ==> s.origins[e] < s.origins[f]
    ensures forall k: nat, l: nat :: k < l < |s.mp.handed| ==> s.mp.handed[k] != s.mp.handed[l]
    ensures forall k: nat, l: nat ::
              k < l < |s.mp.handed| && s.mp.handed[k] < |s.origins| && s.mp.handed[l] < |s.origins|
              ==> s.origins[s.mp.handed[k]] != s.origins[s.mp.handed[l]]
  {
    ReachableInv(cfg, spMemory, mpMemory, s);
  }

  /**
    Conservation. Every buffer committed by capture is still in the ring, in the codec's hands, dropped,
    drained, ready in the pool, in playback's hands or released by it; the shutdown sentinel is the only
    frame in the pool that no commit accounts for.
  */
  lemma BuffersConserved(cfg: Config, spMemory: seq<seq<byte>>, mpMemory: seq<seq<byte>>, s: State)
    requires Reachable(cfg, spMemory, mpMemory, s)
    ensures WellFormed(s) && s.sp.readIdx <= s.sp.writeIdx == |s.sp.committed|
    ensures var sentinel := |s.mp.sent| - |s.origins|;
            var heldByPlayback := if s.mp.cons.ConsUnlock? || s.mp.cons.ConsHold? then 1 else 0;
            && 0 <= sentinel <= 1
            && s.sp.writeIdx + sentinel ==
               (s.sp.writeIdx - s.sp.readIdx) + OpenBuffers(s) + s.dropped + s.drained +
               |M.ReadySlots(s.mp)| + heldByPlayback + s.released
  {
    ReachableInv(cfg, spMemory, mpMemory, s);
  }
}
