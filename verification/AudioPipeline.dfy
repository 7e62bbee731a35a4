/**
  The three threads of middleware/bb_audio_stream.c in pass-through mode, over one ring and one
  pool, at the granularity of their atomic operations: every interleaving of capture, codec,
  playback and bb_audio_stream_stop is a run of this machine. `origins`, `dropped`, `drained` and
  `released` are history variables: no transition tests them.
*/
module AudioPipeline {
  import opened FrameSlots
  import S = SpscRing
  import M = MpscPool

  const SENTINEL_TRIES: nat := 100
  const XRUN_LIMIT: nat := 10

  /** Bytes in one period buffer, and the byte counts a read of one or more frames can report. */
  datatype Config = Config(capacity: nat, readSizes: set<nat>) {
    predicate Valid() { forall n :: n in readSizes ==> 1 <= n <= capacity }
  }

  /** Result of a device call: a frame count, -EPIPE, or another error. */
  datatype DeviceResult = Ok | Xrun | Failed

  datatype CapturePc =
    | CapCheck              // loop test
    | CapAcquire            // in bb_pool_sp_acquire
    | CapDiscard            // pool full: reading into the discard buffer
    | CapRead(k: nat)       // device has stored k bytes so far
    | CapCommit             // size stored, commit comes next
    | CapFailed(xrun: bool) // frame released after a failed read
    | CapGiveUp             // error flag store comes next
    | CapDone

  datatype CodecPc =
    | CdCheck
    | CdDequeue             // in bb_pool_sp_dequeue
    | CdAcquire(i: nat)     // holding ring slot i, in bb_pool_mp_acquire
    | CdDrop(i: nat)        // pool full: release of slot i comes next
    | CdCopy(i: nat, k: nat)   // memcpy has copied k bytes of slot i
    | CdReleaseSp(i: nat)   // copied and sized
    | CdEnqueue             // in bb_pool_mp_enqueue
    | CdDrain               // loop left: in bb_pool_sp_dequeue of the drain loop
    | CdDrainRelease(i: nat)
    | CdSentinel(retry: nat)   // in bb_pool_mp_acquire of that retry
    | CdSentinelSize
    | CdSentinelEnqueue
    | CdDone

  datatype PlaybackPc =
    | PbCheck
    | PbDequeue             // in bb_pool_mp_dequeue
    | PbGot                 // frame in hand, size test comes next
    | PbWrite               // in bb_audio_write
    | PbGiveUp              // error flag store comes next
    | PbRelease             // release, then back to the loop test
    | PbReleaseLast         // release, then leave the loop
    | PbDone

  datatype State = State(
    cfg: Config, sp: S.Ring, mp: M.Pool, running: bool, error: bool,
    cap: CapturePc, capXruns: nat, codec: CodecPc, play: PlaybackPc, playXruns: nat,
    origins: seq<nat>, dropped: nat, drained: nat, released: nat)

  datatype Step =
    | Stop                             // bb_audio_stream_stop clears `running`
    | CapTest
    | CapPool(sp: S.Step)
    | CapDiscardRead(result: DeviceResult)
    | CapByte(b: byte)
    | CapReadOk
    | CapReadFail(xrun: bool)
    | CapHandleFail
    | CapStoreError
    | CapCommits
    | CdTest
    | CdPool(sp: S.Step)
    | CdScan(mp: M.Step)
    | CdDropRelease
    | CdByte
    | CdSetSize
    | CdReleasesSp
    | CdPublish(mp: M.Step)
    | CdDrainReleases
    | CdSentinelZero
    | PbTest
    | PbPool(mp: M.Step)
    | PbReadSize
    | PbWritten(result: DeviceResult)
    | PbStoreError
    | PbReleases

  function Init(cfg: Config, spMemory: seq<seq<byte>>, mpMemory: seq<seq<byte>>): State {
    State(cfg, S.Init(spMemory), M.Init(mpMemory, 1), true, false,
          CapCheck, 0, CdCheck, PbCheck, 0, [], 0, 0, 0)
  }

  // ---- Transitions ----

  predicate WellFormed(s: State) {
    && s.cfg.Valid() && S.WellFormed(s.sp) && M.WellFormed(s.mp) && |s.mp.prods| == 1
    && (s.codec.CdCopy? ==> s.codec.i < |s.sp.slots|)
    && (s.play.PbGot? ==> s.mp.cons.ConsHold?)
  }

  predicate IsAcquireStep(st: S.Step) { st.ProdLoadWrite? || st.ProdLoadRead? || st.ProdCas? }
  predicate IsDequeueStep(st: S.Step) { st.ConsLoadWrite? || st.ConsLoadRead? || st.ConsLoadRef? || st.ConsFetchAdd? }
  predicate IsScanStep(st: M.Step) { st == M.ProdBegin(0) || st == M.ProdCas(0) }
  predicate IsEnqueueStep(st: M.Step) {
    st == M.ProdMark(0) || st == M.ProdLock(0) || st == M.ProdAdd(0) || st == M.ProdSignal(0) ||
    st == M.ProdRelinquish(0)
  }
  predicate IsMpDequeueStep(st: M.Step) { !M.ByProducer(st) && !st.ConsRelease? }

  predicate CaptureEnabled(s: State, step: Step)
    requires WellFormed(s)
  {
    match step
    case CapTest => s.cap.CapCheck?
    case CapPool(st) => s.cap.CapAcquire? && IsAcquireStep(st) && S.Enabled(s.sp, st)
    case CapDiscardRead(_) => s.cap.CapDiscard?
    case CapByte(b) => s.cap.CapRead? && s.cap.k < s.cfg.capacity && S.Enabled(s.sp, S.ProdFill(s.cap.k, b))
    case CapReadOk => s.cap.CapRead? && s.cap.k in s.cfg.readSizes && S.Enabled(s.sp, S.ProdSetSize(s.cap.k))
    case CapReadFail(_) => s.cap.CapRead? && S.Enabled(s.sp, S.ProdAbandon)
    case CapHandleFail => s.cap.CapFailed?
    case CapStoreError => s.cap.CapGiveUp?
    case CapCommits => s.cap.CapCommit? && S.Enabled(s.sp, S.ProdCommit)
    case _ => false
  }

  function CaptureStep(s: State, step: Step): State
    requires WellFormed(s) && CaptureEnabled(s, step)
  {
    match step
    case CapTest => s.(cap := if s.running then CapAcquire else CapDone)
    case CapPool(st) =>
      var sp := S.Apply(s.sp, st);
      s.(sp := sp, cap := if sp.prod.ProdOwn? then CapRead(0) else if sp.prod.ProdIdle? then CapDiscard else CapAcquire)
    case CapDiscardRead(r) =>
      if r.Xrun? && s.capXruns + 1 > XRUN_LIMIT then s.(capXruns := s.capXruns + 1, cap := CapGiveUp)
      else s.(capXruns := 0, cap := CapCheck)
    case CapByte(b) => s.(sp := S.Apply(s.sp, S.ProdFill(s.cap.k, b)), cap := CapRead(s.cap.k + 1))
    case CapReadOk => s.(sp := S.Apply(s.sp, S.ProdSetSize(s.cap.k)), capXruns := 0, cap := CapCommit)
    case CapReadFail(x) => s.(sp := S.Apply(s.sp, S.ProdAbandon), cap := CapFailed(x))
    case CapHandleFail =>
      if !s.cap.xrun then s.(cap := CapGiveUp)
      else if s.capXruns + 1 > XRUN_LIMIT then s.(capXruns := s.capXruns + 1, cap := CapGiveUp)
      else s.(capXruns := s.capXruns + 1, cap := CapCheck)
    case CapStoreError => s.(error := true, cap := CapDone)
    case CapCommits => s.(sp := S.Apply(s.sp, S.ProdCommit), cap := CapCheck)
  }

  predicate CodecEnabled(s: State, step: Step)
    requires WellFormed(s)
  {
    match step
    case CdTest => s.codec.CdCheck?
    case CdPool(st) => (s.codec.CdDequeue? || s.codec.CdDrain?) && IsDequeueStep(st) && S.Enabled(s.sp, st)
    case CdScan(st) => (s.codec.CdAcquire? || s.codec.CdSentinel?) && IsScanStep(st) && M.Enabled(s.mp, st)
    case CdDropRelease => s.codec.CdDrop? && S.Enabled(s.sp, S.ConsRelease(s.codec.i))
    case CdByte =>
      s.codec.CdCopy? && s.codec.k < s.sp.slots[s.codec.i].size &&
      M.Enabled(s.mp, M.ProdFill(0, s.codec.k, s.sp.slots[s.codec.i].data[s.codec.k]))
    case CdSetSize =>
      s.codec.CdCopy? && s.codec.k == s.sp.slots[s.codec.i].size && M.Enabled(s.mp, M.ProdSetSize(0, s.codec.k))
    case CdReleasesSp => s.codec.CdReleaseSp? && S.Enabled(s.sp, S.ConsRelease(s.codec.i))
    case CdPublish(st) => (s.codec.CdEnqueue? || s.codec.CdSentinelEnqueue?) && IsEnqueueStep(st) && M.Enabled(s.mp, st)
    case CdDrainReleases => s.codec.CdDrainRelease? && S.Enabled(s.sp, S.ConsRelease(s.codec.i))
    case CdSentinelZero => s.codec.CdSentinelSize? && M.Enabled(s.mp, M.ProdSetSize(0, 0))
    case _ => false
  }

  function AfterDequeue(pc: CodecPc, before: S.Ring, after: S.Ring): CodecPc
    requires S.WellFormed(before)
  {
    if after.readIdx > before.readIdx then
      var i := S.SlotOf(before.readIdx, |before.slots|);
      if pc.CdDrain? then CdDrainRelease(i) else CdAcquire(i)
    else if after.cons.ConsIdle? then (if pc.CdDrain? then CdSentinel(0) else CdCheck)
    else pc
  }

  function AfterScan(pc: CodecPc, after: M.ProducerPc): CodecPc
    requires pc.CdAcquire? || pc.CdSentinel?
  {
    if after.ProdOwn? then (if pc.CdAcquire? then CdCopy(pc.i, 0) else CdSentinelSize)
    else if !after.ProdIdle? then pc
    else if pc.CdAcquire? then CdDrop(pc.i)
    else if pc.retry + 1 < SENTINEL_TRIES then CdSentinel(pc.retry + 1)
    else CdDone
  }

  function CodecStep(s: State, step: Step): State
    requires WellFormed(s) && CodecEnabled(s, step)
  {
    match step
    case CdTest => s.(codec := if s.running then CdDequeue else CdDrain)
    case CdPool(st) =>
      var sp := S.Apply(s.sp, st);
      s.(sp := sp, codec := AfterDequeue(s.codec, s.sp, sp))
    case CdScan(st) =>
      var mp := M.Apply(s.mp, st);
      s.(mp := mp, codec := AfterScan(s.codec, mp.prods[0]))
    case CdDropRelease =>
      s.(sp := S.Apply(s.sp, S.ConsRelease(s.codec.i)), codec := CdCheck, dropped := s.dropped + 1)
    case CdByte =>
      s.(mp := M.Apply(s.mp, M.ProdFill(0, s.codec.k, s.sp.slots[s.codec.i].data[s.codec.k])),
         codec := CdCopy(s.codec.i, s.codec.k + 1))
    case CdSetSize => s.(mp := M.Apply(s.mp, M.ProdSetSize(0, s.codec.k)), codec := CdReleaseSp(s.codec.i))
    case CdReleasesSp => s.(sp := S.Apply(s.sp, S.ConsRelease(s.codec.i)), codec := CdEnqueue)
    case CdPublish(st) =>
      s.(mp := M.Apply(s.mp, st),
         codec := if !st.ProdRelinquish? then s.codec else if s.codec.CdEnqueue? then CdCheck else CdDone,
         origins := if st.ProdMark? && s.codec.CdEnqueue? && s.sp.readIdx >= 1
                    then s.origins + [s.sp.readIdx - 1] else s.origins)
    case CdDrainReleases =>
      s.(sp := S.Apply(s.sp, S.ConsRelease(s.codec.i)), codec := CdDrain, drained := s.drained + 1)
    case CdSentinelZero => s.(mp := M.Apply(s.mp, M.ProdSetSize(0, 0)), codec := CdSentinelEnqueue)
  }

  predicate PlaybackEnabled(s: State, step: Step)
    requires WellFormed(s)
  {
    match step
    case PbTest => s.play.PbCheck?
    case PbPool(st) => s.play.PbDequeue? && IsMpDequeueStep(st) && M.Enabled(s.mp, st)
    case PbReadSize => s.play.PbGot?
    case PbWritten(_) => s.play.PbWrite?
    case PbStoreError => s.play.PbGiveUp?
    case PbReleases => (s.play.PbRelease? || s.play.PbReleaseLast?) && M.Enabled(s.mp, M.ConsRelease)
    case _ => false
  }

  function PlaybackStep(s: State, step: Step): State
    requires WellFormed(s) && PlaybackEnabled(s, step)
  {
    match step
    case PbTest => s.(play := if s.running then PbDequeue else PbDone)
    case PbPool(st) =>
      var mp := M.Apply(s.mp, st);
      s.(mp := mp, play := if mp.cons.ConsHold? then PbGot else if mp.cons.ConsIdle? then PbCheck else PbDequeue)
    case PbReadSize => s.(play := if s.mp.slots[s.mp.cons.idx].size == 0 then PbReleaseLast else PbWrite)
    case PbWritten(r) =>
      if r.Ok? then s.(playXruns := 0, play := PbRelease)
      else if r.Xrun? && s.playXruns + 1 <= XRUN_LIMIT then s.(playXruns := s.playXruns + 1, play := PbRelease)
      else s.(playXruns := if r.Xrun? then s.playXruns + 1 else s.playXruns, play := PbGiveUp)
    case PbStoreError => s.(error := true, play := PbReleaseLast)
    case PbReleases =>
      s.(mp := M.Apply(s.mp, M.ConsRelease), play := if s.play.PbRelease? then PbCheck else PbDone,
         released := s.released + 1)
  }

  predicate Enabled(s: State, step: Step)
    requires WellFormed(s)
  {
    step.Stop? || CaptureEnabled(s, step) || CodecEnabled(s, step) || PlaybackEnabled(s, step)
  }

  function Apply(s: State, step: Step): State
    requires WellFormed(s) && Enabled(s, step)
  {
    if step.Stop? then s.(running := false)
    else if CaptureEnabled(s, step) then CaptureStep(s, step)
    else if CodecEnabled(s, step) then CodecStep(s, step)
    else PlaybackStep(s, step)
  }
}
