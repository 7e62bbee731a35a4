/**
  The mutex-protected multi-producer single-consumer pool of libbb/bb_pool.c, one transition per
  compare-and-swap, atomic add, lock, wait, signal and unlock, for any number of producers. The
  consumer releases each frame before it dequeues again. `owners` (who last acquired each slot), `tags`
  (the number of its last enqueue), `sent` and `handed` are history variables: no transition tests them.
*/
module MpscPool {
  import opened FrameSlots

  datatype ProducerPc =
    | ProdIdle
    | ProdScan(idx: nat)     // compare-and-swap on slot idx comes next
    | ProdOwn(idx: nat)      // slot acquired, being filled
    | ProdMarked(idx: nat)   // refcount raised to 2, mutex not yet taken
    | ProdLocked             // mutex taken, mp_pending not yet raised
    | ProdAdded              // mp_pending raised, signal still to come
    | ProdSignalled          // unlock comes next

  datatype ConsumerPc =
    | ConsIdle
    | ConsWant               // mp_dequeue called, mutex not yet taken
    | ConsTest               // mutex taken, mp_pending test comes next
    | ConsSleep              // in pthread_cond_wait, mutex given up
    | ConsWoken              // wait returned or about to: mutex must be retaken
    | ConsScan(idx: nat)     // refcount test of slot idx comes next
    | ConsFound(idx: nat)    // slot found, mp_pending not yet lowered
    | ConsMissed             // nothing found, mp_pending not yet lowered
    | ConsUnlock(idx: nat)   // frame taken, unlock comes next
    | ConsUnlockNull         // unlock and return NULL
    | ConsHold(idx: nat)     // frame handed to the caller

  datatype Owner = Nobody | Producer(p: nat) | Consumer

  datatype Pool = Pool(
    slots: seq<Slot>, pending: int, mutex: Owner, prods: seq<ProducerPc>, cons: ConsumerPc,
    owners: seq<nat>, tags: seq<nat>, sent: seq<Payload>, handed: seq<nat>)

  datatype Step =
    | ProdBegin(p: nat)
    | ProdCas(p: nat)                  // returns NULL after the last slot
    | ProdFill(p: nat, k: nat, b: byte)
    | ProdSetSize(p: nat, n: nat)
    | ProdMark(p: nat)
    | ProdLock(p: nat)
    | ProdAdd(p: nat)
    | ProdSignal(p: nat)
    | ProdRelinquish(p: nat)           // unlock
    | ConsBegin
    | ConsLock
    | ConsLoadPending
    | ConsSpurious                     // POSIX lets a wait return without a signal
    | ConsLoadRef
    | ConsTake                         // mp_pending lowered, frame found
    | ConsTakeNothing                  // mp_pending lowered, no frame found
    | ConsRelinquish                   // unlock
    | ConsRelease

  function Init(memory: seq<seq<byte>>, producers: nat): Pool {
    Pool(FreshSlots(memory), 0, Nobody, seq(producers, p => ProdIdle), ConsIdle,
         seq(|memory|, i => 0), seq(|memory|, i => 0), [], [])
  }

  // ---- Transitions ----

  predicate SlotIndexOk(pc: ProducerPc, count: nat) {
    pc.ProdScan? || pc.ProdOwn? || pc.ProdMarked? ==> pc.idx < count
  }

  predicate WellFormed(s: Pool) {
    && |s.slots| == |s.tags| == |s.owners| >= 1
    && (forall i :: 0 <= i < |s.slots| ==> s.slots[i].Valid())
    && (forall p :: 0 <= p < |s.prods| ==> SlotIndexOk(s.prods[p], |s.slots|))
    && (s.cons.ConsScan? || s.cons.ConsFound? || s.cons.ConsUnlock? || s.cons.ConsHold? ==>
          s.cons.idx < |s.slots|)
  }

  predicate ByProducer(step: Step) {
    step.ProdBegin? || step.ProdCas? || step.ProdFill? || step.ProdSetSize? || step.ProdMark? ||
    step.ProdLock? || step.ProdAdd? || step.ProdSignal? || step.ProdRelinquish?
  }

  predicate ProducerEnabled(s: Pool, step: Step, pc: ProducerPc)
    requires WellFormed(s) && ByProducer(step) && SlotIndexOk(pc, |s.slots|)
  {
    match step
    case ProdBegin(_) => pc.ProdIdle?
    case ProdCas(_) => pc.ProdScan?
    case ProdFill(_, k, _) => pc.ProdOwn? && k < |s.slots[pc.idx].data|
    case ProdSetSize(_, n) => pc.ProdOwn? && n <= |s.slots[pc.idx].data|
    case ProdMark(_) => pc.ProdOwn?
    case ProdLock(_) => pc.ProdMarked? && s.mutex.Nobody?
    case ProdAdd(_) => pc.ProdLocked?
    case ProdSignal(_) => pc.ProdAdded?
    case ProdRelinquish(_) => pc.ProdSignalled?
  }

  predicate ConsumerEnabled(s: Pool, step: Step)
    requires !ByProducer(step)
  {
    match step
    case ConsBegin => s.cons.ConsIdle?
    case ConsLock => (s.cons.ConsWant? || s.cons.ConsWoken?) && s.mutex.Nobody?
    case ConsLoadPending => s.cons.ConsTest?
    case ConsSpurious => s.cons.ConsSleep?
    case ConsLoadRef => s.cons.ConsScan?
    case ConsTake => s.cons.ConsFound?
    case ConsTakeNothing => s.cons.ConsMissed?
    case ConsRelinquish => s.cons.ConsUnlock? || s.cons.ConsUnlockNull?
    case ConsRelease => s.cons.ConsHold?
  }

  predicate Enabled(s: Pool, step: Step)
    requires WellFormed(s)
  {
    if ByProducer(step) then step.p < |s.prods| && ProducerEnabled(s, step, s.prods[step.p])
    else ConsumerEnabled(s, step)
  }

  function SetPc(s: Pool, p: nat, pc: ProducerPc): seq<ProducerPc>
    requires p < |s.prods|
  {
    s.prods[p := pc]
  }

  function ProducerStep(s: Pool, step: Step): Pool
    requires WellFormed(s) && ByProducer(step) && Enabled(s, step)
  {
    var p := step.p;
    var pc := s.prods[p];
    match step
    case ProdBegin(_) => s.(prods := SetPc(s, p, ProdScan(0)))
    case ProdCas(_) =>
      if s.slots[pc.idx].refcount == 0
      then s.(slots := SetRef(s.slots, pc.idx, 1), prods := SetPc(s, p, ProdOwn(pc.idx)),
              owners := s.owners[pc.idx := p])
      else if pc.idx + 1 < |s.slots| then s.(prods := SetPc(s, p, ProdScan(pc.idx + 1)))
      else s.(prods := SetPc(s, p, ProdIdle))
    case ProdFill(_, k, b) =>
      var f := s.slots[pc.idx];
      s.(slots := s.slots[pc.idx := f.(data := f.data[k := b])])
    case ProdSetSize(_, n) =>
      s.(slots := s.slots[pc.idx := s.slots[pc.idx].(size := n)])
    case ProdMark(_) =>
      s.(slots := SetRef(s.slots, pc.idx, s.slots[pc.idx].refcount + 1),
         prods := SetPc(s, p, ProdMarked(pc.idx)),
         tags := s.tags[pc.idx := |s.sent|], sent := s.sent + [s.slots[pc.idx].Bytes()])
    case ProdLock(_) => s.(mutex := Producer(p), prods := SetPc(s, p, ProdLocked))
    case ProdAdd(_) => s.(pending := s.pending + 1, prods := SetPc(s, p, ProdAdded))
    case ProdSignal(_) =>
      s.(prods := SetPc(s, p, ProdSignalled), cons := if s.cons.ConsSleep? then ConsWoken else s.cons)
    case ProdRelinquish(_) => s.(mutex := Nobody, prods := SetPc(s, p, ProdIdle))
  }

  function ConsumerStep(s: Pool, step: Step): Pool
    requires WellFormed(s) && !ByProducer(step) && Enabled(s, step)
  {
    match step
    case ConsBegin => s.(cons := ConsWant)
    case ConsLock => s.(mutex := Consumer, cons := ConsTest)
    case ConsLoadPending =>
      if s.pending == 0 then s.(mutex := Nobody, cons := ConsSleep) else s.(cons := ConsScan(0))
    case ConsSpurious => s.(cons := ConsWoken)
    case ConsLoadRef =>
      if s.slots[s.cons.idx].refcount >= 2 then s.(cons := ConsFound(s.cons.idx))
      else if s.cons.idx + 1 < |s.slots| then s.(cons := ConsScan(s.cons.idx + 1))
      else s.(cons := ConsMissed)
    case ConsTake =>
      s.(pending := s.pending - 1, cons := ConsUnlock(s.cons.idx),
         handed := s.handed + [s.tags[s.cons.idx]])
    case ConsTakeNothing => s.(pending := s.pending - 1, cons := ConsUnlockNull)
    case ConsRelinquish =>
      s.(mutex := Nobody, cons := if s.cons.ConsUnlock? then ConsHold(s.cons.idx) else ConsIdle)
    case ConsRelease => s.(slots := SetRef(s.slots, s.cons.idx, 0), cons := ConsIdle)
  }

  function Apply(s: Pool, step: Step): Pool
    requires WellFormed(s) && Enabled(s, step)
  {
    if ByProducer(step) then ProducerStep(s, step) else ConsumerStep(s, step)
  }

  // ---- Invariant ----

  predicate Holds(s: Pool, i: nat) { s.cons == ConsUnlock(i) || s.cons == ConsHold(i) }

  /** Ready for the consumer and not yet in its hands. */
  predicate Ready(s: Pool, i: nat)
    requires i < |s.slots|
  {
    s.slots[i].refcount >= 2 && !Holds(s, i)
  }

  function ReadySlots(s: Pool): set<nat> {
    set i: nat | i < |s.slots| && Ready(s, i)
  }

  /** Raised a refcount to 2 but has not yet counted it in mp_pending. */
  predicate Inflight(pc: ProducerPc) { pc.ProdMarked? || pc.ProdLocked? }

  function InflightProducers(s: Pool): set<nat> {
    set p: nat | p < |s.prods| && Inflight(s.prods[p])
  }

  predicate InsideLock(pc: ProducerPc) { pc.ProdLocked? || pc.ProdAdded? || pc.ProdSignalled? }

  predicate ConsumerInsideLock(pc: ConsumerPc) {
    pc.ConsTest? || pc.ConsScan? || pc.ConsFound? || pc.ConsMissed? || pc.ConsUnlock? || pc.ConsUnlockNull?
  }

  /** Exactly the owner of the mutex is inside a critical section. */
  ghost predicate MutexOk(s: Pool) {
    && (forall p: nat :: p < |s.prods| ==> (InsideLock(s.prods[p]) <==> s.mutex == Producer(p)))
    && (s.mutex.Producer? ==> s.mutex.p < |s.prods|)
    && (ConsumerInsideLock(s.cons) <==> s.mutex == Consumer)
  }

  /** The slot's acquirer stands at program point `pc`. */
  predicate OwnerAt(s: Pool, i: nat, pc: ProducerPc)
    requires i < |s.owners|
  {
    s.owners[i] < |s.prods| && s.prods[s.owners[i]] == pc
  }

  ghost predicate RefcountsOk(s: Pool)
    requires WellFormed(s)
  {
    && (forall i: nat :: i < |s.slots| ==> 0 <= s.slots[i].refcount <= 2)
    && (forall p: nat :: p < |s.prods| && s.prods[p].ProdOwn? ==>
          s.slots[s.prods[p].idx].refcount == 1 && s.owners[s.prods[p].idx] == p)
    && (forall i: nat :: i < |s.slots| && s.slots[i].refcount == 1 ==> OwnerAt(s, i, ProdOwn(i)))
    && (forall i: nat :: i < |s.slots| && Holds(s, i) ==> s.slots[i].refcount == 2)
  }

  ghost predicate PendingOk(s: Pool) {
    && s.pending >= 0
    && |ReadySlots(s)| == s.pending + |InflightProducers(s)|
  }

  /** Slots below `limit` that look ready were raised behind the scan, by producers still queueing for the mutex. */
  ghost predicate PassedOver(s: Pool, limit: nat)
    requires WellFormed(s) && limit <= |s.slots|
  {
    forall i: nat :: i < limit && s.slots[i].refcount >= 2 ==> OwnerAt(s, i, ProdMarked(i))
  }

  ghost predicate ScanOk(s: Pool)
    requires WellFormed(s)
  {
    && !s.cons.ConsMissed? && !s.cons.ConsUnlockNull?
    && (s.cons.ConsScan? ==> s.pending >= 1 && PassedOver(s, s.cons.idx))
    && (s.cons.ConsFound? ==> s.pending >= 1 && s.slots[s.cons.idx].refcount >= 2)
  }

  ghost predicate NoLostWakeup(s: Pool) {
    s.cons.ConsSleep? && s.pending > 0 ==>
      s.mutex.Producer? && s.mutex.p < |s.prods| && s.prods[s.mutex.p].ProdAdded?
  }

  /** Every ready or held slot still carries the bytes of its own enqueue, handed out at most once. */
  ghost predicate HistoryOk(s: Pool)
    requires WellFormed(s)
  {
    && (forall i: nat :: i < |s.slots| && s.slots[i].refcount == 2 ==>
          s.tags[i] < |s.sent| && s.slots[i].Bytes() == s.sent[s.tags[i]])
    && (forall i: nat, j: nat :: i < j < |s.slots| && s.slots[i].refcount == 2 && s.slots[j].refcount == 2 ==>
          s.tags[i] != s.tags[j])
    && (forall i: nat :: i < |s.slots| && s.slots[i].refcount == 2 ==>
          (s.tags[i] in s.handed <==> Holds(s, i)))
    && (forall i: nat :: i < |s.slots| && Holds(s, i) ==> s.handed != [] && s.handed[|s.handed| - 1] == s.tags[i])
    && (forall k: nat :: k < |s.handed| ==> s.handed[k] < |s.sent|)
    && (forall k: nat, l: nat :: k < l < |s.handed| ==> s.handed[k] != s.handed[l])
    && |s.sent| == |ReadySlots(s)| + |s.handed|
  }

  /** The part of the invariant about program variables. */
  ghost predicate Core(s: Pool) {
    && WellFormed(s) && MutexOk(s) && RefcountsOk(s) && PendingOk(s)
    && ScanOk(s) && NoLostWakeup(s)
  }

  ghost predicate Inv(s: Pool) { Core(s) && HistoryOk(s) }

  lemma InitInv(memory: seq<seq<byte>>, producers: nat)
    requires |memory| >= 1
    ensures Inv(Init(memory, producers))
  {
    var s := Init(memory, producers);
    assert ReadySlots(s) == {};
    assert InflightProducers(s) == {};
  }

  // ---- Every step keeps the invariant ----

  lemma SameSets(s: Pool, s': Pool)
    requires |s.slots| == |s'.slots| && |s.prods| == |s'.prods|
    ensures (forall i: nat :: i < |s.slots| ==> Ready(s, i) == Ready(s', i)) ==> ReadySlots(s') == ReadySlots(s)
    ensures (forall p: nat :: p < |s.prods| ==> Inflight(s.prods[p]) == Inflight(s'.prods[p])) ==>
              InflightProducers(s') == InflightProducers(s)
  {
  }

  lemma BeginKeepsCore(s: Pool, p: nat)
    requires Core(s) && Enabled(s, ProdBegin(p))
    ensures Core(ProducerStep(s, ProdBegin(p)))
  {
    SameSets(s, ProducerStep(s, ProdBegin(p)));
  }

  lemma CasSucceedsKeepsCore(s: Pool, p: nat)
    requires Core(s) && Enabled(s, ProdCas(p)) && s.slots[s.prods[p].idx].refcount == 0
    ensures Core(ProducerStep(s, ProdCas(p)))
  {
    SameSets(s, ProducerStep(s, ProdCas(p)));
  }

  /** A producer that moves between its call and its scan, nothing else changing, disturbs nobody. */
  lemma ScanningKeepsCore(s: Pool, p: nat, pc: ProducerPc)
    requires Core(s) && p < |s.prods| && (s.prods[p].ProdIdle? || s.prods[p].ProdScan?)
    requires pc.ProdIdle? || (pc.ProdScan? && pc.idx < |s.slots|)
    ensures Core(s.(prods := s.prods[p := pc]))
  {
    var s' := s.(prods := s.prods[p := pc]);
    SameSets(s, s');
    assert s'.slots == s.slots && s'.cons == s.cons && s'.owners == s.owners;
  }

  lemma CasFailsKeepsCore(s: Pool, p: nat)
    requires Core(s) && Enabled(s, ProdCas(p)) && s.slots[s.prods[p].idx].refcount != 0
    ensures Core(ProducerStep(s, ProdCas(p)))
  {
    var i := s.prods[p].idx;
    ScanningKeepsCore(s, p, if i + 1 < |s.slots| then ProdScan(i + 1) else ProdIdle);
  }

  lemma FillKeepsCore(s: Pool, p: nat, k: nat, b: byte)
    requires Core(s) && Enabled(s, ProdFill(p, k, b))
    ensures Core(ProducerStep(s, ProdFill(p, k, b)))
  {
    SameSets(s, ProducerStep(s, ProdFill(p, k, b)));
  }

  lemma SetSizeKeepsCore(s: Pool, p: nat, n: nat)
    requires Core(s) && Enabled(s, ProdSetSize(p, n))
    ensures Core(ProducerStep(s, ProdSetSize(p, n)))
  {
    SameSets(s, ProducerStep(s, ProdSetSize(p, n)));
  }

  lemma MarkKeepsPending(s: Pool, p: nat)
    requires Core(s) && Enabled(s, ProdMark(p))
    ensures PendingOk(ProducerStep(s, ProdMark(p)))
  {
    var s', i := ProducerStep(s, ProdMark(p)), s.prods[p].idx;
    assert i !in ReadySlots(s) && p !in InflightProducers(s);
    assert ReadySlots(s') == ReadySlots(s) + {i};
    assert InflightProducers(s') == InflightProducers(s) + {p};
  }

  lemma MarkKeepsRefcounts(s: Pool, p: nat)
    requires Core(s) && Enabled(s, ProdMark(p))
    ensures WellFormed(ProducerStep(s, ProdMark(p))) && RefcountsOk(ProducerStep(s, ProdMark(p)))
  {
  }

  lemma MarkKeepsCore(s: Pool, p: nat)
    requires Core(s) && Enabled(s, ProdMark(p))
    ensures Core(ProducerStep(s, ProdMark(p)))
  {
    MarkKeepsPending(s, p);
    MarkKeepsRefcounts(s, p);
  }

  lemma LockKeepsCore(s: Pool, p: nat)
    requires Core(s) && Enabled(s, ProdLock(p))
    ensures Core(ProducerStep(s, ProdLock(p)))
  {
    SameSets(s, ProducerStep(s, ProdLock(p)));
  }

  lemma AddKeepsPending(s: Pool, p: nat)
    requires Core(s) && Enabled(s, ProdAdd(p))
    ensures PendingOk(ProducerStep(s, ProdAdd(p)))
  {
    var s' := ProducerStep(s, ProdAdd(p));
    assert p in InflightProducers(s);
    assert InflightProducers(s') == InflightProducers(s) - {p};
    assert ReadySlots(s') == ReadySlots(s);
  }

  lemma AddKeepsCore(s: Pool, p: nat)
    requires Core(s) && Enabled(s, ProdAdd(p))
    ensures Core(ProducerStep(s, ProdAdd(p)))
  {
    AddKeepsPending(s, p);
  }

  lemma SignalKeepsCore(s: Pool, p: nat)
    requires Core(s) && Enabled(s, ProdSignal(p))
    ensures Core(ProducerStep(s, ProdSignal(p)))
  {
    SameSets(s, ProducerStep(s, ProdSignal(p)));
  }

  lemma RelinquishKeepsCore(s: Pool, p: nat)
    requires Core(s) && Enabled(s, ProdRelinquish(p))
    ensures Core(ProducerStep(s, ProdRelinquish(p)))
  {
    SameSets(s, ProducerStep(s, ProdRelinquish(p)));
  }

  lemma ConsumerLockKeepsCore(s: Pool)
    requires Core(s) && Enabled(s, ConsLock)
    ensures Core(ConsumerStep(s, ConsLock))
  {
    SameSets(s, ConsumerStep(s, ConsLock));
  }

  lemma LoadPendingKeepsCore(s: Pool)
    requires Core(s) && Enabled(s, ConsLoadPending)
    ensures Core(ConsumerStep(s, ConsLoadPending))
  {
    SameSets(s, ConsumerStep(s, ConsLoadPending));
  }

  lemma ConsumerRelinquishKeepsCore(s: Pool)
    requires Core(s) && Enabled(s, ConsRelinquish)
    ensures Core(ConsumerStep(s, ConsRelinquish))
  {
    SameSets(s, ConsumerStep(s, ConsRelinquish));
  }

  lemma ConsumerCallsKeepCore(s: Pool, step: Step)
    requires Core(s) && Enabled(s, step) && (step.ConsBegin? || step.ConsSpurious?)
    ensures Core(ConsumerStep(s, step))
  {
    SameSets(s, ConsumerStep(s, step));
  }

  /** A set is at least as large as its image. */
  lemma {:induction false} ImageNotLarger(domain: set<nat>, f: nat -> nat, image: set<nat>)
    requires forall x :: x in image ==> exists p :: p in domain && f(p) == x
    ensures |image| <= |domain|
    decreases domain
  {
    if domain == {} {
      assert image == {};
    } else {
      var p :| p in domain;
      ImageNotLarger(domain - {p}, f, image - {f(p)});
      if f(p) in image {
        assert |image - {f(p)}| == |image| - 1;
      } else {
        assert image - {f(p)} == image;
      }
    }
  }

  /** A scan that has passed over everything would have more in-flight producers than ready slots. */
  lemma PassedOverAllMeansNothingPending(s: Pool)
    requires WellFormed(s) && PendingOk(s) && PassedOver(s, |s.slots|)
    ensures s.pending <= 0
  {
    var f := (p: nat) => if p < |s.prods| && s.prods[p].ProdMarked? then s.prods[p].idx else 0;
    forall i | i in ReadySlots(s) ensures exists p :: p in InflightProducers(s) && f(p) == i {
      assert s.owners[i] in InflightProducers(s) && f(s.owners[i]) == i;
    }
    ImageNotLarger(InflightProducers(s), f, ReadySlots(s));
  }

  lemma ScanKeepsCore(s: Pool)
    requires Core(s) && Enabled(s, ConsLoadRef)
    ensures Core(ConsumerStep(s, ConsLoadRef))
    ensures !ConsumerStep(s, ConsLoadRef).cons.ConsMissed?
  {
    var s' := ConsumerStep(s, ConsLoadRef);
    SameSets(s, s');
    if s.slots[s.cons.idx].refcount < 2 {
      assert PassedOver(s, s.cons.idx + 1);
      if s.cons.idx + 1 == |s.slots| { PassedOverAllMeansNothingPending(s); }
    }
  }

  lemma TakeKeepsCore(s: Pool)
    requires Core(s) && Enabled(s, ConsTake)
    ensures Core(ConsumerStep(s, ConsTake))
  {
    var s', i := ConsumerStep(s, ConsTake), s.cons.idx;
    assert ReadySlots(s') == ReadySlots(s) - {i};
    assert i in ReadySlots(s);
    SameSets(s, s');
  }

  lemma ReleaseKeepsCore(s: Pool)
    requires Core(s) && Enabled(s, ConsRelease)
    ensures Core(ConsumerStep(s, ConsRelease))
  {
    var s' := ConsumerStep(s, ConsRelease);
    assert Holds(s, s.cons.idx);
    SameSets(s, s');
  }

  lemma StepKeepsCore(s: Pool, step: Step)
    requires Core(s) && Enabled(s, step)
    ensures Core(Apply(s, step))
  {
    match step
    case ProdBegin(p) => BeginKeepsCore(s, p);
    case ProdCas(p) =>
      if s.slots[s.prods[p].idx].refcount == 0 { CasSucceedsKeepsCore(s, p); } else { CasFailsKeepsCore(s, p); }
    case ProdFill(p, k, b) => FillKeepsCore(s, p, k, b);
    case ProdSetSize(p, n) => SetSizeKeepsCore(s, p, n);
    case ProdMark(p) => MarkKeepsCore(s, p);
    case ProdLock(p) => LockKeepsCore(s, p);
    case ProdAdd(p) => AddKeepsCore(s, p);
    case ProdSignal(p) => SignalKeepsCore(s, p);
    case ProdRelinquish(p) => RelinquishKeepsCore(s, p);
    case ConsBegin => ConsumerCallsKeepCore(s, step);
    case ConsLock => ConsumerLockKeepsCore(s);
    case ConsLoadPending => LoadPendingKeepsCore(s);
    case ConsSpurious => ConsumerCallsKeepCore(s, step);
    case ConsLoadRef => ScanKeepsCore(s);
    case ConsTake => TakeKeepsCore(s);
    case ConsTakeNothing =>
    case ConsRelinquish => ConsumerRelinquishKeepsCore(s);
    case ConsRelease => ReleaseKeepsCore(s);
  }

  /** Steps that leave every ready slot, and the consumer's grip, alone leave the history alone. */
  lemma HistoryFrame(s: Pool, s': Pool)
    requires WellFormed(s) && WellFormed(s') && |s.slots| == |s'.slots| && HistoryOk(s)
    requires s'.tags == s.tags && s'.sent == s.sent && s'.handed == s.handed
    requires forall i: nat :: i < |s.slots| ==> Holds(s, i) == Holds(s', i)
    requires forall i: nat :: i < |s.slots| && (s.slots[i].refcount >= 2 || s'.slots[i].refcount >= 2) ==>
               s'.slots[i] == s.slots[i]
    ensures HistoryOk(s')
  {
    assert ReadySlots(s') == ReadySlots(s);
  }

  lemma OneMoreReady(s: Pool, p: nat)
    requires WellFormed(s) && Enabled(s, ProdMark(p))
    requires s.slots[s.prods[p].idx].refcount == 1 && !Holds(s, s.prods[p].idx)
    ensures |ReadySlots(ProducerStep(s, ProdMark(p)))| == |ReadySlots(s)| + 1
  {
    var s', i := ProducerStep(s, ProdMark(p)), s.prods[p].idx;
    assert i !in ReadySlots(s);
    assert ReadySlots(s') == ReadySlots(s) + {i};
  }

  /** The marked frame is the newest enqueue, and ready. */
  lemma MarkedFrameSent(s: Pool, p: nat)
    requires WellFormed(s) && HistoryOk(s) && Enabled(s, ProdMark(p))
    requires s.slots[s.prods[p].idx].refcount == 1 && !Holds(s, s.prods[p].idx)
    ensures HistoryOk(ProducerStep(s, ProdMark(p)))
  {
    OneMoreReady(s, p);
  }

  lemma MarkKeepsHistory(s: Pool, p: nat)
    requires Inv(s) && Enabled(s, ProdMark(p))
    ensures HistoryOk(ProducerStep(s, ProdMark(p)))
  {
    MarkedFrameSent(s, p);
  }

  /** The found frame moves from the ready slots to the end of the list of those handed out. */
  lemma FoundFrameHandedOver(s: Pool)
    requires WellFormed(s) && HistoryOk(s) && s.cons.ConsFound? && s.slots[s.cons.idx].refcount == 2
    ensures HistoryOk(ConsumerStep(s, ConsTake))
  {
    var s' := ConsumerStep(s, ConsTake);
    assert s.cons.idx in ReadySlots(s);
    assert ReadySlots(s') == ReadySlots(s) - {s.cons.idx};
  }

  lemma TakeKeepsHistory(s: Pool)
    requires Inv(s) && Enabled(s, ConsTake)
    ensures HistoryOk(ConsumerStep(s, ConsTake))
  {
    FoundFrameHandedOver(s);
  }

  lemma ReleaseKeepsHistory(s: Pool)
    requires Inv(s) && Enabled(s, ConsRelease)
    ensures HistoryOk(ConsumerStep(s, ConsRelease))
  {
    assert Holds(s, s.cons.idx);
    assert ReadySlots(ConsumerStep(s, ConsRelease)) == ReadySlots(s);
  }

  lemma ProducerStepKeepsHistory(s: Pool, step: Step)
    requires Inv(s) && Enabled(s, step) && ByProducer(step) && WellFormed(ProducerStep(s, step))
    ensures HistoryOk(ProducerStep(s, step))
  {
    if step.ProdMark? { MarkKeepsHistory(s, step.p); } else { HistoryFrame(s, ProducerStep(s, step)); }
  }

  lemma ConsumerStepKeepsHistory(s: Pool, step: Step)
    requires Inv(s) && Enabled(s, step) && !ByProducer(step) && WellFormed(ConsumerStep(s, step))
    ensures HistoryOk(ConsumerStep(s, step))
  {
    if step.ConsTake? {
      TakeKeepsHistory(s);
    } else if step.ConsRelease? {
      ReleaseKeepsHistory(s);
    } else if step.ConsTakeNothing? {
      assert false;
    } else {
      HistoryFrame(s, ConsumerStep(s, step));
    }
  }

  lemma StepKeepsInv(s: Pool, step: Step)
    requires Inv(s) && Enabled(s, step)
    ensures Inv(Apply(s, step))
  {
    StepKeepsCore(s, step);
    if ByProducer(step) { ProducerStepKeepsHistory(s, step); } else { ConsumerStepKeepsHistory(s, step); }
  }

  /** What any producer step leaves alone: the consumer (but for waking it) and the frame it holds. */
  predicate ProducerFrame(s: Pool, s': Pool) {
    && s'.handed == s.handed && s.sent <= s'.sent
    && (s'.cons == s.cons || (s.cons.ConsSleep? && s'.cons.ConsWoken?))
    && |s'.slots| == |s.slots| && |s'.prods| == |s.prods|
    && (forall i :: 0 <= i < |s.slots| ==> |s'.slots[i].data| == |s.slots[i].data|)
    && (forall i: nat :: i < |s.slots| && Holds(s, i) ==> s'.slots[i] == s.slots[i])
  }

  /** What any consumer step leaves alone: everything but reference counts. */
  predicate ConsumerFrame(s: Pool, s': Pool) {
    && s'.prods == s.prods && s'.sent == s.sent && s'.tags == s.tags
    && |s'.slots| == |s.slots|
    && (forall i :: 0 <= i < |s.slots| ==>
          s'.slots[i].data == s.slots[i].data && s'.slots[i].size == s.slots[i].size)
  }

  lemma ProducerStepFrame(s: Pool, step: Step)
    requires Inv(s) && Enabled(s, step) && ByProducer(step)
    ensures ProducerFrame(s, Apply(s, step))
  {
  }

  lemma ConsumerStepFrame(s: Pool, step: Step)
    requires Inv(s) && Enabled(s, step) && !ByProducer(step)
    ensures ConsumerFrame(s, Apply(s, step))
  {
  }

  // ---- Runs ----

  predicate Reaches(s: Pool, steps: seq<Step>, s': Pool)
    decreases |steps|
  {
    if steps == [] then s' == s
    else WellFormed(s) && Enabled(s, steps[0]) && Reaches(Apply(s, steps[0]), steps[1..], s')
  }

  lemma {:induction false} RunKeepsInv(s: Pool, steps: seq<Step>, s': Pool)
    requires Inv(s) && Reaches(s, steps, s')
    ensures Inv(s')
    decreases |steps|
  {
    if steps != [] {
      StepKeepsInv(s, steps[0]);
      RunKeepsInv(Apply(s, steps[0]), steps[1..], s');
    }
  }

  /**
    In every state any number of producers and the consumer can reach: mp_pending is the number of
    ready frames less the enqueues not yet counted, and never negative; and a dequeue that passed the
    mp_pending test ends with a frame, never with NULL.
  */
  lemma PendingCountsReadyFrames(memory: seq<seq<byte>>, producers: nat, steps: seq<Step>, s: Pool)
    requires |memory| >= 1 && Reaches(Init(memory, producers), steps, s)
    ensures s.pending >= 0
    ensures |set i: nat | i < |s.slots| && s.slots[i].refcount >= 2 && !Holds(s, i)|
            == s.pending + |set p: nat | p < |s.prods| && (s.prods[p].ProdMarked? || s.prods[p].ProdLocked?)|
    ensures !s.cons.ConsMissed? && !s.cons.ConsUnlockNull?
  {
    InitInv(memory, producers);
    RunKeepsInv(Init(memory, producers), steps, s);
    assert ReadySlots(s) == set i: nat | i < |s.slots| && s.slots[i].refcount >= 2 && !Holds(s, i);
    assert InflightProducers(s) ==
           set p: nat | p < |s.prods| && (s.prods[p].ProdMarked? || s.prods[p].ProdLocked?);
  }

  /** Whenever the consumer sleeps although frames are counted, the mutex holder has its signal to come. */
  lemma NoWakeupIsLost(memory: seq<seq<byte>>, producers: nat, steps: seq<Step>, s: Pool)
    requires |memory| >= 1 && Reaches(Init(memory, producers), steps, s)
    requires s.cons.ConsSleep? && s.pending > 0
    ensures s.mutex.Producer? && s.mutex.p < |s.prods| && s.prods[s.mutex.p] == ProdAdded
    ensures WellFormed(s) && Enabled(s, ProdSignal(s.mutex.p))
    ensures Apply(s, ProdSignal(s.mutex.p)).cons.ConsWoken?
  {
    InitInv(memory, producers);
    RunKeepsInv(Init(memory, producers), steps, s);
  }

  /**
    Every enqueue is handed to the consumer at most once, and none is lost: it is either still ready or
    handed out. The frame the consumer holds is the one handed out last, and carries the bytes of that enqueue.
  */
  lemma HandedOutOnce(memory: seq<seq<byte>>, producers: nat, steps: seq<Step>, s: Pool)
    requires |memory| >= 1 && Reaches(Init(memory, producers), steps, s)
    ensures forall k: nat, l: nat :: k < l < |s.handed| ==> s.handed[k] != s.handed[l]
    ensures forall k: nat :: k < |s.handed| ==> s.handed[k] < |s.sent|
    ensures |s.sent| == |ReadySlots(s)| + |s.handed|
    ensures s.cons.ConsHold? ==>
              var i := s.cons.idx;
              && i < |s.slots| == |s.tags| && s.slots[i].Valid()
              && s.handed != [] && s.handed[|s.handed| - 1] == s.tags[i]
              && s.tags[i] < |s.sent| && s.slots[i].Bytes() == s.sent[s.tags[i]]
  {
    InitInv(memory, producers);
    RunKeepsInv(Init(memory, producers), steps, s);
    if s.cons.ConsHold? { assert Holds(s, s.cons.idx); }
  }

  /** No two producers ever fill the same frame, and none fills one that is ready or being read. */
  lemma FilledFramesArePrivate(s: Pool, p: nat, q: nat)
    requires Inv(s) && p < |s.prods| && s.prods[p].ProdOwn?
    ensures !Ready(s, s.prods[p].idx) && !Holds(s, s.prods[p].idx)
    ensures q < |s.prods| && q != p && s.prods[q].ProdOwn? ==> s.prods[q].idx != s.prods[p].idx
  {
  }
}
