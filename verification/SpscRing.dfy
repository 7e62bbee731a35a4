/**
  The lock-free single-producer single-consumer ring of libbb/bb_pool.c, one transition per
  atomic operation. `held` stands for the pointers the consumer has not released yet. `fills` (the
  number of the last commit of each slot), `committed` and `dequeued` are history variables: no
  transition tests them.
*/
module SpscRing {
  import opened FrameSlots

  datatype ProducerPc =
    | ProdIdle
    | ProdSawWrite(w: nat)       // write_idx loaded, read_idx still to load
    | ProdTry(idx: nat)          // not full: compare-and-swap on slot idx comes next
    | ProdOwn(idx: nat)          // slot idx acquired, being filled

  datatype ConsumerPc =
    | ConsIdle
    | ConsSawWrite(w: nat)       // write_idx loaded, read_idx still to load
    | ConsCheck(r: nat)          // not empty: refcount test of slot r mod count comes next
    | ConsAdvance(r: nat)        // refcount seen: the increment of read_idx comes next

  datatype Ring = Ring(
    slots: seq<Slot>, writeIdx: nat, readIdx: nat,
    prod: ProducerPc, cons: ConsumerPc, held: set<nat>,
    fills: seq<nat>, committed: seq<Payload>, dequeued: seq<Payload>)

  datatype Step =
    | ProdLoadWrite
    | ProdLoadRead               // returns NULL when full
    | ProdCas                    // returns NULL when the slot is still in use
    | ProdFill(k: nat, b: byte)  // plain store into the acquired buffer
    | ProdSetSize(n: nat)
    | ProdCommit
    | ProdAbandon                // sp_release by the producer after a failed read
    | ConsLoadWrite
    | ConsLoadRead               // returns NULL when empty
    | ConsLoadRef                // returns NULL when the refcount is below 1
    | ConsFetchAdd
    | ConsRelease(i: nat)

  function SlotOf(t: nat, count: nat): (i: nat)
    requires count >= 1
    ensures i < count
  {
    t % count
  }

  function Init(memory: seq<seq<byte>>): Ring {
    Ring(FreshSlots(memory), 0, 0, ProdIdle, ConsIdle, {}, seq(|memory|, i => 0), [], [])
  }

  // ---- Transitions ----

  predicate WellFormed(s: Ring) {
    && |s.slots| == |s.fills| >= 1
    && (forall i :: 0 <= i < |s.slots| ==> s.slots[i].Valid())
    && (s.prod.ProdTry? || s.prod.ProdOwn? ==> s.prod.idx < |s.slots|)
    && (forall i :: i in s.held ==> i < |s.slots|)
  }

  predicate Enabled(s: Ring, step: Step)
    requires WellFormed(s)
  {
    match step
    case ProdLoadWrite => s.prod.ProdIdle?
    case ProdLoadRead => s.prod.ProdSawWrite?
    case ProdCas => s.prod.ProdTry?
    case ProdFill(k, _) => s.prod.ProdOwn? && k < |s.slots[s.prod.idx].data|
    case ProdSetSize(n) => s.prod.ProdOwn? && n <= |s.slots[s.prod.idx].data|
    case ProdCommit => s.prod.ProdOwn?
    case ProdAbandon => s.prod.ProdOwn?
    case ConsLoadWrite => s.cons.ConsIdle?
    case ConsLoadRead => s.cons.ConsSawWrite?
    case ConsLoadRef => s.cons.ConsCheck?
    case ConsFetchAdd => s.cons.ConsAdvance?
    case ConsRelease(i) => s.cons.ConsIdle? && i in s.held
  }

  function ProducerStep(s: Ring, step: Step): Ring
    requires WellFormed(s) && Enabled(s, step)
    requires step.ProdLoadWrite? || step.ProdLoadRead? || step.ProdCas? || step.ProdFill? ||
             step.ProdSetSize? || step.ProdCommit? || step.ProdAbandon?
  {
    match step
    case ProdLoadWrite => s.(prod := ProdSawWrite(s.writeIdx))
    case ProdLoadRead =>
      if s.prod.w - s.readIdx >= |s.slots| then s.(prod := ProdIdle)
      else s.(prod := ProdTry(SlotOf(s.prod.w, |s.slots|)))
    case ProdCas =>
      var i := s.prod.idx;
      if s.slots[i].refcount == 0
      then s.(slots := SetRef(s.slots, i, 1), prod := ProdOwn(i))
      else s.(prod := ProdIdle)
    case ProdFill(k, b) =>
      var f := s.slots[s.prod.idx];
      s.(slots := s.slots[s.prod.idx := f.(data := f.data[k := b])])
    case ProdSetSize(n) =>
      s.(slots := s.slots[s.prod.idx := s.slots[s.prod.idx].(size := n)])
    case ProdCommit =>
      s.(writeIdx := s.writeIdx + 1, prod := ProdIdle, fills := s.fills[s.prod.idx := s.writeIdx],
         committed := s.committed + [s.slots[s.prod.idx].Bytes()])
    case ProdAbandon => s.(slots := SetRef(s.slots, s.prod.idx, 0), prod := ProdIdle)
  }

  function ConsumerStep(s: Ring, step: Step): Ring
    requires WellFormed(s) && Enabled(s, step)
    requires step.ConsLoadWrite? || step.ConsLoadRead? || step.ConsLoadRef? ||
             step.ConsFetchAdd? || step.ConsRelease?
  {
    match step
    case ConsLoadWrite => s.(cons := ConsSawWrite(s.writeIdx))
    case ConsLoadRead =>
      if s.readIdx >= s.cons.w then s.(cons := ConsIdle) else s.(cons := ConsCheck(s.readIdx))
    case ConsLoadRef =>
      if s.slots[SlotOf(s.cons.r, |s.slots|)].refcount < 1
      then s.(cons := ConsIdle)
      else s.(cons := ConsAdvance(s.cons.r))
    case ConsFetchAdd =>
      var i := SlotOf(s.cons.r, |s.slots|);
      s.(readIdx := s.readIdx + 1, cons := ConsIdle, held := s.held + {i},
         dequeued := s.dequeued + [s.slots[i].Bytes()])
    case ConsRelease(i) =>
      s.(slots := SetRef(s.slots, i, 0), held := s.held - {i})
  }

  predicate ByProducer(step: Step) {
    step.ProdLoadWrite? || step.ProdLoadRead? || step.ProdCas? || step.ProdFill? ||
    step.ProdSetSize? || step.ProdCommit? || step.ProdAbandon?
  }

  function Apply(s: Ring, step: Step): Ring
    requires WellFormed(s) && Enabled(s, step)
  {
    if ByProducer(step) then ProducerStep(s, step) else ConsumerStep(s, step)
  }

  // ---- Invariant ----

  /** The numbers of the commits not yet dequeued are readIdx, ..., writeIdx - 1. */
  predicate Counters(s: Ring) {
    && s.readIdx <= s.writeIdx <= s.readIdx + |s.slots|
    && |s.committed| == s.writeIdx
    && s.dequeued == s.committed[..s.readIdx]
  }

  predicate Owns(s: Ring, i: nat) { s.prod == ProdOwn(i) }

  /** Slot i carries a payload committed and not yet dequeued. */
  predicate InWindow(s: Ring, i: nat)
    requires WellFormed(s) && i < |s.slots|
  {
    s.readIdx <= s.fills[i] < s.writeIdx && SlotOf(s.fills[i], |s.slots|) == i
  }

  predicate WindowAligned(s: Ring)
    requires WellFormed(s)
  {
    forall t: nat :: s.readIdx <= t < s.writeIdx ==> s.fills[SlotOf(t, |s.slots|)] == t
  }

  /** Each committed, undequeued slot still carries the bytes that were committed. */
  predicate WindowIntact(s: Ring)
    requires WellFormed(s) && |s.committed| == s.writeIdx
  {
    forall i: nat :: i < |s.slots| && InWindow(s, i) ==>
      s.slots[i].refcount == 1 && i !in s.held && !Owns(s, i) && s.slots[i].Bytes() == s.committed[s.fills[i]]
  }

  /** So does each slot the consumer has not released. */
  predicate HeldIntact(s: Ring)
    requires WellFormed(s) && |s.committed| == s.writeIdx
  {
    forall i :: i in s.held ==>
      && s.slots[i].refcount == 1 && !Owns(s, i)
      && s.fills[i] < s.readIdx && s.fills[i] < |s.committed|
      && s.slots[i].Bytes() == s.committed[s.fills[i]]
  }

  predicate FreeOtherwise(s: Ring)
    requires WellFormed(s)
  {
    forall i: nat :: i < |s.slots| && !InWindow(s, i) && i !in s.held && !Owns(s, i)
      ==> s.slots[i].refcount == 0
  }

  predicate ProducerOk(s: Ring)
    requires WellFormed(s)
  {
    match s.prod
    case ProdIdle => true
    case ProdSawWrite(w) => w == s.writeIdx
    case ProdTry(i) => s.writeIdx - s.readIdx < |s.slots| && i == SlotOf(s.writeIdx, |s.slots|)
    case ProdOwn(i) =>
      && s.writeIdx - s.readIdx < |s.slots| && i == SlotOf(s.writeIdx, |s.slots|)
      && s.slots[i].refcount == 1
  }

  predicate ConsumerOk(s: Ring) {
    match s.cons
    case ConsIdle => true
    case ConsSawWrite(w) => s.readIdx <= w <= s.writeIdx
    case ConsCheck(r) => r == s.readIdx < s.writeIdx
    case ConsAdvance(r) => r == s.readIdx < s.writeIdx
  }

  predicate Inv(s: Ring) {
    && WellFormed(s) && Counters(s)
    && WindowAligned(s) && WindowIntact(s) && HeldIntact(s) && FreeOtherwise(s)
    && ProducerOk(s) && ConsumerOk(s)
  }

  lemma SlotsDistinct(t: nat, u: nat, count: nat)
    requires count >= 1 && t < u < t + count
    ensures SlotOf(t, count) != SlotOf(u, count)
  {
    var d := u / count - t / count;
    assert u - t == count * d + (u % count - t % count);
    if d >= 1 { assert count * d >= count; }
  }

  /** The producer's next slot is outside the window as long as the window is not full. */
  lemma NextSlotOutsideWindow(s: Ring)
    requires WellFormed(s) && s.readIdx <= s.writeIdx < s.readIdx + |s.slots|
    ensures !InWindow(s, SlotOf(s.writeIdx, |s.slots|))
    ensures forall t: nat :: s.readIdx <= t < s.writeIdx ==>
              SlotOf(t, |s.slots|) != SlotOf(s.writeIdx, |s.slots|)
  {
    forall t: nat | s.readIdx <= t < s.writeIdx
      ensures SlotOf(t, |s.slots|) != SlotOf(s.writeIdx, |s.slots|)
    {
      SlotsDistinct(t, s.writeIdx, |s.slots|);
    }
  }

  lemma InitInv(memory: seq<seq<byte>>)
    requires |memory| >= 1
    ensures Inv(Init(memory))
  {
  }

  lemma AcquireKeepsInv(s: Ring, step: Step)
    requires Inv(s) && Enabled(s, step)
    requires step.ProdLoadWrite? || step.ProdLoadRead? || step.ProdCas?
    ensures Inv(ProducerStep(s, step))
  {
    if step.ProdCas? { NextSlotOutsideWindow(s); }
  }

  lemma FillKeepsInv(s: Ring, step: Step)
    requires Inv(s) && Enabled(s, step)
    requires step.ProdFill? || step.ProdSetSize? || step.ProdAbandon?
    ensures Inv(ProducerStep(s, step))
  {
    NextSlotOutsideWindow(s);
  }

  lemma CommitExtendsWindow(s: Ring)
    requires Inv(s) && Enabled(s, ProdCommit)
    ensures WellFormed(ProducerStep(s, ProdCommit)) && WindowAligned(ProducerStep(s, ProdCommit))
    ensures forall i: nat :: i < |s.slots| ==>
              (InWindow(ProducerStep(s, ProdCommit), i) <==> InWindow(s, i) || i == s.prod.idx)
  {
    NextSlotOutsideWindow(s);
  }

  lemma CommitKeepsInv(s: Ring)
    requires Inv(s) && Enabled(s, ProdCommit)
    ensures Inv(ProducerStep(s, ProdCommit))
  {
    CommitExtendsWindow(s);
    NextSlotOutsideWindow(s);
  }

  lemma DequeueTestsKeepInv(s: Ring, step: Step)
    requires Inv(s) && Enabled(s, step)
    requires step.ConsLoadWrite? || step.ConsLoadRead? || step.ConsLoadRef?
    ensures Inv(ConsumerStep(s, step))
  {
  }

  lemma FetchAddKeepsInv(s: Ring)
    requires Inv(s) && Enabled(s, ConsFetchAdd)
    ensures Inv(ConsumerStep(s, ConsFetchAdd))
  {
    var i := SlotOf(s.readIdx, |s.slots|);
    assert s.fills[i] == s.readIdx && InWindow(s, i);
  }

  lemma ReleaseKeepsInv(s: Ring, i: nat)
    requires Inv(s) && Enabled(s, ConsRelease(i))
    ensures Inv(ConsumerStep(s, ConsRelease(i)))
  {
  }

  lemma StepKeepsInv(s: Ring, step: Step)
    requires Inv(s) && Enabled(s, step)
    ensures Inv(Apply(s, step))
  {
    match step
    case ProdLoadWrite => AcquireKeepsInv(s, step);
    case ProdLoadRead => AcquireKeepsInv(s, step);
    case ProdCas => AcquireKeepsInv(s, step);
    case ProdFill(_, _) => FillKeepsInv(s, step);
    case ProdSetSize(_) => FillKeepsInv(s, step);
    case ProdAbandon => FillKeepsInv(s, step);
    case ProdCommit => CommitKeepsInv(s);
    case ConsLoadWrite => DequeueTestsKeepInv(s, step);
    case ConsLoadRead => DequeueTestsKeepInv(s, step);
    case ConsLoadRef => DequeueTestsKeepInv(s, step);
    case ConsFetchAdd => FetchAddKeepsInv(s);
    case ConsRelease(i) => ReleaseKeepsInv(s, i);
  }

  /** What any producer step leaves alone: everything the consumer holds, and every earlier commit. */
  predicate ProducerFrame(s: Ring, s': Ring) {
    && s'.cons == s.cons && s'.held == s.held && s'.readIdx == s.readIdx
    && s.committed <= s'.committed && |s'.slots| == |s.slots| && |s'.fills| == |s.fills|
    && (forall i :: i in s.held && i < |s.slots| && i < |s.fills| ==>
          s'.slots[i] == s.slots[i] && s'.fills[i] == s.fills[i])
    && (forall i :: 0 <= i < |s.slots| ==> |s'.slots[i].data| == |s.slots[i].data|)
  }

  /** What any consumer step leaves alone: everything but reference counts. */
  predicate ConsumerFrame(s: Ring, s': Ring) {
    && s'.prod == s.prod && s'.writeIdx == s.writeIdx && s'.committed == s.committed
    && s'.fills == s.fills && |s'.slots| == |s.slots|
    && (forall i :: 0 <= i < |s.slots| ==>
          s'.slots[i].data == s.slots[i].data && s'.slots[i].size == s.slots[i].size)
  }

  lemma ProducerStepFrame(s: Ring, step: Step)
    requires Inv(s) && Enabled(s, step) && ByProducer(step)
    ensures ProducerFrame(s, Apply(s, step))
  {
  }

  lemma ConsumerStepFrame(s: Ring, step: Step)
    requires Inv(s) && Enabled(s, step) && !ByProducer(step)
    ensures ConsumerFrame(s, Apply(s, step))
  {
  }

  // ---- Runs ----

  predicate Reaches(s: Ring, steps: seq<Step>, s': Ring)
    decreases |steps|
  {
    if steps == [] then s' == s
    else WellFormed(s) && Enabled(s, steps[0]) && Reaches(Apply(s, steps[0]), steps[1..], s')
  }

  /** Whatever the interleaving, every state of every run is consistent. */
  lemma {:induction false} RunKeepsInv(s: Ring, steps: seq<Step>, s': Ring)
    requires Inv(s) && Reaches(s, steps, s')
    ensures Inv(s') && |s'.slots| == |s.slots|
    decreases |steps|
  {
    if steps != [] {
      StepKeepsInv(s, steps[0]);
      RunKeepsInv(Apply(s, steps[0]), steps[1..], s');
    }
  }

  // ---- Refinement of a bounded FIFO ----

  datatype Event = Quiet | Put(x: Payload) | Get(x: Payload)

  predicate FifoStep(q: seq<Payload>, e: Event, q': seq<Payload>, capacity: nat) {
    match e
    case Quiet => q' == q
    case Put(x) => |q| < capacity && q' == q + [x]
    case Get(x) => q == [x] + q'
  }

  /** What a step does to the queue: only the two index increments are visible. */
  function EventOf(s: Ring, step: Step): Event
    requires WellFormed(s) && Enabled(s, step)
  {
    match step
    case ProdCommit => Put(s.slots[s.prod.idx].Bytes())
    case ConsFetchAdd => Get(s.slots[SlotOf(s.cons.r, |s.slots|)].Bytes())
    case _ => Quiet
  }

  /** The abstract queue, read off the slots themselves. */
  function Contents(s: Ring): (q: seq<Payload>)
    requires WellFormed(s) && s.readIdx <= s.writeIdx
    ensures |q| == s.writeIdx - s.readIdx
  {
    seq(s.writeIdx - s.readIdx,
        k requires 0 <= k < s.writeIdx - s.readIdx => s.slots[SlotOf(s.readIdx + k, |s.slots|)].Bytes())
  }

  lemma ContentsAreCommits(s: Ring)
    requires Inv(s)
    ensures Contents(s) == s.committed[s.readIdx..]
  {
    forall k | 0 <= k < s.writeIdx - s.readIdx ensures Contents(s)[k] == s.committed[s.readIdx + k] {
      var t: nat := s.readIdx + k;
      assert s.fills[SlotOf(t, |s.slots|)] == t && InWindow(s, SlotOf(t, |s.slots|));
    }
  }

  lemma FetchAddTakesOldest(s: Ring)
    requires Inv(s) && Enabled(s, ConsFetchAdd)
    ensures InWindow(s, SlotOf(s.readIdx, |s.slots|))
    ensures s.slots[SlotOf(s.cons.r, |s.slots|)].Bytes() == s.committed[s.readIdx]
  {
    assert s.fills[SlotOf(s.readIdx, |s.slots|)] == s.readIdx;
  }

  lemma StepMovesQueue(s: Ring, step: Step)
    requires Inv(s) && Enabled(s, step) && Inv(Apply(s, step))
    ensures FifoStep(s.committed[s.readIdx..], EventOf(s, step),
                     Apply(s, step).committed[Apply(s, step).readIdx..], |s.slots|)
  {
    if step.ConsFetchAdd? {
      FetchAddTakesOldest(s);
    }
  }

  lemma StepRefinesFifo(s: Ring, step: Step)
    requires Inv(s) && Enabled(s, step)
    ensures Inv(Apply(s, step))
    ensures FifoStep(Contents(s), EventOf(s, step), Contents(Apply(s, step)), |s.slots|)
  {
    StepKeepsInv(s, step);
    StepMovesQueue(s, step);
    ContentsAreCommits(s);
    ContentsAreCommits(Apply(s, step));
  }

  function PutOf(e: Event): seq<Payload> { if e.Put? then [e.x] else [] }
  function GetOf(e: Event): seq<Payload> { if e.Get? then [e.x] else [] }

  function Puts(s: Ring, steps: seq<Step>): seq<Payload>
    decreases |steps|
  {
    if steps == [] || !WellFormed(s) || !Enabled(s, steps[0]) then []
    else PutOf(EventOf(s, steps[0])) + Puts(Apply(s, steps[0]), steps[1..])
  }

  function Gets(s: Ring, steps: seq<Step>): seq<Payload>
    decreases |steps|
  {
    if steps == [] || !WellFormed(s) || !Enabled(s, steps[0]) then []
    else GetOf(EventOf(s, steps[0])) + Gets(Apply(s, steps[0]), steps[1..])
  }

  lemma FifoStepBalances(q: seq<Payload>, e: Event, m: seq<Payload>, capacity: nat,
                         puts: seq<Payload>, gets: seq<Payload>, q': seq<Payload>)
    requires FifoStep(q, e, m, capacity) && m + puts == gets + q'
    ensures q + (PutOf(e) + puts) == (GetOf(e) + gets) + q'
  {
    assert q + PutOf(e) == GetOf(e) + m;
    assert q + (PutOf(e) + puts) == (q + PutOf(e)) + puts;
    assert (GetOf(e) + m) + puts == GetOf(e) + (m + puts);
    assert GetOf(e) + (gets + q') == (GetOf(e) + gets) + q';
  }

  lemma {:induction false} RunConservesPayloads(s: Ring, steps: seq<Step>, s': Ring)
    requires Inv(s) && Reaches(s, steps, s')
    ensures Inv(s')
    ensures Contents(s) + Puts(s, steps) == Gets(s, steps) + Contents(s')
    decreases |steps|
  {
    if steps != [] {
      var m, e := Apply(s, steps[0]), EventOf(s, steps[0]);
      StepRefinesFifo(s, steps[0]);
      RunConservesPayloads(m, steps[1..], s');
      FifoStepBalances(Contents(s), e, Contents(m), |s.slots|,
                       Puts(m, steps[1..]), Gets(m, steps[1..]), Contents(s'));
    }
  }

  /** Delivery: the payloads taken out are a byte-for-byte prefix of the payloads put in. */
  lemma DequeuedIsPrefixOfCommitted(memory: seq<seq<byte>>, steps: seq<Step>, s: Ring)
    requires |memory| >= 1 && Reaches(Init(memory), steps, s)
    ensures Inv(s)
    ensures Gets(Init(memory), steps) <= Puts(Init(memory), steps)
    ensures Gets(Init(memory), steps) + Contents(s) == Puts(Init(memory), steps)
    ensures |Contents(s)| <= |memory|
  {
    InitInv(memory);
    RunKeepsInv(Init(memory), steps, s);
    RunConservesPayloads(Init(memory), steps, s);
    assert Contents(Init(memory)) == [];
    assert Contents(Init(memory)) + Puts(Init(memory), steps) == Puts(Init(memory), steps);
  }

  // ---- Who holds which slot ----

  /**
    A slot is in use exactly when the producer, the committed window or the consumer has it, and
    never two of them at once; so the producer is never given a slot that is being read.
  */
  lemma SlotsPartitioned(s: Ring, i: nat)
    requires Inv(s) && i < |s.slots|
    ensures var inWindow := exists t: nat :: s.readIdx <= t < s.writeIdx && SlotOf(t, |s.slots|) == i;
            && (s.slots[i].refcount != 0 <==> s.prod == ProdOwn(i) || inWindow || i in s.held)
            && !(s.prod == ProdOwn(i) && inWindow) && !(s.prod == ProdOwn(i) && i in s.held)
            && !(inWindow && i in s.held)
  {
    var inWindow := exists t: nat :: s.readIdx <= t < s.writeIdx && SlotOf(t, |s.slots|) == i;
    if inWindow {
      var t: nat :| s.readIdx <= t < s.writeIdx && SlotOf(t, |s.slots|) == i;
      assert s.fills[SlotOf(t, |s.slots|)] == t;
    }
    assert inWindow <==> InWindow(s, i);
  }

  /** No step of the producer touches a frame the consumer is still reading. */
  lemma HeldFrameIsStable(s: Ring, step: Step, i: nat)
    requires Inv(s) && Enabled(s, step) && i in s.held && step != ConsRelease(i)
    ensures i in Apply(s, step).held && Apply(s, step).slots[i] == s.slots[i]
  {
  }

  /** The NULL exits, exactly: full ring, slot still being read, empty ring; the last test never fails. */
  lemma NullExits(s: Ring, step: Step)
    requires Inv(s) && Enabled(s, step)
    ensures step == ProdLoadRead ==> (Apply(s, step).prod.ProdIdle? <==> |Contents(s)| == |s.slots|)
    ensures step == ProdCas ==> (Apply(s, step).prod.ProdIdle? <==> s.prod.idx in s.held)
    ensures step == ConsLoadRead ==> (Apply(s, step).cons.ConsIdle? <==> s.readIdx == s.cons.w)
    ensures step == ConsLoadRef ==> Apply(s, step).cons.ConsAdvance?
  {
    if step.ProdCas? {
      NextSlotOutsideWindow(s);
    }
    if step.ConsLoadRef? {
      var i := SlotOf(s.readIdx, |s.slots|);
      assert s.fills[i] == s.readIdx && InWindow(s, i);
    }
  }
}
