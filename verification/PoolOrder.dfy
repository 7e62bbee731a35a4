/**
  The order in which the multi-producer pool hands frames out. A dequeue takes the lowest ready slot, so frames can
  overtake each other; these are the conditions under which they do not.
*/
module PoolOrder {
  import opened FrameSlots
  import opened MpscPool
  import R = PoolRuns

  /** Ready frames stand in their slots in the order of their enqueues. */
  ghost predicate InSlotOrder(s: Pool)
    requires WellFormed(s)
  {
    forall i: nat, j: nat :: i < j < |s.slots| && Ready(s, i) && Ready(s, j) ==> s.tags[i] < s.tags[j]
  }

  /** No ready frame was enqueued before the one in slot i. */
  ghost predicate OldestReady(s: Pool, i: nat)
    requires WellFormed(s) && i < |s.slots|
  {
    forall j: nat :: j < |s.slots| && Ready(s, j) ==> s.tags[i] <= s.tags[j]
  }

  ghost predicate NoneReadyAbove(s: Pool, i: nat) { forall j: nat :: i < j < |s.slots| ==> !Ready(s, j) }
  ghost predicate NoneReadyBelow(s: Pool, i: nat) { forall j: nat :: j < i && j < |s.slots| ==> !Ready(s, j) }

  /** While slots are in order, an enqueue keeps them so exactly if no frame is ready in a higher slot. */
  lemma MarkKeepsOrderExactly(s: Pool, p: nat)
    requires Inv(s) && Enabled(s, ProdMark(p)) && InSlotOrder(s)
    ensures WellFormed(Apply(s, ProdMark(p)))
    ensures InSlotOrder(Apply(s, ProdMark(p))) <==> NoneReadyAbove(s, s.prods[p].idx)
  {
    StepKeepsInv(s, ProdMark(p));
    var s', i := Apply(s, ProdMark(p)), s.prods[p].idx;
    assert Ready(s', i) && s'.tags[i] == |s.sent|;
    forall j: nat | j < |s.slots| && j != i ensures Ready(s', j) == Ready(s, j) && s'.tags[j] == s.tags[j] { }
    forall j: nat | j < |s.slots| && Ready(s, j) ensures s.tags[j] < |s.sent| { }
  }

  /** While slots are in order, the frame a dequeue takes is the oldest exactly if no lower one has become ready. */
  lemma TakeIsOldestExactly(s: Pool)
    requires Inv(s) && s.cons.ConsFound? && InSlotOrder(s)
    ensures OldestReady(s, s.cons.idx) <==> NoneReadyBelow(s, s.cons.idx)
  {
    assert Ready(s, s.cons.idx);
  }

  // ---- Runs that keep the order ----

  /** The two conditions, as conditions on a step. */
  ghost predicate KeepsOrder(s: Pool, step: Step)
    requires WellFormed(s) && Enabled(s, step)
  {
    && (step.ProdMark? ==> NoneReadyAbove(s, s.prods[step.p].idx))
    && (step.ConsTake? ==> NoneReadyBelow(s, s.cons.idx))
  }

  ghost predicate OrderedRun(s: Pool, steps: seq<Step>)
    decreases |steps|
  {
    steps == [] ||
    (WellFormed(s) && Enabled(s, steps[0]) && KeepsOrder(s, steps[0]) && OrderedRun(Apply(s, steps[0]), steps[1..]))
  }

  /** Enqueue e is in some ready slot. */
  ghost predicate Waiting(s: Pool, e: nat)
    requires WellFormed(s)
  {
    exists i: nat :: i < |s.slots| && Ready(s, i) && s.tags[i] == e
  }

  /** The frames handed out so far are the first ones enqueued, in that order; the later ones are all ready. */
  ghost predicate FifoSoFar(s: Pool)
    requires WellFormed(s)
  {
    && (forall k :: 0 <= k < |s.handed| ==> s.handed[k] == k)
    && (forall i: nat :: i < |s.slots| && Ready(s, i) ==> |s.handed| <= s.tags[i])
    && (forall e: nat :: |s.handed| <= e < |s.sent| ==> Waiting(s, e))
  }

  ghost predicate OrderedState(s: Pool) { Inv(s) && InSlotOrder(s) && FifoSoFar(s) }

  /** No more frames are handed out than were enqueued. */
  lemma AllReadyOrHanded(s: Pool)
    requires Inv(s)
    ensures |s.handed| <= |s.sent|
  {
  }

  /** The same frames ready, up to slot i. */
  ghost predicate SameReadyBut(s: Pool, s': Pool, i: int) {
    |s'.slots| == |s.slots| && forall j: nat :: j < |s.slots| && j != i ==> Ready(s', j) == Ready(s, j)
  }

  lemma StillWaiting(s: Pool, s': Pool, i: int, e: nat)
    requires WellFormed(s) && WellFormed(s') && SameReadyBut(s, s', i) && Waiting(s, e)
    requires forall j: nat :: j < |s.slots| && j != i ==> s'.tags[j] == s.tags[j]
    requires 0 <= i < |s.slots| && Ready(s, i) ==> s.tags[i] != e
    ensures Waiting(s', e)
  {
    var j: nat :| j < |s.slots| && Ready(s, j) && s.tags[j] == e;
    assert Ready(s', j) && s'.tags[j] == e;
  }

  lemma EnqueueKeepsFifo(s: Pool, s': Pool, i: nat)
    requires WellFormed(s) && WellFormed(s') && FifoSoFar(s) && SameReadyBut(s, s', i)
    requires i < |s.slots| && !Ready(s, i) && Ready(s', i) && |s.handed| <= |s.sent|
    requires s'.tags == s.tags[i := |s.sent|] && |s'.sent| == |s.sent| + 1 && s'.handed == s.handed
    ensures FifoSoFar(s')
  {
    forall e: nat | |s.handed| <= e < |s'.sent| ensures Waiting(s', e) {
      if e < |s.sent| { StillWaiting(s, s', i, e); } else { assert s'.tags[i] == e; }
    }
  }

  lemma TakeKeepsFifo(s: Pool, s': Pool, i: nat)
    requires WellFormed(s) && WellFormed(s') && FifoSoFar(s) && SameReadyBut(s, s', i)
    requires i < |s.slots| && Ready(s, i) && !Ready(s', i) && OldestReady(s, i) && s.tags[i] < |s.sent|
    requires forall j: nat :: j < |s.slots| && j != i && Ready(s, j) ==> s.tags[j] != s.tags[i]
    requires s'.tags == s.tags && s'.sent == s.sent && s'.handed == s.handed + [s.tags[i]]
    ensures FifoSoFar(s')
  {
    assert Waiting(s, |s.handed|);
    assert s.tags[i] == |s.handed|;
    forall e: nat | |s'.handed| <= e < |s.sent| ensures Waiting(s', e) { StillWaiting(s, s', i, e); }
  }

  lemma OtherKeepsFifo(s: Pool, s': Pool)
    requires WellFormed(s) && WellFormed(s') && FifoSoFar(s) && InSlotOrder(s) && SameReadyBut(s, s', -1)
    requires s'.tags == s.tags && s'.sent == s.sent && s'.handed == s.handed
    ensures FifoSoFar(s') && InSlotOrder(s')
  {
    forall e: nat | |s.handed| <= e < |s.sent| ensures Waiting(s', e) { StillWaiting(s, s', -1, e); }
  }

  lemma OrderedMark(s: Pool, p: nat)
    requires OrderedState(s) && Enabled(s, ProdMark(p)) && NoneReadyAbove(s, s.prods[p].idx)
    ensures OrderedState(Apply(s, ProdMark(p)))
  {
    StepKeepsInv(s, ProdMark(p));
    MarkKeepsOrderExactly(s, p);
    AllReadyOrHanded(s);
    EnqueueKeepsFifo(s, Apply(s, ProdMark(p)), s.prods[p].idx);
  }

  /** What a take changes. */
  lemma TakeEffect(s: Pool)
    requires Inv(s) && Enabled(s, ConsTake)
    ensures var s', i := Apply(s, ConsTake), s.cons.idx;
            && SameReadyBut(s, s', i) && Ready(s, i) && !Ready(s', i) && s.tags[i] < |s.sent|
            && forall j: nat :: j < |s.slots| && j != i && Ready(s, j) ==> s.tags[j] != s.tags[i]
  {
    assert Holds(Apply(s, ConsTake), s.cons.idx);
    assert s.slots[s.cons.idx].refcount == 2;
  }

  lemma OrderedTake(s: Pool)
    requires OrderedState(s) && Enabled(s, ConsTake) && NoneReadyBelow(s, s.cons.idx)
    ensures OrderedState(Apply(s, ConsTake))
  {
    StepKeepsInv(s, ConsTake);
    TakeIsOldestExactly(s);
    TakeEffect(s);
    TakeKeepsFifo(s, Apply(s, ConsTake), s.cons.idx);
  }

  lemma ProducerEffect(s: Pool, step: Step)
    requires WellFormed(s) && RefcountsOk(s) && Enabled(s, step) && ByProducer(step) && !step.ProdMark?
    ensures SameReadyBut(s, Apply(s, step), -1)
    ensures Apply(s, step).tags == s.tags && Apply(s, step).sent == s.sent && Apply(s, step).handed == s.handed
  {
  }

  lemma ConsumerEffect(s: Pool, step: Step)
    requires WellFormed(s) && RefcountsOk(s) && Enabled(s, step) && !ByProducer(step) && !step.ConsTake?
    ensures SameReadyBut(s, Apply(s, step), -1)
    ensures Apply(s, step).tags == s.tags && Apply(s, step).sent == s.sent && Apply(s, step).handed == s.handed
  {
    if step.ConsRelease? { assert Holds(s, s.cons.idx); }
  }

  lemma OrderedOther(s: Pool, step: Step)
    requires OrderedState(s) && Enabled(s, step) && !step.ProdMark? && !step.ConsTake?
    ensures OrderedState(Apply(s, step))
  {
    StepKeepsInv(s, step);
    if ByProducer(step) { ProducerEffect(s, step); } else { ConsumerEffect(s, step); }
    OtherKeepsFifo(s, Apply(s, step));
  }

  lemma OrderedStep(s: Pool, step: Step)
    requires OrderedState(s) && Enabled(s, step) && KeepsOrder(s, step)
    ensures OrderedState(Apply(s, step))
  {
    if step.ProdMark? {
      OrderedMark(s, step.p);
    } else if step.ConsTake? {
      OrderedTake(s);
    } else {
      OrderedOther(s, step);
    }
  }

  lemma {:induction false} OrderedRunKeepsOrder(s: Pool, steps: seq<Step>, s': Pool)
    requires OrderedState(s) && Reaches(s, steps, s') && OrderedRun(s, steps)
    ensures OrderedState(s')
    decreases |steps|
  {
    if steps != [] {
      OrderedStep(s, steps[0]);
      OrderedRunKeepsOrder(Apply(s, steps[0]), steps[1..], s');
    }
  }

  /** Along such a run from a fresh pool the frames handed out are exactly the first ones enqueued, in order. */
  lemma OrderedRunIsFifo(memory: seq<seq<byte>>, producers: nat, steps: seq<Step>, s: Pool)
    requires |memory| >= 1 && Reaches(Init(memory, producers), steps, s) && OrderedRun(Init(memory, producers), steps)
    ensures |s.handed| <= |s.sent| && forall k :: 0 <= k < |s.handed| ==> s.handed[k] == k
  {
    InitInv(memory, producers);
    OrderedRunKeepsOrder(Init(memory, producers), steps, s);
    AllReadyOrHanded(s);
  }

  // ---- A run that does not ----

  lemma Acquire(s: Pool, before: seq<Step>, u: Pool, i: nat) returns (steps: seq<Step>, t: Pool)
    requires Reaches(s, before, u) && WellFormed(u) && |u.prods| == 1 && u.prods[0].ProdIdle? && u.mutex.Nobody?
    requires i < |u.slots| && u.slots[i].refcount == 0 && forall j :: 0 <= j < i ==> u.slots[j].refcount != 0
    ensures Reaches(s, steps, t) && t == R.Enqueued(R.Acquired(u, 0, i), 0, i)
    ensures t.prods == u.prods
  {
    var v;
    steps, v := R.Acquire(s, before, u, 0, i);
    steps, t := R.Enqueue(s, steps, v, 0, i);
  }

  /** Slot 0 released after frame 0, frame 1 ready in slot 1. */
  predicate HigherSlotWaiting(s: Pool) {
    && WellFormed(s) && |s.slots| == 2 && s.slots[0].refcount == 0 && s.slots[1].refcount == 2
    && s.prods == [ProdIdle] && s.mutex.Nobody? && s.cons.ConsIdle? && s.pending == 1
    && s.tags[1] == 1 && |s.sent| == 2 && s.handed == [0]
  }

  /** Frame 0 in the consumer's hands. */
  predicate LowerSlotHeld(s: Pool) {
    && WellFormed(s) && |s.slots| == 2 && s.slots[0].refcount == 2 && s.slots[1].refcount == 0
    && s.prods == [ProdIdle] && s.mutex.Nobody? && s.cons == ConsHold(0) && s.pending == 0
    && |s.sent| == 1 && s.handed == [0]
  }

  lemma FirstHeld(memory: seq<seq<byte>>) returns (steps: seq<Step>, s: Pool)
    requires |memory| == 2
    ensures Reaches(Init(memory, 1), steps, s) && LowerSlotHeld(s)
  {
    var s0 := Init(memory, 1);
    var a;
    steps, a := Acquire(s0, [], s0, 0);
    steps, s := R.Dequeue(s0, steps, a, 0);
  }

  lemma SecondWaits(s0: Pool, before: seq<Step>, u: Pool) returns (steps: seq<Step>, s: Pool)
    requires Reaches(s0, before, u) && LowerSlotHeld(u)
    ensures Reaches(s0, steps, s) && HigherSlotWaiting(s)
  {
    var a;
    steps, a := Acquire(s0, before, u, 1);
    steps, s := R.Release(s0, steps, a);
  }

  /**
    One producer, two slots. While the consumer holds frame 0 of slot 0, frame 1 goes to slot 1; after the release
    frame 2 goes to slot 0, and the next dequeue hands out 2 while 1 is still waiting.
  */
  lemma LaterEnqueueOvertakes(memory: seq<seq<byte>>) returns (steps: seq<Step>, s: Pool)
    requires |memory| == 2
    ensures Reaches(Init(memory, 1), steps, s) && WellFormed(s)
    ensures s.handed == [0, 2] && |s.sent| == 3 && Waiting(s, 1)
  {
    var c, d, e;
    steps, c := FirstHeld(memory);
    steps, d := SecondWaits(Init(memory, 1), steps, c);
    steps, e := Acquire(Init(memory, 1), steps, d, 0);
    steps, s := R.Dequeue(Init(memory, 1), steps, e, 0);
    assert Ready(s, 1) && s.tags[1] == 1;
  }
}
