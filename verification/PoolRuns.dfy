/**
  What the functions of the multi-producer pool do when nothing interrupts them, as runs of the step machine
  MpscPool. Each lemma extends a run from s to u by the steps of one call, and gives the whole new state.
*/
module PoolRuns {
  import opened FrameSlots
  import opened MpscPool

  lemma {:induction false} RunNext(s: Pool, steps: seq<Step>, t: Pool, step: Step)
    requires Reaches(s, steps, t) && WellFormed(t) && Enabled(t, step)
    ensures Reaches(s, steps + [step], Apply(t, step))
    decreases |steps|
  {
    if steps == [] {
      assert (steps + [step])[1..] == [];
    } else {
      assert (steps + [step])[1..] == steps[1..] + [step];
      RunNext(Apply(s, steps[0]), steps[1..], t, step);
    }
  }

  // ---- bb_pool_mp_acquire ----

  function Acquired(s: Pool, p: nat, i: nat): Pool
    requires i < |s.slots| && i < |s.owners| && p < |s.prods|
  {
    s.(slots := SetRef(s.slots, i, 1), prods := s.prods[p := ProdOwn(i)], owners := s.owners[i := p])
  }

  lemma ScanSlot(s: Pool, before: seq<Step>, u: Pool, p: nat) returns (steps: seq<Step>, t: Pool)
    requires Reaches(s, before, u) && WellFormed(u) && p < |u.prods| && u.prods[p].ProdScan?
    ensures Reaches(s, steps, t)
    ensures var i := u.prods[p].idx;
            t == if u.slots[i].refcount == 0 then Acquired(u, p, i)
                 else u.(prods := u.prods[p := if i + 1 < |u.slots| then ProdScan(i + 1) else ProdIdle])
  {
    RunNext(s, before, u, ProdCas(p));
    steps, t := before + [ProdCas(p)], Apply(u, ProdCas(p));
  }

  lemma {:induction false} ScanOn(s: Pool, before: seq<Step>, u: Pool, p: nat, k: nat, i: nat)
    returns (steps: seq<Step>, t: Pool)
    requires Reaches(s, before, u) && WellFormed(u) && p < |u.prods| && u.prods[p] == ProdScan(k)
    requires k <= i < |u.slots| && u.slots[i].refcount == 0
    requires forall j :: k <= j < i ==> u.slots[j].refcount != 0
    ensures Reaches(s, steps, t) && t == Acquired(u, p, i)
    decreases i - k
  {
    steps, t := ScanSlot(s, before, u, p);
    if k < i {
      steps, t := ScanOn(s, steps, t, p, k + 1, i);
      assert t.prods == u.prods[p := ProdOwn(i)];
    }
  }

  /** The scan takes the lowest free frame. */
  lemma Acquire(s: Pool, before: seq<Step>, u: Pool, p: nat, i: nat) returns (steps: seq<Step>, t: Pool)
    requires Reaches(s, before, u) && WellFormed(u) && p < |u.prods| && u.prods[p].ProdIdle?
    requires i < |u.slots| && u.slots[i].refcount == 0 && forall j :: 0 <= j < i ==> u.slots[j].refcount != 0
    ensures Reaches(s, steps, t) && t == Acquired(u, p, i)
  {
    RunNext(s, before, u, ProdBegin(p));
    var v := Apply(u, ProdBegin(p));
    steps, t := ScanOn(s, before + [ProdBegin(p)], v, p, 0, i);
    assert t.prods == u.prods[p := ProdOwn(i)];
  }

  // ---- bb_pool_mp_enqueue ----

  function Woken(pc: ConsumerPc): ConsumerPc { if pc.ConsSleep? then ConsWoken else pc }

  function Marked(s: Pool, p: nat, i: nat): Pool
    requires i < |s.slots| && i < |s.tags| && s.slots[i].Valid()
  {
    s.(slots := SetRef(s.slots, i, s.slots[i].refcount + 1),
       tags := s.tags[i := |s.sent|], sent := s.sent + [s.slots[i].Bytes()])
  }

  function Enqueued(s: Pool, p: nat, i: nat): Pool
    requires i < |s.slots| && i < |s.tags| && s.slots[i].Valid() && p < |s.prods|
  {
    Marked(s, p, i).(pending := s.pending + 1, prods := s.prods[p := ProdIdle], cons := Woken(s.cons))
  }

  lemma EnqueueMarks(s: Pool, before: seq<Step>, u: Pool, p: nat, i: nat) returns (steps: seq<Step>, t: Pool)
    requires Reaches(s, before, u) && WellFormed(u) && p < |u.prods| && u.prods[p] == ProdOwn(i) && u.mutex.Nobody?
    ensures Reaches(s, steps, t)
    ensures t == Marked(u, p, i).(mutex := Producer(p), prods := u.prods[p := ProdLocked])
  {
    RunNext(s, before, u, ProdMark(p));
    var v := Apply(u, ProdMark(p));
    RunNext(s, before + [ProdMark(p)], v, ProdLock(p));
    steps, t := before + [ProdMark(p)] + [ProdLock(p)], Apply(v, ProdLock(p));
    assert t.prods == u.prods[p := ProdLocked];
  }

  lemma EnqueueCounts(s: Pool, before: seq<Step>, u: Pool, p: nat) returns (steps: seq<Step>, t: Pool)
    requires Reaches(s, before, u) && WellFormed(u) && p < |u.prods| && u.prods[p].ProdLocked?
    ensures Reaches(s, steps, t) && t == u.(pending := u.pending + 1, prods := u.prods[p := ProdAdded])
  {
    RunNext(s, before, u, ProdAdd(p));
    steps, t := before + [ProdAdd(p)], Apply(u, ProdAdd(p));
  }

  lemma EnqueueSignals(s: Pool, before: seq<Step>, u: Pool, p: nat) returns (steps: seq<Step>, t: Pool)
    requires Reaches(s, before, u) && WellFormed(u) && p < |u.prods| && u.prods[p].ProdAdded?
    ensures Reaches(s, steps, t)
    ensures t == u.(mutex := Nobody, prods := u.prods[p := ProdIdle], cons := Woken(u.cons))
  {
    RunNext(s, before, u, ProdSignal(p));
    var v := Apply(u, ProdSignal(p));
    RunNext(s, before + [ProdSignal(p)], v, ProdRelinquish(p));
    steps, t := before + [ProdSignal(p)] + [ProdRelinquish(p)], Apply(v, ProdRelinquish(p));
    assert t.prods == u.prods[p := ProdIdle];
  }

  lemma Enqueue(s: Pool, before: seq<Step>, u: Pool, p: nat, i: nat) returns (steps: seq<Step>, t: Pool)
    requires Reaches(s, before, u) && WellFormed(u) && p < |u.prods| && u.prods[p] == ProdOwn(i) && u.mutex.Nobody?
    ensures Reaches(s, steps, t) && t == Enqueued(u, p, i)
  {
    var v, w;
    steps, v := EnqueueMarks(s, before, u, p, i);
    steps, w := EnqueueCounts(s, steps, v, p);
    steps, t := EnqueueSignals(s, steps, w, p);
    assert t.prods == u.prods[p := ProdIdle];
  }

  // ---- bb_pool_mp_dequeue ----

  /** The mutex taken and mp_pending tested. */
  lemma DequeueEnters(s: Pool, before: seq<Step>, u: Pool) returns (steps: seq<Step>, t: Pool)
    requires Reaches(s, before, u) && WellFormed(u) && u.cons.ConsIdle? && u.mutex.Nobody?
    ensures Reaches(s, steps, t)
    ensures t == if u.pending == 0 then u.(cons := ConsSleep) else u.(cons := ConsScan(0), mutex := Consumer)
  {
    RunNext(s, before, u, ConsBegin);
    var v := Apply(u, ConsBegin);
    RunNext(s, before + [ConsBegin], v, ConsLock);
    var w := Apply(v, ConsLock);
    RunNext(s, before + [ConsBegin] + [ConsLock], w, ConsLoadPending);
    steps, t := before + [ConsBegin] + [ConsLock] + [ConsLoadPending], Apply(w, ConsLoadPending);
  }

  /** One slot of the scan tested. */
  lemma DequeueTests(s: Pool, before: seq<Step>, u: Pool) returns (steps: seq<Step>, t: Pool)
    requires Reaches(s, before, u) && WellFormed(u) && u.cons.ConsScan?
    ensures Reaches(s, steps, t)
    ensures var i := u.cons.idx;
            t == u.(cons := if u.slots[i].refcount >= 2 then ConsFound(i)
                            else if i + 1 < |u.slots| then ConsScan(i + 1) else ConsMissed)
  {
    RunNext(s, before, u, ConsLoadRef);
    steps, t := before + [ConsLoadRef], Apply(u, ConsLoadRef);
  }

  /** mp_pending lowered and the mutex given up, with a frame or without. */
  lemma DequeueLeaves(s: Pool, before: seq<Step>, u: Pool) returns (steps: seq<Step>, t: Pool)
    requires Reaches(s, before, u) && WellFormed(u) && (u.cons.ConsFound? || u.cons.ConsMissed?)
    ensures Reaches(s, steps, t)
    ensures t == if u.cons.ConsMissed? then u.(pending := u.pending - 1, cons := ConsIdle, mutex := Nobody)
                 else u.(pending := u.pending - 1, cons := ConsHold(u.cons.idx), mutex := Nobody,
                         handed := u.handed + [u.tags[u.cons.idx]])
  {
    var take := if u.cons.ConsFound? then ConsTake else ConsTakeNothing;
    var v := Apply(u, take);
    RunNext(s, before, u, take);
    RunNext(s, before + [take], v, ConsRelinquish);
    steps, t := before + [take] + [ConsRelinquish], Apply(v, ConsRelinquish);
  }

  lemma {:induction false} DequeueScans(s: Pool, before: seq<Step>, u: Pool, k: nat, i: nat)
    returns (steps: seq<Step>, t: Pool)
    requires Reaches(s, before, u) && WellFormed(u) && u.cons == ConsScan(k)
    requires k <= i < |u.slots| && u.slots[i].refcount >= 2 && forall j :: k <= j < i ==> u.slots[j].refcount < 2
    ensures Reaches(s, steps, t) && t == u.(cons := ConsFound(i))
    decreases i - k
  {
    steps, t := DequeueTests(s, before, u);
    if k < i { steps, t := DequeueScans(s, steps, t, k + 1, i); }
  }

  /** The lowest ready frame is handed out. */
  lemma Dequeue(s: Pool, before: seq<Step>, u: Pool, i: nat) returns (steps: seq<Step>, t: Pool)
    requires Reaches(s, before, u) && WellFormed(u) && u.cons.ConsIdle? && u.mutex.Nobody? && u.pending != 0
    requires i < |u.slots| && u.slots[i].refcount >= 2 && forall j :: 0 <= j < i ==> u.slots[j].refcount < 2
    ensures Reaches(s, steps, t)
    ensures t == u.(pending := u.pending - 1, cons := ConsHold(i), handed := u.handed + [u.tags[i]])
  {
    var v, w;
    steps, v := DequeueEnters(s, before, u);
    steps, w := DequeueScans(s, steps, v, 0, i);
    steps, t := DequeueLeaves(s, steps, w);
  }

  lemma Release(s: Pool, before: seq<Step>, u: Pool) returns (steps: seq<Step>, t: Pool)
    requires Reaches(s, before, u) && WellFormed(u) && u.cons.ConsHold?
    ensures Reaches(s, steps, t)
    ensures t == u.(slots := SetRef(u.slots, u.cons.idx, 0), cons := ConsIdle)
  {
    RunNext(s, before, u, ConsRelease);
    steps, t := before + [ConsRelease], Apply(u, ConsRelease);
  }
}
