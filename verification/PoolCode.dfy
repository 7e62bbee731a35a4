/**
  The pool functions of libbb/bb_pool.c as they are written, over the pool's own fields. Each call, run
  without interruption, is a run of the step machines SpscRing and MpscPool: `s` is the machine's state at
  the call, `t` the one at the return, and the steps between them are the call's own.
*/
module PoolCode {
  import opened Common
  import opened FrameSlots
  import S = SpscRing
  import M = MpscPool
  import R = PoolRuns

  /** bb_pool_mp_dequeue returns a frame or NULL, or sleeps in pthread_cond_wait. */
  datatype Outcome = Frame(i: nat) | Null | Asleep

  lemma {:induction false} RingRunNext(s: S.Ring, steps: seq<S.Step>, t: S.Ring, step: S.Step)
    requires S.Reaches(s, steps, t) && S.WellFormed(t) && S.Enabled(t, step)
    ensures S.Reaches(s, steps + [step], S.Apply(t, step))
    decreases |steps|
  {
    if steps == [] {
      assert (steps + [step])[1..] == [];
    } else {
      assert (steps + [step])[1..] == steps[1..] + [step];
      RingRunNext(S.Apply(s, steps[0]), steps[1..], t, step);
    }
  }

  lemma MissedIsUnreachable(s: M.Pool, steps: seq<M.Step>, t: M.Pool)
    requires M.Reaches(s, steps, t)
    ensures M.Inv(s) ==> !t.cons.ConsMissed?
  {
    if M.Inv(s) { M.RunKeepsInv(s, steps, t); }
  }

  class FramePool {
    var refcount: array<int>    // one word a frame
    var writeIdx: nat
    var readIdx: nat
    var mpPending: int

    constructor (count: nat)
      ensures fresh(refcount) && refcount.Length == count
      ensures forall i :: 0 <= i < count ==> refcount[i] == 0
      ensures writeIdx == readIdx == 0 && mpPending == 0
    {
      refcount := new int[count](i => 0);
      writeIdx, readIdx, mpPending := 0, 0, 0;
    }

    ghost predicate ShowsRefs(slots: seq<Slot>)
      reads this, refcount
    {
      |slots| == refcount.Length && forall i :: 0 <= i < |slots| ==> refcount[i] == slots[i].refcount
    }

    ghost predicate Shows(s: S.Ring)
      reads this, refcount
    {
      ShowsRefs(s.slots) && s.writeIdx == writeIdx && s.readIdx == readIdx
    }

    ghost predicate ShowsMp(s: M.Pool)
      reads this, refcount
    {
      ShowsRefs(s.slots) && s.pending == mpPending
    }

    // ---- One producer, one consumer ----

    method SpAcquire(ghost s: S.Ring) returns (f: Option<nat>, ghost steps: seq<S.Step>, ghost t: S.Ring)
      requires S.WellFormed(s) && Shows(s) && s.prod.ProdIdle?
      modifies refcount
      ensures S.Reaches(s, steps, t) && Shows(t)
      ensures t.prod == if f.None? then S.ProdIdle else S.ProdOwn(f.value)
      ensures f.None? <==> writeIdx - readIdx >= refcount.Length || old(refcount[..])[writeIdx % refcount.Length] != 0
      ensures f.Some? ==> f.value == writeIdx % refcount.Length && refcount[..] == old(refcount[..])[f.value := 1]
      ensures f.None? ==> refcount[..] == old(refcount[..])
    {
      steps, t := [], s;
      var w := writeIdx;
      RingRunNext(s, steps, t, S.ProdLoadWrite);
      steps, t := steps + [S.ProdLoadWrite], S.Apply(t, S.ProdLoadWrite);
      var r := readIdx;
      RingRunNext(s, steps, t, S.ProdLoadRead);
      steps, t := steps + [S.ProdLoadRead], S.Apply(t, S.ProdLoadRead);
      if w - r >= refcount.Length { return None, steps, t; }
      var idx := w % refcount.Length;
      RingRunNext(s, steps, t, S.ProdCas);
      steps, t := steps + [S.ProdCas], S.Apply(t, S.ProdCas);
      if refcount[idx] != 0 { return None, steps, t; }
      refcount[idx] := 1;
      f := Some(idx);
    }

    method SpCommit(ghost s: S.Ring) returns (ghost t: S.Ring)
      requires S.WellFormed(s) && Shows(s) && s.prod.ProdOwn?
      modifies `writeIdx
      ensures S.Reaches(s, [S.ProdCommit], t) && Shows(t) && t.prod.ProdIdle?
      ensures writeIdx == old(writeIdx) + 1
    {
      RingRunNext(s, [], s, S.ProdCommit);
      t := S.Apply(s, S.ProdCommit);
      writeIdx := writeIdx + 1;
    }

    method SpDequeue(ghost s: S.Ring) returns (f: Option<nat>, ghost steps: seq<S.Step>, ghost t: S.Ring)
      requires S.WellFormed(s) && Shows(s) && s.cons.ConsIdle?
      modifies `readIdx
      ensures S.Reaches(s, steps, t) && Shows(t) && t.cons.ConsIdle?
      ensures f.None? <==> old(readIdx) >= writeIdx || refcount[old(readIdx) % refcount.Length] < 1
      ensures f.Some? ==> f.value == old(readIdx) % refcount.Length && t.held == s.held + {f.value}
      ensures readIdx == if f.Some? then old(readIdx) + 1 else old(readIdx)
    {
      steps, t := [], s;
      var w := writeIdx;
      RingRunNext(s, steps, t, S.ConsLoadWrite);
      steps, t := steps + [S.ConsLoadWrite], S.Apply(t, S.ConsLoadWrite);
      var r := readIdx;
      RingRunNext(s, steps, t, S.ConsLoadRead);
      steps, t := steps + [S.ConsLoadRead], S.Apply(t, S.ConsLoadRead);
      if r >= w { return None, steps, t; }
      var idx := r % refcount.Length;
      RingRunNext(s, steps, t, S.ConsLoadRef);
      steps, t := steps + [S.ConsLoadRef], S.Apply(t, S.ConsLoadRef);
      if refcount[idx] < 1 { return None, steps, t; }
      RingRunNext(s, steps, t, S.ConsFetchAdd);
      steps, t := steps + [S.ConsFetchAdd], S.Apply(t, S.ConsFetchAdd);
      readIdx := readIdx + 1;
      f := Some(idx);
    }

    /**
      The consumer releases a frame it holds; the producer, after a failed read, the frame it acquired and has
      not committed.
    */
    method SpRelease(i: nat, ghost byProducer: bool, ghost s: S.Ring) returns (ghost t: S.Ring)
      requires S.WellFormed(s) && Shows(s)
      requires if byProducer then s.prod == S.ProdOwn(i) else s.cons.ConsIdle? && i in s.held
      modifies refcount
      ensures S.Reaches(s, [if byProducer then S.ProdAbandon else S.ConsRelease(i)], t) && Shows(t)
      ensures if byProducer then t.prod.ProdIdle? && t.held == s.held else t.prod == s.prod && t.held == s.held - {i}
      ensures refcount[..] == old(refcount[..])[i := 0]
    {
      ghost var step := if byProducer then S.ProdAbandon else S.ConsRelease(i);
      RingRunNext(s, [], s, step);
      t := S.Apply(s, step);
      refcount[i] := 0;
    }

    // ---- Many producers, one consumer ----

    /** The scan takes the lowest free frame. */
    method MpAcquire(p: nat, ghost s: M.Pool) returns (f: Option<nat>, ghost steps: seq<M.Step>, ghost t: M.Pool)
      requires M.WellFormed(s) && ShowsMp(s) && p < |s.prods| && s.prods[p].ProdIdle?
      modifies refcount
      ensures M.Reaches(s, steps, t) && ShowsMp(t) && p < |t.prods|
      ensures t.prods[p] == if f.None? then M.ProdIdle else M.ProdOwn(f.value)
      ensures f.None? ==> 0 !in old(refcount[..]) && refcount[..] == old(refcount[..])
      ensures f.Some? ==>
                f.value < refcount.Length && old(refcount[..])[f.value] == 0 && 0 !in old(refcount[..])[..f.value]
      ensures f.Some? ==> refcount[..] == old(refcount[..])[f.value := 1]
    {
      R.RunNext(s, [], s, M.ProdBegin(p));
      steps, t := [] + [M.ProdBegin(p)], M.Apply(s, M.ProdBegin(p));
      for i := 0 to refcount.Length
        invariant refcount[..] == old(refcount[..]) && 0 !in refcount[..i]
        invariant M.WellFormed(t) && M.Reaches(s, steps, t) && ShowsMp(t) && |t.prods| == |s.prods|
        invariant t.prods[p] == if i < refcount.Length then M.ProdScan(i) else M.ProdIdle
      {
        steps, t := R.ScanSlot(s, steps, t, p);
        if refcount[i] == 0 {
          refcount[i] := 1;
          return Some(i), steps, t;
        }
      }
      f := None;
    }

    method MpEnqueue(p: nat, f: nat, ghost s: M.Pool) returns (ghost steps: seq<M.Step>, ghost t: M.Pool)
      requires M.WellFormed(s) && ShowsMp(s) && p < |s.prods| && s.prods[p] == M.ProdOwn(f) && s.mutex.Nobody?
      modifies refcount, `mpPending
      ensures M.Reaches(s, steps, t) && ShowsMp(t) && t == R.Enqueued(s, p, f)
      ensures t.mutex.Nobody? && t.prods == s.prods[p := M.ProdIdle]
      ensures t.cons == if s.cons.ConsSleep? then M.ConsWoken else s.cons
      ensures refcount[..] == old(refcount[..])[f := old(refcount[f]) + 1] && mpPending == old(mpPending) + 1
    {
      refcount[f] := refcount[f] + 1;
      mpPending := mpPending + 1;
      steps, t := R.Enqueue(s, [], s, p, f);
    }

    /** The loop of dequeue: the lowest ready frame, if there is one. */
    method FindReady(ghost s: M.Pool, ghost before: seq<M.Step>, ghost u: M.Pool)
      returns (f: Option<nat>, ghost steps: seq<M.Step>, ghost t: M.Pool)
      requires M.Reaches(s, before, u) && M.WellFormed(u) && ShowsMp(u) && u.cons == M.ConsScan(0)
      ensures M.Reaches(s, steps, t)
      ensures t == u.(cons := if f.Some? then M.ConsFound(f.value) else M.ConsMissed)
      ensures f.Some? ==> f.value < refcount.Length && refcount[f.value] >= 2
      ensures forall j :: 0 <= j < (if f.Some? then f.value else refcount.Length) ==> refcount[j] < 2
    {
      steps, t := before, u;
      for i := 0 to refcount.Length
        invariant forall j :: 0 <= j < i ==> refcount[j] < 2
        invariant M.Reaches(s, steps, t)
        invariant t == u.(cons := if i < refcount.Length then M.ConsScan(i) else M.ConsMissed)
      {
        steps, t := R.DequeueTests(s, steps, t);
        if refcount[i] >= 2 { return Some(i), steps, t; }
      }
      f := None;
    }

    /** The scan hands out the lowest ready frame, not the oldest; in a consistent pool it always finds one. */
    method MpDequeue(ghost s: M.Pool) returns (r: Outcome, ghost steps: seq<M.Step>, ghost t: M.Pool)
      requires M.WellFormed(s) && ShowsMp(s) && s.cons.ConsIdle? && s.mutex.Nobody?
      modifies `mpPending
      ensures M.Reaches(s, steps, t) && ShowsMp(t) && t.mutex.Nobody?
      ensures t.cons == match r case Frame(i) => M.ConsHold(i) case Null => M.ConsIdle case Asleep => M.ConsSleep
      ensures r.Asleep? <==> old(mpPending) == 0
      ensures r.Frame? ==> r.i < refcount.Length && refcount[r.i] >= 2 && forall j :: 0 <= j < r.i ==> refcount[j] < 2
      ensures r.Frame? ==> t.handed == s.handed + [s.tags[r.i]]
      ensures r.Null? ==> forall j :: 0 <= j < refcount.Length ==> refcount[j] < 2
      ensures mpPending == if r.Asleep? then old(mpPending) else old(mpPending) - 1
      ensures M.Inv(s) ==> !r.Null?
    {
      steps, t := R.DequeueEnters(s, [], s);
      if mpPending == 0 { return Asleep, steps, t; }
      var f;
      f, steps, t := FindReady(s, steps, t);
      MissedIsUnreachable(s, steps, t);
      steps, t := R.DequeueLeaves(s, steps, t);
      mpPending := mpPending - 1;
      r := if f.Some? then Frame(f.value) else Null;
    }

    method MpRelease(i: nat, ghost s: M.Pool) returns (ghost t: M.Pool)
      requires M.WellFormed(s) && ShowsMp(s) && s.cons == M.ConsHold(i)
      modifies refcount
      ensures M.Reaches(s, [M.ConsRelease], t) && ShowsMp(t) && t.cons.ConsIdle?
      ensures refcount[..] == old(refcount[..])[i := 0]
    {
      R.RunNext(s, [], s, M.ConsRelease);
      t := M.Apply(s, M.ConsRelease);
      refcount[i] := 0;
    }
  }
}
