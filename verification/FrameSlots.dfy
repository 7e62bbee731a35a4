/** The frame descriptor shared by both pool protocols of libbb/bb_pool.c. */
module FrameSlots {

  newtype byte = x: int | 0 <= x < 256

  type Payload = seq<byte>

  /** `refcount` is the atomic word both protocols synchronise on. */
  datatype Slot = Slot(refcount: int, size: nat, data: seq<byte>) {

    predicate Valid() { size <= |data| }

    /** The bytes a receiver of this frame may read. */
    function Bytes(): Payload
      requires Valid()
    {
      data[..size]
    }
  }

  /** Freshly initialised frames: `size` is the whole buffer, whatever malloc left in it. */
  function FreshSlots(memory: seq<seq<byte>>): (slots: seq<Slot>)
    ensures |slots| == |memory|
    ensures forall i :: 0 <= i < |slots| ==> slots[i] == Slot(0, |memory[i]|, memory[i])
  {
    seq(|memory|, i requires 0 <= i < |memory| => Slot(0, |memory[i]|, memory[i]))
  }

  /** A store to one refcount word. */
  function SetRef(slots: seq<Slot>, i: nat, v: int): seq<Slot>
    requires i < |slots|
  {
    slots[i := slots[i].(refcount := v)]
  }
}
