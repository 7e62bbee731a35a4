/**
  Feedback shift registers over an arbitrary word type. The theory behind a CRC: what it computes
  depends only on a few laws of the word's operations, collected in `Laws`.
*/
module ShiftRegister {

  /**
    `step` is one shift with feedback, `add` the exclusive or of two words, `low(b)` the word whose lowest
    bit is b, and `join(w, b)` the word w moved up by one with b below it.
  */
  datatype Register<!T> = Register(step: T -> T, add: (T, T) -> T, zero: T, low: bool -> T, join: (T, bool) -> T)

  predicate SwapsAt<T(==)>(r: Register<T>, x: T, y: T, u: T, v: T) {
    r.add(r.add(x, y), r.add(u, v)) == r.add(r.add(x, u), r.add(y, v))
  }

  ghost predicate AddLaws<T(!new)>(r: Register<T>) {
    && (forall x: T :: r.add(x, r.zero) == x)
    && (forall x: T :: r.add(r.zero, x) == x)
    && (forall x: T, y: T :: r.add(x, y) == r.zero <==> x == y)
    && (forall x: T, y: T, u: T, v: T :: SwapsAt(r, x, y, u, v))
    && r.low(false) == r.zero
    && (forall a: bool, b: bool :: r.low(a != b) == r.add(r.low(a), r.low(b)))
  }

  /** The shift is linear and loses nothing. */
  ghost predicate StepLaws<T(!new)>(r: Register<T>) {
    && (forall x: T, y: T :: r.step(r.add(x, y)) == r.add(r.step(x), r.step(y)))
    && (forall x: T :: r.step(x) == r.zero <==> x == r.zero)
  }

  /** Up to `width` bits packed into a word, the first one lowest. */
  function Word<T>(r: Register<T>, bits: seq<bool>): T
    decreases |bits|
  {
    if bits == [] then r.zero else r.join(Word(r, bits[1..]), bits[0])
  }

  /** Packed bits move down by one in a step, whatever the lowest of them adds. */
  predicate MovesDown<T(==)>(r: Register<T>, c: T, bits: seq<bool>) {
    bits != [] ==>
      r.step(r.add(c, Word(r, bits))) == r.add(r.step(r.add(c, r.low(bits[0]))), Word(r, bits[1..]))
  }

  ghost predicate WordLaws<T(!new)>(r: Register<T>, width: nat) {
    && (forall c: T, bits: seq<bool> :: |bits| <= width ==> MovesDown(r, c, bits))
    && (forall bits: seq<bool> :: |bits| <= width && Word(r, bits) == r.zero ==> true !in bits)
  }

  ghost predicate Laws<T(!new)>(r: Register<T>, width: nat) {
    AddLaws(r) && StepLaws(r) && WordLaws(r, width)
  }

  function Iterate<T>(f: T -> T, c: T, n: nat): T
    decreases n
  {
    if n == 0 then c else Iterate(f, f(c), n - 1)
  }

  /** The register fed one bit at a time. */
  function Feed<T>(r: Register<T>, c: T, bits: seq<bool>): T
    decreases |bits|
  {
    if bits == [] then c else Feed(r, r.step(r.add(c, r.low(bits[0]))), bits[1..])
  }

  /** The bits in which two streams differ. */
  function Differ(a: seq<bool>, b: seq<bool>): (d: seq<bool>)
    requires |a| == |b|
    ensures |d| == |a|
  {
    seq(|a|, i requires 0 <= i < |a| => a[i] != b[i])
  }

  lemma {:induction false} FeedConcat<T>(r: Register<T>, c: T, a: seq<bool>, b: seq<bool>)
    ensures Feed(r, c, a + b) == Feed(r, Feed(r, c, a), b)
    decreases |a|
  {
    if a == [] {
      assert a + b == b;
    } else {
      assert (a + b)[1..] == a[1..] + b;
      FeedConcat(r, r.step(r.add(c, r.low(a[0]))), a[1..], b);
    }
  }

  /** Feeding is linear: the difference of two runs is the run on the differences. */
  lemma {:induction false} FeedLinear<T(!new)>(r: Register<T>, c: T, d: T, a: seq<bool>, b: seq<bool>)
    requires AddLaws(r) && StepLaws(r) && |a| == |b|
    ensures Feed(r, r.add(c, d), Differ(a, b)) == r.add(Feed(r, c, a), Feed(r, d, b))
    decreases |a|
  {
    if a != [] {
      var x, y := r.add(c, r.low(a[0])), r.add(d, r.low(b[0]));
      assert r.low(a[0] != b[0]) == r.add(r.low(a[0]), r.low(b[0]));
      assert SwapsAt(r, c, d, r.low(a[0]), r.low(b[0]));
      assert r.step(r.add(x, y)) == r.add(r.step(x), r.step(y));
      assert Differ(a, b)[1..] == Differ(a[1..], b[1..]);
      FeedLinear(r, r.step(x), r.step(y), a[1..], b[1..]);
    }
  }

  lemma {:induction false} IterateLossless<T(!new)>(r: Register<T>, c: T, n: nat)
    requires StepLaws(r)
    ensures Iterate(r.step, c, n) == r.zero <==> c == r.zero
    decreases n
  {
    if n > 0 { IterateLossless(r, r.step(c), n - 1); }
  }

  /** Feeding as many bits as fit a word is adding them all at once and then shifting. */
  lemma {:induction false} FeedWord<T(!new)>(r: Register<T>, width: nat, c: T, bits: seq<bool>)
    requires Laws(r, width) && |bits| <= width
    ensures Feed(r, c, bits) == Iterate(r.step, r.add(c, Word(r, bits)), |bits|)
    decreases |bits|
  {
    if bits == [] {
      assert r.add(c, r.zero) == c;
    } else {
      assert MovesDown(r, c, bits);
      FeedWord(r, width, r.step(r.add(c, r.low(bits[0]))), bits[1..]);
      assert Iterate(r.step, r.add(c, Word(r, bits)), |bits|)
          == Iterate(r.step, r.step(r.add(c, Word(r, bits))), |bits| - 1);
    }
  }

  lemma {:induction false} FeedZeros<T(!new)>(r: Register<T>, c: T, bits: seq<bool>)
    requires AddLaws(r) && StepLaws(r) && true !in bits
    ensures Feed(r, c, bits) == r.zero <==> c == r.zero
    decreases |bits|
  {
    if bits != [] {
      assert bits[0] == false;
      FeedZeros(r, r.step(r.add(c, r.low(bits[0]))), bits[1..]);
    }
  }

  /** A register holding c, fed one word's worth of bits, ends at zero exactly when those bits spell c. */
  lemma FeedCancels<T(!new)>(r: Register<T>, width: nat, c: T, bits: seq<bool>)
    requires Laws(r, width) && |bits| <= width
    ensures Feed(r, c, bits) == r.zero <==> c == Word(r, bits)
  {
    FeedWord(r, width, c, bits);
    IterateLossless(r, r.add(c, Word(r, bits)), |bits|);
  }

  predicate SetWithin(bits: seq<bool>, k: nat, width: nat) {
    forall i :: 0 <= i < |bits| && bits[i] ==> k <= i < k + width
  }

  /** All set bits lie among `width` consecutive positions. */
  ghost predicate IsBurst(bits: seq<bool>, width: nat) {
    exists k: nat :: SetWithin(bits, k, width)
  }

  lemma CutOutBurst(bits: seq<bool>, k: nat, width: nat) returns (head: seq<bool>, burst: seq<bool>, tail: seq<bool>)
    requires SetWithin(bits, k, width) && true in bits
    ensures bits == head + (burst + tail) && |burst| <= width
    ensures true !in head && true !in tail && true in burst
  {
    var first :| 0 <= first < |bits| && bits[first];
    var end := if k + width <= |bits| then k + width else |bits|;
    head, burst, tail := bits[..k], bits[k..end], bits[end..];
    assert forall i :: 0 <= i < |head| ==> head[i] == bits[i];
    assert forall i :: 0 <= i < |tail| ==> tail[i] == bits[end + i];
    assert burst[first - k] == bits[first];
  }

  /** Zero bits before a burst and after it change nothing about whether the register ends at zero. */
  lemma FeedPadded<T(!new)>(r: Register<T>, head: seq<bool>, burst: seq<bool>, tail: seq<bool>)
    requires AddLaws(r) && StepLaws(r) && true !in head && true !in tail
    ensures Feed(r, r.zero, head + (burst + tail)) == r.zero <==> Feed(r, r.zero, burst) == r.zero
  {
    FeedConcat(r, r.zero, head, burst + tail);
    FeedZeros(r, r.zero, head);
    FeedConcat(r, r.zero, burst, tail);
    FeedZeros(r, Feed(r, r.zero, burst), tail);
  }

  lemma {:induction false} ZeroWordHasNoBits<T(!new)>(r: Register<T>, width: nat, bits: seq<bool>)
    requires WordLaws(r, width) && |bits| <= width && true in bits
    ensures Word(r, bits) != r.zero
  {
  }

  /** A nonempty burst no longer than the register never feeds to zero. */
  lemma BurstNeverCancels<T(!new)>(r: Register<T>, width: nat, bits: seq<bool>)
    requires Laws(r, width) && IsBurst(bits, width) && true in bits
    ensures Feed(r, r.zero, bits) != r.zero
  {
    var k: nat :| SetWithin(bits, k, width);
    var head, burst, tail := CutOutBurst(bits, k, width);
    FeedPadded(r, head, burst, tail);
    FeedCancels(r, width, r.zero, burst);
    ZeroWordHasNoBits(r, width, burst);
  }
}
