/**
  The check of the manufacturing record in libbb/bb_persist.c: the reflected CRC-32 polynomial with
  initial value 0 and no final complement, compared with the little-endian field that ends the record.
  A uint8_t or uint32_t is modelled as its 8 or 32 bits, lowest bit first.
*/
module MfgCrc {
  import opened ShiftRegister

  function Zeros(n: nat): (z: seq<bool>)
    ensures |z| == n && true !in z
  {
    seq(n, i => false)
  }

  type Byte = b: seq<bool> | |b| == 8 witness Zeros(8)
  type Word32 = w: seq<bool> | |w| == 32 witness Zeros(32)

  const ZERO: Word32 := Zeros(32)

  /** Bit i of a number. */
  function NatBit(n: nat, i: nat): bool
    decreases i
  {
    if i == 0 then n % 2 == 1 else NatBit(n / 2, i - 1)
  }

  /** The lowest bits of a number, lowest first. */
  function NatBits(n: nat, width: nat): (bits: seq<bool>)
    ensures |bits| == width && forall i :: 0 <= i < width ==> bits[i] == NatBit(n, i)
  {
    seq(width, i requires 0 <= i < width => NatBit(n, i))
  }

  const POLY: Word32 := NatBits(0xEDB8_8320, 32)

  // ---- The specification of the loop ----

  function Xor(x: Word32, y: Word32): Word32 {
    seq(32, i requires 0 <= i < 32 => x[i] != y[i])
  }

  /** One shift to the right: the polynomial is added when a set bit falls out. */
  function Shift(c: Word32): Word32 {
    Xor(c[1..] + [false], if c[0] then POLY else ZERO)
  }

  function Widen(b: Byte): Word32 { b + Zeros(24) }

  function CrcFrom(c: Word32, p: seq<Byte>): Word32
    decreases |p|
  {
    if p == [] then c else CrcFrom(Iterate(Shift, Xor(c, Widen(p[0])), 8), p[1..])
  }

  /** The number a 32-bit little-endian field stands for: its lowest byte comes first. */
  function Le32(p: seq<Byte>): Word32
    requires |p| == 4
  {
    seq(32, i requires 0 <= i < 32 => p[i / 8][i % 8])
  }

  /** The last four bytes are the CRC of all the others. */
  predicate Accepts(record: seq<Byte>)
    requires |record| >= 4
  {
    CrcFrom(ZERO, record[..|record| - 4]) == Le32(record[|record| - 4..])
  }

  /** The bits of a record in the order the register takes them. */
  function Bits(p: seq<Byte>): (bits: seq<bool>)
    ensures |bits| == 8 * |p|
    decreases |p|
  {
    if p == [] then [] else p[0] + Bits(p[1..])
  }

  /** A corrupted record: the set bits of the error pattern flip. */
  function Flip(p: seq<Byte>, e: seq<Byte>): (r: seq<Byte>)
    requires |p| == |e|
    ensures |r| == |p|
  {
    seq(|p|, i requires 0 <= i < |p| => Differ(p[i], e[i]))
  }

  // ---- The register obeys the laws of ShiftRegister ----

  function Low(bit: bool): Word32 { [bit] + Zeros(31) }
  function Join(w: Word32, bit: bool): Word32 { [bit] + w[..31] }
  function Crc(): Register<Word32> { Register(Shift, Xor, ZERO, Low, Join) }

  lemma CrcAddLaws()
    ensures AddLaws(Crc())
  {
    var r := Crc();
    forall x: Word32 ensures r.add(x, r.zero) == x && r.add(r.zero, x) == x { }
    forall x: Word32, y: Word32 ensures r.add(x, y) == r.zero <==> x == y {
      if r.add(x, y) == r.zero {
        forall i | 0 <= i < 32 ensures x[i] == y[i] { assert Xor(x, y)[i] == ZERO[i]; }
      }
    }
    forall x: Word32, y: Word32, u: Word32, v: Word32 ensures SwapsAt(r, x, y, u, v) {
      assert Xor(Xor(x, y), Xor(u, v)) == Xor(Xor(x, u), Xor(y, v));
    }
    forall a: bool, b: bool ensures r.low(a != b) == r.add(r.low(a), r.low(b)) {
      assert Low(a != b) == Xor(Low(a), Low(b));
    }
  }

  lemma ShiftAt(c: Word32, i: nat)
    requires i < 32
    ensures Shift(c)[i] == ((i < 31 && c[i + 1]) != (c[0] && POLY[i]))
  {
  }

  lemma ShiftLinear(x: Word32, y: Word32)
    ensures Shift(Xor(x, y)) == Xor(Shift(x), Shift(y))
  {
    forall i | 0 <= i < 32 ensures Shift(Xor(x, y))[i] == Xor(Shift(x), Shift(y))[i] {
      ShiftAt(Xor(x, y), i);
      ShiftAt(x, i);
      ShiftAt(y, i);
    }
  }

  /** Dropping the lowest hexadecimal digit moves the other bits down by four. */
  lemma DropDigit(n: nat, i: nat)
    requires i >= 4
    ensures NatBit(n, i) == NatBit(n / 16, i - 4)
  {
    assert NatBit(n, i) == NatBit(n / 2, i - 1) == NatBit(n / 2 / 2, i - 2);
    assert NatBit(n / 2 / 2, i - 2) == NatBit(n / 2 / 2 / 2, i - 3) == NatBit(n / 2 / 2 / 2 / 2, i - 4);
    assert n / 2 / 2 / 2 / 2 == n / 16;
  }

  lemma PolyTopBit()
    ensures POLY[31]
  {
    DropDigit(0xEDB8_8320, 31);
    DropDigit(0xEDB_8832, 27);
    DropDigit(0xED_B883, 23);
    DropDigit(0xE_DB88, 19);
    DropDigit(0xEDB8, 15);
    DropDigit(0xEDB, 11);
    DropDigit(0xED, 7);
    assert NatBit(0xE, 3) == NatBit(7, 2) == NatBit(3, 1) == NatBit(1, 0);
  }

  /** The polynomial's top bit marks every shift that fed back. */
  lemma TopBitMarksFeedback(x: Word32)
    ensures Shift(x)[31] == x[0]
  {
    PolyTopBit();
    ShiftAt(x, 31);
  }

  /** So no register content is lost. */
  lemma ShiftLossless(x: Word32)
    ensures Shift(x) == ZERO <==> x == ZERO
  {
    TopBitMarksFeedback(x);
    if Shift(x) == ZERO {
      forall i | 1 <= i < 32 ensures !x[i] {
        ShiftAt(x, i - 1);
        assert !ZERO[i - 1];
      }
      assert x == ZERO;
    }
    forall i | 0 <= i < 32 ensures Shift(ZERO)[i] == ZERO[i] { ShiftAt(ZERO, i); }
    assert Shift(ZERO) == ZERO;
  }

  lemma CrcStepLaws()
    ensures StepLaws(Crc())
  {
    var r := Crc();
    forall x: Word32, y: Word32 ensures r.step(r.add(x, y)) == r.add(r.step(x), r.step(y)) { ShiftLinear(x, y); }
    forall x: Word32 ensures r.step(x) == r.zero <==> x == r.zero { ShiftLossless(x); }
  }

  /** Packing bits into a word puts them at the bottom. */
  lemma {:induction false} WordIsBits(bits: seq<bool>)
    requires |bits| <= 32
    ensures Word(Crc(), bits) == bits + Zeros(32 - |bits|)
    decreases |bits|
  {
    if bits != [] { WordIsBits(bits[1..]); }
  }

  lemma PullBitOut(c: Word32, w: Word32, rest: Word32)
    requires forall i :: 0 <= i < 32 ==> rest[i] == (i < 31 && w[i + 1])
    ensures Shift(Xor(c, w)) == Xor(Shift(Xor(c, Low(w[0]))), rest)
  {
    forall i | 0 <= i < 32 ensures Shift(Xor(c, w))[i] == Xor(Shift(Xor(c, Low(w[0]))), rest)[i] {
      ShiftAt(Xor(c, w), i);
      ShiftAt(Xor(c, Low(w[0])), i);
    }
  }

  lemma WordMovesDown(c: Word32, bits: seq<bool>)
    requires 1 <= |bits| <= 32
    ensures Shift(Xor(c, Word(Crc(), bits))) == Xor(Shift(Xor(c, Low(bits[0]))), Word(Crc(), bits[1..]))
  {
    WordIsBits(bits);
    WordIsBits(bits[1..]);
    PullBitOut(c, Word(Crc(), bits), Word(Crc(), bits[1..]));
  }

  lemma CrcLaws()
    ensures Laws(Crc(), 32)
  {
    var r := Crc();
    CrcAddLaws();
    CrcStepLaws();
    forall c: Word32, bits: seq<bool> | |bits| <= 32 ensures MovesDown(r, c, bits) {
      if bits != [] { WordMovesDown(c, bits); }
    }
    forall bits: seq<bool> | |bits| <= 32 && Word(r, bits) == r.zero ensures true !in bits {
      WordIsBits(bits);
      forall i | 0 <= i < |bits| ensures !bits[i] { assert Word(r, bits)[i] == ZERO[i]; }
    }
  }

  // ---- The theory, read off for the CRC register ----

  lemma CrcFeedWord(c: Word32, bits: seq<bool>)
    requires |bits| <= 32
    ensures Feed(Crc(), c, bits) == Iterate(Shift, Xor(c, bits + Zeros(32 - |bits|)), |bits|)
  {
    CrcLaws();
    WordIsBits(bits);
    FeedWord(Crc(), 32, c, bits);
  }

  lemma CrcIterateLossless(c: Word32, n: nat)
    ensures Iterate(Shift, c, n) == ZERO <==> c == ZERO
  {
    CrcLaws();
    IterateLossless(Crc(), c, n);
  }

  lemma XorCancels(x: Word32, y: Word32)
    ensures Xor(x, y) == ZERO <==> x == y
  {
    forall i | 0 <= i < 32 && Xor(x, y) == ZERO ensures x[i] == y[i] { assert Xor(x, y)[i] == ZERO[i]; }
  }

  lemma CrcFeedCancels(c: Word32, bits: Word32)
    ensures Feed(Crc(), c, bits) == ZERO <==> c == bits
  {
    CrcFeedWord(c, bits);
    assert bits + Zeros(0) == bits;
    CrcIterateLossless(Xor(c, bits), 32);
    XorCancels(c, bits);
  }

  lemma CrcFeedZeros(c: Word32, bits: seq<bool>)
    requires true !in bits
    ensures Feed(Crc(), c, bits) == ZERO <==> c == ZERO
  {
    CrcLaws();
    FeedZeros(Crc(), c, bits);
  }

  lemma CrcFeedLinear(a: seq<bool>, b: seq<bool>)
    requires |a| == |b|
    ensures Feed(Crc(), ZERO, Differ(a, b)) == Xor(Feed(Crc(), ZERO, a), Feed(Crc(), ZERO, b))
  {
    CrcLaws();
    FeedLinear(Crc(), ZERO, ZERO, a, b);
  }

  lemma CrcBurst(bits: seq<bool>)
    requires IsBurst(bits, 32) && true in bits
    ensures Feed(Crc(), ZERO, bits) != ZERO
  {
    CrcLaws();
    BurstNeverCancels(Crc(), 32, bits);
  }

  // ---- The byte loop is the register fed with the record's bits ----

  lemma ByteIsFeed(c: Word32, b: Byte)
    ensures Iterate(Shift, Xor(c, Widen(b)), 8) == Feed(Crc(), c, b)
  {
    CrcFeedWord(c, b);
  }

  lemma {:induction false} CrcIsFeed(c: Word32, p: seq<Byte>)
    ensures CrcFrom(c, p) == Feed(Crc(), c, Bits(p))
    decreases |p|
  {
    if p != [] {
      ByteIsFeed(c, p[0]);
      CrcIsFeed(Feed(Crc(), c, p[0]), p[1..]);
      FeedConcat(Crc(), c, p[0], Bits(p[1..]));
    }
  }

  lemma {:induction false} BitsAt(p: seq<Byte>, i: nat)
    requires i < 8 * |p|
    ensures Bits(p)[i] == p[i / 8][i % 8]
    decreases |p|
  {
    if i >= 8 { BitsAt(p[1..], i - 8); }
  }

  lemma {:induction false} BitsConcat(p: seq<Byte>, q: seq<Byte>)
    ensures Bits(p + q) == Bits(p) + Bits(q)
    decreases |p|
  {
    if p == [] {
      assert p + q == q;
    } else {
      assert (p + q)[1..] == p[1..] + q;
      BitsConcat(p[1..], q);
    }
  }

  lemma FieldIsBits(p: seq<Byte>)
    requires |p| == 4
    ensures Le32(p) == Bits(p)
  {
    forall i | 0 <= i < 32 ensures Le32(p)[i] == Bits(p)[i] { BitsAt(p, i); }
  }

  /** The check passes exactly when the register, run over the whole record with its CRC field, ends at zero. */
  lemma AcceptedIffResidueZero(record: seq<Byte>)
    requires |record| >= 4
    ensures Accepts(record) <==> CrcFrom(ZERO, record) == ZERO
  {
    var data, field := record[..|record| - 4], record[|record| - 4..];
    assert record == data + field;
    CrcIsFeed(ZERO, data);
    CrcIsFeed(ZERO, record);
    BitsConcat(data, field);
    FeedConcat(Crc(), ZERO, Bits(data), Bits(field));
    FieldIsBits(field);
    CrcFeedCancels(CrcFrom(ZERO, data), Le32(field));
  }

  // ---- What corruption the check detects ----

  lemma FlippedBits(p: seq<Byte>, e: seq<Byte>)
    requires |p| == |e|
    ensures Bits(Flip(p, e)) == Differ(Bits(p), Bits(e))
  {
    forall i | 0 <= i < 8 * |p| ensures Bits(Flip(p, e))[i] == Differ(Bits(p), Bits(e))[i] {
      BitsAt(p, i);
      BitsAt(e, i);
      BitsAt(Flip(p, e), i);
    }
  }

  lemma XorZero(x: Word32)
    ensures Xor(ZERO, x) == x
  {
  }

  /** Exactly the error patterns that the register itself takes to zero go unnoticed, whatever the record. */
  lemma UndetectedExactly(record: seq<Byte>, e: seq<Byte>)
    requires |record| == |e| >= 4 && Accepts(record)
    ensures Accepts(Flip(record, e)) <==> CrcFrom(ZERO, e) == ZERO
  {
    AcceptedIffResidueZero(record);
    AcceptedIffResidueZero(Flip(record, e));
    CrcIsFeed(ZERO, record);
    CrcIsFeed(ZERO, e);
    CrcIsFeed(ZERO, Flip(record, e));
    FlippedBits(record, e);
    CrcFeedLinear(Bits(record), Bits(e));
    XorZero(CrcFrom(ZERO, e));
  }

  /** Any corruption of an accepted record confined to 32 consecutive bits, CRC field included, is rejected. */
  lemma BurstRejected(record: seq<Byte>, e: seq<Byte>)
    requires |record| == |e| >= 4 && Accepts(record)
    requires IsBurst(Bits(e), 32) && true in Bits(e)
    ensures !Accepts(Flip(record, e))
  {
    UndetectedExactly(record, e);
    CrcIsFeed(ZERO, e);
    CrcBurst(Bits(e));
  }

  /** The bytes with given bits. */
  lemma {:induction false} BytesWithBits(bits: seq<bool>) returns (p: seq<Byte>)
    requires |bits| % 8 == 0
    ensures Bits(p) == bits
    decreases |bits|
  {
    if bits == [] {
      p := [];
    } else {
      var rest := BytesWithBits(bits[8..]);
      var first: Byte := bits[..8];
      p := [first] + rest;
      assert bits == first + Bits(rest);
    }
  }

  lemma OneBitFeedsBackThePolynomial()
    ensures Shift(Xor(ZERO, Low(true))) == POLY
  {
    forall i | 0 <= i < 32 ensures Shift(Xor(ZERO, Low(true)))[i] == POLY[i] { ShiftAt(Xor(ZERO, Low(true)), i); }
  }

  /** Thirty-two is the limit: the polynomial itself, 33 bits long, passes unnoticed in every longer record. */
  lemma LongerBurstsEscape(record: seq<Byte>)
    requires |record| >= 5 && Accepts(record)
    ensures exists e: seq<Byte> ::
              |e| == |record| && IsBurst(Bits(e), 33) && true in Bits(e) && Accepts(Flip(record, e))
  {
    var rest := Zeros(8 * |record| - 33);
    var bits := [true] + (POLY + rest);
    var e := BytesWithBits(bits);
    assert bits[1..] == POLY + rest;
    OneBitFeedsBackThePolynomial();
    FeedConcat(Crc(), POLY, POLY, rest);
    CrcFeedCancels(POLY, POLY);
    CrcFeedZeros(ZERO, rest);
    CrcIsFeed(ZERO, e);
    assert SetWithin(bits, 0, 33);
    UndetectedExactly(record, e);
  }

  /** A blank partition passes: with initial value 0 and no complement, the all-zero record is its own CRC. */
  lemma BlankRecordAccepted(record: seq<Byte>)
    requires |record| >= 4 && forall i :: 0 <= i < |record| ==> record[i] == Zeros(8)
    ensures Accepts(record)
  {
    forall i | 0 <= i < 8 * |record| ensures !Bits(record)[i] { BitsAt(record, i); }
    CrcIsFeed(ZERO, record);
    CrcFeedZeros(ZERO, Bits(record));
    AcceptedIffResidueZero(record);
  }
}
