/** Reading and caching the manufacturing record: bb_mfg_read and its accessors in libbb/bb_persist.c. */
module MfgRecord {
  import opened ShiftRegister
  import opened MfgCrc

  /** Outcome of opening and reading the raw partition: no device, or the bytes read() delivered. */
  datatype Device = Missing | Delivers(bytes: seq<Byte>)

  lemma {:induction false} IterateOnce(c: Word32, n: nat)
    ensures Iterate(Shift, c, n + 1) == Shift(Iterate(Shift, c, n))
    decreases n
  {
    if n > 0 { IterateOnce(Shift(c), n - 1); }
  }

  lemma {:induction false} CrcAppend(c: Word32, p: seq<Byte>, b: Byte)
    ensures CrcFrom(c, p + [b]) == Iterate(Shift, Xor(CrcFrom(c, p), Widen(b)), 8)
    decreases |p|
  {
    if p == [] {
      assert (p + [b])[1..] == [];
    } else {
      assert (p + [b])[1..] == p[1..] + [b];
      CrcAppend(Iterate(Shift, Xor(c, Widen(p[0])), 8), p[1..], b);
    }
  }

  /** The inner loop: eight shifts, one for each bit of the byte just added. */
  method ShiftByte(start: Word32) returns (crc: Word32)
    ensures crc == Iterate(Shift, start, 8)
  {
    crc := start;
    for j := 0 to 8
      invariant crc == Iterate(Shift, start, j)
    {
      IterateOnce(start, j);
      crc := Xor(crc[1..] + [false], if crc[0] then POLY else ZERO);
    }
  }

  /** The verification loops of bb_mfg_read, over a record of any length. */
  method CheckCrc(record: array<Byte>) returns (ok: bool)
    requires record.Length >= 4
    ensures ok <==> Accepts(record[..])
  {
    var crc := ZERO;
    var n := record.Length - 4;
    for i := 0 to n
      invariant crc == CrcFrom(ZERO, record[..i])
    {
      crc := ShiftByte(Xor(crc, Widen(record[i])));
      CrcAppend(ZERO, record[..i], record[i]);
      assert record[..i + 1] == record[..i] + [record[i]];
    }
    assert record[..][..n] == record[..n];
    assert record[..][n..] == record[n..];
    ok := crc == Le32(record[n..]);
  }

  /** The statics g_mfg and g_mfg_loaded. */
  class Manufacturing {
    const cached: array<Byte>
    var loaded: bool

    ghost predicate Valid()
      reads this, cached
    {
      cached.Length >= 4 && (loaded ==> Accepts(cached[..]))
    }

    constructor (size: nat)
      requires size >= 4
      ensures Valid() && !loaded && cached.Length == size && fresh(cached)
    {
      cached := new Byte[size](_ => Zeros(8));
      loaded := false;
    }

    /** What a first read makes of the partition. */
    static predicate Readable(device: Device, size: nat)
      requires size >= 4
    {
      device.Delivers? && |device.bytes| >= size && Accepts(device.bytes[..size])
    }

    static method Copy(from: array<Byte>, to: array<Byte>)
      requires from.Length == to.Length
      modifies to
      ensures to[..] == old(from[..]) && from[..] == old(from[..])
    {
      for i := 0 to from.Length
        modifies to
        invariant forall k :: 0 <= k < i ==> to[k] == old(from[k])
        invariant forall k :: i <= k < from.Length ==> from[k] == old(from[k])
        invariant from != to ==> from[..] == old(from[..])
      {
        to[i] := from[i];
      }
    }

    /**
      Returns true for status 0. `dest` may be the cache itself, as in the accessors below. Whatever read()
      delivered lands in `dest` before it is checked.
    */
    method Read(device: Device, dest: array<Byte>) returns (ok: bool)
      requires Valid() && dest.Length == cached.Length
      modifies this, cached, dest
      ensures Valid()
      ensures ok <==> loaded
      ensures old(loaded) ==> ok && cached[..] == old(cached[..]) && dest[..] == old(cached[..])
      ensures !old(loaded) ==> (ok <==> Readable(device, dest.Length))
      ensures !old(loaded) && ok ==> cached[..] == dest[..] == device.bytes[..dest.Length]
      ensures !ok && dest != cached ==> cached[..] == old(cached[..])
      ensures !old(loaded) && device.Missing? ==> dest[..] == old(dest[..])
      ensures !old(loaded) && device.Delivers? && |device.bytes| < dest.Length ==>
                dest[..] == device.bytes + old(dest[..])[|device.bytes|..]
      ensures !old(loaded) && device.Delivers? && |device.bytes| >= dest.Length ==>
                dest[..] == device.bytes[..dest.Length]
    {
      if loaded {
        Copy(cached, dest);
        return true;
      }
      if device.Missing? { return false; }
      var n := if |device.bytes| < dest.Length then |device.bytes| else dest.Length;
      for i := 0 to n
        modifies dest
        invariant forall k :: 0 <= k < i ==> dest[k] == device.bytes[k]
        invariant forall k :: i <= k < dest.Length ==> dest[k] == old(dest[k])
        invariant dest != cached ==> cached[..] == old(cached[..])
      {
        dest[i] := device.bytes[i];
      }
      if n != dest.Length { return false; }
      assert dest[..] == device.bytes[..n];
      ok := CheckCrc(dest);
      if !ok { return; }
      Copy(dest, cached);
      loaded := true;
    }

    /**
      bb_mfg_serial and the other accessors: a slice of the cache, read on first use. What comes back has
      passed the check exactly when `loaded` holds afterwards; a full-length record that fails the check is
      returned all the same.
    */
    method Field(device: Device, from: nat, to: nat) returns (field: seq<Byte>)
      requires Valid() && from <= to <= cached.Length
      modifies this, cached
      ensures Valid()
      ensures field == cached[from..to]
      ensures old(loaded) ==> loaded && cached[..] == old(cached[..])
      ensures !old(loaded) ==> (loaded <==> Readable(device, cached.Length))
      ensures !old(loaded) && device.Delivers? && |device.bytes| >= cached.Length ==>
                field == device.bytes[from..to]
    {
      if !loaded {
        var _ := Read(device, cached);
      }
      field := cached[from..to];
    }
  }
}
