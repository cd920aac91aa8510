/** The one-bit-at-a-time shift register that a CRC-32 table stands for. */
module ShiftRegister {
  import opened BitWords

  /** One message bit enters the register. */
  function Feed(c: bv32, bit: bool): bv32 {
    Shift(Plus(c, One(bit)))
  }

  /** The cyclic redundancy check of a bit string, by definition. */
  function BitCrc(c: bv32, bits: seq<bool>): bv32
    decreases |bits|
  {
    if bits == [] then c else BitCrc(Feed(c, bits[0]), bits[1..])
  }

  /** The low n bits of a word in the order they are sent, least significant first. */
  function BitsOf(v: bv32, n: nat): (bits: seq<bool>)
    ensures |bits| == n
    decreases n
  {
    if n == 0 then [] else [v & 1 == 1] + BitsOf(v >> 1, n - 1)
  }

  function ByteBits(b: bv8): (bits: seq<bool>)
    ensures |bits| == 8
  {
    BitsOf(b as bv32, 8)
  }

  function Bits(buf: seq<bv8>): (bits: seq<bool>)
    ensures |bits| == 8 * |buf|
  {
    if buf == [] then [] else ByteBits(buf[0]) + Bits(buf[1..])
  }

  /** The check of a byte string, bit by bit and with no initial or final complement. */
  function Crc(seed: bv32, buf: seq<bv8>): bv32 {
    BitCrc(seed, Bits(buf))
  }

  // ---------------------------------------------------------------- the register is linear and one-to-one

  /** Registers that differ before any message still differ after it. */
  lemma {:induction false} BitCrcOneToOne(c: bv32, d: bv32, bits: seq<bool>)
    requires BitCrc(c, bits) == BitCrc(d, bits)
    ensures c == d
    decreases |bits|
  {
    if bits != [] {
      var one := One(bits[0]);
      BitCrcOneToOne(Feed(c, bits[0]), Feed(d, bits[0]), bits[1..]);
      ShiftOneToOne(Plus(c, one), Plus(d, one));
      PlusCommutes(c, one);
      PlusCommutes(d, one);
      PlusCancels(one, c, d);
    }
  }

  lemma {:induction false} BitCrcConcat(c: bv32, a: seq<bool>, b: seq<bool>)
    ensures BitCrc(c, a + b) == BitCrc(BitCrc(c, a), b)
    decreases |a|
  {
    if a == [] {
      assert a + b == b;
    } else {
      assert (a + b)[1..] == a[1..] + b && (a + b)[0] == a[0];
      BitCrcConcat(Feed(c, a[0]), a[1..], b);
    }
  }

  // ---------------------------------------------------------------- bits fed are bits shifted in

  /** A bit string as a word, the first bit in the lowest place. */
  function Pack(bits: seq<bool>): (p: bv32)
    requires |bits| <= 32
    ensures Fits(p, |bits|)
  {
    if bits == [] then 0
    else
      var rest := Pack(bits[1..]);
      JoinFits(rest, bits[0], |bits| - 1);
      Join(rest, bits[0])
  }

  lemma {:induction false} FeedingIsShifting(c: bv32, bits: seq<bool>)
    requires |bits| <= 32
    ensures BitCrc(c, bits) == ShiftBy(Plus(c, Pack(bits)), |bits|)
    decreases |bits|
  {
    if bits == [] {
      PlusZero(c);
    } else {
      var rest := Pack(bits[1..]);
      TopIsClear(rest, |bits| - 1);
      ShiftAhead(c, bits[0], rest);
      FeedingIsShifting(Feed(c, bits[0]), bits[1..]);
    }
  }

  lemma {:induction false} PackOneToOne(x: seq<bool>, y: seq<bool>)
    requires |x| == |y| <= 32 && Pack(x) == Pack(y)
    ensures x == y
  {
    if x != [] {
      var p, q := Pack(x[1..]), Pack(y[1..]);
      TopIsClear(p, |x| - 1);
      TopIsClear(q, |x| - 1);
      JoinOneToOne(p, x[0], q, y[0]);
      PackOneToOne(x[1..], y[1..]);
      assert x == [x[0]] + x[1..] && y == [y[0]] + y[1..];
    }
  }

  lemma {:induction false} PackOfBits(v: bv32, n: nat)
    requires n <= 32 && Fits(v, n)
    ensures Pack(BitsOf(v, n)) == v
    decreases n
  {
    if n > 0 {
      JoinHalves(v);
      assert BitsOf(v, n)[1..] == BitsOf(v >> 1, n - 1);
      PackOfBits(v >> 1, n - 1);
    }
  }

  // ---------------------------------------------------------------- what the check promises

  lemma ByteOneToOne(a: bv8, b: bv8)
    requires ByteBits(a) == ByteBits(b)
    ensures a == b
  {
    ByteFits(a);
    ByteFits(b);
    PackOfBits(a as bv32, 8);
    PackOfBits(b as bv32, 8);
  }

  lemma {:induction false} BitsConcat(a: seq<bv8>, b: seq<bv8>)
    ensures Bits(a + b) == Bits(a) + Bits(b)
  {
    if a == [] {
      assert a + b == b;
    } else {
      assert (a + b)[1..] == a[1..] + b && (a + b)[0] == a[0];
      BitsConcat(a[1..], b);
    }
  }

  lemma {:induction false} BitsOneToOne(a: seq<bv8>, b: seq<bv8>)
    requires |a| == |b| && Bits(a) == Bits(b)
    ensures a == b
  {
    if a != [] {
      assert ByteBits(a[0]) == Bits(a)[..8] && ByteBits(b[0]) == Bits(b)[..8];
      assert Bits(a[1..]) == Bits(a)[8..] && Bits(b[1..]) == Bits(b)[8..];
      ByteOneToOne(a[0], b[0]);
      BitsOneToOne(a[1..], b[1..]);
      assert a == [a[0]] + a[1..] && b == [b[0]] + b[1..];
    }
  }

  /** The check of a concatenation is the check of the second part seeded with that of the first. */
  lemma CrcConcat(seed: bv32, a: seq<bv8>, b: seq<bv8>)
    ensures Crc(seed, a + b) == Crc(Crc(seed, a), b)
  {
    BitsConcat(a, b);
    BitCrcConcat(seed, Bits(a), Bits(b));
  }

  /** A burst of errors no longer than the register never goes unnoticed, wherever it falls. */
  lemma BurstChangesCrc(seed: bv32, p: seq<bool>, x: seq<bool>, y: seq<bool>, q: seq<bool>)
    requires |x| == |y| <= 32 && x != y
    ensures BitCrc(seed, p + x + q) != BitCrc(seed, p + y + q)
  {
    var c := BitCrc(seed, p);
    BitCrcConcat(seed, p + x, q);
    BitCrcConcat(seed, p, x);
    BitCrcConcat(seed, p + y, q);
    BitCrcConcat(seed, p, y);
    if BitCrc(seed, p + x + q) == BitCrc(seed, p + y + q) {
      BitCrcOneToOne(BitCrc(c, x), BitCrc(c, y), q);
      FeedingIsShifting(c, x);
      FeedingIsShifting(c, y);
      ShiftByOneToOne(Plus(c, Pack(x)), Plus(c, Pack(y)), |x|);
      PlusCancels(c, Pack(x), Pack(y));
      PackOneToOne(x, y);
    }
  }

  /** Two buffers that differ, and only within four consecutive bytes, have different checks. */
  lemma FourBytesChangeCrc(seed: bv32, a: seq<bv8>, b: seq<bv8>, i: nat, n: nat)
    requires |a| == |b| && a != b && n <= 4 && i + n <= |a|
    requires a[..i] == b[..i] && a[i + n..] == b[i + n..]
    ensures Crc(seed, a) != Crc(seed, b)
  {
    var p, x, y, q := a[..i], a[i..i + n], b[i..i + n], a[i + n..];
    assert a == p + x + q && b == p + y + q;
    BitsConcat(p + x, q);
    BitsConcat(p, x);
    BitsConcat(p + y, q);
    BitsConcat(p, y);
    if Bits(x) == Bits(y) {
      BitsOneToOne(x, y);
    }
    BurstChangesCrc(seed, Bits(p), Bits(x), Bits(y), Bits(q));
  }

  lemma OneByteChangesCrc(seed: bv32, buf: seq<bv8>, i: nat, b: bv8)
    requires i < |buf| && buf[i] != b
    ensures Crc(seed, buf[i := b]) != Crc(seed, buf)
  {
    FourBytesChangeCrc(seed, buf[i := b], buf, i, 1);
  }

  /** No two seeds give one buffer the same check. */
  lemma SeedChangesCrc(c: bv32, d: bv32, buf: seq<bv8>)
    requires c != d
    ensures Crc(c, buf) != Crc(d, buf)
  {
    if Crc(c, buf) == Crc(d, buf) {
      BitCrcOneToOne(c, d, Bits(buf));
    }
  }
}
