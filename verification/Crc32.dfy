/** The table-driven CRC-32 of the repository, against the shift register. */
module Crc32 {
  import opened BitWords
  import opened Crc32Table
  import opened Powers
  import opened ShiftRegister

  // ---------------------------------------------------------------- the code

  /** crc32_add_char. */
  function AddChar(crc: bv32, c: bv8): bv32 {
    RowAndColumn(Plus(crc, c as bv32) & 0xff);
    Plus(Table((Plus(crc, c as bv32) & 0xff) as int), crc >> 8)
  }

  /** A look-up on the low byte and a move down of the rest are together eight shifts. */
  lemma LookUpIsEightShifts(x: bv32, n: nat)
    requires n == 8
    ensures (x & 0xff) as int < 256 && Plus(Table((x & 0xff) as int), x >> 8) == ShiftBy(x, n)
  {
    TableIsEightShifts(x & 0xff, n);
    EightShiftsSplit(x, n);
  }

  /** One look-up does the work of eight single-bit steps. */
  lemma AddCharFeedsEightBits(crc: bv32, c: bv8)
    ensures AddChar(crc, c) == BitCrc(crc, ByteBits(c))
  {
    var x := Plus(crc, c as bv32);
    ByteFits(c);
    PackOfBits(c as bv32, 8);
    FeedingIsShifting(crc, ByteBits(c));
    LookUpIsEightShifts(x, |ByteBits(c)|);
    ByteBelow(crc, c);
  }

  lemma AddCharExtends(seed: bv32, buf: seq<bv8>, c: bv8)
    ensures Crc(seed, buf + [c]) == AddChar(Crc(seed, buf), c)
  {
    CrcConcat(seed, buf, [c]);
    assert Bits([c]) == ByteBits(c);
    AddCharFeedsEightBits(Crc(seed, buf), c);
  }

  method CalculateCrc32(seed: bv32, buf: array<bv8>, len: nat) returns (crc: bv32)
    requires len <= buf.Length
    ensures crc == Crc(seed, buf[..len])
  {
    crc := seed;
    var p := 0;
    var n := len;
    while n != 0
      invariant p + n == len
      invariant crc == Crc(seed, buf[..p])
    {
      AddCharExtends(seed, buf[..p], buf[p]);
      assert buf[..p + 1] == buf[..p] + [buf[p]];
      crc := AddChar(crc, buf[p]);
      p := p + 1;
      n := n - 1;
    }
  }

  /** The buffer with the bytes from `from` up to `to` read as zero. */
  function Blanked(buf: seq<bv8>, from: nat, to: nat): (r: seq<bv8>) {
    seq(|buf|, i requires 0 <= i < |buf| => if from <= i < to then 0 else buf[i])
  }

  /** The end of the excluded range is computed in size_t and may wrap around. */
  function RangeEnd(off: nat, n: nat): nat {
    (off + n) % SIZE_T
  }

  lemma BlankedExtends(seed: bv32, buf: seq<bv8>, from: nat, to: nat, i: nat, x: bv8)
    requires i < |buf| && x == if from <= i < to then 0 else buf[i]
    ensures Crc(seed, Blanked(buf, from, to)[..i + 1]) == AddChar(Crc(seed, Blanked(buf, from, to)[..i]), x)
  {
    var blanked := Blanked(buf, from, to);
    assert blanked[..i + 1] == blanked[..i] + [x];
    AddCharExtends(seed, blanked[..i], x);
  }

  method ExcludeOffset(seed: bv32, buf: array<bv8>, len: nat, excludeOff: nat, excludeLen: nat) returns (crc: bv32)
    requires len <= buf.Length
    ensures crc == Crc(seed, Blanked(buf[..len], excludeOff, RangeEnd(excludeOff, excludeLen)))
  {
    crc := seed;
    ghost var blanked := Blanked(buf[..len], excludeOff, RangeEnd(excludeOff, excludeLen));
    for i := 0 to len
      invariant crc == Crc(seed, blanked[..i])
    {
      var x := buf[i];
      if i >= excludeOff && i < RangeEnd(excludeOff, excludeLen) {
        x := 0;
      }
      BlankedExtends(seed, buf[..len], excludeOff, RangeEnd(excludeOff, excludeLen), i, x);
      crc := AddChar(crc, x);
    }
    assert blanked[..len] == blanked;
  }

  lemma BlankedByteMatters(seed: bv32, buf: seq<bv8>, from: nat, to: nat, i: nat, b: bv8)
    requires i < |buf| && b != buf[i]
    ensures Crc(seed, Blanked(buf[i := b], from, to)) == Crc(seed, Blanked(buf, from, to)) <==> from <= i < to
  {
    var before, after := Blanked(buf, from, to), Blanked(buf[i := b], from, to);
    if from <= i < to {
      assert after == before;
    } else {
      assert after == before[i := b];
      OneByteChangesCrc(seed, before, i, b);
    }
  }

  /** A byte matters to the result exactly when it lies outside the range. */
  lemma ExclusionIsExact(seed: bv32, buf: seq<bv8>, off: nat, n: nat, i: nat, b: bv8)
    requires off + n < SIZE_T && i < |buf| && b != buf[i]
    ensures Crc(seed, Blanked(buf[i := b], off, RangeEnd(off, n))) == Crc(seed, Blanked(buf, off, RangeEnd(off, n)))
            <==> off <= i < off + n
  {
    assert RangeEnd(off, n) == off + n;
    BlankedByteMatters(seed, buf, off, off + n, i, b);
  }

  /** What a caller asks for: bytes off .. off + n do not count, all others do. */
  ghost predicate Excludes(buf: seq<bv8>, off: nat, n: nat) {
    Blanked(buf, off, RangeEnd(off, n)) == Blanked(buf, off, off + n)
  }

  /**
   * The range is excluded unless its end wraps around. Then nothing is, so the outcome is still
   * right only if the bytes that should have been left out were zero.
   */
  lemma ExcludesIff(buf: seq<bv8>, off: nat, n: nat)
    requires |buf| < SIZE_T && off < SIZE_T && n < SIZE_T
    ensures Excludes(buf, off, n) <==> off + n < SIZE_T || forall i | off <= i < |buf| :: buf[i] == 0
  {
    if off + n >= SIZE_T {
      var asked, got := Blanked(buf, off, off + n), Blanked(buf, off, RangeEnd(off, n));
      assert RangeEnd(off, n) == off + n - SIZE_T;
      assert got == buf;
      if asked == got {
        forall i | off <= i < |buf| ensures buf[i] == 0 {
          assert asked[i] == got[i];
        }
      } else {
        var i :| 0 <= i < |buf| && asked[i] != got[i];
      }
    }
  }

  /** A range whose end wraps: nothing is excluded, and the result is not the one asked for. */
  lemma WrappingOccurs(seed: bv32)
    ensures var buf, off, n := [1, 1], 1, SIZE_T - 1;
            && !Excludes(buf, off, n)
            && Crc(seed, Blanked(buf, off, RangeEnd(off, n))) != Crc(seed, Blanked(buf, off, off + n))
  {
    var buf: seq<bv8> := [1, 1];
    assert RangeEnd(1, SIZE_T - 1) == 0;
    assert buf[1] == 1;
    ExcludesIff(buf, 1, SIZE_T - 1);
    var got, asked := Blanked(buf, 1, 0), Blanked(buf, 1, SIZE_T);
    assert got == buf && asked == buf[1 := 0];
    OneByteChangesCrc(seed, buf, 1, 0);
  }
}
