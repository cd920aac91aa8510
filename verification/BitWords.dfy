/** Words of 32 bits as polynomials over the two-element field, and the shift the CRC is made of. */
module BitWords {

  /** Addition of polynomials over the two-element field. */
  function Plus(a: bv32, b: bv32): bv32 {
    a ^ b
  }

  function One(bit: bool): bv32 {
    if bit then 1 else 0
  }

  /** The word whose lowest bit is sent first, and then the rest. */
  function Join(rest: bv32, bit: bool): bv32 {
    Plus(rest << 1, One(bit))
  }

  /**
   * One shift of the register, over the polynomial X^32+X^26+X^23+X^22+X^16+X^12+X^11+X^10+X^8+
   * X^7+X^5+X^4+X^2+X+1 with its low-order term in the top bit.
   */
  function Shift(c: bv32): bv32 {
    if c & 1 == 1 then 0xedb88320 ^ (c >> 1) else c >> 1
  }

  lemma PlusZero(c: bv32)
    ensures Plus(c, 0) == c
  {
  }

  lemma PlusCommutes(a: bv32, b: bv32)
    ensures Plus(a, b) == Plus(b, a)
  {
  }

  lemma PlusCancels(a: bv32, b: bv32, c: bv32)
    requires Plus(a, b) == Plus(a, c)
    ensures b == c
  {
  }

  lemma PlusSwaps(a: bv32, b: bv32, c: bv32)
    ensures Plus(a, Plus(b, c)) == Plus(Plus(a, c), b)
  {
  }

  lemma ShiftOddOdd(a: bv32, b: bv32)
    requires a & 1 == 1 && b & 1 == 1
    ensures Shift(a ^ b) == Shift(a) ^ Shift(b)
  {
  }

  lemma ShiftOddEven(a: bv32, b: bv32)
    requires a & 1 == 1 && b & 1 == 0
    ensures Shift(a ^ b) == Shift(a) ^ Shift(b)
  {
  }

  lemma ShiftEvenEven(a: bv32, b: bv32)
    requires a & 1 == 0 && b & 1 == 0
    ensures Shift(a ^ b) == Shift(a) ^ Shift(b)
  {
  }

  lemma LowBit(a: bv32)
    ensures a & 1 == 0 || a & 1 == 1
  {
  }

  lemma ShiftLinear(a: bv32, b: bv32)
    ensures Shift(Plus(a, b)) == Plus(Shift(a), Shift(b))
  {
    LowBit(a);
    LowBit(b);
    if a & 1 == 1 && b & 1 == 1 {
      ShiftOddOdd(a, b);
    } else if a & 1 == 1 {
      ShiftOddEven(a, b);
    } else if b & 1 == 1 {
      ShiftOddEven(b, a);
      PlusCommutes(a, b);
      PlusCommutes(Shift(a), Shift(b));
    } else {
      ShiftEvenEven(a, b);
    }
  }

  /** The top bit of the shifted register tells which way it was shifted, so it can be shifted back. */
  function Unshift(c: bv32): bv32 {
    if c & 0x8000_0000 != 0 then ((c ^ 0xedb88320) << 1) | 1 else c << 1
  }

  lemma ShiftUndone(c: bv32)
    ensures Unshift(Shift(c)) == c
  {
  }

  lemma ShiftOneToOne(c: bv32, d: bv32)
    requires Shift(c) == Shift(d)
    ensures c == d
  {
    ShiftUndone(c);
    ShiftUndone(d);
  }

  lemma ShiftDoubled(p: bv32)
    requires p < 0x8000_0000
    ensures Shift(p << 1) == p
  {
  }

  /** When a bit is fed the bits still to come may already be in place. */
  lemma ShiftAhead(c: bv32, bit: bool, rest: bv32)
    requires rest < 0x8000_0000
    ensures Shift(Plus(c, Join(rest, bit))) == Plus(Shift(Plus(c, One(bit))), rest)
  {
    PlusSwaps(c, rest << 1, One(bit));
    ShiftLinear(Plus(c, One(bit)), rest << 1);
    ShiftDoubled(rest);
  }

  lemma JoinTail(rest: bv32, bit: bool)
    requires rest < 0x8000_0000
    ensures Join(rest, bit) >> 1 == rest && (Join(rest, bit) & 1 == 1 <==> bit)
  {
  }

  lemma JoinHalves(v: bv32)
    ensures v >> 1 < 0x8000_0000 && Join(v >> 1, v & 1 == 1) == v
  {
    if v & 1 == 1 {
    } else {
    }
  }

  lemma JoinOneToOne(p: bv32, a: bool, q: bv32, b: bool)
    requires p < 0x8000_0000 && q < 0x8000_0000 && Join(p, a) == Join(q, b)
    ensures p == q && a == b
  {
    JoinTail(p, a);
    JoinTail(q, b);
  }

  // ---------------------------------------------------------------- how many bits a word needs

  /** Nothing of the word is left when its low n bits have been sent. */
  ghost predicate Fits(v: bv32, n: nat)
    decreases n
  {
    if n == 0 then v == 0 else Fits(v >> 1, n - 1)
  }

  function Power(k: nat): bv32 {
    if k == 0 then 1 else Power(k - 1) << 1
  }

  lemma SendBit(v: bv32, place: bv32)
    requires (v >> 1) & place == 0
    ensures v & (place << 1) == 0
  {
  }

  lemma {:induction false} FitsBelow(v: bv32, n: nat, k: nat)
    requires Fits(v, n) && n <= k
    ensures v & Power(k) == 0
    decreases n
  {
    if n > 0 {
      FitsBelow(v >> 1, n - 1, k - 1);
      SendBit(v, Power(k - 1));
    }
  }

  lemma TopIsClear(v: bv32, n: nat)
    requires n <= 31 && Fits(v, n)
    ensures v < 0x8000_0000
  {
    FitsBelow(v, n, 31);
    assert Power(15) == 0x8000;
    assert Power(31) == 0x8000_0000;
  }

  lemma JoinFits(rest: bv32, bit: bool, n: nat)
    requires n <= 31 && Fits(rest, n)
    ensures Fits(Join(rest, bit), n + 1)
  {
    TopIsClear(rest, n);
    JoinTail(rest, bit);
  }

  lemma ByteFits(b: bv8)
    ensures Fits(b as bv32, 8)
  {
    var v := b as bv32;
    var v2 := (v >> 1) >> 1;
    var v4 := (v2 >> 1) >> 1;
    var v6 := (v4 >> 1) >> 1;
    assert (v6 >> 1) >> 1 == 0;
    assert Fits(v6, 2);
    assert Fits(v4, 4);
    assert Fits(v2, 6);
  }

  // ---------------------------------------------------------------- many shifts

  function ShiftBy(c: bv32, n: nat): bv32
    decreases n
  {
    if n == 0 then c else ShiftBy(Shift(c), n - 1)
  }

  lemma {:induction false} ShiftByLinear(a: bv32, b: bv32, n: nat)
    ensures ShiftBy(Plus(a, b), n) == Plus(ShiftBy(a, n), ShiftBy(b, n))
    decreases n
  {
    if n > 0 {
      ShiftLinear(a, b);
      ShiftByLinear(Shift(a), Shift(b), n - 1);
    }
  }

  lemma ShiftsAdd(x: bv32, a: bv32, b: bv32, a': bv32, b': bv32, n: nat)
    requires x == Plus(a, b) && a' == ShiftBy(a, n) && b' == ShiftBy(b, n)
    ensures ShiftBy(x, n) == Plus(a', b')
  {
    ShiftByLinear(a, b, n);
  }

  lemma {:induction false} ShiftByOneToOne(a: bv32, b: bv32, n: nat)
    requires ShiftBy(a, n) == ShiftBy(b, n)
    ensures a == b
    decreases n
  {
    if n > 0 {
      ShiftByOneToOne(Shift(a), Shift(b), n - 1);
      ShiftOneToOne(a, b);
    }
  }

  /** The first sixteen constants of the CRC table, as a function. */
  function NibbleShifts(lo: bv32): bv32
    requires lo <= 0xf
  {
    match lo
    case 0 => 0x00000000
    case 1 => 0x77073096
    case 2 => 0xee0e612c
    case 3 => 0x990951ba
    case 4 => 0x076dc419
    case 5 => 0x706af48f
    case 6 => 0xe963a535
    case 7 => 0x9e6495a3
    case 8 => 0x0edb8832
    case 9 => 0x79dcb8a4
    case 10 => 0xe0d5e91e
    case 11 => 0x97d2d988
    case 12 => 0x09b64c2b
    case 13 => 0x7eb17cbd
    case 14 => 0xe7b82d07
    case _ => 0x90bf1d91
  }

  lemma NibbleIsEightShifts(lo: bv32, n: nat)
    requires lo <= 0xf && n == 8
    ensures NibbleShifts(lo) == ShiftBy(lo, n)
  {
    assert ShiftBy(lo, 8) == NibbleShifts(lo);
  }

  /** A word whose low byte is clear only moves down. */
  lemma EightShiftsOfHigh(x: bv32, n: nat)
    requires x & 0xff == 0 && n == 8
    ensures ShiftBy(x, n) == x >> 8
  {
    assert ShiftBy(x, 8) == x >> 8;
  }

  lemma LowAndHigh(x: bv32)
    ensures Plus(x & 0xff, x & 0xffff_ff00) == x
    ensures (x & 0xffff_ff00) & 0xff == 0 && (x & 0xffff_ff00) >> 8 == x >> 8
  {
  }

  lemma EightShiftsSplit(x: bv32, n: nat)
    requires n == 8
    ensures ShiftBy(x, n) == Plus(ShiftBy(x & 0xff, n), x >> 8)
  {
    LowAndHigh(x);
    EightShiftsOfHigh(x & 0xffff_ff00, n);
    ShiftsAdd(x, x & 0xff, x & 0xffff_ff00, ShiftBy(x & 0xff, n), x >> 8, n);
  }

  lemma ByteBelow(x: bv32, b: bv8)
    ensures Plus(x, b as bv32) >> 8 == x >> 8
  {
  }
}
