/** Block sizes and the two searches that turn a byte count into a block level. */
module BuddyLevels {
  import opened Powers

  const PAGE_SIZE: nat := 4096

  /** Number of block levels the control structure has room for. */
  const MAX_LEVELS: nat := 32

  /** Bytes of a packed block header: six 8-byte and three 4-byte fields. */
  const HEAD_SIZE: nat := 60

  /** The result of subtracting one from zero in size_t. */
  const NO_LEVEL: nat := SIZE_T - 1

  /**
   * The expression (0x1 << level) * g_page_size. The shift is done in a 32-bit int, so at
   * level 31 it yields the most negative int, which widens to size_t with its sign.
   */
  function BlockBytes(level: nat): (bytes: nat)
    requires level < MAX_LEVELS
  {
    if level < 31 then Pow2(level) * PAGE_SIZE else 0xFFFF_F800_0000_0000
  }

  lemma {:induction false} BlockBytesMonotone(a: nat, b: nat)
    requires a <= b < MAX_LEVELS
    ensures BlockBytes(a) <= BlockBytes(b)
  {
    if b < 31 {
      Pow2Monotone(a, b);
    } else if a < 31 {
      Pow2Monotone(a, 30);
      Pow2Of30();
    }
  }

  /** The byte offset, from the start of the attached memory, of the payload of block p. */
  function PayloadOf(p: nat): nat {
    p * PAGE_SIZE + HEAD_SIZE
  }

  /** Bytes asked of the level search for a request: the addition wraps like size_t. */
  function BytesWithHead(size: nat): (bytes: nat)
    requires size < SIZE_T
    ensures bytes < SIZE_T
  {
    (size + HEAD_SIZE) % SIZE_T
  }

  /** The least level at or above `from` whose blocks hold `bytes`, or 32. */
  function LevelFrom(bytes: nat, from: nat): (level: nat)
    requires from <= MAX_LEVELS
    ensures from <= level <= MAX_LEVELS
    decreases MAX_LEVELS - from
  {
    if from == MAX_LEVELS || bytes <= BlockBytes(from) then from else LevelFrom(bytes, from + 1)
  }

  function WhichLevel(bytes: nat): (level: nat)
    ensures level <= MAX_LEVELS
  {
    LevelFrom(bytes, 0)
  }

  /** The level found is the only one that holds the bytes while no smaller level does. */
  lemma {:induction false} LevelFromIsLeast(bytes: nat, from: nat, level: nat)
    requires from <= level <= MAX_LEVELS
    ensures LevelFrom(bytes, from) == level <==>
              && (level < MAX_LEVELS ==> bytes <= BlockBytes(level))
              && (forall l | from <= l < level :: BlockBytes(l) < bytes)
    decreases level - from
  {
    if from < level {
      LevelFromIsLeast(bytes, from + 1, level);
    }
  }

  method CalculateWhichLevel(memorySize: nat) returns (level: nat)
    ensures level == WhichLevel(memorySize)
    ensures level < MAX_LEVELS ==> memorySize <= BlockBytes(level)
    ensures forall l | 0 <= l < level :: BlockBytes(l) < memorySize
  {
    level := 0;
    while level < MAX_LEVELS
      invariant level <= MAX_LEVELS
      invariant forall l | 0 <= l < level :: BlockBytes(l) < memorySize
    {
      if memorySize <= BlockBytes(level) {
        break;
      }
      level := level + 1;
    }
    LevelFromIsLeast(memorySize, 0, level);
  }

  method CalculateBlockLevel(memorySize: nat) returns (level: nat)
    ensures memorySize < PAGE_SIZE ==> level == NO_LEVEL
    ensures memorySize >= PAGE_SIZE ==> level < MAX_LEVELS && BlockBytes(level) <= memorySize
    ensures memorySize >= PAGE_SIZE ==> forall l | level < l < MAX_LEVELS :: memorySize < BlockBytes(l)
  {
    if memorySize < PAGE_SIZE {
      return NO_LEVEL;
    }
    var blockLevel := 0;
    while blockLevel < 32
      invariant blockLevel <= 32
      invariant forall l | 0 <= l < blockLevel :: BlockBytes(l) <= memorySize
    {
      if memorySize < BlockBytes(blockLevel) {
        break;
      }
      blockLevel := blockLevel + 1;
    }
    if blockLevel < 32 {
      forall l | blockLevel <= l < MAX_LEVELS
        ensures memorySize < BlockBytes(l)
      {
        BlockBytesMonotone(blockLevel, l);
      }
    }
    return blockLevel - 1;
  }

  /**
   * Blocks of this level serve a request: they hold it behind a header. From SIZE_T - HEAD_SIZE on
   * the sum of the two wraps around to less than a header, and any block will do.
   */
  predicate Holds(level: nat, size: nat) {
    size >= SIZE_T - HEAD_SIZE || HEAD_SIZE + size <= Pow2(level) * PAGE_SIZE
  }

  predicate LeastHolding(level: nat, size: nat) {
    Holds(level, size) && (level > 0 ==> !Holds(level - 1, size))
  }

  lemma ChosenIsLeast(size: nat)
    requires size < SIZE_T && WhichLevel(BytesWithHead(size)) < 31
    ensures LeastHolding(WhichLevel(BytesWithHead(size)), size)
  {
    var level := WhichLevel(BytesWithHead(size));
    HoldsIff(level, size);
    if level > 0 {
      HoldsIff(level - 1, size);
    }
  }

  /** The level chosen for a request is the least that serves it, among those an arena can have. */
  lemma HoldsIff(level: nat, size: nat)
    requires size < SIZE_T && level < 31
    ensures WhichLevel(BytesWithHead(size)) <= level <==> Holds(level, size)
  {
    var bytes := BytesWithHead(size);
    var least := WhichLevel(bytes);
    LevelFromIsLeast(bytes, 0, least);
    if size >= SIZE_T - HEAD_SIZE {
      LevelFromIsLeast(bytes, 0, 0);
    } else {
      assert bytes == HEAD_SIZE + size && BlockBytes(level) == Pow2(level) * PAGE_SIZE;
      if least <= level {
        BlockBytesMonotone(least, level);
      }
    }
  }

  /**
   * A request fits behind the header of a block of the level chosen for it exactly when adding
   * the header does not wrap around: from SIZE_T - HEAD_SIZE on, one page is chosen instead.
   */
  lemma RequestFitsChosenLevel(size: nat)
    requires size < SIZE_T
    requires WhichLevel(BytesWithHead(size)) < 31
    ensures HEAD_SIZE + size <= Pow2(WhichLevel(BytesWithHead(size))) * PAGE_SIZE <==> size < SIZE_T - HEAD_SIZE
  {
    var bytes := BytesWithHead(size);
    LevelFromIsLeast(bytes, 0, WhichLevel(bytes));
    if size >= SIZE_T - HEAD_SIZE {
      LevelFromIsLeast(bytes, 0, 0);
    }
  }
}
