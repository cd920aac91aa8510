/** Small runs of the allocator on which the conditions of its theorems make the difference. */
module BuddyExamples {
  import opened Powers
  import opened BuddyLevels
  import opened BuddyArena

  /** The free lists when only the first three levels hold anything. */
  function Lists(zero: seq<nat>, one: seq<nat>, two: seq<nat>): (lists: seq<seq<nat>>)
    ensures |lists| == LISTS
  {
    seq(LISTS, i => if i == 0 then zero else if i == 1 then one else if i == 2 then two else [])
  }

  function Free(level: nat, isFirst: bool): Block {
    Block(level, isFirst, true, 0)
  }

  /** A block handed out for a request of one byte. */
  function Used(isFirst: bool): Block {
    Block(0, isFirst, false, 1)
  }

  lemma OneByteTakesLevel0()
    ensures WhichLevel(BytesWithHead(1)) == 0
  {
    LevelFromIsLeast(BytesWithHead(1), 0, 0);
  }

  /** Two pages, once for each number of one-byte requests served, and once with both given back. */
  const PAIR: Arena := Arena(map[0 := Used(false), 1 := Used(true)], Lists([], [], []))
  const HALF: Arena := Arena(map[0 := Used(false), 1 := Free(0, true)], Lists([1], [], []))
  const APART: Arena := Arena(map[0 := Free(0, false), 1 := Free(0, true)], Lists([0, 1], [], []))
  const ONE_BACK: Arena := Arena(map[0 := Free(0, false), 1 := Used(true)], Lists([0], [], []))

  lemma FirstByte()
    ensures Inv(Fresh(1), 1) && Malloc(Fresh(1), 1, 1) == (HALF, Some(0))
  {
    FreshKeepsInv(1);
    OneByteTakesLevel0();
    var a := Fresh(1);
    assert a.lists[0] == [] && a.lists[1] == [0];
    assert Search(a.lists, 0) == Search(a.lists, 1) == 1;
    var b := SplitFirst(a, 1);
    assert SplitDown(a, 1, 1) == a;
    assert SplitDown(a, 1, 0) == b;
    assert Pow2(0) == 1;
    assert b.lists[0] == [0, 1] && b.lists[1] == [];
    var c := TakeFirst(b, 0, b.blocks[0].(isFree := false, size := 1));
    assert c.blocks == HALF.blocks;
    assert c.lists == HALF.lists;
  }

  lemma SecondByte()
    ensures Inv(HALF, 1) && Malloc(HALF, 1, 1) == (PAIR, Some(1))
  {
    FirstByte();
    MallocTakesPages(Fresh(1), 1, 1);
    OneByteTakesLevel0();
    assert HALF.lists[0] == [1];
    assert Search(HALF.lists, 0) == 0 && SplitDown(HALF, 0, 0) == HALF;
    var c := TakeFirst(HALF, 0, HALF.blocks[1].(isFree := false, size := 1));
    assert c.blocks == PAIR.blocks;
    assert [1][1..] == [];
    assert c.lists == PAIR.lists;
  }

  lemma BothServed()
    ensures Inv(PAIR, 1)
  {
    SecondByte();
    MallocTakesPages(HALF, 1, 1);
  }

  lemma LowerBack()
    ensures Carries(PAIR, 1, 0) && Coalesce(PAIR, 1, 0) == ONE_BACK
  {
    BothServed();
    ReleaseAlone(PAIR, 1, 0);
    var c := InsertAt(PAIR, 0, 0);
    assert c.blocks == ONE_BACK.blocks;
    assert c.lists == ONE_BACK.lists;
  }

  lemma UpperInserted()
    ensures InsertAt(ONE_BACK, 1, 1) == APART
  {
    var c := InsertAt(ONE_BACK, 1, 1);
    assert c.blocks == APART.blocks;
    assert [0][..1] + [1] + [0][1..] == [0, 1];
    assert c.lists == APART.lists;
  }

  lemma UpperScanned()
    ensures Scan(ONE_BACK, 1, [0], 0) == Insert(1)
  {
    assert Scan(ONE_BACK, 1, [0], 1) == Insert(1);
  }

  lemma UpperBack()
    ensures Carries(ONE_BACK, 1, 1) && Coalesce(ONE_BACK, 1, 1) == APART
  {
    LowerBack();
    CoalesceReturnsPages(PAIR, 1, 0);
    UpperScanned();
    UpperInserted();
    assert ONE_BACK.lists[0] == [0];
  }

  lemma RunOnce(a: Arena, top: nat, op: Op, rest: seq<Op>, c: Arena)
    requires Inv(a, top) && Allowed(a, op) && Inv(Step(a, top, op), top) && Run(Step(a, top, op), top, rest, c)
    ensures Run(a, top, [op] + rest, c)
  {
    assert ([op] + rest)[1..] == rest;
  }

  lemma {:induction false} RunsJoin(a: Arena, top: nat, first: seq<Op>, b: Arena, second: seq<Op>, c: Arena)
    requires Inv(a, top) && Run(a, top, first, b) && Inv(b, top) && Run(b, top, second, c)
    ensures Run(a, top, first + second, c)
    decreases |first|
  {
    if first == [] {
      assert first + second == second;
    } else {
      StepKeepsInv(a, top, first[0]);
      RunsJoin(Step(a, top, first[0]), top, first[1..], b, second, c);
      RunOnce(a, top, first[0], first[1..] + second, c);
      HeadAndRest(first, second);
    }
  }

  lemma HeadAndRest(first: seq<Op>, second: seq<Op>)
    requires first != []
    ensures [first[0]] + (first[1..] + second) == first + second
  {
  }

  lemma TwoSteps(a: Arena, top: nat, x: Op, b: Arena, y: Op, c: Arena)
    requires Inv(a, top) && Allowed(a, x) && Step(a, top, x) == b
    requires Inv(b, top) && Allowed(b, y) && Step(b, top, y) == c
    ensures Run(a, top, [x, y], c) && Inv(c, top)
  {
    StepKeepsInv(b, top, y);
    assert [x, y][1..] == [y] && [y][1..] == [];
    assert Run(c, top, [], c);
    assert Run(b, top, [y], c);
  }

  lemma PairsJoin(a: Arena, top: nat, w: Op, x: Op, c: Arena, y: Op, d: Arena, z: Op, e: Arena)
    requires Inv(a, top) && Run(a, top, [w, x], c)
    requires Inv(c, top) && Allowed(c, y) && Step(c, top, y) == d
    requires Inv(d, top) && Allowed(d, z) && Step(d, top, z) == e
    ensures Run(a, top, [w, x, y, z], e) && Inv(e, top)
  {
    TwoSteps(c, top, y, d, z, e);
    RunsJoin(a, top, [w, x], c, [y, z], e);
    assert [w, x] + [y, z] == [w, x, y, z];
  }

  /** Both halves of a split can come to be live: what releasing them leads to depends on the order. */
  lemma HalvesOccur()
    ensures Inv(Fresh(1), 1) && Run(Fresh(1), 1, [Alloc(1), Alloc(1)], PAIR)
    ensures Carries(PAIR, 1, 0) && Carries(PAIR, 1, 1)
    ensures Carries(Coalesce(PAIR, 1, 0), 1, 1) && Carries(Coalesce(PAIR, 1, 1), 1, 0)
    ensures |Coalesce(Coalesce(PAIR, 1, 0), 1, 1).lists| == |Coalesce(Coalesce(PAIR, 1, 1), 1, 0).lists| == LISTS
    ensures Coalesce(Coalesce(PAIR, 1, 0), 1, 1).lists[0] == [0, 1]
    ensures Coalesce(Coalesce(PAIR, 1, 1), 1, 0).lists[0] == []
  {
    FirstByte();
    SecondByte();
    TwoSteps(Fresh(1), 1, Alloc(1), HALF, Alloc(1), PAIR);
    HalvesRejoinOnlyUpperFirst(PAIR, 1, 0, 1);
  }

  lemma BothBack()
    ensures Inv(Fresh(1), 1) && Run(Fresh(1), 1, [Alloc(1), Alloc(1), Release(0), Release(1)], APART)
    ensures Inv(APART, 1)
  {
    HalvesOccur();
    LowerBack();
    UpperBack();
    PairsJoin(Fresh(1), 1, Alloc(1), Alloc(1), PAIR, Release(0), ONE_BACK, Release(1), APART);
  }

  /** After a run of four calls malloc followed by free does not restore the free lists. */
  lemma RejoiningOccurs()
    ensures Inv(Fresh(1), 1) && Run(Fresh(1), 1, [Alloc(1), Alloc(1), Release(0), Release(1)], APART)
    ensures Inv(APART, 1) && Rejoins(APART, 1, 1)
    ensures Malloc(APART, 1, 1).1 == Some(0) && Carries(Malloc(APART, 1, 1).0, 1, 0)
    ensures Coalesce(Malloc(APART, 1, 1).0, 1, 0).lists != APART.lists
  {
    BothBack();
    OneByteTakesLevel0();
    assert APART.lists[0] == [0, 1];
    assert Search(APART.lists, 0) == 0 && SplitDown(APART, 0, 0) == APART;
    assert Pow2(0) == 1;
    FreeUndoesMalloc(APART, 1, 1);
  }

  /** A request so large that adding the header wraps around gets one page, and its payload overruns it. */
  lemma WrappingOccurs()
    ensures Inv(Fresh(0), 0)
    ensures var size := SIZE_T - HEAD_SIZE;
            var a := Malloc(Fresh(0), 0, size).0;
            && Malloc(Fresh(0), 0, size).1 == Some(0)
            && 0 in Live(a) && Live(a)[0].size == size
            && End(a.blocks, 0) * PAGE_SIZE < PayloadOf(0) + size
  {
    FreshKeepsInv(0);
    var size := SIZE_T - HEAD_SIZE;
    var a := Fresh(0);
    assert BytesWithHead(size) == 0;
    LevelFromIsLeast(0, 0, 0);
    assert a.lists[0] == [0];
    assert Search(a.lists, 0) == 0 && SplitDown(a, 0, 0) == a;
    MallocTakesPages(a, 0, size);
  }

  // ---------------------------------------------------------------- four pages

  /** Four pages after each of four one-byte requests, and after giving back the two in the middle. */
  const ONE: Arena :=
    Arena(map[0 := Used(false), 1 := Free(0, true), 2 := Free(1, true)], Lists([1], [2], []))
  const TWO: Arena :=
    Arena(map[0 := Used(false), 1 := Used(true), 2 := Free(1, true)], Lists([], [2], []))
  const THREE: Arena :=
    Arena(map[0 := Used(false), 1 := Used(true), 2 := Used(false), 3 := Free(0, true)], Lists([3], [], []))
  const FULL: Arena :=
    Arena(map[0 := Used(false), 1 := Used(true), 2 := Used(false), 3 := Used(true)], Lists([], [], []))
  const GAP: Arena :=
    Arena(map[0 := Used(false), 1 := Free(0, true), 2 := Used(false), 3 := Used(true)], Lists([1], [], []))
  const MIDDLE: Arena :=
    Arena(map[0 := Used(false), 1 := Free(1, true), 3 := Used(true)], Lists([], [1], []))

  /** A one-byte request when a block of one page is free. */
  lemma TakesListed(a: Arena, top: nat, b: Arena)
    requires Inv(a, top) && a.lists[0] != []
    requires b == TakeFirst(a, 0, a.blocks[a.lists[0][0]].(isFree := false, size := 1))
    ensures Malloc(a, top, 1) == (b, Some(a.lists[0][0])) && Inv(b, top)
  {
    OneByteTakesLevel0();
    assert Search(a.lists, 0) == 0 && SplitDown(a, 0, 0) == a;
    MallocTakesPages(a, top, 1);
  }

  /** A one-byte request when only a block of two pages is. */
  lemma TakesHalf(a: Arena, top: nat, b: Arena, c: Arena)
    requires Inv(a, top) && a.lists[0] == [] && a.lists[1] != [] && b == SplitFirst(a, 1)
    requires a.lists[1][0] in b.blocks && c == TakeFirst(b, 0, b.blocks[a.lists[1][0]].(isFree := false, size := 1))
    ensures Malloc(a, top, 1) == (c, Some(a.lists[1][0])) && Inv(c, top)
  {
    OneByteTakesLevel0();
    assert Search(a.lists, 0) == Search(a.lists, 1) == 1;
    assert SplitDown(a, 1, 1) == a && SplitDown(a, 1, 0) == b;
    MallocTakesPages(a, top, 1);
  }

  lemma FirstOfFour()
    ensures Inv(Fresh(2), 2) && Malloc(Fresh(2), 2, 1) == (ONE, Some(0)) && Inv(ONE, 2)
  {
    FreshKeepsInv(2);
    OneByteTakesLevel0();
    var a := Fresh(2);
    assert a.lists[0] == a.lists[1] == [] && a.lists[2] == [0];
    assert Search(a.lists, 0) == Search(a.lists, 1) == Search(a.lists, 2) == 2;
    var b := SplitFirst(a, 2);
    var c := SplitFirst(b, 1);
    assert Pow2(1) == 2 && Pow2(0) == 1;
    assert b.lists[1] == [0, 2];
    assert SplitDown(a, 2, 2) == a;
    assert SplitDown(a, 2, 1) == b;
    assert SplitDown(a, 2, 0) == c;
    assert c.lists[0] == [0, 1];
    var d := TakeFirst(c, 0, c.blocks[0].(isFree := false, size := 1));
    assert d.blocks == ONE.blocks;
    assert d.lists == ONE.lists;
    MallocTakesPages(a, 2, 1);
  }

  lemma SecondOfFour()
    requires Inv(ONE, 2)
    ensures Malloc(ONE, 2, 1) == (TWO, Some(1)) && Inv(TWO, 2)
  {
    assert ONE.lists[0] == [1] && [1][1..] == [];
    var b := TakeFirst(ONE, 0, ONE.blocks[1].(isFree := false, size := 1));
    assert b.blocks == TWO.blocks;
    assert b.lists == TWO.lists;
    TakesListed(ONE, 2, TWO);
  }

  lemma ThirdOfFour()
    requires Inv(TWO, 2)
    ensures Malloc(TWO, 2, 1) == (THREE, Some(2)) && Inv(THREE, 2)
  {
    assert TWO.lists[0] == [] && TWO.lists[1] == [2] && Pow2(0) == 1;
    var b := SplitFirst(TWO, 1);
    assert b.lists[0] == [2, 3] && b.lists[1] == [] && b.blocks[2] == Free(0, false);
    var c := TakeFirst(b, 0, b.blocks[2].(isFree := false, size := 1));
    assert c.blocks == THREE.blocks;
    assert c.lists == THREE.lists;
    TakesHalf(TWO, 2, b, THREE);
  }

  lemma FourthOfFour()
    requires Inv(THREE, 2)
    ensures Malloc(THREE, 2, 1) == (FULL, Some(3)) && Inv(FULL, 2)
  {
    assert THREE.lists[0] == [3] && [3][1..] == [];
    var b := TakeFirst(THREE, 0, THREE.blocks[3].(isFree := false, size := 1));
    assert b.blocks == FULL.blocks;
    assert b.lists == FULL.lists;
    TakesListed(THREE, 2, FULL);
  }

  lemma PageOneBack()
    requires Inv(FULL, 2)
    ensures Carries(FULL, 2, 1) && Coalesce(FULL, 2, 1) == GAP && Inv(GAP, 2)
  {
    ReleaseAlone(FULL, 2, 1);
    var b := InsertAt(FULL, 1, 0);
    assert b.blocks == GAP.blocks;
    assert b.lists == GAP.lists;
    CoalesceReturnsPages(FULL, 2, 1);
  }

  /** The merged block of pages 1 and 2 while it is being carried. */
  const JOINED: Arena :=
    Arena(map[0 := Used(false), 1 := Block(1, true, false, 0), 3 := Used(true)], Lists([], [], []))

  lemma PagesJoin()
    ensures MergeAt(GAP, 2, 0) == JOINED && Scan(GAP, 2, GAP.lists[0], 0) == Merge(0)
  {
    assert GAP.lists[0] == [1] && Pow2(0) == 1;
    var b := MergeAt(GAP, 2, 0);
    assert b.blocks == JOINED.blocks;
    assert RemoveAt([1], 0) == [];
    assert b.lists == JOINED.lists;
  }

  lemma JoinedInserted()
    ensures InsertAt(JOINED, 1, 0) == MIDDLE
  {
    var c := InsertAt(JOINED, 1, 0);
    assert c.blocks == MIDDLE.blocks;
    assert JOINED.lists[1] == [] && [][..0] + [1] + [][0..] == [1];
    assert c.lists == MIDDLE.lists;
  }

  lemma PageTwoBack()
    requires Inv(GAP, 2)
    ensures Carries(GAP, 2, 2) && Coalesce(GAP, 2, 2) == MIDDLE && Inv(MIDDLE, 2)
  {
    PagesJoin();
    MergeStep(GAP, 2, 2, 0);
    assert JOINED.lists[1] == [];
    ReleaseAlone(JOINED, 2, 1);
    JoinedInserted();
    CoalesceReturnsPages(GAP, 2, 2);
  }

  /** Blocks of two pages need not start at an even page. */
  lemma UnalignedBlockOccurs()
    ensures Inv(Fresh(2), 2)
    ensures Run(Fresh(2), 2, [Alloc(1), Alloc(1), Alloc(1), Alloc(1)] + [Release(1), Release(2)], MIDDLE)
    ensures MIDDLE.blocks[1] == Block(1, true, true, 0)
  {
    FirstOfFour();
    SecondOfFour();
    ThirdOfFour();
    FourthOfFour();
    PageOneBack();
    PageTwoBack();
    TwoSteps(Fresh(2), 2, Alloc(1), ONE, Alloc(1), TWO);
    PairsJoin(Fresh(2), 2, Alloc(1), Alloc(1), TWO, Alloc(1), THREE, Alloc(1), FULL);
    TwoSteps(FULL, 2, Release(1), GAP, Release(2), MIDDLE);
    RunsJoin(Fresh(2), 2, [Alloc(1), Alloc(1), Alloc(1), Alloc(1)], FULL, [Release(1), Release(2)], MIDDLE);
  }
}
