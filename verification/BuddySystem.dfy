/** The allocator as it runs: headers and list heads rewritten in place. */
module BuddySystem {
  import opened Powers
  import opened BuddyLevels
  import opened BuddyArena
  import opened BuddyHeaders

  datatype Outcome = Freed | DoubleFree

  class Buddy {
    /** The header at the start of each attached page; elsewhere a page holds other data. */
    var memory: array<Head>
    var blockList: array<int>
    var memoryIdx: nat

    ghost var arena: Arena
    ghost var top: nat
    ghost var owner: nat

    /** Headers and list heads spell out the arena, except what `held` has not been given yet. */
    ghost predicate Spelled(held: int)
      reads this, memory, blockList
    {
      && blockList.Length == LISTS
      && ListsHoldFreeBlocks(arena) && FreeBlocksAreListed(arena)
      && (held == NULL || (held >= 0 && held in arena.blocks && !arena.blocks[held].isFree))
      && Represents(memory[..], blockList[..], arena, owner, held)
    }

    ghost predicate Shape(held: int)
      reads this, memory, blockList
    {
      Spelled(held) && Inv(arena, top) && Pow2(top) <= memory.Length
    }

    ghost predicate Valid()
      reads this, memory, blockList
    {
      Shape(NULL)
    }

    /** buddy_init_system: no memory is attached yet, every list is empty. */
    constructor ()
      ensures memory.Length == 0 && blockList.Length == LISTS && memoryIdx == 0
      ensures forall i | 0 <= i < LISTS :: blockList[i] == NULL
      ensures fresh(memory) && fresh(blockList)
    {
      memory := new Head[0];
      blockList := new int[LISTS](_ => NULL);
      memoryIdx := 0;
      arena, top, owner := Arena(map[], []), 0, 0;
    }

    /** Attaches one region of `size` bytes, given by the headers its pages happen to hold. */
    method AttachMemory(region: array<Head>, size: nat, pid: nat)
      requires blockList.Length == LISTS && memoryIdx == 0
      requires forall i | 0 <= i < LISTS :: blockList[i] == NULL
      requires PAGE_SIZE <= size < SIZE_T / 2 && region.Length == size / PAGE_SIZE
      modifies this, blockList, region
      ensures Valid() && memory == region && blockList == old(blockList) && owner == pid
      ensures arena == Fresh(top) && arena.blocks == map[0 := Block(top, true, true, 0)] && memoryIdx == 1
      ensures Pow2(top) * PAGE_SIZE <= size
      ensures top < TOP_LEVEL ==> size < Pow2(top + 1) * PAGE_SIZE
    {
      var level := CalculateBlockLevel(size);
      assert level <= TOP_LEVEL;
      assert level < TOP_LEVEL ==> size < BlockBytes(level + 1);
      memory := region;
      WriteFirstHead(level, pid);
      // The list of this level is empty, so buddy_insert_blcok just sets its head.
      blockList[level] := 0;
      arena, top, owner := Fresh(level), level, pid;
      FreshKeepsInv(level);
      FreshRepresents(memory[..], blockList[..], level, pid);
    }

    method WriteFirstHead(level: nat, pid: nat)
      requires memory.Length > 0 && memoryIdx == 0
      modifies `memoryIdx, memory
      ensures memoryIdx == 1 && memory[..] == old(memory[..])[0 := Head(NULL, NULL, 0, level, pid, 1, true, true)]
    {
      memory[0] := memory[0].(hostPid := pid);
      memoryIdx := memoryIdx + 1;
      memory[0] := memory[0].(memoryIdx := memoryIdx);
      InitFreeBlock(0, NULL, NULL, level, true);
    }

    /** Callers may write anything into a live block behind its header; no bookkeeping changes. */
    method WritePayload(p: nat, page: nat, junk: Head)
      requires Valid() && p in arena.blocks && !arena.blocks[p].isFree && p < page < End(arena.blocks, p)
      modifies memory
      ensures Valid() && page < memory.Length && memory[..] == old(memory[..])[page := junk]
    {
      ghost var m := memory[..];
      LevelInRange(arena, top, p);
      memory[page] := junk;
      InteriorIsUnlisted(arena, top, p, page);
      UnlistedWriteKeepsLists(m, memory[..], blockList[..], arena.lists, page);
    }

    method InitFreeBlock(block: int, previous: int, next: int, level: nat, isFirst: bool)
      requires block == NULL || 0 <= block < memory.Length
      modifies memory
      ensures block == NULL ==> memory[..] == old(memory[..])
      ensures block != NULL ==>
        memory[..] == old(memory[..])[block := FreeHead(old(memory[block]), previous, next, level, isFirst)]
    {
      if block == NULL {
        return;
      }
      memory[block] := memory[block].(size := 0);
      memory[block] := memory[block].(isFree := true);
      memory[block] := memory[block].(previous := previous);
      memory[block] := memory[block].(next := next);
      memory[block] := memory[block].(level := level);
      memory[block] := memory[block].(isFirst := isFirst);
    }

    method InitUsedBlock(block: int)
      requires block == NULL || 0 <= block < memory.Length
      modifies memory
      ensures block == NULL ==> memory[..] == old(memory[..])
      ensures block != NULL ==> memory[..] == old(memory[..])[block := UsedHead(old(memory[block]))]
    {
      if block == NULL {
        return;
      }
      memory[block] := memory[block].(size := 0);
      memory[block] := memory[block].(isFree := false);
      memory[block] := memory[block].(previous := NULL);
      memory[block] := memory[block].(next := NULL);
    }

    /** The pointer writes of buddy_remove_block. */
    method Bypass(level: nat, block: nat)
      requires level < blockList.Length && block < memory.Length && PointsInside(memory[..], block)
      modifies memory, blockList
      ensures memory[..] == Bypassed(old(memory[..]), block)
      ensures blockList[..] == if block == old(blockList[level])
                               then old(blockList[..])[level := old(memory[block]).next]
                               else old(blockList[..])
    {
      var previous := memory[block].previous;
      var next := memory[block].next;
      if block == blockList[level] {
        blockList[level] := memory[block].next;
      }
      if previous != NULL {
        InitFreeBlock(previous, memory[previous].previous, next, memory[previous].level, memory[previous].isFirst);
      }
      if next != NULL {
        InitFreeBlock(next, previous, memory[next].next, memory[next].level, memory[next].isFirst);
      }
    }

    /** Takes `block`, which is at position k of a list, out of that list. */
    method RemoveBlock(level: nat, block: nat, ghost k: nat, ghost held: int)
      requires Spelled(held)
      requires level < LISTS && k < |arena.lists[level]| && arena.lists[level][k] == block
      modifies memory, blockList
      ensures block < memory.Length && memory[block] == old(memory[block])
      ensures AllChained(memory[..], blockList[..], arena.lists[level := RemoveAt(arena.lists[level], k)])
      ensures forall p | p in arena.blocks :: Describes(memory[..][p], arena.blocks[p], owner, p == held)
    {
      BypassMeets(memory[..], blockList[..], arena, owner, held, level, k);
      Bypass(level, block);
    }

    /** Takes the first block off a non-empty list; its successor becomes the head. */
    method PopHead(level: nat) returns (block: nat)
      requires Spelled(NULL)
      requires level < LISTS && arena.lists[level] != []
      modifies memory, blockList
      ensures block == arena.lists[level][0] && block in arena.blocks && block < memory.Length
      ensures memory[block] == old(memory[block])
      ensures AllChained(memory[..], blockList[..], arena.lists[level := arena.lists[level][1..]])
      ensures forall p | p in arena.blocks :: Describes(memory[..][p], arena.blocks[p], owner, false)
    {
      ghost var m0, first0 := memory[..], blockList[..];
      ghost var s := arena.lists[level];
      assert Linked(m0, s, 0) && s[0] in s;
      assert 1 < |s| ==> Linked(m0, s, 1) && s[1] in s;
      block := blockList[level];
      blockList[level] := memory[block].next;
      var head := blockList[level];
      if head != NULL {
        InitFreeBlock(head, NULL, memory[head].next, level, memory[head].isFirst);
      }
      UnlinkKeepsLists(m0, memory[..], first0, arena, level, 0);
      assert RemoveAt(s, 0) == s[1..];
    }

    /** Unlinks the lower half and writes the header of the upper one. */
    method MakeUpperHalf(blockFirst: nat, blockSecond: nat, level: nat)
      requires blockFirst < memory.Length && blockSecond < memory.Length && blockFirst != blockSecond
      modifies memory
      ensures memory[..] == old(memory[..])[blockFirst := Loose(old(memory[blockFirst]))]
                [blockSecond := UpperHalf(old(memory[blockSecond]), old(memory[blockFirst]), blockFirst, level)]
    {
      memory[blockFirst] := memory[blockFirst].(next := NULL);
      memory[blockFirst] := memory[blockFirst].(previous := NULL);
      memory[blockSecond] := memory[blockSecond].(hostPid := memory[blockFirst].hostPid);
      memory[blockSecond] := memory[blockSecond].(memoryIdx := memory[blockFirst].memoryIdx);
      InitFreeBlock(blockSecond, blockFirst, NULL, level, true);
    }

    /** Makes the two halves the list of their level, which is empty. */
    method ListHalves(blockFirst: nat, blockSecond: nat, level: nat)
      requires blockFirst < memory.Length && blockSecond < memory.Length && blockFirst != blockSecond
      requires level < blockList.Length && blockList[level] == NULL
      modifies memory, blockList
      ensures memory[..] == Halved(old(memory[..]), blockFirst, blockSecond, level)
      ensures blockList[..] == old(blockList[..])[level := blockFirst]
    {
      MakeUpperHalf(blockFirst, blockSecond, level);
      if blockList[level] != NULL {
        // The walk to the tail would overwrite the list head; the list is always empty here.
        assert false;
      }
      blockList[level] := blockFirst;
      InitFreeBlock(blockFirst, memory[blockFirst].previous, blockSecond, level, false);
    }

    /** One round of the splitting loop of buddy_malloc. */
    method SplitBlock(idx: nat)
      requires Valid()
      requires 0 < idx < LISTS && arena.lists[idx] != [] && arena.lists[idx - 1] == []
      modifies `arena, memory, blockList
      ensures Valid() && arena == SplitFirst(old(arena), idx)
    {
      ghost var a := arena;
      UpperHalfIsNew(a, top, idx);
      LevelInRange(a, top, a.lists[idx][0]);
      var takeHead := PopHead(idx);
      ghost var m1, first1 := memory[..], blockList[..];
      EmptyHead(m1, first1, a, idx);
      HalvedRepresents(m1, first1, first1[idx - 1 := takeHead], a, idx, owner);
      ListHalves(takeHead, takeHead + Pow2(idx - 1), idx - 1);
      arena := Split(a, top, idx);
    }

    /** Hands out the first block of a list: the last part of buddy_malloc. */
    method UseHead(level: nat, size: nat) returns (ret: nat)
      requires Valid()
      requires level < LISTS && arena.lists[level] != []
      modifies `arena, memory, blockList
      ensures ret == old(arena).lists[level][0] && ret in old(arena).blocks
      ensures Valid() && arena == TakeFirst(old(arena), level, old(arena).blocks[ret].(isFree := false, size := size))
    {
      ghost var a := arena;
      ret := PopHead(level);
      assert ret in a.lists[level];
      ghost var m1 := memory[..];
      InitUsedBlock(ret);
      memory[ret] := memory[ret].(size := size);
      ghost var b := a.blocks[ret].(isFree := false, size := size);
      TakeRepresents(m1, memory[..], blockList[..], a, level, b, owner);
      arena := Taken(a, top, level, b);
    }

    /** The search of buddy_malloc for the first level, from `level` on, with a free block. */
    method FindLevel(level: nat) returns (levelIdx: nat)
      requires Valid() && level <= MAX_LEVELS
      ensures levelIdx == Search(arena.lists, level)
    {
      levelIdx := level;
      while true
        invariant level <= levelIdx <= MAX_LEVELS
        invariant Search(arena.lists, level) == Search(arena.lists, levelIdx)
        decreases MAX_LEVELS - levelIdx
      {
        ListHead(memory[..], blockList[..], arena, owner, levelIdx);
        if blockList[levelIdx] != NULL {
          break;
        }
        levelIdx := levelIdx + 1;
        if levelIdx >= MAX_LEVELS {
          break;
        }
      }
    }

    /** The splitting loop of buddy_malloc. */
    method SplitTo(levelIdx: nat, level: nat)
      requires Valid() && level <= MAX_LEVELS && levelIdx == Search(arena.lists, level)
      modifies `arena, memory, blockList
      ensures Valid()
      ensures arena == if old(arena).lists[levelIdx] == [] then old(arena) else SplitDown(old(arena), levelIdx, level)
    {
      ghost var a := arena;
      SearchFindsFirst(a.lists, level);
      var idx := levelIdx;
      ListHead(memory[..], blockList[..], arena, owner, idx);
      while blockList[idx] != NULL && idx > level
        invariant level <= idx <= levelIdx
        invariant Valid()
        invariant blockList[idx] == NULL <==> a.lists[levelIdx] == []
        invariant arena == if a.lists[levelIdx] == [] then a else SplitDown(a, levelIdx, idx)
      {
        SplitRound(a, idx, level);
        SplitBlock(idx);
        idx := idx - 1;
        ListHead(memory[..], blockList[..], arena, owner, idx);
      }
    }

    /** buddy_malloc: the address handed out is that of a payload, one header into its block. */
    method Malloc(size: nat) returns (addr: Option<nat>)
      requires Valid() && size < SIZE_T
      modifies `arena, memory, blockList
      ensures Valid() && arena == BuddyArena.Malloc(old(arena), top, size).0
      ensures addr == match BuddyArena.Malloc(old(arena), top, size).1
                      case None => None
                      case Some(p) => Some(PayloadOf(p))
      ensures addr == None ==> Serves(old(arena), size, arena, None)
      ensures addr != None ==> exists p :: addr == Some(PayloadOf(p)) && Serves(old(arena), size, arena, Some(p))
                                           && OnlySplits(old(arena), arena, p)
    {
      ghost var a := arena;
      var level := CalculateWhichLevel(BytesWithHead(size));
      var levelIdx := FindLevel(level);
      SplitTo(levelIdx, level);
      SearchFindsFirst(a.lists, level);
      ListHead(memory[..], blockList[..], arena, owner, level);
      addr := None;
      if blockList[level] != NULL {
        var ret := UseHead(level, size);
        addr := Some(PayloadOf(ret));
      }
      assert arena == BuddyArena.Malloc(a, top, size).0;
      MallocServes(a, top, size);
      if addr != None {
        MallocOnlySplits(a, top, size);
      }
    }

    /** On headers that describe blocks of the arena this is the arena's own test. */
    predicate BuddyIsBuddy(first: nat, second: nat): (joins: bool)
      requires first < memory.Length && second < memory.Length
      reads this, memory
      ensures first in arena.blocks && second in arena.blocks
              && Describes(memory[first], arena.blocks[first], owner, true)
              && Describes(memory[second], arena.blocks[second], owner, true)
              ==> (joins <==> IsBuddy(arena.blocks, first, second))
    {
      var a, b := memory[first], memory[second];
      if a.level != b.level then false
      else if a.isFirst && !b.isFirst then false
      else if a.hostPid != b.hostPid then false
      else if a.memoryIdx != b.memoryIdx then false
      else (first > second && first - second == Pow2(a.level)) || (first < second && second - first == Pow2(a.level))
    }

    /** The headers and list heads of a merge. */
    method JoinHeaders(head: nat, insertPoint: nat, ghost k: nat) returns (merged: nat)
      requires Spelled(head) && head in arena.blocks && arena.blocks[head].level < LISTS
      requires k < |arena.lists[arena.blocks[head].level]| && arena.lists[arena.blocks[head].level][k] == insertPoint
      modifies memory, blockList
      ensures merged == Min(head, insertPoint)
      ensures Represents(memory[..], blockList[..], MergeAt(arena, head, k), owner, merged)
    {
      ghost var s := arena.lists[arena.blocks[head].level];
      assert Linked(memory[..], s, k) && s[k] in s;
      RemoveBlock(memory[insertPoint].level, insertPoint, k, head);
      merged := if head < insertPoint then head else insertPoint;
      MergedRepresents(memory[..], blockList[..], arena, head, k, owner);
      InitFreeBlock(merged, NULL, NULL, memory[merged].level + 1, memory[merged].isFirst);
    }

    /** Joins the carried block with the listed neighbour at position k and carries the result. */
    method MergeWith(head: nat, insertPoint: nat, ghost k: nat) returns (merged: nat)
      requires Shape(head) && head in arena.blocks && insertPoint in arena.blocks
      requires arena.blocks[head].level < LISTS && k < |arena.lists[arena.blocks[head].level]|
      requires arena.lists[arena.blocks[head].level][k] == insertPoint && IsBuddy(arena.blocks, head, insertPoint)
      modifies `arena, memory, blockList
      ensures merged == Min(head, insertPoint) && Shape(merged)
      ensures arena == MergeAt(old(arena), head, k)
    {
      ghost var b := Joined(arena, top, head, k);
      merged := JoinHeaders(head, insertPoint, k);
      arena := b;
    }

    /** The list of the carried block's level is empty: it becomes the whole list. */
    method InsertOnly(head: nat)
      requires Spelled(head) && head in arena.blocks && arena.blocks[head].level < LISTS
      requires arena.lists[arena.blocks[head].level] == []
      modifies `arena, memory, blockList
      ensures arena == InsertAt(old(arena), head, 0)
      ensures Represents(memory[..], blockList[..], arena, owner, NULL)
    {
      ghost var a, m0, first0 := arena, memory[..], blockList[..];
      InitFreeBlock(head, NULL, NULL, memory[head].level, memory[head].isFirst);
      blockList[memory[head].level] := head;
      InsertRepresents(m0, memory[..], first0, blockList[..], a, head, 0, owner);
      arena := InsertAt(a, head, 0);
    }

    /** The pointer writes that put a block in front of another, and the list head if that was first. */
    method PutBefore(head: nat, insertPoint: nat, level: nat)
      requires head < memory.Length && PointsInside(memory[..], insertPoint) && memory[head].level == level
      requires head != insertPoint && memory[insertPoint].previous != insertPoint && level < blockList.Length
      modifies memory, blockList
      ensures memory[..] == PutInFront(old(memory[..]), head, insertPoint)
      ensures blockList[..] == if old(memory[insertPoint]).previous == NULL then old(blockList[..])[level := head]
                               else old(blockList[..])
    {
      var previous := memory[insertPoint].previous;
      InitFreeBlock(head, previous, insertPoint, memory[head].level, memory[head].isFirst);
      InitFreeBlock(insertPoint, head, memory[insertPoint].next,
                    memory[insertPoint].level, memory[insertPoint].isFirst);
      if previous == NULL {
        blockList[memory[head].level] := head;
      } else {
        InitFreeBlock(previous, memory[previous].previous, head, memory[previous].level, memory[previous].isFirst);
      }
    }

    /** Inserts the carried block in front of the block at position k. */
    method InsertBefore(head: nat, insertPoint: nat, ghost k: nat)
      requires Spelled(head) && head in arena.blocks && arena.blocks[head].level < LISTS
      requires k < |arena.lists[arena.blocks[head].level]| && arena.lists[arena.blocks[head].level][k] == insertPoint
      modifies `arena, memory, blockList
      ensures arena == InsertAt(old(arena), head, k)
      ensures Represents(memory[..], blockList[..], arena, owner, NULL)
    {
      ghost var a, m0, first0 := arena, memory[..], blockList[..];
      PutMeets(m0, first0, a, owner, head, k);
      PutBefore(head, insertPoint, memory[head].level);
      InsertRepresents(m0, memory[..], first0, blockList[..], a, head, k, owner);
      arena := InsertAt(a, head, k);
    }

    /** Appends the carried block behind the last block of its level's list. */
    method InsertLast(head: nat, insertPoint: nat)
      requires Spelled(head) && head in arena.blocks && arena.blocks[head].level < LISTS
      requires arena.lists[arena.blocks[head].level] != []
      requires insertPoint == arena.lists[arena.blocks[head].level][|arena.lists[arena.blocks[head].level]| - 1]
      modifies `arena, memory, blockList
      ensures arena == InsertAt(old(arena), head, |old(arena).lists[old(arena).blocks[head].level]|)
      ensures Represents(memory[..], blockList[..], arena, owner, NULL)
    {
      ghost var a, m0, first0 := arena, memory[..], blockList[..];
      ghost var s := a.lists[a.blocks[head].level];
      assert Linked(m0, s, |s| - 1) && s[|s| - 1] in s;
      InitFreeBlock(insertPoint, memory[insertPoint].previous, head,
                    memory[insertPoint].level, memory[insertPoint].isFirst);
      InitFreeBlock(head, insertPoint, NULL, memory[head].level, memory[head].isFirst);
      InsertRepresents(m0, memory[..], first0, blockList[..], a, head, |s|, owner);
      arena := InsertAt(a, head, |s|);
    }

    /** The walk of buddy_free along one non-empty list: merges, or inserts and returns NULL. */
    method WalkList(head: nat) returns (next: int)
      requires Shape(head) && arena.blocks[head].level < LISTS && arena.lists[arena.blocks[head].level] != []
      modifies `arena, memory, blockList
      ensures var a := old(arena);
              var s := a.lists[a.blocks[head].level];
              var d := Scan(a, head, s, 0);
              && (d.Insert? ==> next == NULL && arena == InsertAt(a, head, d.at))
              && (d.Insert? ==> Represents(memory[..], blockList[..], arena, owner, NULL))
              && (d.Merge? ==> next == Min(head, s[d.at]) && arena == MergeAt(a, head, d.at) && Shape(next))
    {
      ghost var a := arena;
      ghost var s := a.lists[a.blocks[head].level];
      assert Chained(memory[..], blockList[..][a.blocks[head].level], s);
      var insertPoint := blockList[memory[head].level];
      ghost var k := 0;
      while true
        invariant k < |s| && insertPoint == s[k]
        invariant Scan(a, head, s, 0) == Scan(a, head, s, k)
        decreases |s| - k
      {
        assert Linked(memory[..], s, k) && s[k] in s;
        if BuddyIsBuddy(head, insertPoint) {
          next := MergeWith(head, insertPoint, k);
          return;
        } else if head < insertPoint {
          InsertBefore(head, insertPoint, k);
          return NULL;
        } else if memory[insertPoint].next == NULL {
          InsertLast(head, insertPoint);
          return NULL;
        }
        insertPoint := memory[insertPoint].next;
        k := k + 1;
      }
    }

    /** One round of the outer loop of buddy_free; NULL means the block has been inserted. */
    method PlaceOrMerge(head: nat) returns (next: int)
      requires Shape(head)
      modifies `arena, memory, blockList
      ensures Shape(next)
      ensures next == NULL <==> PartnerOf(old(arena), top, head) == None
      ensures next == NULL ==> arena == Coalesce(old(arena), top, head)
      ensures next != NULL ==> |arena.blocks| < |old(arena).blocks|
      ensures next != NULL ==> Coalesce(arena, top, next) == Coalesce(old(arena), top, head)
    {
      ghost var a := arena;
      ScanMeets(a, top, head);
      ghost var d := Scan(a, head, a.lists[a.blocks[head].level], 0);
      if d.Insert? {
        InsertKeeps(a, top, head, d);
      }
      MergeKeeps(a, top, head);
      assert Chained(memory[..], blockList[..][a.blocks[head].level], a.lists[a.blocks[head].level]);
      if blockList[memory[head].level] == NULL {
        InsertOnly(head);
        next := NULL;
      } else {
        next := WalkList(head);
      }
    }

    /**
     * buddy_free. A pointer to a block that is already free makes the source abort; nothing has
     * been changed by then.
     */
    method Free(addr: nat) returns (outcome: Outcome)
      requires Valid()
      requires addr >= HEAD_SIZE && (addr - HEAD_SIZE) / PAGE_SIZE in arena.blocks
      requires addr == PayloadOf((addr - HEAD_SIZE) / PAGE_SIZE)
      modifies `arena, memory, blockList
      ensures Valid()
      ensures var p := (addr - HEAD_SIZE) / PAGE_SIZE;
              && (outcome == DoubleFree <==> old(arena).blocks[p].isFree)
              && (outcome == DoubleFree ==> arena == old(arena))
              && (outcome == DoubleFree ==> memory[..] == old(memory[..]) && blockList[..] == old(blockList[..]))
              && (outcome == Freed ==> arena == Coalesce(old(arena), top, p))
              && (outcome == Freed ==> exists r :: Merged(old(arena), p, arena, r))
    {
      ghost var a := arena;
      ghost var p := (addr - HEAD_SIZE) / PAGE_SIZE;
      var head: int := (addr - HEAD_SIZE) / PAGE_SIZE;
      if memory[head].isFree {
        return DoubleFree;
      }
      while head != NULL
        invariant Shape(head)
        invariant head != NULL ==> Coalesce(arena, top, head) == Coalesce(a, top, p)
        invariant head == NULL ==> arena == Coalesce(a, top, p)
        decreases head != NULL, |arena.blocks|
      {
        head := PlaceOrMerge(head);
      }
      ghost var r := FreeMergesToTheEnd(a, top, p);
      return Freed;
    }
  }

  lemma FreshRepresents(m: seq<Head>, first: seq<int>, top: nat, pid: nat)
    requires top <= TOP_LEVEL && |m| > 0 && |first| == LISTS
    requires forall i | 0 <= i < LISTS :: first[i] == if i == top then 0 else NULL
    requires m[0].next == NULL && m[0].previous == NULL && Describes(m[0], Block(top, true, true, 0), pid, false)
    ensures Represents(m, first, Fresh(top), pid, NULL)
  {
    assert Linked(m, [0], 0);
  }

  lemma InteriorIsUnlisted(a: Arena, top: nat, p: nat, page: nat)
    requires Inv(a, top) && p in a.blocks && p < page < End(a.blocks, p)
    ensures page !in a.blocks && Unlisted(a.lists, page)
  {
    assert page in a.blocks ==> Apart(a.blocks, p, page);
  }

  predicate PointsInside(m: seq<Head>, block: nat) {
    && block < |m|
    && (m[block].previous == NULL || 0 <= m[block].previous < |m|)
    && (m[block].next == NULL || 0 <= m[block].next < |m|)
  }

  /** The headers after the neighbours of a block have been made to point past it. */
  function Bypassed(m: seq<Head>, block: nat): (r: seq<Head>)
    requires PointsInside(m, block)
    ensures |r| == |m|
  {
    var p, n := m[block].previous, m[block].next;
    var m1 := if p == NULL then m else m[p := FreeHead(m[p], m[p].previous, n, m[p].level, m[p].isFirst)];
    if n == NULL then m1 else m1[n := FreeHead(m1[n], p, m1[n].next, m1[n].level, m1[n].isFirst)]
  }

  /** What the header of a listed block says of its place in the list. */
  lemma ListedHead(m: seq<Head>, first: seq<int>, a: Arena, pid: nat, held: int, level: nat, k: nat)
    requires ListsHoldFreeBlocks(a) && FreeBlocksAreListed(a) && Represents(m, first, a, pid, held)
    requires level < LISTS && k < |a.lists[level]| && (held == NULL || held !in a.lists[level])
    ensures var p := a.lists[level][k];
            && p in a.blocks && p < |m|
            && m[p].next == Nth(a.lists[level], k + 1) && m[p].previous == Nth(a.lists[level], k - 1)
            && FreeHead(m[p], m[p].previous, m[p].next, m[p].level, m[p].isFirst) == m[p]
  {
    assert Linked(m, a.lists[level], k) && a.lists[level][k] in a.lists[level];
  }

  /** The block and its neighbours in the list. */
  lemma Neighbours(m: seq<Head>, first: seq<int>, a: Arena, pid: nat, held: int, level: nat, k: nat)
    requires ListsHoldFreeBlocks(a) && FreeBlocksAreListed(a) && Represents(m, first, a, pid, held)
    requires level < LISTS && k < |a.lists[level]| && (held == NULL || held !in a.lists[level])
    ensures PointsInside(m, a.lists[level][k])
    ensures forall i | k - 1 <= i <= k + 1 && 0 <= i < |a.lists[level]| :: a.lists[level][i] < |m|
    ensures var s, p := a.lists[level], a.lists[level][k];
            Bypassed(m, p) ==
              var m1 := if k > 0 then m[s[k - 1] := m[s[k - 1]].(next := Nth(s, k + 1))] else m;
              if k + 1 < |s| then m1[s[k + 1] := m[s[k + 1]].(previous := Nth(s, k - 1))] else m1
  {
    var s := a.lists[level];
    ListedHead(m, first, a, pid, held, level, k);
    if k > 0 {
      ListedHead(m, first, a, pid, held, level, k - 1);
    }
    if k + 1 < |s| {
      ListedHead(m, first, a, pid, held, level, k + 1);
    }
  }

  lemma HeldIsNotListed(a: Arena, held: int, level: nat)
    requires ListsHoldFreeBlocks(a) && level < LISTS
    requires held == NULL || (held >= 0 && held in a.blocks && !a.blocks[held].isFree)
    ensures held == NULL || held !in a.lists[level]
  {
  }

  /** The pointer writes of buddy_remove_block unlink the block and describe the rest as before. */
  lemma BypassMeets(m: seq<Head>, first: seq<int>, a: Arena, pid: nat, held: int, level: nat, k: nat)
    requires ListsHoldFreeBlocks(a) && FreeBlocksAreListed(a) && Represents(m, first, a, pid, held)
    requires held == NULL || (held >= 0 && held in a.blocks && !a.blocks[held].isFree)
    requires level < LISTS && k < |a.lists[level]|
    ensures var p := a.lists[level][k];
            && PointsInside(m, p) && |Bypassed(m, p)| == |m|
            && Bypassed(m, p)[p] == m[p]
            && AllChained(Bypassed(m, p), if p == first[level] then first[level := m[p].next] else first,
                          a.lists[level := RemoveAt(a.lists[level], k)])
            && forall q | q in a.blocks :: q < |m| && Describes(Bypassed(m, p)[q], a.blocks[q], pid, q == held)
  {
    var s := a.lists[level];
    var p := s[k];
    HeldIsNotListed(a, held, level);
    Neighbours(m, first, a, pid, held, level, k);
    ListedHead(m, first, a, pid, held, level, k);
    var m1 := if k > 0 then m[s[k - 1] := m[s[k - 1]].(next := Nth(s, k + 1))] else m;
    RemoveMeets(m, m1, Bypassed(m, p), first, a, pid, held, level, k);
    HeadAfterRemoval(m, first, a, level, k);
  }

  lemma HeadAfterRemoval(m: seq<Head>, first: seq<int>, a: Arena, level: nat, k: nat)
    requires ListsHoldFreeBlocks(a) && |first| == LISTS && level < LISTS && k < |a.lists[level]|
    requires Chained(m, first[level], a.lists[level])
    ensures var s := a.lists[level];
            && s[k] < |m|
            && first[level := Nth(RemoveAt(s, k), 0)]
            == if s[k] == first[level] then first[level := m[s[k]].next] else first
  {
    var s := a.lists[level];
    assert Linked(m, s, k);
    assert k > 0 ==> s[0] < s[k] && RemoveAt(s, k)[0] == s[0];
    assert k == 0 ==> Nth(RemoveAt(s, 0), 0) == Nth(s, 1);
  }

  /** The two pointer writes unlink the block and describe the rest as before. */
  lemma RemoveMeets(m: seq<Head>, m1: seq<Head>, m2: seq<Head>, first: seq<int>,
                    a: Arena, pid: nat, held: int, level: nat, k: nat)
    requires ListsHoldFreeBlocks(a) && Represents(m, first, a, pid, held)
    requires level < LISTS && k < |a.lists[level]|
    requires forall i | k - 1 <= i <= k + 1 && 0 <= i < |a.lists[level]| :: a.lists[level][i] < |m|
    requires var s := a.lists[level];
             && m1 == (if k > 0 then m[s[k - 1] := m[s[k - 1]].(next := Nth(s, k + 1))] else m)
             && m2 == (if k + 1 < |s| then m1[s[k + 1] := m[s[k + 1]].(previous := Nth(s, k - 1))] else m1)
    ensures AllChained(m2, first[level := Nth(RemoveAt(a.lists[level], k), 0)],
                       a.lists[level := RemoveAt(a.lists[level], k)])
    ensures |m2| == |m| && forall p | p in a.blocks :: p < |m2| && Describes(m2[p], a.blocks[p], pid, p == held)
    ensures m2[a.lists[level][k]] == m[a.lists[level][k]]
  {
    UnlinkKeepsLists(m, m2, first, a, level, k);
  }

  function PutInFront(m: seq<Head>, h: nat, q: nat): (r: seq<Head>)
    requires h < |m| && PointsInside(m, q) && h != q && m[q].previous != q
    ensures |r| == |m|
  {
    var p := m[q].previous;
    var m1 := m[h := FreeHead(m[h], p, q, m[h].level, m[h].isFirst)];
    var m2 := m1[q := FreeHead(m1[q], h, m1[q].next, m1[q].level, m1[q].isFirst)];
    if p == NULL then m2 else m2[p := FreeHead(m2[p], m2[p].previous, h, m2[p].level, m2[p].isFirst)]
  }

  lemma PutFits(m: seq<Head>, first: seq<int>, a: Arena, pid: nat, h: nat, k: nat)
    requires ListsHoldFreeBlocks(a) && FreeBlocksAreListed(a) && Represents(m, first, a, pid, h)
    requires h in a.blocks && !a.blocks[h].isFree && a.blocks[h].level < LISTS && k < |a.lists[a.blocks[h].level]|
    ensures var s, level := a.lists[a.blocks[h].level], a.blocks[h].level;
            && h !in s && h < |m| && m[h].level == level && PointsInside(m, s[k])
            && m[s[k]].previous != s[k] && (m[s[k]].previous == NULL <==> k == 0)
  {
    var level := a.blocks[h].level;
    var s := a.lists[level];
    HeldIsNotListed(a, h, level);
    ListedHead(m, first, a, pid, h, level, k);
    if k > 0 {
      ListedHead(m, first, a, pid, h, level, k - 1);
      assert s[k - 1] < s[k];
    }
    if k + 1 < |s| {
      ListedHead(m, first, a, pid, h, level, k + 1);
    }
  }

  /** Those writes link the block in before position k of its level's list. */
  lemma PutMeets(m: seq<Head>, first: seq<int>, a: Arena, pid: nat, h: nat, k: nat)
    requires ListsHoldFreeBlocks(a) && FreeBlocksAreListed(a) && Represents(m, first, a, pid, h)
    requires h in a.blocks && !a.blocks[h].isFree && a.blocks[h].level < LISTS && k < |a.lists[a.blocks[h].level]|
    ensures var s, level := a.lists[a.blocks[h].level], a.blocks[h].level;
            && h < |m| && m[h].level == level && PointsInside(m, s[k]) && h != s[k] && m[s[k]].previous != s[k]
            && (m[s[k]].previous == NULL <==> k == 0)
            && Links(m, PutInFront(m, h, s[k]), s, k, h)
            && Describes(PutInFront(m, h, s[k])[h], a.blocks[h].(isFree := true, size := 0), pid, false)
  {
    var level := a.blocks[h].level;
    var s := a.lists[level];
    PutFits(m, first, a, pid, h, k);
    assert s[k] in s;
    HeldIsNotListed(a, h, level);
    ListedHead(m, first, a, pid, h, level, k);
    if k > 0 {
      assert s[k - 1] in s && s[k - 1] < s[k];
      ListedHead(m, first, a, pid, h, level, k - 1);
    }
  }

  lemma EmptyHead(m: seq<Head>, first: seq<int>, a: Arena, idx: nat)
    requires |a.lists| == LISTS && 0 < idx < LISTS && a.lists[idx] != [] && a.lists[idx - 1] == []
    requires AllChained(m, first, a.lists[idx := a.lists[idx][1..]])
    ensures first[idx - 1] == NULL
  {
    assert Chained(m, first[idx - 1], a.lists[idx := a.lists[idx][1..]][idx - 1]);
  }

  /** A header taken off its list. */
  function Loose(h: Head): Head {
    h.(next := NULL, previous := NULL)
  }

  /** The header of the upper half, which takes its owner fields from the lower one. */
  function UpperHalf(h: Head, lower: Head, first: nat, level: nat): Head {
    FreeHead(h.(hostPid := lower.hostPid, memoryIdx := lower.memoryIdx), first, NULL, level, true)
  }

  function Halved(m: seq<Head>, p: nat, q: nat, level: nat): (r: seq<Head>)
    requires p < |m| && q < |m|
    ensures |r| == |m|
  {
    m[p := FreeHead(Loose(m[p]), NULL, q, level, false)][q := UpperHalf(m[q], m[p], p, level)]
  }

  lemma HalvedRepresents(m: seq<Head>, first: seq<int>, first': seq<int>, a: Arena, idx: nat, pid: nat)
    requires ListsHoldFreeBlocks(a) && 0 < idx < LISTS && a.lists[idx] != [] && a.lists[idx - 1] == []
    requires AllChained(m, first, a.lists[idx := a.lists[idx][1..]])
    requires first' == first[idx - 1 := a.lists[idx][0]]
    requires a.lists[idx][0] + Pow2(idx - 1) !in a.blocks && a.lists[idx][0] + Pow2(idx - 1) < |m|
    requires forall r | r in a.blocks :: r < |m| && Describes(m[r], a.blocks[r], pid, false)
    ensures a.lists[idx][0] < |m|
    ensures var p := a.lists[idx][0];
            Represents(Halved(m, p, p + Pow2(idx - 1), idx - 1), first', SplitFirst(a, idx), pid, NULL)
  {
    var p := a.lists[idx][0];
    assert p in a.lists[idx] && p in a.blocks;
    SplitRepresents(m, Halved(m, p, p + Pow2(idx - 1), idx - 1), first, first', a, idx, pid);
  }

  lemma SplitRound(a: Arena, idx: nat, level: nat)
    requires |a.lists| == LISTS && level < idx && level <= MAX_LEVELS
    requires exists i | idx <= i < LISTS :: a.lists[i] != [] && i == Search(a.lists, level)
    ensures var i := Search(a.lists, level);
            var b := SplitDown(a, i, idx);
            && b.lists[idx] != [] && b.lists[idx - 1] == []
            && SplitFirst(b, idx) == SplitDown(a, i, idx - 1)
  {
    var i := Search(a.lists, level);
    SearchFindsFirst(a.lists, level);
    SplitDownShape(a, i, idx);
  }

  lemma Joined(a: Arena, top: nat, h: nat, k: nat) returns (b: Arena)
    requires Carries(a, top, h) && a.blocks[h].level < LISTS && k < |a.lists[a.blocks[h].level]|
    requires a.lists[a.blocks[h].level][k] in a.blocks && IsBuddy(a.blocks, h, a.lists[a.blocks[h].level][k])
    ensures b == MergeAt(a, h, k) && Carries(b, top, Min(h, a.lists[a.blocks[h].level][k]))
  {
    MergeStep(a, top, h, k);
    b := MergeAt(a, h, k);
  }

  lemma Split(a: Arena, top: nat, idx: nat) returns (b: Arena)
    requires Inv(a, top) && 0 < idx < LISTS && a.lists[idx] != [] && a.lists[idx - 1] == []
    ensures b == SplitFirst(a, idx) && Inv(b, top)
  {
    SplitStep(a, top, idx);
    b := SplitFirst(a, idx);
  }

  lemma Taken(a: Arena, top: nat, level: nat, head: Block) returns (b: Arena)
    requires Inv(a, top) && level < LISTS && a.lists[level] != [] && head.level == level && !head.isFree
    ensures b == TakeFirst(a, level, head) && Inv(b, top)
  {
    TakeStep(a, top, level, head);
    b := TakeFirst(a, level, head);
  }

  lemma MergeKeeps(a: Arena, top: nat, h: nat)
    requires Carries(a, top, h) && a.blocks[h].level < LISTS
    ensures var s := a.lists[a.blocks[h].level];
            var d := Scan(a, h, s, 0);
            d.Merge? ==> && Carries(MergeAt(a, h, d.at), top, Min(h, s[d.at]))
                         && |MergeAt(a, h, d.at).blocks| < |a.blocks|
  {
    var d := Scan(a, h, a.lists[a.blocks[h].level], 0);
    if d.Merge? {
      MergeStep(a, top, h, d.at);
    }
  }

  lemma ListHead(m: seq<Head>, first: seq<int>, a: Arena, pid: nat, i: nat)
    requires Represents(m, first, a, pid, NULL) && i < LISTS
    ensures first[i] == NULL <==> a.lists[i] == []
  {
    assert Chained(m, first[i], a.lists[i]);
  }

  lemma MergeRepresents(m: seq<Head>, m': seq<Head>, first: seq<int>, a: Arena, h: nat, k: nat, pid: nat)
    requires ListsHoldFreeBlocks(a) && h in a.blocks && !a.blocks[h].isFree && a.blocks[h].level < LISTS
    requires k < |a.lists[a.blocks[h].level]|
    requires AllChained(m, first, MergeAt(a, h, k).lists)
    requires var lo := Min(h, a.lists[a.blocks[h].level][k]);
             && lo in a.blocks && lo < |m| == |m'| && m' == m[lo := m'[lo]]
             && Describes(m'[lo], MergeAt(a, h, k).blocks[lo], pid, true)
    requires forall r | r in a.blocks :: r < |m| && Describes(m[r], a.blocks[r], pid, r == h)
    ensures Represents(m', first, MergeAt(a, h, k), pid, Min(h, a.lists[a.blocks[h].level][k]))
  {
    var level := a.blocks[h].level;
    var lo := Min(h, a.lists[level][k]);
    TakenIsUnlisted(a, level, k);
    HeldIsUnlisted(a, h, level, k);
    UnlistedWriteKeepsLists(m, m', first, MergeAt(a, h, k).lists, lo);
  }

  /** Rewriting the header of the lower block completes the merge. */
  lemma MergedRepresents(m: seq<Head>, first: seq<int>, a: Arena, h: nat, k: nat, pid: nat)
    requires ListsHoldFreeBlocks(a) && h in a.blocks && !a.blocks[h].isFree && a.blocks[h].level < LISTS
    requires k < |a.lists[a.blocks[h].level]| && a.lists[a.blocks[h].level][k] in a.blocks
    requires AllChained(m, first, a.lists[a.blocks[h].level := RemoveAt(a.lists[a.blocks[h].level], k)])
    requires forall r | r in a.blocks :: r < |m| && Describes(m[r], a.blocks[r], pid, r == h)
    ensures var lo := Min(h, a.lists[a.blocks[h].level][k]);
            && lo < |m|
            && Represents(m[lo := FreeHead(m[lo], NULL, NULL, m[lo].level + 1, m[lo].isFirst)], first,
                          MergeAt(a, h, k), pid, lo)
  {
    var lo := Min(h, a.lists[a.blocks[h].level][k]);
    var m' := m[lo := FreeHead(m[lo], NULL, NULL, m[lo].level + 1, m[lo].isFirst)];
    assert a.lists[a.blocks[h].level][k] in a.lists[a.blocks[h].level];
    assert lo in a.blocks && lo < |m|;
    MergeRepresents(m, m', first, a, h, k, pid);
  }

  lemma HeldIsUnlisted(a: Arena, h: nat, level: nat, k: nat)
    requires ListsHoldFreeBlocks(a) && h in a.blocks && !a.blocks[h].isFree
    requires level < LISTS && k < |a.lists[level]|
    ensures Unlisted(a.lists[level := RemoveAt(a.lists[level], k)], h)
  {
    RemoveAtKeeps(a.lists[level], k);
  }

  lemma InsertRepresents(m: seq<Head>, m': seq<Head>, first: seq<int>, first': seq<int>,
                         a: Arena, h: nat, k: nat, pid: nat)
    requires ListsHoldFreeBlocks(a) && FreeBlocksAreListed(a)
    requires h in a.blocks && !a.blocks[h].isFree && a.blocks[h].level < LISTS
    requires k <= |a.lists[a.blocks[h].level]|
    requires Represents(m, first, a, pid, h) && Links(m, m', a.lists[a.blocks[h].level], k, h)
    requires Describes(m'[h], a.blocks[h].(isFree := true, size := 0), pid, false)
    requires first' == first[a.blocks[h].level := if k == 0 then h else first[a.blocks[h].level]]
    ensures Represents(m', first', InsertAt(a, h, k), pid, NULL)
  {
    var level := a.blocks[h].level;
    var s := a.lists[level];
    assert Chained(m, first[level], s);
    LinkKeepsLists(m, m', first, a, level, k, h);
    assert Nth(s[..k] + [h] + s[k..], 0) == if k == 0 then h else Nth(s, 0);
  }

  lemma TakeRepresents(m: seq<Head>, m': seq<Head>, first: seq<int>, a: Arena, level: nat, b: Block, pid: nat)
    requires ListsHoldFreeBlocks(a) && level < LISTS && a.lists[level] != []
    requires AllChained(m, first, a.lists[level := a.lists[level][1..]])
    requires var p := a.lists[level][0];
             p < |m| == |m'| && m' == m[p := m'[p]] && Describes(m'[p], b, pid, false)
    requires forall r | r in a.blocks && r != a.lists[level][0] :: r < |m| && Describes(m[r], a.blocks[r], pid, false)
    ensures Represents(m', first, TakeFirst(a, level, b), pid, NULL)
  {
    TakenIsUnlisted(a, level, 0);
    UnlistedWriteKeepsLists(m, m', first, a.lists[level := a.lists[level][1..]], a.lists[level][0]);
  }

  lemma SplitRepresents(m: seq<Head>, m': seq<Head>, first: seq<int>, first': seq<int>, a: Arena, idx: nat, pid: nat)
    requires ListsHoldFreeBlocks(a) && 0 < idx < LISTS && a.lists[idx] != [] && a.lists[idx - 1] == []
    requires AllChained(m, first, a.lists[idx := a.lists[idx][1..]])
    requires first' == first[idx - 1 := a.lists[idx][0]]
    requires var p := a.lists[idx][0];
             var q := p + Pow2(idx - 1);
             && q !in a.blocks && q < |m| && |m'| == |m|
             && m' == m[p := m'[p]][q := m'[q]]
             && m'[p].previous == NULL && m'[p].next == q && m'[q].previous == p && m'[q].next == NULL
             && Describes(m'[p], Block(idx - 1, false, true, 0), pid, false)
             && Describes(m'[q], Block(idx - 1, true, true, 0), pid, false)
    requires forall r | r in a.blocks && r != a.lists[idx][0] :: r < |m| && Describes(m[r], a.blocks[r], pid, false)
    ensures Represents(m', first', SplitFirst(a, idx), pid, NULL)
  {
    var p := a.lists[idx][0];
    var q := p + Pow2(idx - 1);
    var lists := a.lists[idx := a.lists[idx][1..]];
    TakenIsUnlisted(a, idx, 0);
    var m1 := m[p := m'[p]];
    UnlistedWriteKeepsLists(m, m1, first, lists, p);
    UnlistedWriteKeepsLists(m1, m', first, lists, q);
    TwoLinked(m', p, q);
    ListedAs(m', first, lists, idx - 1, p, [p, q]);
    HalvesDescribed(m, m', a, SplitFirst(a, idx), p, q, idx - 1, pid);
  }

  lemma ListedAs(m: seq<Head>, first: seq<int>, lists: seq<seq<nat>>, i: nat, head: int, s: seq<nat>)
    requires AllChained(m, first, lists) && i < LISTS && Chained(m, head, s)
    ensures AllChained(m, first[i := head], lists[i := s])
  {
  }

  lemma HalvesDescribed(m: seq<Head>, m': seq<Head>, a: Arena, b: Arena, p: nat, q: nat, level: nat, pid: nat)
    requires p < |m| && q < |m| == |m'| && p != q && m' == m[p := m'[p]][q := m'[q]]
    requires b.blocks == a.blocks[p := Block(level, false, true, 0)][q := Block(level, true, true, 0)]
    requires Describes(m'[p], Block(level, false, true, 0), pid, false)
    requires Describes(m'[q], Block(level, true, true, 0), pid, false)
    requires forall r | r in a.blocks && r != p :: r < |m| && Describes(m[r], a.blocks[r], pid, false)
    ensures forall r | r in b.blocks :: r < |m'| && Describes(m'[r], b.blocks[r], pid, false)
  {
  }

  lemma TwoLinked(m: seq<Head>, p: nat, q: nat)
    requires p < |m| && q < |m| && p != q
    requires m[p].previous == NULL && m[p].next == q && m[q].previous == p && m[q].next == NULL
    ensures Chained(m, p, [p, q])
  {
    assert Linked(m, [p, q], 0) && Linked(m, [p, q], 1);
  }
}
