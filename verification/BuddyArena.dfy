/**
 * The allocator's bookkeeping as a value: which blocks tile the attached pages, and what each
 * level's free list holds in order. A block that buddy_free is carrying upward counts as
 * in use until it is inserted, so one invariant covers every intermediate state.
 */
module BuddyArena {
  import opened Powers
  import opened BuddyLevels

  datatype Option<T> = None | Some(value: T)

  /** What a block header says of its block; `size` is the byte count of the request. */
  datatype Block = Block(level: nat, isFirst: bool, isFree: bool, size: nat)

  /** `blocks` is keyed by first page; `lists[i]` is the free list of level i. */
  datatype Arena = Arena(blocks: map<nat, Block>, lists: seq<seq<nat>>)

  /** Room for the reads one and two past the 32 list heads that a failed search makes. */
  const LISTS: nat := 34

  /** Attaching at most 2^63 - 1 bytes never yields a level above this. */
  const TOP_LEVEL: nat := 30

  function End(blocks: map<nat, Block>, p: nat): nat
    requires p in blocks
  {
    p + Pow2(blocks[p].level)
  }

  // ---------------------------------------------------------------- invariant

  ghost predicate Ascending(s: seq<nat>) {
    forall i, j | 0 <= i < j < |s| :: s[i] < s[j]
  }

  ghost predicate Ends(blocks: map<nat, Block>, pages: nat, p: nat)
    requires p in blocks
  {
    End(blocks, p) == pages || (End(blocks, p) in blocks && End(blocks, p) < pages)
  }

  ghost predicate Apart(blocks: map<nat, Block>, p: nat, q: nat)
    requires p in blocks && q in blocks
  {
    p < q ==> End(blocks, p) <= q
  }

  /** Every block ends where the next one starts, or at the end of the region. */
  ghost predicate Tiled(blocks: map<nat, Block>, pages: nat) {
    && 0 in blocks
    && (forall p {:trigger Ends(blocks, pages, p)} | p in blocks :: Ends(blocks, pages, p))
    && (forall p, q {:trigger Apart(blocks, p, q)} | p in blocks && q in blocks :: Apart(blocks, p, q))
  }

  ghost predicate ListsHoldFreeBlocks(a: Arena) {
    && |a.lists| == LISTS
    && (forall i | 0 <= i < LISTS :: Ascending(a.lists[i]))
    && (forall i, p | 0 <= i < LISTS && p in a.lists[i] ::
          p in a.blocks && a.blocks[p].isFree && a.blocks[p].level == i)
  }

  ghost predicate FreeBlocksAreListed(a: Arena)
    requires |a.lists| == LISTS
  {
    forall p | p in a.blocks && a.blocks[p].isFree ::
      a.blocks[p].level < LISTS && p in a.lists[a.blocks[p].level] && a.blocks[p].size == 0
  }

  /** The state of an allocator that manages 2^top pages. */
  ghost predicate Inv(a: Arena, top: nat) {
    && top <= TOP_LEVEL
    && Tiled(a.blocks, Pow2(top))
    && ListsHoldFreeBlocks(a)
    && FreeBlocksAreListed(a)
  }

  // ---------------------------------------------------------------- what callers see

  /** The blocks handed out and not yet returned. */
  function Live(a: Arena): map<nat, Block> {
    map p | p in a.blocks && !a.blocks[p].isFree :: a.blocks[p]
  }

  ghost predicate FreePage(a: Arena, x: nat) {
    exists p :: p in a.blocks && a.blocks[p].isFree && p <= x < End(a.blocks, p)
  }

  ghost predicate LivePage(a: Arena, x: nat) {
    exists p :: p in a.blocks && !a.blocks[p].isFree && p <= x < End(a.blocks, p)
  }

  ghost function FreePages(a: Arena, top: nat): set<nat> {
    set x | 0 <= x < Pow2(top) && FreePage(a, x)
  }

  ghost function LivePages(a: Arena, top: nat): set<nat> {
    set x | 0 <= x < Pow2(top) && LivePage(a, x)
  }

  // ---------------------------------------------------------------- attach

  /** One free block of level `top` over all pages. */
  function Fresh(top: nat): Arena
    requires top < LISTS
  {
    Arena(map[0 := Block(top, true, true, 0)], seq(LISTS, i => if i == top then [0] else []))
  }

  lemma FreshKeepsInv(top: nat)
    requires top <= TOP_LEVEL
    ensures Inv(Fresh(top), top) && Live(Fresh(top)) == map[]
    ensures Fresh(top).blocks == map[0 := Block(top, true, true, 0)]
  {
    assert Fresh(top).lists[top] == [0];
  }

  // ---------------------------------------------------------------- malloc

  /** The level at which the search of buddy_malloc stops. */
  function Search(lists: seq<seq<nat>>, level: nat): (idx: nat)
    requires |lists| == LISTS && level <= MAX_LEVELS
    ensures level <= idx <= MAX_LEVELS + 1
    decreases MAX_LEVELS - level
  {
    if lists[level] != [] then level
    else if level + 1 < MAX_LEVELS then Search(lists, level + 1)
    else level + 1
  }

  /** Halves the first free block of level idx; its halves become the list one level down. */
  function SplitFirst(a: Arena, idx: nat): Arena
    requires |a.lists| == LISTS && 0 < idx < LISTS && a.lists[idx] != []
  {
    var p := a.lists[idx][0];
    var q := p + Pow2(idx - 1);
    Arena(a.blocks[p := Block(idx - 1, false, true, 0)][q := Block(idx - 1, true, true, 0)],
          a.lists[idx := a.lists[idx][1..]][idx - 1 := [p, q]])
  }

  /** Splits the first free block of level idx, and the lower half again, down to `level`. */
  function SplitDown(a: Arena, idx: nat, level: nat): (b: Arena)
    requires |a.lists| == LISTS && level <= idx < LISTS && a.lists[idx] != []
    ensures |b.lists| == LISTS && b.lists[level] != [] && b.lists[level][0] == a.lists[idx][0]
    decreases idx - level
  {
    if level == idx then a else SplitFirst(SplitDown(a, idx, level + 1), level + 1)
  }

  /** Takes the first block off a free list and gives it the header b. */
  function TakeFirst(a: Arena, level: nat, b: Block): Arena
    requires |a.lists| == LISTS && level < LISTS && a.lists[level] != []
  {
    Arena(a.blocks[a.lists[level][0] := b], a.lists[level := a.lists[level][1..]])
  }

  /** buddy_malloc: the new state and the first page of the block, if one was found. */
  ghost function Malloc(a: Arena, top: nat, size: nat): (Arena, Option<nat>)
    requires Inv(a, top) && size < SIZE_T
  {
    var level := WhichLevel(BytesWithHead(size));
    var idx := Search(a.lists, level);
    if a.lists[idx] == [] then (a, None) else
    SearchFindsFirst(a.lists, level);
    SplitDownKeeps(a, top, idx, level);
    var b := SplitDown(a, idx, level);
    var p := b.lists[level][0];
    (TakeFirst(b, level, b.blocks[p].(isFree := false, size := size)), Some(p))
  }

  // ---------------------------------------------------------------- free

  /** The test of buddy_is_buddy; owner fields agree throughout one attached region. */
  predicate IsBuddy(blocks: map<nat, Block>, h: nat, q: nat)
    requires h in blocks && q in blocks
  {
    && blocks[h].level == blocks[q].level
    && !(blocks[h].isFirst && !blocks[q].isFirst)
    && (q == h + Pow2(blocks[h].level) || h == q + Pow2(blocks[h].level))
  }

  datatype Decision = Merge(at: nat) | Insert(at: nat)

  /** The scan of buddy_free along one level's list, from position k. */
  function Scan(a: Arena, h: nat, s: seq<nat>, k: nat): (d: Decision)
    requires h in a.blocks && k <= |s| && forall q | q in s :: q in a.blocks
    ensures k <= d.at <= |s| && (d.Merge? ==> d.at < |s| && IsBuddy(a.blocks, h, s[d.at]))
    decreases |s| - k
  {
    if k == |s| then Insert(k)
    else if IsBuddy(a.blocks, h, s[k]) then Merge(k)
    else if h < s[k] then Insert(k)
    else Scan(a, h, s, k + 1)
  }

  function Min(x: nat, y: nat): nat { if x < y then x else y }

  function Max(x: nat, y: nat): nat { if x < y then y else x }

  function RemoveAt(s: seq<nat>, k: nat): seq<nat>
    requires k < |s|
  {
    s[..k] + s[k + 1..]
  }

  /** Joins h with its listed neighbour at position k; the result is carried on, not listed. */
  function MergeAt(a: Arena, h: nat, k: nat): Arena
    requires |a.lists| == LISTS && h in a.blocks && a.blocks[h].level < LISTS
    requires k < |a.lists[a.blocks[h].level]|
  {
    var level := a.blocks[h].level;
    var q := a.lists[level][k];
    var lo, hi := Min(h, q), Max(h, q);
    var first := lo in a.blocks && a.blocks[lo].isFirst;
    Arena((a.blocks - {hi})[lo := Block(level + 1, first, false, 0)],
          a.lists[level := RemoveAt(a.lists[level], k)])
  }

  function InsertAt(a: Arena, h: nat, k: nat): Arena
    requires |a.lists| == LISTS && h in a.blocks && a.blocks[h].level < LISTS
    requires k <= |a.lists[a.blocks[h].level]|
  {
    var level := a.blocks[h].level;
    var s := a.lists[level];
    Arena(a.blocks[h := a.blocks[h].(isFree := true, size := 0)],
          a.lists[level := s[..k] + [h] + s[k..]])
  }

  ghost predicate Carries(a: Arena, top: nat, h: nat) {
    Inv(a, top) && h in a.blocks && !a.blocks[h].isFree
  }

  /** The outer loop of buddy_free: merge upward until nothing more merges, then insert. */
  ghost function Coalesce(a: Arena, top: nat, h: nat): (b: Arena)
    requires Carries(a, top, h)
    decreases |a.blocks|
  {
    LevelInRange(a, top, h);
    var s := a.lists[a.blocks[h].level];
    var d := Scan(a, h, s, 0);
    if d.Insert? then InsertAt(a, h, d.at)
    else
      MergeStep(a, top, h, d.at);
      Coalesce(MergeAt(a, h, d.at), top, Min(h, s[d.at]))
  }

  // ---------------------------------------------------------------- step lemmas

  lemma LevelInRange(a: Arena, top: nat, p: nat)
    requires Inv(a, top) && p in a.blocks
    ensures a.blocks[p].level <= top && End(a.blocks, p) <= Pow2(top)
  {
    assert Ends(a.blocks, Pow2(top), p);
    Pow2Reflects(a.blocks[p].level, top);
  }

  /** Joining a block with the one that starts where it ends keeps the tiling. */
  lemma MergeKeepsTiling(blocks: map<nat, Block>, pages: nat, lo: nat, hi: nat, b: Block)
    requires Tiled(blocks, pages) && lo in blocks && hi in blocks && End(blocks, lo) == hi
    requires Pow2(b.level) == Pow2(blocks[lo].level) + Pow2(blocks[hi].level)
    ensures Tiled((blocks - {hi})[lo := b], pages)
  {
    var merged := (blocks - {hi})[lo := b];
    assert End(merged, lo) == End(blocks, hi);
    forall p | p in merged
      ensures Ends(merged, pages, p)
    {
      MergedEnds(blocks, pages, lo, hi, merged, p);
    }
    forall p, q | p in merged && q in merged
      ensures Apart(merged, p, q)
    {
      assert Apart(blocks, p, q) && Apart(blocks, hi, q);
    }
  }

  lemma MergedEnds(blocks: map<nat, Block>, pages: nat, lo: nat, hi: nat, merged: map<nat, Block>, p: nat)
    requires Tiled(blocks, pages) && lo in blocks && hi in blocks && End(blocks, lo) == hi
    requires merged.Keys == blocks.Keys - {hi} && End(merged, lo) == End(blocks, hi)
    requires p in merged && (p != lo ==> merged[p] == blocks[p])
    ensures Ends(merged, pages, p)
  {
    if p == lo {
      assert Ends(blocks, pages, hi);
    } else {
      assert Ends(blocks, pages, p) && Apart(blocks, p, lo) && Apart(blocks, lo, p) && Apart(blocks, hi, p);
    }
  }

  /** Taking one block off its list, whatever becomes of it, leaves the lists in order. */
  lemma RemovedKeepsLists(a: Arena, level: nat, k: nat, b: Arena)
    requires ListsHoldFreeBlocks(a) && level < LISTS && k < |a.lists[level]|
    requires b.lists == a.lists[level := RemoveAt(a.lists[level], k)]
    requires forall p | p in a.blocks && a.blocks[p].isFree && p != a.lists[level][k] ::
               p in b.blocks && b.blocks[p] == a.blocks[p]
    ensures ListsHoldFreeBlocks(b)
  {
    RemoveAtKeeps(a.lists[level], k);
    forall i, p | 0 <= i < LISTS && p in b.lists[i]
      ensures p in b.blocks && b.blocks[p].isFree && b.blocks[p].level == i
    {
      assert p in a.lists[i];
    }
  }

  lemma RemovedKeepsListed(a: Arena, level: nat, k: nat, b: Arena)
    requires ListsHoldFreeBlocks(a) && FreeBlocksAreListed(a) && level < LISTS && k < |a.lists[level]|
    requires b.lists == a.lists[level := RemoveAt(a.lists[level], k)]
    requires forall p | p in b.blocks && b.blocks[p].isFree ::
               p in a.blocks && b.blocks[p] == a.blocks[p] && p != a.lists[level][k]
    ensures FreeBlocksAreListed(b)
  {
    RemoveAtKeeps(a.lists[level], k);
  }

  lemma MergeStep(a: Arena, top: nat, h: nat, k: nat)
    requires Carries(a, top, h) && a.blocks[h].level < LISTS
    requires k < |a.lists[a.blocks[h].level]|
    requires a.lists[a.blocks[h].level][k] in a.blocks && IsBuddy(a.blocks, h, a.lists[a.blocks[h].level][k])
    ensures var b := MergeAt(a, h, k);
            var lo := Min(h, a.lists[a.blocks[h].level][k]);
            Carries(b, top, lo) && |b.blocks| < |a.blocks| && Live(b) - {lo} == Live(a) - {h}
  {
    var level := a.blocks[h].level;
    var q := a.lists[level][k];
    var lo, hi := Min(h, q), Max(h, q);
    var b := MergeAt(a, h, k);
    assert q in a.lists[level];
    MergeKeepsTiling(a.blocks, Pow2(top), lo, hi, b.blocks[lo]);
    RemovedKeepsLists(a, level, k, b);
    RemovedKeepsListed(a, level, k, b);
    MergeShrinks(a.blocks, h, q, lo, hi, b.blocks);
  }

  lemma MergeShrinks(blocks: map<nat, Block>, h: nat, q: nat, lo: nat, hi: nat, merged: map<nat, Block>)
    requires h in blocks && q in blocks && !blocks[h].isFree && blocks[q].isFree
    requires lo == Min(h, q) && hi == Max(h, q) && lo in merged && merged == (blocks - {hi})[lo := merged[lo]]
    ensures |merged| < |blocks|
    ensures Live(Arena(merged, [])) - {lo} == Live(Arena(blocks, [])) - {h}
  {
    assert merged.Keys == blocks.Keys - {hi};
    assert |merged| == |merged.Keys| && |blocks| == |blocks.Keys|;
  }

  lemma RemoveAtKeeps(s: seq<nat>, k: nat)
    requires Ascending(s) && k < |s|
    ensures Ascending(RemoveAt(s, k))
    ensures forall p :: p in RemoveAt(s, k) <==> p in s && p != s[k]
  {
    var r := RemoveAt(s, k);
    forall p | p in s && p != s[k]
      ensures p in r
    {
      var i :| 0 <= i < |s| && s[i] == p;
      assert r[if i < k then i else i - 1] == p;
    }
  }

  // ---------------------------------------------------------------- the scan, declaratively

  /**
   * The neighbour buddy_free merges with: the free block of equal size just below if the flags
   * allow it, otherwise the one just above. Alignment plays no part.
   */
  ghost function Partner(a: Arena, h: nat, s: seq<nat>): Option<nat>
    requires h in a.blocks && forall q | q in s :: q in a.blocks
  {
    var n := Pow2(a.blocks[h].level);
    if h >= n && h - n in s && IsBuddy(a.blocks, h, h - n) then Some(h - n)
    else if h + n in s && IsBuddy(a.blocks, h, h + n) then Some(h + n)
    else None
  }

  /** Position k is where h belongs in an ascending list. */
  ghost predicate GoesAt(s: seq<nat>, k: nat, h: nat) {
    && k <= |s|
    && forall i | 0 <= i < |s| :: if i < k then s[i] < h else h < s[i]
  }

  ghost function PartnerOf(a: Arena, top: nat, h: nat): Option<nat>
    requires Carries(a, top, h)
  {
    LevelInRange(a, top, h);
    Partner(a, h, a.lists[a.blocks[h].level])
  }

  lemma {:induction false} ScanFindsPartner(a: Arena, h: nat, s: seq<nat>, k: nat)
    requires h in a.blocks && h !in s && k <= |s| && Ascending(s)
    requires forall q | q in s :: q in a.blocks && (h < q ==> End(a.blocks, h) <= q)
    requires forall i | 0 <= i < k :: s[i] < h && !IsBuddy(a.blocks, h, s[i])
    ensures var d := Scan(a, h, s, k);
            && d.at <= |s|
            && (d.Merge? ==> d.at < |s| && Partner(a, h, s) == Some(s[d.at]))
            && (d.Insert? ==> Partner(a, h, s) == None)
            && (d.Insert? ==> GoesAt(s, d.at, h))
    decreases |s| - k
  {
    if k < |s| {
      if !IsBuddy(a.blocks, h, s[k]) && s[k] < h {
        ScanFindsPartner(a, h, s, k + 1);
      }
    }
  }

  // ---------------------------------------------------------------- free: what it establishes

  lemma InsertStep(a: Arena, top: nat, h: nat, k: nat)
    requires Carries(a, top, h) && a.blocks[h].level < LISTS
    requires GoesAt(a.lists[a.blocks[h].level], k, h)
    ensures Inv(InsertAt(a, h, k), top)
    ensures Live(InsertAt(a, h, k)) == Live(a) - {h}
  {
    var level := a.blocks[h].level;
    var b := InsertAt(a, h, k);
    SameTiling(a.blocks, b.blocks, Pow2(top));
    InsertLists(a, h, k, b);
    ListedIsLive(a.blocks, h, b.blocks);
  }

  lemma ListedIsLive(blocks: map<nat, Block>, h: nat, other: map<nat, Block>)
    requires h in other && other[h].isFree && other == blocks[h := other[h]]
    ensures Live(Arena(other, [])) == Live(Arena(blocks, [])) - {h}
  {
  }

  lemma InsertLists(a: Arena, h: nat, k: nat, b: Arena)
    requires ListsHoldFreeBlocks(a) && FreeBlocksAreListed(a)
    requires h in a.blocks && !a.blocks[h].isFree && a.blocks[h].level < LISTS
    requires GoesAt(a.lists[a.blocks[h].level], k, h) && b == InsertAt(a, h, k)
    ensures ListsHoldFreeBlocks(b) && FreeBlocksAreListed(b)
  {
    var level := a.blocks[h].level;
    assert forall p :: p in b.lists[level] <==> p in a.lists[level] || p == h;
    forall i, p | 0 <= i < LISTS && p in b.lists[i]
      ensures p in b.blocks && b.blocks[p].isFree && b.blocks[p].level == i
    {
      assert p in a.lists[i] || (i == level && p == h);
    }
  }

  /** Headers may change freely as long as every block keeps its place and level. */
  lemma SameTiling(blocks: map<nat, Block>, other: map<nat, Block>, pages: nat)
    requires Tiled(blocks, pages) && other.Keys == blocks.Keys
    requires forall p | p in blocks :: other[p].level == blocks[p].level
    ensures Tiled(other, pages)
  {
    forall p | p in other
      ensures Ends(other, pages, p)
    {
      assert Ends(blocks, pages, p);
    }
    forall p, q | p in other && q in other
      ensures Apart(other, p, q)
    {
      assert Apart(blocks, p, q);
    }
  }

  lemma InsertPages(a: Arena, h: nat, k: nat, x: nat)
    requires |a.lists| == LISTS && h in a.blocks && !a.blocks[h].isFree && a.blocks[h].level < LISTS
    requires k <= |a.lists[a.blocks[h].level]|
    ensures FreePage(InsertAt(a, h, k), x) <==> FreePage(a, x) || h <= x < End(a.blocks, h)
  {
    var b := InsertAt(a, h, k);
    assert forall p | p in a.blocks :: End(b.blocks, p) == End(a.blocks, p);
    assert h in b.blocks && b.blocks[h].isFree;
    if FreePage(a, x) {
      var p :| p in a.blocks && a.blocks[p].isFree && p <= x < End(a.blocks, p);
      assert p in b.blocks && b.blocks[p].isFree && p <= x < End(b.blocks, p);
    }
  }

  /** What a merge leaves where it was: all blocks but the two, which lie end to end. */
  lemma MergeEnds(a: Arena, top: nat, h: nat, k: nat)
    requires Carries(a, top, h) && a.blocks[h].level < LISTS && k < |a.lists[a.blocks[h].level]|
    requires a.lists[a.blocks[h].level][k] in a.blocks && IsBuddy(a.blocks, h, a.lists[a.blocks[h].level][k])
    ensures var q, b := a.lists[a.blocks[h].level][k], MergeAt(a, h, k);
            var lo, hi := Min(h, q), Max(h, q);
            && a.blocks[q].isFree && lo in b.blocks && !b.blocks[lo].isFree && b.blocks.Keys == a.blocks.Keys - {hi}
            && End(b.blocks, lo) == End(a.blocks, hi) && End(a.blocks, lo) == hi
            && forall p | p in b.blocks && p != lo :: b.blocks[p] == a.blocks[p]
  {
    assert a.lists[a.blocks[h].level][k] in a.lists[a.blocks[h].level];
  }

  lemma MergePages(a: Arena, top: nat, h: nat, k: nat, x: nat)
    requires Carries(a, top, h) && a.blocks[h].level < LISTS
    requires k < |a.lists[a.blocks[h].level]|
    requires a.lists[a.blocks[h].level][k] in a.blocks && IsBuddy(a.blocks, h, a.lists[a.blocks[h].level][k])
    ensures var b := MergeAt(a, h, k);
            var lo := Min(h, a.lists[a.blocks[h].level][k]);
            FreePage(b, x) || lo <= x < End(b.blocks, lo) <==> FreePage(a, x) || h <= x < End(a.blocks, h)
  {
    MergeEnds(a, top, h, k);
    PagesOfMerged(a, MergeAt(a, h, k), h, a.lists[a.blocks[h].level][k], x);
  }

  lemma PagesOfMerged(a: Arena, b: Arena, h: nat, q: nat, x: nat)
    requires h in a.blocks && q in a.blocks && h != q && !a.blocks[h].isFree && a.blocks[q].isFree
    requires var lo, hi := Min(h, q), Max(h, q);
             && lo in b.blocks && !b.blocks[lo].isFree && b.blocks.Keys == a.blocks.Keys - {hi}
             && End(b.blocks, lo) == End(a.blocks, hi) && End(a.blocks, lo) == hi
             && forall p | p in b.blocks && p != lo :: b.blocks[p] == a.blocks[p]
    ensures var lo := Min(h, q);
            FreePage(b, x) || lo <= x < End(b.blocks, lo) <==> FreePage(a, x) || h <= x < End(a.blocks, h)
  {
    var lo := Min(h, q);
    if FreePage(a, x) {
      var p :| p in a.blocks && a.blocks[p].isFree && p <= x < End(a.blocks, p);
      if p != q {
        assert p in b.blocks && b.blocks[p].isFree && p <= x < End(b.blocks, p);
      }
    }
    if FreePage(b, x) {
      var p :| p in b.blocks && b.blocks[p].isFree && p <= x < End(b.blocks, p);
      assert p in a.blocks && a.blocks[p].isFree && p <= x < End(a.blocks, p);
    }
    if lo <= x < End(b.blocks, lo) && !(h <= x < End(a.blocks, h)) {
      assert q in a.blocks && a.blocks[q].isFree && q <= x < End(a.blocks, q);
    }
  }

  /** What the scan of a carried block's own list finds, in terms of its neighbours. */
  lemma ScanMeets(a: Arena, top: nat, h: nat)
    requires Carries(a, top, h)
    ensures a.blocks[h].level <= top && h !in a.lists[a.blocks[h].level]
    ensures var s := a.lists[a.blocks[h].level];
            var d := Scan(a, h, s, 0);
            && (d.Merge? ==> Partner(a, h, s) == Some(s[d.at]))
            && (d.Insert? ==> Partner(a, h, s) == None)
            && (d.Insert? ==> GoesAt(s, d.at, h))
  {
    LevelInRange(a, top, h);
    var s := a.lists[a.blocks[h].level];
    forall q | q in s
      ensures h < q ==> End(a.blocks, h) <= q
    {
      assert Apart(a.blocks, h, q);
    }
    ScanFindsPartner(a, h, s, 0);
  }

  lemma InsertKeeps(a: Arena, top: nat, h: nat, d: Decision)
    requires Carries(a, top, h) && a.blocks[h].level < LISTS
    requires d == Scan(a, h, a.lists[a.blocks[h].level], 0) && d.Insert?
    ensures Inv(InsertAt(a, h, d.at), top)
  {
    assert GoesAt(a.lists[a.blocks[h].level], d.at, h) by {
      ScanMeets(a, top, h);
    }
    InsertStep(a, top, h, d.at);
  }

  /** Freeing returns exactly the block's pages to the free ones and touches no other live block. */
  lemma {:induction false} CoalesceReturnsPages(a: Arena, top: nat, h: nat)
    requires Carries(a, top, h)
    ensures Inv(Coalesce(a, top, h), top)
    ensures Live(Coalesce(a, top, h)) == Live(a) - {h}
    ensures forall x: nat :: FreePage(Coalesce(a, top, h), x) <==> FreePage(a, x) || h <= x < End(a.blocks, h)
    decreases |a.blocks|
  {
    ScanMeets(a, top, h);
    var s := a.lists[a.blocks[h].level];
    var d := Scan(a, h, s, 0);
    if d.Insert? {
      InsertStep(a, top, h, d.at);
      forall x: nat { InsertPages(a, h, d.at, x); }
    } else {
      MergeStep(a, top, h, d.at);
      forall x: nat { MergePages(a, top, h, d.at, x); }
      CoalesceReturnsPages(MergeAt(a, h, d.at), top, Min(h, s[d.at]));
    }
  }

  /**
   * What free leaves of block h: one free block r around it, as many levels up as blocks were
   * joined, flagged like the lowest of them, with no entry of its list left to join; every block
   * outside r is what it was.
   */
  ghost predicate Merged(a: Arena, h: nat, b: Arena, r: nat)
    requires h in a.blocks
  {
    && |b.blocks| <= |a.blocks|
    && r in a.blocks && r in b.blocks && r <= h && End(a.blocks, h) <= End(b.blocks, r)
    && b.blocks[r] == Block(a.blocks[h].level + |a.blocks| - |b.blocks|, a.blocks[r].isFirst, true, 0)
    && (forall p :: p in b.blocks <==> p == r || (p in a.blocks && !(r <= p < End(b.blocks, r))))
    && (forall p | p in b.blocks && p != r :: b.blocks[p] == a.blocks[p])
    && NothingToJoin(b, r)
  }

  ghost predicate NothingToJoin(b: Arena, r: nat)
    requires r in b.blocks
  {
    && b.blocks[r].level < |b.lists|
    && forall q | q in b.lists[b.blocks[r].level] && q != r :: q in b.blocks && !IsBuddy(b.blocks, r, q)
  }

  lemma InsertMerged(a: Arena, top: nat, h: nat, d: Decision)
    requires Carries(a, top, h) && a.blocks[h].level < LISTS
    requires d == Scan(a, h, a.lists[a.blocks[h].level], 0) && d.Insert?
    ensures Merged(a, h, InsertAt(a, h, d.at), h)
  {
    var b := InsertAt(a, h, d.at);
    ScanMeets(a, top, h);
    InsertedAlone(a, h, d.at);
    assert b.blocks.Keys == a.blocks.Keys;
    assert |b.blocks.Keys| == |b.blocks| && |a.blocks.Keys| == |a.blocks|;
    forall p | p in a.blocks && p != h
      ensures !(h <= p < End(b.blocks, h))
    {
      assert Apart(a.blocks, h, p);
    }
  }

  lemma InsertedAlone(a: Arena, h: nat, k: nat)
    requires ListsHoldFreeBlocks(a) && h in a.blocks && a.blocks[h].level < LISTS
    requires k <= |a.lists[a.blocks[h].level]| && Partner(a, h, a.lists[a.blocks[h].level]) == None
    ensures NothingToJoin(InsertAt(a, h, k), h)
  {
    var b, s := InsertAt(a, h, k), a.lists[a.blocks[h].level];
    forall q | q in b.lists[b.blocks[h].level] && q != h
      ensures q in b.blocks && !IsBuddy(b.blocks, h, q)
    {
      assert q in s;
    }
  }

  lemma MergedFurther(a: Arena, h: nat, c: Arena, q: nat, b: Arena, r: nat)
    requires h in a.blocks && q in a.blocks && h != q && a.blocks[h].level == a.blocks[q].level
    requires var lo, hi := Min(h, q), Max(h, q);
             && lo in c.blocks && c.blocks.Keys == a.blocks.Keys - {hi}
             && c.blocks[lo] == Block(a.blocks[h].level + 1, a.blocks[lo].isFirst, false, 0)
             && End(c.blocks, lo) == End(a.blocks, hi) && End(a.blocks, lo) == hi
             && (forall p | p in c.blocks && p != lo :: c.blocks[p] == a.blocks[p])
             && Merged(c, lo, b, r)
    ensures Merged(a, h, b, r)
  {
    assert |c.blocks.Keys| == |c.blocks| && |a.blocks.Keys| == |a.blocks|;
    assert a.blocks.Keys == c.blocks.Keys + {Max(h, q)};
  }

  /** free goes on merging until no entry of the list it has reached can be joined. */
  lemma {:induction false} FreeMergesToTheEnd(a: Arena, top: nat, h: nat) returns (r: nat)
    requires Carries(a, top, h)
    ensures Merged(a, h, Coalesce(a, top, h), r)
    decreases |a.blocks|
  {
    LevelInRange(a, top, h);
    var s := a.lists[a.blocks[h].level];
    var d := Scan(a, h, s, 0);
    if d.Insert? {
      InsertMerged(a, top, h, d);
      r := h;
    } else {
      var c, q := MergeAt(a, h, d.at), s[d.at];
      MergeStep(a, top, h, d.at);
      MergeEnds(a, top, h, d.at);
      r := FreeMergesToTheEnd(c, top, Min(h, q));
      MergedFurther(a, h, c, q, Coalesce(c, top, Min(h, q)), r);
    }
  }

  // ---------------------------------------------------------------- malloc: what it establishes

  /** The search stops at the least level with a free block, or past the levels in use. */
  lemma {:induction false} SearchFindsFirst(lists: seq<seq<nat>>, level: nat)
    requires |lists| == LISTS && level <= MAX_LEVELS
    ensures forall i | level <= i < Search(lists, level) :: lists[i] == []
    ensures lists[Search(lists, level)] == [] ==> Search(lists, level) >= MAX_LEVELS
    decreases MAX_LEVELS - level
  {
    if lists[level] == [] && level + 1 < MAX_LEVELS {
      SearchFindsFirst(lists, level + 1);
    }
  }

  lemma SearchInRange(a: Arena, top: nat, level: nat)
    requires Inv(a, top) && level <= MAX_LEVELS && a.lists[Search(a.lists, level)] != []
    ensures level <= Search(a.lists, level) <= top
  {
    var p := a.lists[Search(a.lists, level)][0];
    assert p in a.lists[Search(a.lists, level)];
    LevelInRange(a, top, p);
  }

  lemma SplitKeepsTiling(blocks: map<nat, Block>, pages: nat, p: nat, q: nat, split: map<nat, Block>)
    requires Tiled(blocks, pages) && p in blocks && p < q < End(blocks, p)
    requires split.Keys == blocks.Keys + {q}
    requires forall r | r in blocks && r != p :: split[r] == blocks[r]
    requires End(split, p) == q && End(split, q) == End(blocks, p)
    ensures q !in blocks && Tiled(split, pages)
  {
    assert q in blocks ==> Apart(blocks, p, q);
    assert Ends(blocks, pages, p);
    forall r | r in split
      ensures Ends(split, pages, r)
    {
      assert r in blocks ==> Ends(blocks, pages, r);
    }
    forall r, t | r in split && t in split
      ensures Apart(split, r, t)
    {
      if r == q {
        assert t in blocks ==> Apart(blocks, p, t);
      } else if t == q {
        assert Apart(blocks, r, p) && Apart(blocks, p, r);
      } else {
        assert Apart(blocks, r, t);
      }
    }
  }

  lemma SplitStep(a: Arena, top: nat, idx: nat)
    requires Inv(a, top) && 0 < idx < LISTS && a.lists[idx] != [] && a.lists[idx - 1] == []
    ensures a.lists[idx][0] in a.blocks && a.lists[idx][0] + Pow2(idx - 1) !in a.blocks
    ensures Inv(SplitFirst(a, idx), top)
    ensures Live(SplitFirst(a, idx)) == Live(a)
  {
    var p := a.lists[idx][0];
    var q := p + Pow2(idx - 1);
    var b := SplitFirst(a, idx);
    assert p in a.lists[idx];
    assert q in a.blocks ==> Apart(a.blocks, p, q);
    SplitKeepsTiling(a.blocks, Pow2(top), p, q, b.blocks);
    SplitLists(a, idx);
  }

  lemma SplitLists(a: Arena, idx: nat)
    requires ListsHoldFreeBlocks(a) && FreeBlocksAreListed(a)
    requires 0 < idx < LISTS && a.lists[idx] != [] && a.lists[idx - 1] == []
    requires a.lists[idx][0] + Pow2(idx - 1) !in a.blocks
    ensures ListsHoldFreeBlocks(SplitFirst(a, idx)) && FreeBlocksAreListed(SplitFirst(a, idx))
  {
    var p := a.lists[idx][0];
    assert p in a.lists[idx];
    RemoveAtKeeps(a.lists[idx], 0);
    assert SplitFirst(a, idx).lists[idx] == RemoveAt(a.lists[idx], 0);
    SplitListsHold(a, idx);
    SplitListsAll(a, idx);
  }

  lemma SplitListsHold(a: Arena, idx: nat)
    requires ListsHoldFreeBlocks(a)
    requires 0 < idx < LISTS && a.lists[idx] != [] && a.lists[idx - 1] == []
    requires a.lists[idx][0] in a.blocks && a.blocks[a.lists[idx][0]].level == idx
    requires a.lists[idx][0] + Pow2(idx - 1) !in a.blocks
    requires a.lists[idx][0] !in a.lists[idx][1..]
    ensures ListsHoldFreeBlocks(SplitFirst(a, idx))
  {
    var p, b := a.lists[idx][0], SplitFirst(a, idx);
    forall i, r | 0 <= i < LISTS && r in b.lists[i]
      ensures r in b.blocks && b.blocks[r].isFree && b.blocks[r].level == i
    {
      if i == idx {
        assert r in a.lists[idx] && r != p;
      } else if i != idx - 1 {
        assert r in a.lists[i] && a.blocks[r].level == i;
      }
    }
  }

  lemma SplitListsAll(a: Arena, idx: nat)
    requires |a.lists| == LISTS && FreeBlocksAreListed(a)
    requires 0 < idx < LISTS && a.lists[idx] != [] && a.lists[idx - 1] == []
    requires a.lists[idx][0] in a.blocks
    ensures FreeBlocksAreListed(SplitFirst(a, idx))
  {
    var p, b := a.lists[idx][0], SplitFirst(a, idx);
    var q := p + Pow2(idx - 1);
    assert b.lists[idx - 1][0] == p && b.lists[idx - 1][1] == q;
    forall r | r in b.blocks && b.blocks[r].isFree
      ensures b.blocks[r].level < LISTS && r in b.lists[b.blocks[r].level] && b.blocks[r].size == 0
    {
      if r != p && r != q {
        assert r in a.lists[a.blocks[r].level];
        assert a.blocks[r].level == idx ==> r in a.lists[idx][1..];
      }
    }
  }

  lemma SplitPages(a: Arena, idx: nat, x: nat)
    requires |a.lists| == LISTS && 0 < idx < LISTS && a.lists[idx] != []
    requires a.lists[idx][0] in a.blocks && a.blocks[a.lists[idx][0]].isFree
    requires a.blocks[a.lists[idx][0]].level == idx && a.lists[idx][0] + Pow2(idx - 1) !in a.blocks
    ensures FreePage(SplitFirst(a, idx), x) <==> FreePage(a, x)
  {
    var p := a.lists[idx][0];
    PagesOfHalves(a, SplitFirst(a, idx), p, p + Pow2(idx - 1), x);
  }

  /** A free block and the two free halves it is replaced by hold the same pages. */
  lemma PagesOfHalves(a: Arena, b: Arena, p: nat, q: nat, x: nat)
    requires p in a.blocks && a.blocks[p].isFree && q !in a.blocks && b.blocks.Keys == a.blocks.Keys + {q}
    requires b.blocks[p].isFree && b.blocks[q].isFree && p < q
    requires End(b.blocks, p) == q && End(b.blocks, q) == End(a.blocks, p)
    requires forall r | r in a.blocks && r != p :: b.blocks[r] == a.blocks[r]
    ensures FreePage(b, x) <==> FreePage(a, x)
  {
    if FreePage(a, x) {
      var r :| r in a.blocks && a.blocks[r].isFree && r <= x < End(a.blocks, r);
      var o := if r == p && q <= x then q else r;
      assert o in b.blocks && b.blocks[o].isFree && o <= x < End(b.blocks, o);
    }
    if FreePage(b, x) {
      var r :| r in b.blocks && b.blocks[r].isFree && r <= x < End(b.blocks, r);
      var o := if r == q then p else r;
      assert o in a.blocks && a.blocks[o].isFree && o <= x < End(a.blocks, o);
    }
  }

  /**
   * The shape splitting leaves: two halves at the level wanted, one fresh upper half in each
   * level passed through, the rest of the list at the level where it started.
   */
  ghost predicate SplitShape(a: Arena, b: Arena, idx: nat, level: nat)
    requires |a.lists| == LISTS && |b.lists| == LISTS && level <= idx < LISTS && a.lists[idx] != []
  {
    var p := a.lists[idx][0];
    && (forall i | 0 <= i < LISTS && !(level <= i <= idx) :: b.lists[i] == a.lists[i])
    && (forall i | level < i < idx :: b.lists[i] == [p + Pow2(i)])
    && (level < idx ==> b.lists[idx] == a.lists[idx][1..] && b.lists[level] == [p, p + Pow2(level)])
    && (level == idx ==> b == a)
    && (level < idx ==> p in b.blocks && b.blocks[p] == Block(level, false, true, 0))
  }

  lemma {:induction false} SplitDownShape(a: Arena, idx: nat, level: nat)
    requires |a.lists| == LISTS && level <= idx < LISTS && a.lists[idx] != []
    ensures SplitShape(a, SplitDown(a, idx, level), idx, level)
    decreases idx - level
  {
    if level < idx {
      SplitDownShape(a, idx, level + 1);
    }
  }

  lemma SplitDownLeavesEmpty(a: Arena, idx: nat, level: nat)
    requires |a.lists| == LISTS && level < idx < LISTS && a.lists[idx] != [] && a.lists[level] == []
    ensures SplitDown(a, idx, level + 1).lists[level] == []
  {
    SplitDownShape(a, idx, level + 1);
  }

  lemma {:induction false} SplitDownKeeps(a: Arena, top: nat, idx: nat, level: nat)
    requires Inv(a, top) && level <= idx < LISTS && a.lists[idx] != []
    requires forall i | level <= i < idx :: a.lists[i] == []
    ensures Inv(SplitDown(a, idx, level), top)
    ensures Live(SplitDown(a, idx, level)) == Live(a)
    ensures a.lists[idx][0] in SplitDown(a, idx, level).blocks
    decreases idx - level
  {
    if level < idx {
      var b := SplitDown(a, idx, level + 1);
      SplitDownKeeps(a, top, idx, level + 1);
      SplitDownLeavesEmpty(a, idx, level);
      SplitStep(b, top, level + 1);
      assert SplitDown(a, idx, level) == SplitFirst(b, level + 1);
    } else {
      assert a.lists[idx][0] in a.lists[idx];
    }
  }

  lemma {:induction false} SplitDownPages(a: Arena, top: nat, idx: nat, level: nat, x: nat)
    requires Inv(a, top) && level <= idx < LISTS && a.lists[idx] != []
    requires forall i | level <= i < idx :: a.lists[i] == []
    ensures FreePage(SplitDown(a, idx, level), x) <==> FreePage(a, x)
    decreases idx - level
  {
    if level < idx {
      var b := SplitDown(a, idx, level + 1);
      SplitDownPages(a, top, idx, level + 1, x);
      SplitDownKeeps(a, top, idx, level + 1);
      SplitDownLeavesEmpty(a, idx, level);
      SplitOncePages(b, top, level + 1, x);
      assert SplitDown(a, idx, level) == SplitFirst(b, level + 1);
    }
  }

  lemma SplitOncePages(a: Arena, top: nat, idx: nat, x: nat)
    requires Inv(a, top) && 0 < idx < LISTS && a.lists[idx] != [] && a.lists[idx - 1] == []
    ensures FreePage(SplitFirst(a, idx), x) <==> FreePage(a, x)
  {
    assert a.lists[idx][0] in a.lists[idx];
    SplitStep(a, top, idx);
    SplitPages(a, idx, x);
  }

  lemma TakeStep(a: Arena, top: nat, level: nat, b: Block)
    requires Inv(a, top) && level < LISTS && a.lists[level] != [] && b.level == level && !b.isFree
    ensures Inv(TakeFirst(a, level, b), top)
    ensures a.lists[level][0] !in Live(a)
    ensures Live(TakeFirst(a, level, b)) == Live(a)[a.lists[level][0] := b]
  {
    var p := a.lists[level][0];
    var c := TakeFirst(a, level, b);
    assert p in a.lists[level];
    assert c.lists[level] == RemoveAt(a.lists[level], 0);
    SameTiling(a.blocks, c.blocks, Pow2(top));
    RemovedKeepsLists(a, level, 0, c);
    RemovedKeepsListed(a, level, 0, c);
    TakenIsLive(a.blocks, p, b);
  }

  lemma TakenIsLive(blocks: map<nat, Block>, p: nat, b: Block)
    requires p in blocks && blocks[p].isFree && !b.isFree
    ensures p !in Live(Arena(blocks, []))
    ensures Live(Arena(blocks[p := b], [])) == Live(Arena(blocks, []))[p := b]
  {
  }

  lemma TakePages(a: Arena, top: nat, p: nat, c: Arena, x: nat)
    requires Inv(a, top) && p in a.blocks && a.blocks[p].isFree
    requires c.blocks.Keys == a.blocks.Keys && !c.blocks[p].isFree
    requires forall r | r in a.blocks && r != p :: c.blocks[r] == a.blocks[r]
    ensures FreePage(c, x) <==> FreePage(a, x) && !(p <= x < End(a.blocks, p))
  {
    assert forall r | r in a.blocks && r != p :: End(c.blocks, r) == End(a.blocks, r);
    if FreePage(a, x) && !(p <= x < End(a.blocks, p)) {
      var r :| r in a.blocks && a.blocks[r].isFree && r <= x < End(a.blocks, r);
      assert r in c.blocks && c.blocks[r].isFree && r <= x < End(c.blocks, r);
    }
    if FreePage(c, x) {
      var r :| r in c.blocks && c.blocks[r].isFree && r <= x < End(c.blocks, r);
      assert r in a.blocks && a.blocks[r].isFree && r <= x < End(a.blocks, r);
      assert Apart(a.blocks, r, p) && Apart(a.blocks, p, r);
    }
  }

  /** Malloc succeeds exactly when some free block holds the request, and fails without a trace. */
  lemma MallocSucceedsIff(a: Arena, top: nat, size: nat)
    requires Inv(a, top) && size < SIZE_T
    ensures Malloc(a, top, size).1.Some?
      <==> exists p :: p in a.blocks && a.blocks[p].isFree && Holds(a.blocks[p].level, size)
    ensures Malloc(a, top, size).1.None? ==> Malloc(a, top, size).0 == a
  {
    var level := WhichLevel(BytesWithHead(size));
    forall p | p in a.blocks
      ensures level <= a.blocks[p].level <==> Holds(a.blocks[p].level, size)
    {
      LevelInRange(a, top, p);
      HoldsIff(a.blocks[p].level, size);
    }
    var idx := Search(a.lists, level);
    SearchFindsFirst(a.lists, level);
    if a.lists[idx] == [] {
      forall p | p in a.blocks && a.blocks[p].isFree
        ensures a.blocks[p].level < level
      {
        LevelInRange(a, top, p);
        assert p in a.lists[a.blocks[p].level];
      }
    } else {
      var p := a.lists[idx][0];
      assert p in a.lists[idx];
      assert p in a.blocks && a.blocks[p].isFree && level <= a.blocks[p].level;
    }
  }

  /** A successful malloc hands out one new block of the level asked for, with exactly its pages. */
  lemma MallocTakesPages(a: Arena, top: nat, size: nat)
    requires Inv(a, top) && size < SIZE_T && Malloc(a, top, size).1.Some?
    ensures var b, p := Malloc(a, top, size).0, Malloc(a, top, size).1.value;
            && Inv(b, top) && p !in Live(a) && p in Live(b)
            && LeastHolding(Live(b)[p].level, size) && Live(b)[p].size == size
            && Live(b) == Live(a)[p := Live(b)[p]]
            && forall x: nat :: FreePage(b, x) <==> FreePage(a, x) && !(p <= x < p + Pow2(Live(b)[p].level))
    ensures Malloc(a, top, size).0.blocks[Malloc(a, top, size).1.value].level == WhichLevel(BytesWithHead(size))
  {
    var level := WhichLevel(BytesWithHead(size));
    var idx := Search(a.lists, level);
    SearchFindsFirst(a.lists, level);
    SearchInRange(a, top, level);
    ChosenIsLeast(size);
    SplitDownKeeps(a, top, idx, level);
    var b := SplitDown(a, idx, level);
    var p := b.lists[level][0];
    assert p in b.lists[level];
    TakeStep(b, top, level, b.blocks[p].(isFree := false, size := size));
    forall x: nat
      ensures FreePage(Malloc(a, top, size).0, x) <==> FreePage(a, x) && !(p <= x < p + Pow2(level))
    {
      SplitDownPages(a, top, idx, level, x);
      TakePages(b, top, p, Malloc(a, top, size).0, x);
    }
  }

  /**
   * What malloc promises: null and no change if no free block holds the request; else the lowest
   * of the smallest free blocks that hold it, cut down to the least size that does, is the one new
   * live block, and exactly its pages are free no longer.
   */
  ghost predicate Serves(a: Arena, size: nat, b: Arena, r: Option<nat>) {
    match r
    case None => b == a && forall p | p in a.blocks && a.blocks[p].isFree :: !Holds(a.blocks[p].level, size)
    case Some(p) =>
      && BestFit(a, p, size) && p in Live(b)
      && Live(b)[p].size == size && LeastHolding(Live(b)[p].level, size)
      && Live(b) == Live(a)[p := Live(b)[p]]
      && forall x: nat :: FreePage(b, x) <==> FreePage(a, x) && !(p <= x < p + Pow2(Live(b)[p].level))
  }

  ghost predicate BestFit(a: Arena, p: nat, size: nat) {
    && p in a.blocks && a.blocks[p].isFree && Holds(a.blocks[p].level, size)
    && forall q | q in a.blocks && a.blocks[q].isFree && Holds(a.blocks[q].level, size) ::
         a.blocks[p].level < a.blocks[q].level || (a.blocks[p].level == a.blocks[q].level && p <= q)
  }

  lemma SearchIsBestFit(a: Arena, top: nat, size: nat)
    requires Inv(a, top) && size < SIZE_T
    requires a.lists[Search(a.lists, WhichLevel(BytesWithHead(size)))] != []
    ensures BestFit(a, a.lists[Search(a.lists, WhichLevel(BytesWithHead(size)))][0], size)
  {
    var level := WhichLevel(BytesWithHead(size));
    var idx := Search(a.lists, level);
    SearchFindsFirst(a.lists, level);
    var p := a.lists[idx][0];
    assert p in a.lists[idx];
    LevelInRange(a, top, p);
    HoldsIff(idx, size);
    forall q | q in a.blocks && a.blocks[q].isFree && Holds(a.blocks[q].level, size)
      ensures idx < a.blocks[q].level || (idx == a.blocks[q].level && p <= q)
    {
      LevelInRange(a, top, q);
      HoldsIff(a.blocks[q].level, size);
      assert q in a.lists[a.blocks[q].level];
    }
  }

  /** Besides block p, only fresh upper halves are new, and no other block has changed. */
  ghost predicate OnlySplits(a: Arena, b: Arena, p: nat) {
    && a.blocks.Keys <= b.blocks.Keys
    && forall q | q in b.blocks && q != p ::
         if q in a.blocks then b.blocks[q] == a.blocks[q]
         else b.blocks[q] == Block(b.blocks[q].level, true, true, 0)
  }

  lemma OneMoreSplit(a: Arena, b: Arena, c: Arena, p: nat, q: nat, low: Block, level: nat)
    requires OnlySplits(a, b, p) && p in b.blocks && q !in b.blocks && p != q
    requires c.blocks == b.blocks[p := low][q := Block(level, true, true, 0)]
    ensures OnlySplits(a, c, p)
  {
  }

  lemma SplitOnceOnlySplits(a: Arena, b: Arena, top: nat, idx: nat)
    requires Inv(b, top) && 0 < idx < LISTS && b.lists[idx] != [] && b.lists[idx - 1] == []
    requires OnlySplits(a, b, b.lists[idx][0])
    ensures OnlySplits(a, SplitFirst(b, idx), b.lists[idx][0])
  {
    var p := b.lists[idx][0];
    UpperHalfIsNew(b, top, idx);
    OneMoreSplit(a, b, SplitFirst(b, idx), p, p + Pow2(idx - 1), Block(idx - 1, false, true, 0), idx - 1);
  }

  lemma UpperHalfIsNew(b: Arena, top: nat, idx: nat)
    requires Inv(b, top) && 0 < idx < LISTS && b.lists[idx] != []
    ensures b.lists[idx][0] in b.blocks && b.lists[idx][0] + Pow2(idx - 1) !in b.blocks
  {
    var p := b.lists[idx][0];
    var q := p + Pow2(idx - 1);
    assert p in b.lists[idx];
    assert q in b.blocks ==> Apart(b.blocks, p, q);
  }

  lemma {:induction false} SplitDownOnlySplits(a: Arena, top: nat, idx: nat, level: nat)
    requires Inv(a, top) && level <= idx < LISTS && a.lists[idx] != []
    requires forall i | level <= i < idx :: a.lists[i] == []
    ensures OnlySplits(a, SplitDown(a, idx, level), a.lists[idx][0])
    decreases idx - level
  {
    if level < idx {
      var b := SplitDown(a, idx, level + 1);
      SplitDownOnlySplits(a, top, idx, level + 1);
      SplitDownKeeps(a, top, idx, level + 1);
      SplitDownLeavesEmpty(a, idx, level);
      SplitOnceOnlySplits(a, b, top, level + 1);
      assert SplitDown(a, idx, level) == SplitFirst(b, level + 1);
    }
  }

  lemma TakenOnlySplits(a: Arena, b: Arena, c: Arena, p: nat)
    requires OnlySplits(a, b, p) && p in b.blocks && p in c.blocks && c.blocks == b.blocks[p := c.blocks[p]]
    ensures OnlySplits(a, c, p)
  {
  }

  lemma FlagAfterSplits(a: Arena, top: nat, idx: nat, level: nat)
    requires Inv(a, top) && level <= idx < LISTS && a.lists[idx] != []
    requires forall i | level <= i < idx :: a.lists[i] == []
    ensures var b, p := SplitDown(a, idx, level), a.lists[idx][0];
            && p in a.blocks && a.blocks[p].level == idx
            && p in b.blocks && b.blocks[p].isFirst == (a.blocks[p].isFirst && idx == level)
  {
    SplitDownShape(a, idx, level);
    assert a.lists[idx][0] in a.lists[idx];
  }

  /** The block handed out is marked as an upper half only if it was one and was not split. */
  lemma MallocOnlySplits(a: Arena, top: nat, size: nat)
    requires Inv(a, top) && size < SIZE_T && Malloc(a, top, size).1.Some?
    ensures var b, p := Malloc(a, top, size).0, Malloc(a, top, size).1.value;
            && OnlySplits(a, b, p) && p in a.blocks && p in b.blocks
            && b.blocks[p].isFirst == (a.blocks[p].isFirst && a.blocks[p].level == WhichLevel(BytesWithHead(size)))
  {
    var level := WhichLevel(BytesWithHead(size));
    var idx := Search(a.lists, level);
    SearchFindsFirst(a.lists, level);
    SplitDownOnlySplits(a, top, idx, level);
    FlagAfterSplits(a, top, idx, level);
    TakenOnlySplits(a, SplitDown(a, idx, level), Malloc(a, top, size).0, a.lists[idx][0]);
  }

  lemma MallocServes(a: Arena, top: nat, size: nat)
    requires Inv(a, top) && size < SIZE_T
    ensures Serves(a, size, Malloc(a, top, size).0, Malloc(a, top, size).1)
  {
    MallocSucceedsIff(a, top, size);
    if Malloc(a, top, size).1.Some? {
      SearchIsBestFit(a, top, size);
      SearchFindsFirst(a.lists, WhichLevel(BytesWithHead(size)));
      MallocTakesPages(a, top, size);
    }
  }

  /**
   * What splitting costs: the list the search found loses its first block, each level passed
   * through and the level asked for keep one fresh upper half, every other list is untouched.
   */
  ghost predicate OneHalfPerLevel(before: seq<seq<nat>>, after: seq<seq<nat>>, p: nat, idx: nat, level: nat)
    requires |before| == LISTS && |after| == LISTS && level <= idx < LISTS
  {
    && before[idx] == [p] + after[idx]
    && (forall i | level <= i < idx :: before[i] == [] && after[i] == [p + Pow2(i)])
    && (forall i | 0 <= i < LISTS && !(level <= i <= idx) :: after[i] == before[i])
  }

  lemma MallocLeavesOneHalfPerLevel(a: Arena, top: nat, size: nat)
    requires Inv(a, top) && size < SIZE_T && Malloc(a, top, size).1.Some?
    ensures var level := WhichLevel(BytesWithHead(size));
            var idx := Search(a.lists, level);
            && |Malloc(a, top, size).0.lists| == LISTS && level <= idx < LISTS
            && OneHalfPerLevel(a.lists, Malloc(a, top, size).0.lists, Malloc(a, top, size).1.value, idx, level)
  {
    var level := WhichLevel(BytesWithHead(size));
    var idx := Search(a.lists, level);
    SearchFindsFirst(a.lists, level);
    TakeShape(a, idx, level, Malloc(a, top, size).0);
  }

  lemma TakeShape(a: Arena, idx: nat, level: nat, c: Arena)
    requires |a.lists| == LISTS && level <= idx < LISTS && a.lists[idx] != []
    requires forall i | level <= i < idx :: a.lists[i] == []
    requires var b := SplitDown(a, idx, level); c.lists == b.lists[level := b.lists[level][1..]]
    ensures OneHalfPerLevel(a.lists, c.lists, a.lists[idx][0], idx, level)
  {
    SplitDownShape(a, idx, level);
  }

  // ---------------------------------------------------------------- conservation

  /** Every page of the region lies in exactly one block. */
  lemma {:induction false} EveryPageInOneBlock(blocks: map<nat, Block>, pages: nat, x: nat) returns (p: nat)
    requires Tiled(blocks, pages) && x < pages
    ensures p in blocks && p <= x < End(blocks, p)
    ensures forall q | q in blocks && q <= x < End(blocks, q) :: q == p
  {
    if x in blocks {
      p := x;
    } else {
      p := EveryPageInOneBlock(blocks, pages, x - 1);
      assert Ends(blocks, pages, p);
    }
    forall q | q in blocks && q <= x < End(blocks, q)
      ensures q == p
    {
      assert Apart(blocks, p, q) && Apart(blocks, q, p);
    }
  }

  /** Free and live blocks split the attached pages between them: nothing is lost or shared. */
  lemma PagesAreConserved(a: Arena, top: nat)
    requires Inv(a, top)
    ensures FreePages(a, top) !! LivePages(a, top)
    ensures FreePages(a, top) + LivePages(a, top) == PagesBelow(Pow2(top))
    ensures |FreePages(a, top)| + |LivePages(a, top)| == Pow2(top)
  {
    forall x: nat | x < Pow2(top)
      ensures FreePage(a, x) <==> !LivePage(a, x)
    {
      var p := EveryPageInOneBlock(a.blocks, Pow2(top), x);
      assert p in a.blocks && p <= x < End(a.blocks, p);
    }
  }

  ghost function PagesBelow(n: nat): (s: set<nat>)
    ensures forall x: nat :: x in s <==> x < n
    ensures |s| == n
  {
    if n == 0 then {} else PagesBelow(n - 1) + {n - 1}
  }

  // ---------------------------------------------------------------- runs

  datatype Op = Alloc(size: nat) | Release(page: nat)

  /** What the allocator demands of its callers: a request is a size_t, a release is live. */
  ghost predicate Allowed(a: Arena, op: Op) {
    match op
    case Alloc(size) => size < SIZE_T
    case Release(p) => p in a.blocks && !a.blocks[p].isFree
  }

  ghost function Step(a: Arena, top: nat, op: Op): Arena
    requires Inv(a, top) && Allowed(a, op)
  {
    match op
    case Alloc(size) => Malloc(a, top, size).0
    case Release(p) => Coalesce(a, top, p)
  }

  lemma StepKeepsInv(a: Arena, top: nat, op: Op)
    requires Inv(a, top) && Allowed(a, op)
    ensures Inv(Step(a, top, op), top)
  {
    match op {
      case Alloc(size) =>
        MallocSucceedsIff(a, top, size);
        if Malloc(a, top, size).1.Some? {
          MallocTakesPages(a, top, size);
        }
      case Release(p) =>
        CoalesceReturnsPages(a, top, p);
    }
  }

  /** The states some sequence of allowed calls leads through, ending in b. */
  ghost predicate Run(a: Arena, top: nat, ops: seq<Op>, b: Arena)
    requires Inv(a, top)
    decreases |ops|
  {
    if ops == [] then b == a
    else
      && Allowed(a, ops[0])
      && (StepKeepsInv(a, top, ops[0]); Run(Step(a, top, ops[0]), top, ops[1..], b))
  }

  /** Every live block has the level its request was rounded to. */
  ghost predicate LevelsMatchRequests(a: Arena) {
    forall p | p in Live(a) ::
      Live(a)[p].size < SIZE_T && Live(a)[p].level == WhichLevel(BytesWithHead(Live(a)[p].size))
  }

  lemma StepKeepsLevels(a: Arena, top: nat, op: Op)
    requires Inv(a, top) && Allowed(a, op) && LevelsMatchRequests(a)
    ensures LevelsMatchRequests(Step(a, top, op))
  {
    match op {
      case Alloc(size) =>
        MallocSucceedsIff(a, top, size);
        if Malloc(a, top, size).1.Some? {
          MallocTakesPages(a, top, size);
        }
      case Release(p) =>
        CoalesceReturnsPages(a, top, p);
    }
  }

  /**
   * After attaching and any sequence of mallocs and valid frees the invariant holds, so no level
   * above the attached one ever appears and the pages are still exactly shared out.
   */
  lemma {:induction false} RunKeepsInv(a: Arena, top: nat, ops: seq<Op>, b: Arena)
    requires Inv(a, top) && Run(a, top, ops, b)
    ensures Inv(b, top)
    ensures forall p | p in b.blocks :: b.blocks[p].level <= top
    ensures |FreePages(b, top)| + |LivePages(b, top)| == Pow2(top)
    ensures LevelsMatchRequests(a) ==> LevelsMatchRequests(b)
    decreases |ops|
  {
    if ops == [] {
      forall p | p in b.blocks
        ensures b.blocks[p].level <= top
      {
        LevelInRange(b, top, p);
      }
      PagesAreConserved(b, top);
    } else {
      StepKeepsInv(a, top, ops[0]);
      if LevelsMatchRequests(a) {
        StepKeepsLevels(a, top, ops[0]);
      }
      RunKeepsInv(Step(a, top, ops[0]), top, ops[1..], b);
    }
  }

  /** A live payload lies inside its own block exactly when its request did not wrap. */
  lemma PayloadStaysInside(a: Arena, top: nat, p: nat)
    requires Inv(a, top) && LevelsMatchRequests(a) && p in Live(a)
    ensures PayloadOf(p) + Live(a)[p].size <= End(a.blocks, p) * PAGE_SIZE <==> Live(a)[p].size < SIZE_T - HEAD_SIZE
  {
    LevelInRange(a, top, p);
    RequestFitsChosenLevel(Live(a)[p].size);
  }

  /** And then it shares no byte with any other live block, header included. */
  lemma PayloadsStayApart(a: Arena, top: nat, p: nat, q: nat)
    requires Inv(a, top) && LevelsMatchRequests(a) && p in Live(a) && q in Live(a) && p != q
    requires Live(a)[p].size < SIZE_T - HEAD_SIZE
    ensures PayloadOf(p) + Live(a)[p].size <= q * PAGE_SIZE || End(a.blocks, q) * PAGE_SIZE <= PayloadOf(p)
  {
    PayloadStaysInside(a, top, p);
    assert Apart(a.blocks, p, q) && Apart(a.blocks, q, p);
  }

  // ---------------------------------------------------------------- free undoes malloc

  /**
   * The block taken is the first of two adjacent free blocks of its level whose flags let
   * buddy_free join them: they then do not come back as two.
   */
  ghost predicate Rejoins(a: Arena, top: nat, size: nat)
    requires Inv(a, top) && size < SIZE_T
  {
    var level := WhichLevel(BytesWithHead(size));
    var idx := Search(a.lists, level);
    && |a.lists[idx]| >= 2
    && var p, q := a.lists[idx][0], a.lists[idx][1];
    && q == p + Pow2(idx)
    && p in a.blocks && q in a.blocks
    && (level < idx || !a.blocks[p].isFirst || a.blocks[q].isFirst)
  }

  /** Merging the two halves of the last split undoes it, except for the flag of the lower half. */
  lemma MergeUndoesSplit(a: Arena, idx: nat, size: nat)
    requires |a.lists| == LISTS && 0 < idx < LISTS && a.lists[idx] != [] && a.lists[idx - 1] == []
    requires a.lists[idx][0] + Pow2(idx - 1) !in a.blocks
    ensures var p := a.lists[idx][0];
            var c := TakeFirst(SplitFirst(a, idx), idx - 1, Block(idx - 1, false, false, size));
            && |c.lists| == LISTS && c.lists[idx - 1] == [p + Pow2(idx - 1)]
            && MergeAt(c, p, 0) == TakeFirst(a, idx, Block(idx, false, false, 0))
  {
    var p := a.lists[idx][0];
    var q := p + Pow2(idx - 1);
    var c := TakeFirst(SplitFirst(a, idx), idx - 1, Block(idx - 1, false, false, size));
    var t := TakeFirst(a, idx, Block(idx, false, false, 0));
    assert c.lists[idx - 1] == [q];
    assert RemoveAt([q], 0) == [];
    assert MergeAt(c, p, 0).lists == t.lists;
    assert MergeAt(c, p, 0).blocks == t.blocks;
  }

  /** Releasing a block whose only neighbour in its list joins it. */
  lemma CoalesceJoins(c: Arena, top: nat, p: nat, q: nat, t: Arena)
    requires Carries(c, top, p) && Carries(t, top, p) && c.blocks[p].level < LISTS
    requires c.lists[c.blocks[p].level] == [q] && q in c.blocks && p < q && IsBuddy(c.blocks, p, q)
    requires MergeAt(c, p, 0) == t
    ensures Coalesce(c, top, p) == Coalesce(t, top, p)
  {
    assert Scan(c, p, [q], 0) == Merge(0);
  }

  lemma TakenIsCarried(a: Arena, top: nat, level: nat, b: Block)
    requires Inv(a, top) && level < LISTS && a.lists[level] != [] && b.level == level && !b.isFree
    ensures Carries(TakeFirst(a, level, b), top, a.lists[level][0])
  {
    TakeStep(a, top, level, b);
  }

  lemma CoalesceUndoesSplit(a: Arena, top: nat, idx: nat, size: nat)
    requires Inv(a, top) && 0 < idx < LISTS && a.lists[idx] != [] && a.lists[idx - 1] == []
    ensures var p := a.lists[idx][0];
            var c := TakeFirst(SplitFirst(a, idx), idx - 1, Block(idx - 1, false, false, size));
            var t := TakeFirst(a, idx, Block(idx, false, false, 0));
            Carries(c, top, p) && Carries(t, top, p) && Coalesce(c, top, p) == Coalesce(t, top, p)
  {
    var p := a.lists[idx][0];
    var q := p + Pow2(idx - 1);
    var c := TakeFirst(SplitFirst(a, idx), idx - 1, Block(idx - 1, false, false, size));
    SplitStep(a, top, idx);
    TakenIsCarried(SplitFirst(a, idx), top, idx - 1, Block(idx - 1, false, false, size));
    TakenIsCarried(a, top, idx, Block(idx, false, false, 0));
    MergeUndoesSplit(a, idx, size);
    assert c.blocks[p] == Block(idx - 1, false, false, size) && c.blocks[q] == Block(idx - 1, true, true, 0);
    CoalesceJoins(c, top, p, q, TakeFirst(a, idx, Block(idx, false, false, 0)));
  }

  lemma {:induction false} CoalesceUndoesSplits(a: Arena, top: nat, idx: nat, level: nat, size: nat)
    requires Inv(a, top) && level < idx < LISTS && a.lists[idx] != []
    requires forall i | level <= i < idx :: a.lists[i] == []
    ensures var p := a.lists[idx][0];
            var c := TakeFirst(SplitDown(a, idx, level), level, Block(level, false, false, size));
            var t := TakeFirst(a, idx, Block(idx, false, false, 0));
            Carries(c, top, p) && Carries(t, top, p) && Coalesce(c, top, p) == Coalesce(t, top, p)
    decreases idx - level
  {
    SplitDownKeeps(a, top, idx, level + 1);
    SplitDownShape(a, idx, level + 1);
    CoalesceUndoesSplit(SplitDown(a, idx, level + 1), top, level + 1, size);
    if level + 1 < idx {
      CoalesceUndoesSplits(a, top, idx, level + 1, 0);
    }
  }

  /** Coalescing only ever looks at and changes lists from the block's level upward. */
  lemma {:induction false} CoalesceLeavesLowerLists(a: Arena, top: nat, h: nat, i: nat)
    requires Carries(a, top, h) && i < a.blocks[h].level
    ensures |Coalesce(a, top, h).lists| == LISTS
    ensures i < LISTS && Coalesce(a, top, h).lists[i] == a.lists[i]
    decreases |a.blocks|
  {
    LevelInRange(a, top, h);
    var s := a.lists[a.blocks[h].level];
    var d := Scan(a, h, s, 0);
    if d.Merge? {
      MergeStep(a, top, h, d.at);
      CoalesceLeavesLowerLists(MergeAt(a, h, d.at), top, Min(h, s[d.at]), i);
    }
  }

  /** The first block of a list and its successor there, once the first has been taken. */
  ghost predicate JoinsNext(a: Arena, idx: nat, b: Block)
    requires ListsHoldFreeBlocks(a) && idx < LISTS && a.lists[idx] != []
  {
    && |a.lists[idx]| > 1
    && var p, q := a.lists[idx][0], a.lists[idx][1];
    && q in a.lists[idx]
    && IsBuddy(a.blocks[p := b], p, q)
  }

  /** A block put straight back at the head of its list. */
  lemma PutBackInPlace(a: Arena, top: nat, idx: nat, b: Block)
    requires Inv(a, top) && idx < LISTS && a.lists[idx] != [] && b.level == idx && !b.isFree
    requires !JoinsNext(a, idx, b)
    ensures Carries(TakeFirst(a, idx, b), top, a.lists[idx][0])
    ensures Coalesce(TakeFirst(a, idx, b), top, a.lists[idx][0])
         == Arena(a.blocks[a.lists[idx][0] := b.(isFree := true, size := 0)], a.lists)
  {
    var s := a.lists[idx];
    var c := TakeFirst(a, idx, b);
    TakeStep(a, top, idx, b);
    if |s| > 1 {
      assert s[1] in s;
    }
    assert s[1..][..0] + [s[0]] + s[1..][0..] == s;
    assert InsertAt(c, s[0], 0).lists == a.lists;
  }

  /** A block that joins its successor instead: that level's list ends up shorter by two. */
  lemma PutBackJoins(a: Arena, top: nat, idx: nat, b: Block)
    requires Inv(a, top) && idx < LISTS && a.lists[idx] != [] && b.level == idx && !b.isFree
    requires JoinsNext(a, idx, b)
    ensures Carries(TakeFirst(a, idx, b), top, a.lists[idx][0])
    ensures |Coalesce(TakeFirst(a, idx, b), top, a.lists[idx][0]).lists| == LISTS
    ensures |Coalesce(TakeFirst(a, idx, b), top, a.lists[idx][0]).lists[idx]| == |a.lists[idx]| - 2
  {
    var p := a.lists[idx][0];
    var c := TakeFirst(a, idx, b);
    TakeStep(a, top, idx, b);
    assert c.lists[idx][0] == a.lists[idx][1];
    MergeStep(c, top, p, 0);
    CoalesceLeavesLowerLists(MergeAt(c, p, 0), top, p, idx);
  }

  /** The header a block carries upward once every split has been undone. */
  function HeaderAtTop(a: Arena, idx: nat, level: nat, size: nat): Block
    requires |a.lists| == LISTS && idx < LISTS && a.lists[idx] != [] && a.lists[idx][0] in a.blocks
  {
    if level < idx then Block(idx, false, false, 0)
    else a.blocks[a.lists[idx][0]].(isFree := false, size := size)
  }

  lemma MallocThenFree(a: Arena, top: nat, size: nat)
    requires Inv(a, top) && size < SIZE_T && Malloc(a, top, size).1.Some?
    ensures var level := WhichLevel(BytesWithHead(size));
            var idx := Search(a.lists, level);
            var p := Malloc(a, top, size).1.value;
            && idx < LISTS && a.lists[idx] != [] && p == a.lists[idx][0] && p in a.lists[idx]
            && Carries(Malloc(a, top, size).0, top, p)
            && var t := TakeFirst(a, idx, HeaderAtTop(a, idx, level, size));
            && Carries(t, top, p)
            && Coalesce(Malloc(a, top, size).0, top, p) == Coalesce(t, top, p)
  {
    var level := WhichLevel(BytesWithHead(size));
    var idx := Search(a.lists, level);
    SearchFindsFirst(a.lists, level);
    MallocTakesPages(a, top, size);
    assert a.lists[idx][0] in a.lists[idx];
    if level < idx {
      SplitDownShape(a, idx, level);
      CoalesceUndoesSplits(a, top, idx, level, size);
    }
  }

  lemma RejoinsNext(a: Arena, top: nat, size: nat)
    requires Inv(a, top) && size < SIZE_T && Malloc(a, top, size).1.Some?
    ensures var level := WhichLevel(BytesWithHead(size));
            var idx := Search(a.lists, level);
            && idx < LISTS && a.lists[idx] != [] && a.lists[idx][0] in a.blocks
            && (JoinsNext(a, idx, HeaderAtTop(a, idx, level, size)) <==> Rejoins(a, top, size))
  {
    var idx := Search(a.lists, WhichLevel(BytesWithHead(size)));
    SearchFindsFirst(a.lists, WhichLevel(BytesWithHead(size)));
    assert a.lists[idx][0] in a.lists[idx];
    if |a.lists[idx]| > 1 {
      assert a.lists[idx][1] in a.lists[idx];
    }
  }

  lemma PutBackRestoresIff(a: Arena, top: nat, idx: nat, b: Block)
    requires Inv(a, top) && idx < LISTS && a.lists[idx] != [] && a.lists[idx][0] in a.blocks
    requires b == a.blocks[a.lists[idx][0]].(isFirst := b.isFirst, isFree := false, size := b.size)
    ensures Carries(TakeFirst(a, idx, b), top, a.lists[idx][0])
    ensures var p := a.lists[idx][0];
            var c := Coalesce(TakeFirst(a, idx, b), top, p);
            && (c.lists == a.lists <==> !JoinsNext(a, idx, b))
            && (c.lists == a.lists ==> c.blocks == a.blocks[p := a.blocks[p].(isFirst := b.isFirst)])
  {
    assert a.lists[idx][0] in a.lists[idx];
    if JoinsNext(a, idx, b) {
      PutBackJoins(a, top, idx, b);
    } else {
      PutBackInPlace(a, top, idx, b);
    }
  }

  /**
   * malloc followed at once by free restores every free list if and only if the block taken does
   * not rejoin its successor; then only that block's is_first flag may differ. In particular it
   * restores them whenever the list where the search stopped held a single block.
   */
  lemma FreeUndoesMalloc(a: Arena, top: nat, size: nat)
    requires Inv(a, top) && size < SIZE_T && Malloc(a, top, size).1.Some?
    ensures Carries(Malloc(a, top, size).0, top, Malloc(a, top, size).1.value)
    ensures var p := Malloc(a, top, size).1.value;
            var c := Coalesce(Malloc(a, top, size).0, top, p);
            && (c.lists == a.lists <==> !Rejoins(a, top, size))
            && (c.lists == a.lists ==> p in a.blocks && p in c.blocks)
            && (c.lists == a.lists ==> c.blocks == a.blocks[p := a.blocks[p].(isFirst := c.blocks[p].isFirst)])
  {
    var level := WhichLevel(BytesWithHead(size));
    var idx := Search(a.lists, level);
    MallocThenFree(a, top, size);
    RejoinsNext(a, top, size);
    assert a.blocks[a.lists[idx][0]].level == idx;
    PutBackRestoresIff(a, top, idx, HeaderAtTop(a, idx, level, size));
  }

  // ---------------------------------------------------------------- the order of release

  /** Releasing a block into the empty list of its level. */
  lemma ReleaseAlone(a: Arena, top: nat, h: nat)
    requires Carries(a, top, h) && a.blocks[h].level < LISTS && a.lists[a.blocks[h].level] == []
    ensures Coalesce(a, top, h) == InsertAt(a, h, 0)
    ensures Coalesce(a, top, h).lists[a.blocks[h].level] == [h]
  {
  }

  lemma NeighbourJoins(b: Arena, top: nat, p: nat, q: nat)
    requires Carries(b, top, q) && p in b.blocks && b.blocks[q].level < LISTS && b.lists[b.blocks[q].level] == [p]
    requires IsBuddy(b.blocks, q, p)
    ensures |Coalesce(b, top, q).lists| == LISTS && Coalesce(b, top, q).lists[b.blocks[q].level] == []
  {
    var level := b.blocks[q].level;
    assert Scan(b, q, [p], 0) == Merge(0);
    MergeStep(b, top, q, 0);
    assert MergeAt(b, q, 0).lists[level] == [];
    CoalesceLeavesLowerLists(MergeAt(b, q, 0), top, Min(p, q), level);
  }

  lemma NeighbourStays(b: Arena, top: nat, p: nat, q: nat)
    requires Carries(b, top, q) && p in b.blocks && b.blocks[q].level < LISTS && b.lists[b.blocks[q].level] == [p]
    requires p != q && !IsBuddy(b.blocks, q, p)
    ensures |Coalesce(b, top, q).lists| == LISTS
    ensures Coalesce(b, top, q).lists[b.blocks[q].level] == [Min(p, q), Max(p, q)]
  {
    assert Scan(b, q, [p], 1) == Insert(1);
    assert Scan(b, q, [p], 0) == Insert(if q < p then 0 else 1);
  }

  /**
   * Of two neighbours of one level, aligned or not, released into an empty list, the second one
   * released joins the first unless it alone is marked as an upper half.
   */
  lemma NeighboursRejoinIff(a: Arena, top: nat, p: nat, q: nat)
    requires Carries(a, top, p) && Carries(a, top, q) && (q == End(a.blocks, p) || p == End(a.blocks, q))
    requires a.blocks[p].level == a.blocks[q].level < LISTS && a.lists[a.blocks[p].level] == []
    ensures Carries(Coalesce(a, top, p), top, q)
    ensures |Coalesce(Coalesce(a, top, p), top, q).lists| == LISTS
    ensures Coalesce(Coalesce(a, top, p), top, q).lists[a.blocks[p].level]
            == if a.blocks[q].isFirst && !a.blocks[p].isFirst then [Min(p, q), Max(p, q)] else []
  {
    var b := InsertAt(a, p, 0);
    CoalesceReturnsPages(a, top, p);
    ReleaseAlone(a, top, p);
    assert b.blocks[p] == a.blocks[p].(isFree := true, size := 0) && b.blocks[q] == a.blocks[q];
    if IsBuddy(b.blocks, q, p) {
      NeighbourJoins(b, top, p, q);
    } else {
      NeighbourStays(b, top, p, q);
    }
  }

  /**
   * So the two halves of a split rejoin if the upper one is released first, and stay apart, both
   * on the free list, if the lower one is: returning everything need not restore the region.
   */
  lemma HalvesRejoinOnlyUpperFirst(a: Arena, top: nat, p: nat, q: nat)
    requires Carries(a, top, p) && Carries(a, top, q) && q == End(a.blocks, p)
    requires a.blocks[p].level == a.blocks[q].level < LISTS && a.lists[a.blocks[p].level] == []
    requires !a.blocks[p].isFirst && a.blocks[q].isFirst
    ensures Carries(Coalesce(a, top, p), top, q) && Carries(Coalesce(a, top, q), top, p)
    ensures |Coalesce(Coalesce(a, top, p), top, q).lists| == LISTS
    ensures |Coalesce(Coalesce(a, top, q), top, p).lists| == LISTS
    ensures Coalesce(Coalesce(a, top, p), top, q).lists[a.blocks[p].level] == [p, q]
    ensures Coalesce(Coalesce(a, top, q), top, p).lists[a.blocks[p].level] == []
  {
    NeighboursRejoinIff(a, top, p, q);
    NeighboursRejoinIff(a, top, q, p);
  }
}
