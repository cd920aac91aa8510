/**
 * Block headers as they lie in the managed pages, and what it means for them and the list heads
 * to spell out an arena. Pointers are page numbers; NULL is -1.
 */
module BuddyHeaders {
  import opened Powers
  import opened BuddyLevels
  import opened BuddyArena

  const NULL: int := -1

  datatype Head = Head(
    previous: int, next: int,
    size: nat, level: nat, hostPid: nat, memoryIdx: nat,
    isFree: bool, isFirst: bool)

  /** What init_free_block makes of a header; the owner fields stay as they are. */
  function FreeHead(h: Head, previous: int, next: int, level: nat, isFirst: bool): Head {
    h.(size := 0, isFree := true, previous := previous, next := next, level := level, isFirst := isFirst)
  }

  /** What init_used_block makes of a header; level and is_first stay as they are. */
  function UsedHead(h: Head): Head {
    h.(size := 0, isFree := false, previous := NULL, next := NULL)
  }

  function Nth(s: seq<nat>, k: int): int {
    if 0 <= k < |s| then s[k] else NULL
  }

  ghost predicate Linked(m: seq<Head>, s: seq<nat>, k: nat)
    requires k < |s|
  {
    s[k] < |m| && m[s[k]].next == Nth(s, k + 1) && m[s[k]].previous == Nth(s, k - 1)
  }

  /** From `first` on, the next pointers run through s to NULL and the previous ones run back. */
  ghost predicate Chained(m: seq<Head>, first: int, s: seq<nat>) {
    first == Nth(s, 0) && forall k | 0 <= k < |s| :: Linked(m, s, k)
  }

  /** While `held` is carried by buddy_free, its is_free and size fields say nothing. */
  ghost predicate Describes(h: Head, b: Block, pid: nat, held: bool) {
    && h.level == b.level && h.isFirst == b.isFirst && h.hostPid == pid && h.memoryIdx == 1
    && (held || (h.isFree == b.isFree && h.size == b.size))
  }

  ghost predicate Represents(m: seq<Head>, first: seq<int>, a: Arena, pid: nat, held: int) {
    && |first| == LISTS && |a.lists| == LISTS
    && (forall p | p in a.blocks :: p < |m| && Describes(m[p], a.blocks[p], pid, p == held))
    && (forall i | 0 <= i < LISTS :: Chained(m, first[i], a.lists[i]))
  }

  /**
   * What a walk over the headers meets: from each list head on, free blocks of that level in
   * ascending order, linked both ways and ending in null; every free block in exactly one list and
   * no live block in any.
   */
  lemma ListsAreSound(m: seq<Head>, first: seq<int>, a: Arena, top: nat, pid: nat, i: nat, k: nat)
    requires Inv(a, top) && Represents(m, first, a, pid, NULL) && i < LISTS && k < |a.lists[i]|
    ensures var s := a.lists[i];
            && first[i] == s[0] && s[k] < |m| && m[s[k]].isFree && m[s[k]].level == i
            && m[s[k]].next == (if k + 1 < |s| then s[k + 1] else NULL)
            && m[s[k]].previous == (if k > 0 then s[k - 1] else NULL)
            && (k + 1 < |s| ==> s[k] < s[k + 1])
            && (forall j | 0 <= j < LISTS && s[k] in a.lists[j] :: j == i)
            && s[k] !in Live(a)
    ensures forall p | p in a.blocks && a.blocks[p].isFree ::
              a.blocks[p].level < LISTS && p in a.lists[a.blocks[p].level]
    ensures forall p | p in Live(a) :: p < |m| && !m[p].isFree
  {
    var p := a.lists[i][k];
    assert p in a.lists[i];
    assert Linked(m, a.lists[i], k);
  }

  /** Lists of other levels hold other blocks, so rewriting headers of one level keeps them. */
  lemma OtherListsKept(m: seq<Head>, m': seq<Head>, first: int, a: Arena, i: nat)
    requires ListsHoldFreeBlocks(a) && i < LISTS && |m'| == |m|
    requires Chained(m, first, a.lists[i])
    requires forall p | p in a.blocks && a.blocks[p].isFree && a.blocks[p].level == i && p < |m| :: m'[p] == m[p]
    ensures Chained(m', first, a.lists[i])
  {
    var s := a.lists[i];
    forall k | 0 <= k < |s|
      ensures Linked(m', s, k)
    {
      assert s[k] in s && Linked(m, s, k);
    }
  }

  /** Unlinking position k: its neighbours now point at each other. */
  ghost predicate Unlinks(m: seq<Head>, m': seq<Head>, s: seq<nat>, k: nat)
    requires k < |s|
  {
    && |m'| == |m|
    && forall p | 0 <= p < |m| && p != s[k] ::
         m'[p] == if p == Nth(s, k - 1) then m[p].(next := Nth(s, k + 1))
                  else if p == Nth(s, k + 1) then m[p].(previous := Nth(s, k - 1))
                  else m[p]
  }

  lemma UnlinkChains(m: seq<Head>, m': seq<Head>, s: seq<nat>, k: nat)
    requires Chained(m, Nth(s, 0), s) && Ascending(s) && k < |s| && Unlinks(m, m', s, k)
    ensures Chained(m', Nth(RemoveAt(s, k), 0), RemoveAt(s, k))
  {
    var r := RemoveAt(s, k);
    forall i | 0 <= i < |r|
      ensures Linked(m', r, i)
    {
      assert Linked(m, s, if i < k then i else i + 1);
    }
  }

  /** Linking h in before position k: its neighbours now point at it. */
  ghost predicate Links(m: seq<Head>, m': seq<Head>, s: seq<nat>, k: nat, h: nat)
    requires k <= |s|
  {
    && |m'| == |m| && h < |m|
    && m'[h].next == Nth(s, k) && m'[h].previous == Nth(s, k - 1)
    && forall p | 0 <= p < |m| && p != h ::
         m'[p] == if p == Nth(s, k - 1) then m[p].(next := h)
                  else if p == Nth(s, k) then m[p].(previous := h)
                  else m[p]
  }

  lemma LinkChains(m: seq<Head>, m': seq<Head>, s: seq<nat>, k: nat, h: nat)
    requires Chained(m, Nth(s, 0), s) && Ascending(s) && k <= |s| && h !in s && Links(m, m', s, k, h)
    ensures Chained(m', Nth(s[..k] + [h] + s[k..], 0), s[..k] + [h] + s[k..])
  {
    var r := s[..k] + [h] + s[k..];
    forall i | 0 <= i < |r|
      ensures Linked(m', r, i)
    {
      assert i != k ==> Linked(m, s, if i < k then i else i - 1);
      assert i != k ==> r[i] in s;
    }
  }

  /** Every list of an arena in order, whatever the other headers say. */
  ghost predicate AllChained(m: seq<Head>, first: seq<int>, lists: seq<seq<nat>>) {
    |first| == LISTS && |lists| == LISTS && forall i | 0 <= i < LISTS :: Chained(m, first[i], lists[i])
  }

  lemma UnlinkKeepsLists(m: seq<Head>, m': seq<Head>, first: seq<int>, a: Arena, level: nat, k: nat)
    requires ListsHoldFreeBlocks(a) && AllChained(m, first, a.lists)
    requires level < LISTS && k < |a.lists[level]| && Unlinks(m, m', a.lists[level], k)
    requires a.lists[level][k] < |m| && m'[a.lists[level][k]] == m[a.lists[level][k]]
    ensures AllChained(m', first[level := Nth(RemoveAt(a.lists[level], k), 0)],
                       a.lists[level := RemoveAt(a.lists[level], k)])
  {
    var s := a.lists[level];
    assert Linked(m, s, k);
    UnlinkChains(m, m', s, k);
    assert k > 0 ==> s[k - 1] in s;
    assert k + 1 < |s| ==> s[k + 1] in s;
    forall i | 0 <= i < LISTS && i != level
      ensures Chained(m', first[i], a.lists[i])
    {
      OtherListsKept(m, m', first[i], a, i);
    }
  }

  lemma LinkKeepsLists(m: seq<Head>, m': seq<Head>, first: seq<int>, a: Arena, level: nat, k: nat, h: nat)
    requires ListsHoldFreeBlocks(a) && AllChained(m, first, a.lists)
    requires level < LISTS && k <= |a.lists[level]| && Links(m, m', a.lists[level], k, h)
    requires h in a.blocks && !a.blocks[h].isFree
    ensures var s := a.lists[level][..k] + [h] + a.lists[level][k..];
            AllChained(m', first[level := Nth(s, 0)], a.lists[level := s])
  {
    var s := a.lists[level];
    LinkChains(m, m', s, k, h);
    assert 0 < k ==> s[k - 1] in s;
    assert k < |s| ==> s[k] in s;
    forall i | 0 <= i < LISTS && i != level
      ensures Chained(m', first[i], a.lists[i])
    {
      OtherListsKept(m, m', first[i], a, i);
    }
  }

  /** Rewriting the header of a block that no list holds changes no list. */
  lemma UnlistedWriteKeepsLists(m: seq<Head>, m': seq<Head>, first: seq<int>, lists: seq<seq<nat>>, x: nat)
    requires AllChained(m, first, lists) && x < |m| == |m'| && m' == m[x := m'[x]]
    requires Unlisted(lists, x)
    ensures AllChained(m', first, lists)
  {
    forall i, k | 0 <= i < LISTS && 0 <= k < |lists[i]|
      ensures Linked(m', lists[i], k)
    {
      assert Chained(m, first[i], lists[i]) && Linked(m, lists[i], k);
    }
  }

  ghost predicate Unlisted(lists: seq<seq<nat>>, x: nat) {
    forall i | 0 <= i < |lists| :: x !in lists[i]
  }

  lemma TakenIsUnlisted(a: Arena, level: nat, k: nat)
    requires ListsHoldFreeBlocks(a) && level < LISTS && k < |a.lists[level]|
    ensures k == 0 ==> RemoveAt(a.lists[level], 0) == a.lists[level][1..]
    ensures Unlisted(a.lists[level := RemoveAt(a.lists[level], k)], a.lists[level][k])
  {
    var x := a.lists[level][k];
    var lists := a.lists[level := RemoveAt(a.lists[level], k)];
    RemoveAtKeeps(a.lists[level], k);
    assert x in a.lists[level] && a.blocks[x].level == level;
    forall i | 0 <= i < |lists|
      ensures x !in lists[i]
    {
      assert lists[i] == if i == level then RemoveAt(a.lists[level], k) else a.lists[i];
    }
  }
}
