/**
 * Reference-counted handles in shared memory. A control block is a payload, a counter and a
 * mutex, allocated together; a handle holds a pointer to each. Operations are written out with
 * the locks they take, so that unlocking a free mutex or destroying a held one would show.
 */
module SharedHandles {

  const NULL: int := -1

  /** raw_ptr_, used_counter_ and mutex_; a pointer is the number of its control block. */
  datatype Handle = Handle(raw: int, counter: int, mutex: int)

  const EMPTY: Handle := Handle(NULL, NULL, NULL)

  /** A control block: its count, how often each part has been freed, whether its mutex is held. */
  datatype Cell = Cell(count: int, payloadFrees: nat, counterFrees: nat, mutexFrees: nat, locked: bool)

  /** The handles that refer to a control block. */
  ghost function Refs(handles: map<int, Handle>, c: int): set<int> {
    set h | h in handles && handles[h].raw == c
  }

  ghost predicate WellFormed(h: Handle, cells: map<int, Cell>) {
    h == EMPTY || (h.raw >= 0 && h.raw in cells && h == Handle(h.raw, h.raw, h.raw))
  }

  /** A block with handles counts them and is intact; one without has been freed, each part once. */
  ghost predicate Settled(cell: Cell, refs: nat) {
    cell == if refs > 0 then Cell(refs, 0, 0, 0, false) else Cell(0, 1, 1, 1, false)
  }

  ghost predicate Inv(handles: map<int, Handle>, cells: map<int, Cell>) {
    && (forall h | h in handles :: WellFormed(handles[h], cells))
    && (forall c | c in cells :: c >= 0 && Settled(cells[c], |Refs(handles, c)|))
  }

  /** Which references a change of one handle adds and removes; a missing handle counts as empty. */
  lemma RefsAfter(handles: map<int, Handle>, h: int, v: Handle, c: int)
    ensures |Refs(handles[h := v], c)| == |Refs(handles - {h}, c)| + (if v.raw == c then 1 else 0)
    ensures |Refs(handles, c)| == |Refs(handles - {h}, c)| + (if h in handles && handles[h].raw == c then 1 else 0)
  {
    RefsWithout(handles, h, c);
    RefsWithout(handles[h := v], h, c);
    assert handles[h := v] - {h} == handles - {h};
  }

  lemma RefsWithout(handles: map<int, Handle>, h: int, c: int)
    ensures |Refs(handles, c)| == |Refs(handles - {h}, c)| + (if h in handles && handles[h].raw == c then 1 else 0)
  {
    var rest := Refs(handles - {h}, c);
    assert Refs(handles, c) == if h in handles && handles[h].raw == c then rest + {h} else rest;
  }

  /** One reference fewer: the last one frees all three parts. */
  function Drop(cells: map<int, Cell>, c: int): map<int, Cell>
    requires c in cells
  {
    cells[c := if cells[c].count == 1 then Cell(0, 1, 1, 1, false) else cells[c].(count := cells[c].count - 1)]
  }

  function Gain(cells: map<int, Cell>, c: int): map<int, Cell>
    requires c in cells
  {
    cells[c := cells[c].(count := cells[c].count + 1)]
  }

  /** The block of a non-empty handle is intact and unlocked. */
  lemma HeldIsIntact(handles: map<int, Handle>, cells: map<int, Cell>, h: int)
    requires Inv(handles, cells) && h in handles && handles[h] != EMPTY
    ensures handles[h].raw in cells
    ensures var cell := cells[handles[h].raw]; cell == Cell(cell.count, 0, 0, 0, false) && cell.count > 0
  {
    assert h in Refs(handles, handles[h].raw);
  }

  lemma DropKeepsInv(handles: map<int, Handle>, cells: map<int, Cell>, h: int)
    requires Inv(handles, cells) && h in handles && handles[h] != EMPTY
    ensures handles[h].raw in cells && Inv(handles[h := EMPTY], Drop(cells, handles[h].raw))
    ensures Inv(handles - {h}, Drop(cells, handles[h].raw))
  {
    HeldIsIntact(handles, cells, h);
    forall c | c in cells
      ensures Settled(Drop(cells, handles[h].raw)[c], |Refs(handles[h := EMPTY], c)|)
      ensures Settled(Drop(cells, handles[h].raw)[c], |Refs(handles - {h}, c)|)
    {
      RefsAfter(handles, h, EMPTY, c);
    }
  }

  lemma GainKeepsInv(handles: map<int, Handle>, cells: map<int, Cell>, h: int, c: int)
    requires Inv(handles, cells) && (h in handles ==> handles[h] == EMPTY)
    requires c in cells && cells[c].count > 0
    ensures Inv(handles[h := Handle(c, c, c)], Gain(cells, c))
  {
    forall d | d in cells
      ensures Settled(Gain(cells, c)[d], |Refs(handles[h := Handle(c, c, c)], d)|)
    {
      RefsAfter(handles, h, Handle(c, c, c), d);
    }
  }

  class SharedMemory {
    var handles: map<int, Handle>
    var cells: map<int, Cell>

    ghost predicate Valid()
      reads this
    {
      Inv(handles, cells)
    }

    constructor ()
      ensures Valid() && handles == map[] && cells == map[]
    {
      handles, cells := map[], map[];
    }

    // -------------------------------------------------------------- private parts

    method Lock(m: int)
      requires m == NULL || (m in cells && cells[m].mutexFrees == 0 && !cells[m].locked)
      modifies `cells
      ensures cells == if m == NULL then old(cells) else old(cells)[m := old(cells[m]).(locked := true)]
    {
      if m != NULL {
        cells := cells[m := cells[m].(locked := true)];
      }
    }

    /** The mutex aborts the process when it is unlocked without being held. */
    method Unlock(m: int)
      requires m in cells && cells[m].mutexFrees == 0 && cells[m].locked
      modifies `cells
      ensures cells == old(cells)[m := old(cells[m]).(locked := false)]
    {
      cells := cells[m := cells[m].(locked := false)];
    }

    method Increase(counter: int)
      requires counter == NULL || (counter in cells && cells[counter].counterFrees == 0)
      modifies `cells
      ensures cells == if counter == NULL then old(cells)
                       else old(cells)[counter := old(cells[counter]).(count := old(cells[counter]).count + 1)]
    {
      if counter != NULL {
        cells := cells[counter := cells[counter].(count := cells[counter].count + 1)];
      }
    }

    /** decreace_: the last reference frees payload, counter and mutex, after unlocking the mutex. */
    method Decrease(h: int)
      requires h in handles && handles[h] != EMPTY && WellFormed(handles[h], cells)
      requires var cell := cells[handles[h].raw]; cell == Cell(cell.count, 0, 0, 0, true)
      modifies `handles, `cells
      ensures var c := old(handles[h]).raw;
              var n := old(cells[c]).count - 1;
              && handles == old(handles)[h := Handle(NULL, NULL, if n == 0 then NULL else c)]
              && cells == old(cells)[c := if n == 0 then Cell(0, 1, 1, 1, false) else Cell(n, 0, 0, 0, true)]
    {
      var c := handles[h].counter;
      if c != NULL {
        cells := cells[c := cells[c].(count := cells[c].count - 1)];
        if cells[c].count == 0 {
          var raw := handles[h].raw;
          cells := cells[raw := cells[raw].(payloadFrees := cells[raw].payloadFrees + 1)];
          cells := cells[c := cells[c].(counterFrees := cells[c].counterFrees + 1)];
          var m := handles[h].mutex;
          Unlock(m);
          cells := cells[m := cells[m].(mutexFrees := cells[m].mutexFrees + 1)];
          handles := handles[h := handles[h].(mutex := NULL)];
        }
        handles := handles[h := handles[h].(counter := NULL)];
        handles := handles[h := handles[h].(raw := NULL)];
      }
    }

    /** What the assignments do first: give up what the handle referred to. */
    method Release(h: int)
      requires Valid() && h in handles
      modifies `handles, `cells
      ensures old(handles[h]) == EMPTY ==> handles == old(handles) && cells == old(cells)
      ensures old(handles[h]) != EMPTY ==>
        && old(handles[h]).raw in old(cells)
        && cells == Drop(old(cells), old(handles[h]).raw)
        && h in handles && handles == old(handles)[h := handles[h]]
        && handles[h].raw == NULL && handles[h].counter == NULL
    {
      if handles[h].raw != NULL {
        HeldIsIntact(handles, cells, h);
        Lock(handles[h].mutex);
        Decrease(h);
        if handles[h].mutex != NULL {
          Unlock(handles[h].mutex);
        }
      }
    }

    method CopyPointers(h: int, rhs: int)
      requires h in handles && rhs in handles && h != rhs
      modifies `handles
      ensures handles == old(handles)[h := old(handles[rhs])]
    {
      handles := handles[h := handles[h].(raw := handles[rhs].raw)];
      handles := handles[h := handles[h].(counter := handles[rhs].counter)];
      handles := handles[h := handles[h].(mutex := handles[rhs].mutex)];
    }

    method ClearPointers(h: int)
      requires h in handles
      modifies `handles
      ensures handles == old(handles)[h := EMPTY]
    {
      handles := handles[h := handles[h].(raw := NULL)];
      handles := handles[h := handles[h].(counter := NULL)];
      handles := handles[h := handles[h].(mutex := NULL)];
    }

    /** Lock the source, take its pointers over field by field, count, unlock. */
    method Share(h: int, rhs: int)
      requires h in handles && rhs in handles && h != rhs && handles[rhs] != EMPTY
      requires handles[rhs].raw in cells && WellFormed(handles[rhs], cells)
      requires var cell := cells[handles[rhs].raw]; cell == Cell(cell.count, 0, 0, 0, false)
      modifies `handles, `cells
      ensures handles == old(handles)[h := old(handles[rhs])]
      ensures cells == Gain(old(cells), old(handles[rhs]).raw)
    {
      Lock(handles[rhs].mutex);
      CopyPointers(h, rhs);
      Increase(handles[h].counter);
      Unlock(handles[rhs].mutex);
    }

    /** As Share, but the source gives its reference up and ends empty. */
    method Take(h: int, rhs: int)
      requires h in handles && rhs in handles && h != rhs && handles[rhs] != EMPTY
      requires handles[rhs].raw in cells && WellFormed(handles[rhs], cells)
      requires var cell := cells[handles[rhs].raw]; cell == Cell(cell.count, 0, 0, 0, false) && cell.count > 0
      modifies `handles, `cells
      ensures handles == old(handles)[h := old(handles[rhs])][rhs := EMPTY]
      ensures cells == old(cells)
    {
      Lock(handles[rhs].mutex);
      CopyPointers(h, rhs);
      Increase(handles[h].counter);
      Decrease(rhs);
      ClearPointers(rhs);
      Unlock(handles[h].mutex);
    }

    // -------------------------------------------------------------- operations

    /** The constructor from a raw pointer, as makeShmShared uses it; `c` is freshly allocated. */
    method FromRaw(h: int, c: int)
      requires Valid() && h !in handles && c >= 0 && c !in cells
      modifies this
      ensures Valid() && handles == old(handles)[h := Handle(c, c, c)]
      ensures cells == old(cells)[c := Cell(1, 0, 0, 0, false)]
    {
      NewBlockKeepsInv(handles, cells, h, c);
      handles := handles[h := Handle(c, NULL, NULL)];
      cells := cells[c := Cell(0, 0, 0, 0, false)];
      handles := handles[h := handles[h].(mutex := c)];
      handles := handles[h := handles[h].(counter := c)];
      Increase(handles[h].counter);
      assert handles == old(handles)[h := Handle(c, c, c)];
      assert cells == old(cells)[c := Cell(1, 0, 0, 0, false)];
    }

    /** The default constructor. */
    method Default(h: int)
      requires Valid() && h !in handles
      modifies this
      ensures Valid() && handles == old(handles)[h := EMPTY] && cells == old(cells)
    {
      forall c | c in cells { RefsAfter(handles, h, EMPTY, c); }
      handles := handles[h := EMPTY];
    }

    method CopyConstruct(h: int, rhs: int)
      requires Valid() && h !in handles && rhs in handles
      modifies this
      ensures Valid() && cells.Keys == old(cells.Keys) && handles == old(handles)[h := old(handles[rhs])]
    {
      Default(h);
      if handles[rhs].raw == NULL {
        return;
      }
      HeldIsIntact(handles, cells, rhs);
      GainKeepsInv(handles, cells, h, handles[rhs].raw);
      Share(h, rhs);
    }

    method MoveConstruct(h: int, rhs: int)
      requires Valid() && h !in handles && rhs in handles
      modifies this
      ensures Valid() && cells == old(cells) && handles == old(handles)[h := old(handles[rhs])][rhs := EMPTY]
    {
      Default(h);
      if handles[rhs].raw == NULL {
        return;
      }
      HeldIsIntact(handles, cells, rhs);
      ghost var before, c := handles, handles[rhs].raw;
      Take(h, rhs);
      TakeKeepsInv(before, cells, h, rhs);
    }

    /** Assigning from an empty handle leaves the target as it was. */
    method CopyAssign(h: int, rhs: int)
      requires Valid() && h in handles && rhs in handles
      modifies this
      ensures Valid() && cells.Keys == old(cells.Keys)
      ensures handles == if old(handles[rhs]) == EMPTY then old(handles) else old(handles)[h := old(handles[rhs])]
    {
      if handles[rhs].raw == NULL {
        return;
      }
      if h == rhs {
        return;
      }
      ghost var before := handles;
      ReleaseKeepsOther(handles, cells, h, rhs);
      Release(h);
      HeldIsIntact(before[h := EMPTY], cells, rhs);
      GainKeepsInv(before[h := EMPTY], cells, h, handles[rhs].raw);
      Share(h, rhs);
      assert handles == before[h := EMPTY][h := before[rhs]];
    }

    method MoveAssign(h: int, rhs: int)
      requires Valid() && h in handles && rhs in handles
      modifies this
      ensures Valid() && cells.Keys == old(cells.Keys)
      ensures handles == if old(handles[rhs]) == EMPTY || h == rhs then old(handles)
                         else old(handles)[h := old(handles[rhs])][rhs := EMPTY]
    {
      if handles[rhs].raw == NULL {
        return;
      }
      if h == rhs {
        return;
      }
      ghost var before := handles;
      ReleaseKeepsOther(handles, cells, h, rhs);
      Release(h);
      HeldIsIntact(before[h := EMPTY], cells, rhs);
      Take(h, rhs);
      TakeKeepsInv(before[h := EMPTY], cells, h, rhs);
      assert handles == before[h := EMPTY][h := before[rhs]][rhs := EMPTY];
    }

    method Reset(h: int)
      requires Valid() && h in handles
      modifies this
      ensures Valid() && cells.Keys == old(cells.Keys) && handles == old(handles)[h := EMPTY]
    {
      if handles[h].raw == NULL {
        return;
      }
      HeldIsIntact(handles, cells, h);
      DropKeepsInv(handles, cells, h);
      ghost var before, after := handles, Drop(cells, handles[h].raw);
      if handles[h].mutex != NULL {
        Lock(handles[h].mutex);
        Decrease(h);
        handles := handles[h := handles[h].(raw := NULL)];
        handles := handles[h := handles[h].(counter := NULL)];
        if handles[h].mutex != NULL {
          Unlock(handles[h].mutex);
        }
      }
      handles := handles[h := handles[h].(mutex := NULL)];
      assert cells == after;
      assert handles == before[h := EMPTY];
    }

    method Destroy(h: int)
      requires Valid() && h in handles
      modifies this
      ensures Valid() && cells.Keys == old(cells.Keys) && handles == old(handles) - {h}
    {
      if handles[h].raw == NULL {
        forall c | c in cells { RefsAfter(handles, h, EMPTY, c); }
        handles := handles - {h};
        return;
      }
      HeldIsIntact(handles, cells, h);
      DropKeepsInv(handles, cells, h);
      ghost var before, after := handles, Drop(cells, handles[h].raw);
      Lock(handles[h].mutex);
      Decrease(h);
      if handles[h].mutex != NULL {
        Unlock(handles[h].mutex);
      }
      assert cells == after;
      handles := handles - {h};
      assert handles == before - {h};
    }
  }

  lemma NewBlockKeepsInv(handles: map<int, Handle>, cells: map<int, Cell>, h: int, c: int)
    requires Inv(handles, cells) && h !in handles && c >= 0 && c !in cells
    ensures Inv(handles[h := Handle(c, c, c)], cells[c := Cell(1, 0, 0, 0, false)])
  {
    var after := handles[h := Handle(c, c, c)];
    assert forall k | k in handles :: WellFormed(handles[k], cells) && handles[k].raw != c;
    assert Refs(after, c) == {h};
    forall d | d in cells
      ensures |Refs(after, d)| == |Refs(handles, d)|
    {
      RefsAfter(handles, h, Handle(c, c, c), d);
    }
  }

  lemma TakeKeepsInv(handles: map<int, Handle>, cells: map<int, Cell>, h: int, rhs: int)
    requires Inv(handles, cells) && h in handles && rhs in handles && h != rhs && handles[h] == EMPTY
    ensures Inv(handles[h := handles[rhs]][rhs := EMPTY], cells)
  {
    forall c | c in cells
      ensures |Refs(handles[h := handles[rhs]][rhs := EMPTY], c)| == |Refs(handles, c)|
    {
      RefsAfter(handles, h, handles[rhs], c);
      RefsAfter(handles[h := handles[rhs]], rhs, EMPTY, c);
    }
  }

  /** Giving up one handle's reference leaves the block another handle refers to intact. */
  lemma ReleaseKeepsOther(handles: map<int, Handle>, cells: map<int, Cell>, h: int, rhs: int)
    requires Inv(handles, cells) && h in handles && rhs in handles && h != rhs
    ensures handles[h] == EMPTY ==> Inv(handles[h := EMPTY], cells)
    ensures handles[h] != EMPTY ==> handles[h].raw in cells && Inv(handles[h := EMPTY], Drop(cells, handles[h].raw))
  {
    if handles[h] == EMPTY {
      assert handles[h := EMPTY] == handles;
    } else {
      DropKeepsInv(handles, cells, h);
    }
  }
}
