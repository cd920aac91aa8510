/**
 * The life of shared objects: the node that owns them, and the external nodes that count
 * themselves in when they discover one and out when they notice it was destroyed.
 */
module ObjectLife {

  /** An ObjectInfo; `releases` counts how often object and info have been given back. */
  datatype Object = Object(name: string, refCnt: int, isDestroy: bool, releases: nat)

  /** An external node's entry for the owner: what it lists, and the names it waits for. */
  datatype Node = Node(objList: map<string, int>, removedList: set<string>)

  /**
   * `objMap` and `removedMap` are the owner's two shared maps, the second keyed by name and time
   * of destruction; `ownList` are the names the owner's process holds handles for.
   */
  datatype System = System(
    objects: map<int, Object>, objMap: map<string, int>, removedMap: map<string, int>,
    ownList: set<string>, ownerAlive: bool, nodes: map<int, Node>)

  const START: System := System(map[], map[], map[], {}, true, map[])

  // ---------------------------------------------------------------- steps of the owner

  /** ShmObjManager::create, under the node map lock and the object map lock; `id` is fresh. */
  function Create(s: System, name: string, id: int): System {
    if name in s.ownList || name in s.objMap then s
    else s.(objects := s.objects[id := Object(name, 1, false, 0)],
            objMap := s.objMap[name := id], ownList := s.ownList + {name})
  }

  /** The first part of destroy: the owner's own handle is let go, under the node map lock. */
  function DropHandle(s: System, name: string): System {
    s.(ownList := s.ownList - {name})
  }

  /** Whether clear_shm_obj_remove_map_ gives back the object under this key. */
  predicate Reclaimable(s: System, key: string) {
    key in s.removedMap && s.removedMap[key] in s.objects && s.objects[s.removedMap[key]].refCnt == 0
  }

  function ReclaimOne(s: System, key: string): System
    requires Reclaimable(s, key)
  {
    var o := s.removedMap[key];
    s.(objects := s.objects[o := s.objects[o].(releases := s.objects[o].releases + 1)],
       removedMap := s.removedMap - {key})
  }

  /** The end of the second part of destroy: release at once, or keep for those still counted. */
  function Unmap(s: System, name: string, key: string): System
    requires name in s.objMap && s.objMap[name] in s.objects
  {
    var o := s.objMap[name];
    var info := s.objects[o];
    var t := s.(objMap := s.objMap - {name});
    if info.refCnt == 1 then
      t.(objects := s.objects[o := info.(releases := info.releases + 1)])
    else
      t.(objects := s.objects[o := info.(refCnt := info.refCnt - 1)], removedMap := s.removedMap[key := o])
  }

  function MarkDestroyed(s: System, name: string): System
    requires name in s.objMap && s.objMap[name] in s.objects
  {
    var o := s.objMap[name];
    s.(objects := s.objects[o := s.objects[o].(isDestroy := true)])
  }

  // ---------------------------------------------------------------- steps of an external node

  /** The locked part of discovery_shm_: count in and list. */
  function CountIn(s: System, n: int, key: string): System
    requires n in s.nodes && key in s.objMap && s.objMap[key] in s.objects
  {
    var o := s.objMap[key];
    var node := s.nodes[n];
    s.(objects := s.objects[o := s.objects[o].(refCnt := s.objects[o].refCnt + 1)],
       nodes := s.nodes[n := Node(node.objList[key := o], node.removedList - {key})])
  }

  /** An entry found destroyed (or, with the owner dead, any entry): count out and wait again. */
  function CountOut(s: System, n: int, key: string): System
    requires n in s.nodes && key in s.nodes[n].objList && s.nodes[n].objList[key] in s.objects
  {
    var node := s.nodes[n];
    var o := node.objList[key];
    s.(objects := s.objects[o := s.objects[o].(refCnt := s.objects[o].refCnt - 1)],
       nodes := s.nodes[n := Node(node.objList - {key}, node.removedList + {key})])
  }

  function Wait(s: System, n: int, key: string): System
    requires n in s.nodes
  {
    s.(nodes := s.nodes[n := s.nodes[n].(removedList := s.nodes[n].removedList + {key})])
  }

  predicate Findable(s: System, key: string) {
    s.ownerAlive && key in s.objMap && s.objMap[key] in s.objects
  }

  /** ShmObjManager::discovery: the node's own lists first, then the owner's map. */
  function Discover(s: System, n: int, key: string): System
    requires n in s.nodes
  {
    if key in s.nodes[n].objList || key in s.nodes[n].removedList then s
    else if Findable(s, key) then CountIn(s, n, key)
    else Wait(s, n, key)
  }

  // ---------------------------------------------------------------- runs

  /** Each critical section is one step; the sections of one call may interleave with others. */
  datatype Step =
    | DoCreate(name: string, id: int)
    | DoDropHandle(name: string)
    | DoDestroy(name: string, key: string)
    | DoJoin(n: int)
    | DoDiscover(n: int, key: string)
    | DoRediscover(n: int, key: string)
    | DoSweep(n: int, key: string)
    | DoOwnerDies
    | DoMonitorDrop(n: int, key: string)

  predicate Enabled(s: System, step: Step) {
    match step
    case DoCreate(_, id) => s.ownerAlive && id !in s.objects
    case DoDropHandle(_) => s.ownerAlive
    case DoDestroy(name, key) => s.ownerAlive && name in s.objMap && s.objMap[name] in s.objects && key !in s.removedMap
    case DoJoin(n) => n !in s.nodes
    case DoDiscover(n, _) => n in s.nodes
    case DoRediscover(n, key) => n in s.nodes && key in s.nodes[n].removedList && Findable(s, key)
    case DoSweep(n, key) =>
      n in s.nodes && key in s.nodes[n].objList && s.nodes[n].objList[key] in s.objects
      && s.objects[s.nodes[n].objList[key]].isDestroy
    case DoOwnerDies => true
    case DoMonitorDrop(n, key) =>
      !s.ownerAlive && n in s.nodes && key in s.nodes[n].objList && s.nodes[n].objList[key] in s.objects
  }

  /** Everything under these keys of removedMap that nobody counts any more is given back. */
  function ReclaimSome(s: System, keys: set<string>): System {
    var done := set k | k in s.removedMap && k in keys && Reclaimable(s, k) :: s.removedMap[k];
    s.(objects := map o | o in s.objects ::
                    if o in done then s.objects[o].(releases := s.objects[o].releases + 1) else s.objects[o],
       removedMap := map k | k in s.removedMap && !(k in keys && Reclaimable(s, k)) :: s.removedMap[k])
  }

  function Reclaim(s: System): System {
    ReclaimSome(s, s.removedMap.Keys)
  }

  /** The second part of destroy. */
  function Destroy(s: System, name: string, key: string): System
    requires name in s.objMap && s.objMap[name] in s.objects
  {
    Unmap(Reclaim(MarkDestroyed(s, name)), name, key)
  }

  function MonitorDrop(s: System, n: int, key: string): System
    requires n in s.nodes && key in s.nodes[n].objList && s.nodes[n].objList[key] in s.objects
  {
    var o := s.nodes[n].objList[key];
    var t := CountOut(s, n, key);
    t.(objects := t.objects[o := t.objects[o].(isDestroy := true)])
  }

  function Act(s: System, step: Step): System
    requires Enabled(s, step)
  {
    match step
    case DoCreate(name, id) => Create(s, name, id)
    case DoDropHandle(name) => DropHandle(s, name)
    case DoDestroy(name, key) => Destroy(s, name, key)
    case DoJoin(n) => s.(nodes := s.nodes[n := Node(map[], {})])
    case DoDiscover(n, key) => Discover(s, n, key)
    case DoRediscover(n, key) => CountIn(s, n, key)
    case DoSweep(n, key) => CountOut(s, n, key)
    case DoOwnerDies => s.(ownerAlive := false)
    case DoMonitorDrop(n, key) => MonitorDrop(s, n, key)
  }

  // ---------------------------------------------------------------- invariant

  predicate Lists(nodes: map<int, Node>, n: int, name: string, o: int) {
    n in nodes && name in nodes[n].objList && nodes[n].objList[name] == o
  }

  /** The external nodes that list an object. */
  function Listers(nodes: map<int, Node>, name: string, o: int): set<int> {
    set n | n in nodes && Lists(nodes, n, name, o)
  }

  predicate InMap(s: System, o: int)
    requires o in s.objects
  {
    s.objects[o].name in s.objMap && s.objMap[s.objects[o].name] == o
  }

  predicate InRemoved(s: System, o: int) {
    exists k :: k in s.removedMap && s.removedMap[k] == o
  }

  /** The owner's reference, if it has one, and one for each node listing the object. */
  function Counted(s: System, o: int): nat
    requires o in s.objects
  {
    (if InMap(s, o) then 1 else 0) + |Listers(s.nodes, s.objects[o].name, o)|
  }

  /** An object lives in exactly one of the owner's maps and is counted right, or it is gone. */
  ghost predicate Accounted(s: System, o: int)
    requires o in s.objects
  {
    var info := s.objects[o];
    && info.releases <= 1
    && (info.releases == 0 ==> info.refCnt == Counted(s, o) && (InMap(s, o) <==> !InRemoved(s, o)))
    && (info.releases == 1 ==> !InMap(s, o) && !InRemoved(s, o) && Listers(s.nodes, info.name, o) == {})
  }

  ghost predicate NamesMatch(s: System) {
    && (forall name | name in s.objMap :: s.objMap[name] in s.objects && s.objects[s.objMap[name]].name == name)
    && (forall n, name | n in s.nodes && name in s.nodes[n].objList ::
          s.nodes[n].objList[name] in s.objects && s.objects[s.nodes[n].objList[name]].name == name)
    && (forall k | k in s.removedMap :: s.removedMap[k] in s.objects)
    && (forall k, l | k in s.removedMap && l in s.removedMap && s.removedMap[k] == s.removedMap[l] :: k == l)
    && (forall n | n in s.nodes :: s.nodes[n].objList.Keys !! s.nodes[n].removedList)
  }

  ghost predicate Core(s: System) {
    NamesMatch(s) && forall o | o in s.objects :: Accounted(s, o)
  }

  /** While the owner lives, an object is marked destroyed exactly when it has left the object map. */
  ghost predicate MarkedRight(s: System) {
    s.ownerAlive ==> forall o | o in s.objects && s.objects[o].releases == 0 :: s.objects[o].isDestroy <==> !InMap(s, o)
  }

  ghost predicate Inv(s: System) {
    Core(s) && MarkedRight(s)
  }

  // ---------------------------------------------------------------- each step keeps it

  lemma ListersAfterListing(nodes: map<int, Node>, n: int, key: string, id: int, node: Node, name: string, o: int)
    requires n in nodes && key !in nodes[n].objList && node.objList == nodes[n].objList[key := id]
    ensures |Listers(nodes[n := node], name, o)|
         == |Listers(nodes, name, o)| + (if name == key && o == id then 1 else 0)
  {
    var before, after := Listers(nodes, name, o), Listers(nodes[n := node], name, o);
    if name == key && o == id {
      assert n !in before;
      assert after == before + {n};
    } else {
      assert after == before;
    }
  }

  lemma ListersAfterUnlisting(nodes: map<int, Node>, n: int, key: string, node: Node, name: string, o: int)
    requires n in nodes && key in nodes[n].objList && node.objList == nodes[n].objList - {key}
    ensures |Listers(nodes[n := node], name, o)| ==
            |Listers(nodes, name, o)| - (if name == key && o == nodes[n].objList[key] then 1 else 0)
  {
    var before, after := Listers(nodes, name, o), Listers(nodes[n := node], name, o);
    if name == key && o == nodes[n].objList[key] {
      assert n in before;
      assert after == before - {n};
    } else {
      assert after == before;
    }
  }

  lemma CountInKeepsCore(s: System, n: int, key: string)
    requires Core(s) && n in s.nodes && key in s.objMap && s.objMap[key] in s.objects && key !in s.nodes[n].objList
    ensures Core(CountIn(s, n, key))
  {
    var t := CountIn(s, n, key);
    var id := s.objMap[key];
    assert InMap(s, id) && Accounted(s, id);
    forall o | o in t.objects
      ensures Accounted(t, o)
    {
      assert Accounted(s, o);
      ListersAfterListing(s.nodes, n, key, id, t.nodes[n], s.objects[o].name, o);
      assert InMap(t, o) == InMap(s, o) && InRemoved(t, o) == InRemoved(s, o);
    }
  }

  lemma CountOutKeepsCore(s: System, n: int, key: string)
    requires Core(s) && n in s.nodes && key in s.nodes[n].objList && s.nodes[n].objList[key] in s.objects
    ensures Core(CountOut(s, n, key))
    ensures s.objects[s.nodes[n].objList[key]].releases == 0
  {
    var t := CountOut(s, n, key);
    var id := s.nodes[n].objList[key];
    assert Accounted(s, id) && n in Listers(s.nodes, key, id);
    forall o | o in t.objects
      ensures Accounted(t, o)
    {
      assert Accounted(s, o);
      ListersAfterUnlisting(s.nodes, n, key, t.nodes[n], s.objects[o].name, o);
      assert InMap(t, o) == InMap(s, o) && InRemoved(t, o) == InRemoved(s, o);
    }
  }

  lemma CreateKeepsCore(s: System, name: string, id: int)
    requires Core(s) && id !in s.objects
    ensures Core(Create(s, name, id))
  {
    var t := Create(s, name, id);
    if t != s {
      assert !InRemoved(s, id);
      assert Listers(s.nodes, name, id) == {};
      forall o | o in t.objects
        ensures Accounted(t, o)
      {
        if o in s.objects {
          assert Accounted(s, o);
          assert InMap(t, o) == InMap(s, o) && InRemoved(t, o) == InRemoved(s, o);
        } else {
          assert InMap(t, o) && !InRemoved(t, o);
        }
      }
    }
  }

  /** Changing only is_destroy flags changes no count. */
  lemma FlagsKeepCore(s: System, t: System)
    requires Core(s) && t == s.(objects := t.objects) && t.objects.Keys == s.objects.Keys
    requires forall o | o in s.objects :: t.objects[o] == s.objects[o].(isDestroy := t.objects[o].isDestroy)
    ensures Core(t)
  {
    assert forall o | o in t.objects :: t.objects[o].name == s.objects[o].name;
    forall o | o in t.objects
      ensures Accounted(t, o)
    {
      assert Accounted(s, o);
      assert InMap(t, o) == InMap(s, o) && InRemoved(t, o) == InRemoved(s, o);
    }
  }

  lemma MarkKeepsCore(s: System, name: string)
    requires Core(s) && name in s.objMap && s.objMap[name] in s.objects
    ensures Core(MarkDestroyed(s, name))
  {
    FlagsKeepCore(s, MarkDestroyed(s, name));
  }

  lemma ReclaimKeepsCore(s: System)
    requires Core(s)
    ensures Core(Reclaim(s))
    ensures forall k | k in Reclaim(s).removedMap :: !Reclaimable(Reclaim(s), k)
  {
    var t := Reclaim(s);
    forall o | o in t.objects
      ensures Accounted(t, o)
    {
      assert Accounted(s, o);
      assert InMap(t, o) == InMap(s, o);
      if InRemoved(s, o) {
        var k :| k in s.removedMap && s.removedMap[k] == o;
        assert Reclaimable(s, k) <==> s.objects[o].refCnt == 0;
        assert k in t.removedMap <==> !Reclaimable(s, k);
        assert InRemoved(t, o) <==> !Reclaimable(s, k);
      } else {
        assert !InRemoved(t, o);
      }
    }
  }

  lemma UnmapKeepsOther(s: System, name: string, key: string, o: int)
    requires Core(s) && name in s.objMap && s.objMap[name] in s.objects && key !in s.removedMap
    requires o in s.objects && o != s.objMap[name]
    ensures Accounted(Unmap(s, name, key), o)
  {
    var t := Unmap(s, name, key);
    assert Accounted(s, o);
    assert InMap(t, o) == InMap(s, o);
    if InRemoved(s, o) {
      var k :| k in s.removedMap && s.removedMap[k] == o;
      assert t.removedMap[k] == o;
    }
    assert InRemoved(t, o) <==> InRemoved(s, o);
  }

  lemma UnmapKeepsOwn(s: System, name: string, key: string)
    requires Core(s) && name in s.objMap && s.objMap[name] in s.objects && key !in s.removedMap
    ensures Accounted(Unmap(s, name, key), s.objMap[name])
  {
    var t, id := Unmap(s, name, key), s.objMap[name];
    assert InMap(s, id) && Accounted(s, id) && !InRemoved(s, id);
    assert !InMap(t, id);
    if s.objects[id].refCnt == 1 {
      assert |Listers(s.nodes, name, id)| == 0;
      assert !InRemoved(t, id);
    } else {
      assert t.removedMap[key] == id && InRemoved(t, id);
    }
  }

  lemma UnmapKeepsNames(s: System, name: string, key: string)
    requires Core(s) && name in s.objMap && s.objMap[name] in s.objects && key !in s.removedMap
    ensures NamesMatch(Unmap(s, name, key))
  {
    assert InMap(s, s.objMap[name]) && Accounted(s, s.objMap[name]);
  }

  lemma UnmapKeepsCore(s: System, name: string, key: string)
    requires Core(s) && name in s.objMap && s.objMap[name] in s.objects && key !in s.removedMap
    ensures Core(Unmap(s, name, key))
  {
    UnmapKeepsNames(s, name, key);
    UnmapKeepsOwn(s, name, key);
    forall o | o in Unmap(s, name, key).objects && o != s.objMap[name]
      ensures Accounted(Unmap(s, name, key), o)
    {
      UnmapKeepsOther(s, name, key, o);
    }
  }

  lemma DestroyMarksRight(s: System, name: string, key: string)
    requires NamesMatch(s) && MarkedRight(s) && name in s.objMap
    ensures MarkedRight(Destroy(s, name, key))
  {
    var id, t := s.objMap[name], Destroy(s, name, key);
    forall o | t.ownerAlive && o in t.objects && t.objects[o].releases == 0
      ensures t.objects[o].isDestroy <==> !InMap(t, o)
    {
      assert t.objects[o].name == s.objects[o].name && s.objects[o].releases == 0;
      assert InMap(t, o) <==> InMap(s, o) && o != id;
    }
  }

  lemma DestroyKeepsInv(s: System, name: string, key: string)
    requires Inv(s) && name in s.objMap && s.objMap[name] in s.objects && key !in s.removedMap
    ensures Inv(Destroy(s, name, key))
  {
    DestroyMarksRight(s, name, key);
    MarkKeepsCore(s, name);
    var t := MarkDestroyed(s, name);
    ReclaimKeepsCore(t);
    UnmapKeepsCore(Reclaim(t), name, key);
  }

  lemma CreateKeepsInv(s: System, name: string, id: int)
    requires Inv(s) && id !in s.objects
    ensures Inv(Create(s, name, id))
  {
    CreateKeepsCore(s, name, id);
    var t := Create(s, name, id);
    forall o | t.ownerAlive && o in t.objects && t.objects[o].releases == 0
      ensures t.objects[o].isDestroy <==> !InMap(t, o)
    {
      assert o in s.objects ==> InMap(t, o) == InMap(s, o);
    }
  }

  lemma CountingKeepsInv(s: System, n: int, key: string)
    requires Inv(s) && n in s.nodes
    ensures key in s.objMap && s.objMap[key] in s.objects && key !in s.nodes[n].objList ==> Inv(CountIn(s, n, key))
    ensures key in s.nodes[n].objList && s.nodes[n].objList[key] in s.objects ==> Inv(CountOut(s, n, key))
  {
    if key in s.objMap && s.objMap[key] in s.objects && key !in s.nodes[n].objList {
      CountInKeepsCore(s, n, key);
      assert forall o | o in s.objects :: InMap(CountIn(s, n, key), o) == InMap(s, o);
    }
    if key in s.nodes[n].objList && s.nodes[n].objList[key] in s.objects {
      CountOutKeepsCore(s, n, key);
      assert forall o | o in s.objects :: InMap(CountOut(s, n, key), o) == InMap(s, o);
    }
  }

  /** Neither a new node nor a name to wait for nor the owner's own handles touch any count. */
  lemma ListsKeepCore(s: System, t: System)
    requires Core(s) && t == s.(ownList := t.ownList, ownerAlive := t.ownerAlive, nodes := t.nodes)
    requires forall n | n in s.nodes :: n in t.nodes && t.nodes[n].objList == s.nodes[n].objList
    requires forall n | n in t.nodes && n !in s.nodes :: t.nodes[n].objList == map[]
    requires forall n | n in t.nodes :: t.nodes[n].objList.Keys !! t.nodes[n].removedList
    ensures Core(t)
    ensures forall o | o in s.objects :: InMap(t, o) == InMap(s, o)
  {
    forall o | o in t.objects
      ensures Accounted(t, o)
    {
      assert Accounted(s, o);
      assert InMap(t, o) == InMap(s, o) && InRemoved(t, o) == InRemoved(s, o);
      assert Listers(t.nodes, s.objects[o].name, o) == Listers(s.nodes, s.objects[o].name, o);
    }
  }

  predicate OwnerActs(step: Step) {
    step.DoCreate? || step.DoDropHandle? || step.DoDestroy? || step.DoOwnerDies?
  }

  lemma OwnerStepKeepsInv(s: System, step: Step)
    requires Inv(s) && Enabled(s, step) && OwnerActs(step)
    ensures Inv(Act(s, step))
  {
    match step {
      case DoCreate(name, id) => CreateKeepsInv(s, name, id);
      case DoDestroy(name, key) => DestroyKeepsInv(s, name, key);
      case DoDropHandle(_) => ListsKeepCore(s, Act(s, step));
      case DoOwnerDies => ListsKeepCore(s, Act(s, step));
    }
  }

  lemma DiscoverKeepsInv(s: System, n: int, key: string)
    requires Inv(s) && n in s.nodes
    ensures Inv(Discover(s, n, key))
  {
    if key !in s.nodes[n].objList && key !in s.nodes[n].removedList {
      if Findable(s, key) {
        CountingKeepsInv(s, n, key);
      } else {
        ListsKeepCore(s, Wait(s, n, key));
      }
    }
  }

  lemma MonitorDropKeepsInv(s: System, n: int, key: string)
    requires Inv(s) && Enabled(s, DoMonitorDrop(n, key))
    ensures Inv(MonitorDrop(s, n, key))
  {
    CountOutKeepsCore(s, n, key);
    FlagsKeepCore(CountOut(s, n, key), MonitorDrop(s, n, key));
  }

  lemma StepKeepsInv(s: System, step: Step)
    requires Inv(s) && Enabled(s, step)
    ensures Inv(Act(s, step))
  {
    if OwnerActs(step) {
      OwnerStepKeepsInv(s, step);
    } else {
      match step {
        case DoDiscover(n, key) => DiscoverKeepsInv(s, n, key);
        case DoRediscover(n, key) => CountingKeepsInv(s, n, key);
        case DoSweep(n, key) => CountingKeepsInv(s, n, key);
        case DoMonitorDrop(n, key) => MonitorDropKeepsInv(s, n, key);
        case DoJoin(_) => ListsKeepCore(s, Act(s, step));
      }
    }
  }

  ghost predicate Trace(tr: seq<System>, steps: seq<Step>) {
    && |tr| == |steps| + 1 && tr[0] == START
    && forall i | 0 <= i < |steps| :: Enabled(tr[i], steps[i]) && tr[i + 1] == Act(tr[i], steps[i])
  }

  lemma {:induction false} TraceKeepsInv(tr: seq<System>, steps: seq<Step>, i: nat)
    requires Trace(tr, steps) && i < |tr|
    ensures Inv(tr[i])
  {
    if i > 0 {
      TraceKeepsInv(tr, steps, i - 1);
      assert Enabled(tr[i - 1], steps[i - 1]) && tr[i - 1 + 1] == Act(tr[i - 1], steps[i - 1]);
      StepKeepsInv(tr[i - 1], steps[i - 1]);
    }
  }

  /**
   * In every reachable state an object that has not been given back counts exactly the owner's
   * map entry and the nodes that list it; none is given back twice, and none while listed or
   * still in one of the owner's maps.
   */
  lemma CountsAreExact(tr: seq<System>, steps: seq<Step>, i: nat, o: int)
    requires Trace(tr, steps) && i < |tr| && o in tr[i].objects
    ensures var s := tr[i];
            var info := s.objects[o];
            && info.releases <= 1
            && (info.releases == 0 ==>
                  info.refCnt == (if InMap(s, o) then 1 else 0) + |Listers(s.nodes, info.name, o)|)
            && (info.releases == 1 ==> forall n, name :: !Lists(s.nodes, n, name, o))
            && (info.releases == 1 ==> !InMap(s, o) && !InRemoved(s, o))
  {
    TraceKeepsInv(tr, steps, i);
    var s := tr[i];
    assert Accounted(s, o);
    forall n, name | Lists(s.nodes, n, name, o)
      ensures s.objects[o].releases == 0
    {
      assert n in Listers(s.nodes, s.objects[o].name, o);
    }
  }

  lemma UnmappedIsCounted(s: System, name: string, key: string, o: int)
    requires Core(s) && (forall k | k in s.removedMap :: !Reclaimable(s, k))
    requires name in s.objMap && o in s.objects && Core(Unmap(s, name, key))
    requires !InMap(Unmap(s, name, key), o) && Unmap(s, name, key).objects[o].releases == 0
    ensures Accounted(Unmap(s, name, key), o) && Unmap(s, name, key).objects[o].refCnt > 0
  {
    var t := Unmap(s, name, key);
    assert Accounted(t, o) && InRemoved(t, o);
    if o != s.objMap[name] {
      var k :| k in t.removedMap && t.removedMap[k] == o;
      assert !Reclaimable(s, k);
    } else {
      assert Accounted(s, o) && InMap(s, o);
    }
  }

  /**
   * Nothing is leaked for long: after any destroy, every object not yet given back is still in
   * the object map or still listed by some node.
   */
  lemma DestroyLeavesNoGarbage(s: System, name: string, key: string, o: int) returns (n: int)
    requires Inv(s) && name in s.objMap && s.objMap[name] in s.objects && key !in s.removedMap
    requires o in s.objects && Destroy(s, name, key).objects[o].releases == 0
    requires !InMap(Destroy(s, name, key), o)
    ensures Lists(Destroy(s, name, key).nodes, n, s.objects[o].name, o)
  {
    MarkKeepsCore(s, name);
    var u := Reclaim(MarkDestroyed(s, name));
    ReclaimKeepsCore(MarkDestroyed(s, name));
    UnmapKeepsCore(u, name, key);
    var v := Unmap(u, name, key);
    UnmappedIsCounted(u, name, key, o);
    assert v.objects[o].refCnt == |Listers(v.nodes, s.objects[o].name, o)|;
    n :| n in Listers(v.nodes, s.objects[o].name, o);
  }

  // ---------------------------------------------------------------- what the loops compute

  lemma ReclaimNothing(s: System)
    ensures ReclaimSome(s, {}) == s
  {
    assert ReclaimSome(s, {}).objects == s.objects;
    assert ReclaimSome(s, {}).removedMap == s.removedMap;
  }

  lemma ReclaimNext(s: System, seen: set<string>, key: string)
    requires forall k | k in s.removedMap :: s.removedMap[k] in s.objects
    requires forall k, l | k in s.removedMap && l in s.removedMap && s.removedMap[k] == s.removedMap[l] :: k == l
    requires key in s.removedMap && key !in seen
    ensures var t := ReclaimSome(s, seen);
            && key in t.removedMap && t.removedMap[key] == s.removedMap[key] && t.removedMap[key] in t.objects
            && (Reclaimable(t, key) <==> Reclaimable(s, key))
            && ReclaimSome(s, seen + {key}) == if Reclaimable(t, key) then ReclaimOne(t, key) else t
  {
    var t, u := ReclaimSome(s, seen), ReclaimSome(s, seen + {key});
    var o := s.removedMap[key];
    assert t.objects[o] == s.objects[o];
    if Reclaimable(s, key) {
      assert u.removedMap == t.removedMap - {key};
      assert u.objects == t.objects[o := s.objects[o].(releases := s.objects[o].releases + 1)];
    } else {
      assert u.removedMap == t.removedMap;
      assert u.objects == t.objects;
    }
  }

  /** What a node lists and waits for once it has looked again for some of the names it waits for. */
  function RediscoveredSome(s: System, n: int, keys: set<string>): Node
    requires n in s.nodes
  {
    var node := s.nodes[n];
    var found := set k | k in node.removedList && k in keys && Findable(s, k);
    Node(map k | k in node.objList.Keys + found :: if k in node.objList then node.objList[k] else s.objMap[k],
         node.removedList - found)
  }

  function Rediscovered(s: System, n: int): Node
    requires n in s.nodes
  {
    RediscoveredSome(s, n, s.nodes[n].removedList)
  }

  predicate ListedDestroyed(s: System, n: int, k: string)
    requires n in s.nodes
  {
    k in s.nodes[n].objList && s.nodes[n].objList[k] in s.objects && s.objects[s.nodes[n].objList[k]].isDestroy
  }

  /** What it lists and waits for once it has checked some of its entries for destruction. */
  function SweptSome(s: System, n: int, keys: set<string>): Node
    requires n in s.nodes
  {
    var node := s.nodes[n];
    Node(map k | k in node.objList && !(k in keys && ListedDestroyed(s, n, k)) :: node.objList[k],
         node.removedList + set k | k in node.objList && k in keys && ListedDestroyed(s, n, k))
  }

  function Swept(s: System, n: int): Node
    requires n in s.nodes
  {
    SweptSome(s, n, s.nodes[n].objList.Keys)
  }

  predicate Holds(node: Node, name: string, o: int) {
    name in node.objList && node.objList[name] == o
  }

  /** The object when one node has come to list it, or no longer does, and nothing else has happened. */
  function Recounted(info: Object, o: int, was: Node, now: Node): Object {
    if Holds(now, info.name, o) && !Holds(was, info.name, o) then info.(refCnt := info.refCnt + 1)
    else if Holds(was, info.name, o) && !Holds(now, info.name, o) then info.(refCnt := info.refCnt - 1)
    else info
  }

  /** From `s` to `t` node n has become `node`, every count follows, and nothing else has changed. */
  ghost predicate OnlyCounts(s: System, t: System, n: int, node: Node)
    requires n in s.nodes
  {
    && t == s.(objects := t.objects, nodes := s.nodes[n := node]) && t.objects.Keys == s.objects.Keys
    && forall o | o in s.objects :: t.objects[o] == Recounted(s.objects[o], o, s.nodes[n], node)
  }

  lemma RecountedWithoutOne(info: Object, o: int, was: Node, node: Node, less: Node, key: string, id: int)
    requires Holds(was, key, id) && Holds(node, key, id) && less.objList == node.objList - {key}
    ensures var before := Recounted(info, o, was, node);
            Recounted(info, o, was, less) ==
            if info.name == key && o == id then before.(refCnt := before.refCnt - 1) else before
  {
  }

  lemma RediscoverNothing(s: System, n: int)
    requires n in s.nodes
    ensures OnlyCounts(s, s, n, RediscoveredSome(s, n, {}))
  {
    assert RediscoveredSome(s, n, {}).objList == s.nodes[n].objList;
    assert RediscoveredSome(s, n, {}).removedList == s.nodes[n].removedList;
    assert s.nodes[n := s.nodes[n]] == s.nodes;
  }

  lemma SweepNothing(s: System, n: int)
    requires n in s.nodes
    ensures OnlyCounts(s, s, n, SweptSome(s, n, {}))
  {
    assert SweptSome(s, n, {}).objList == s.nodes[n].objList;
    assert SweptSome(s, n, {}).removedList == s.nodes[n].removedList;
    assert s.nodes[n := s.nodes[n]] == s.nodes;
  }

  lemma RediscoveredWithOneMore(s: System, n: int, seen: set<string>, key: string)
    requires n in s.nodes && s.nodes[n].objList.Keys !! s.nodes[n].removedList
    requires key in s.nodes[n].removedList && key !in seen
    ensures var node := RediscoveredSome(s, n, seen);
            && key in node.removedList && key !in node.objList
            && RediscoveredSome(s, n, seen + {key}) ==
               if Findable(s, key) then Node(node.objList[key := s.objMap[key]], node.removedList - {key}) else node
  {
    var before, after := RediscoveredSome(s, n, seen), RediscoveredSome(s, n, seen + {key});
    if Findable(s, key) {
      assert after.objList == before.objList[key := s.objMap[key]];
      assert after.removedList == before.removedList - {key};
    } else {
      assert after.objList == before.objList;
      assert after.removedList == before.removedList;
    }
  }

  lemma RediscoverOnce(s: System, t: System, n: int, before: Node, key: string)
    requires n in s.nodes && OnlyCounts(s, t, n, before) && key !in s.nodes[n].objList && key !in before.objList
    requires key in s.objMap && s.objMap[key] in s.objects && s.objects[s.objMap[key]].name == key
    ensures OnlyCounts(s, CountIn(t, n, key), n, Node(before.objList[key := s.objMap[key]], before.removedList - {key}))
  {
    var after := Node(before.objList[key := s.objMap[key]], before.removedList - {key});
    assert s.nodes[n := before][n := after] == s.nodes[n := after];
    forall o | o in s.objects
      ensures CountIn(t, n, key).objects[o] == Recounted(s.objects[o], o, s.nodes[n], after)
    {
      assert t.objects[o] == Recounted(s.objects[o], o, s.nodes[n], before);
    }
  }

  lemma RediscoverNext(s: System, t: System, n: int, seen: set<string>, key: string)
    requires NamesMatch(s) && n in s.nodes
    requires key in s.nodes[n].removedList && key !in seen
    requires OnlyCounts(s, t, n, RediscoveredSome(s, n, seen))
    ensures key in t.nodes[n].removedList && key !in t.nodes[n].objList
    ensures OnlyCounts(s, if Findable(t, key) then CountIn(t, n, key) else t, n, RediscoveredSome(s, n, seen + {key}))
  {
    RediscoveredWithOneMore(s, n, seen, key);
    assert Findable(t, key) <==> Findable(s, key);
    if Findable(s, key) {
      RediscoverOnce(s, t, n, RediscoveredSome(s, n, seen), key);
    }
  }

  lemma SweptWithOneMore(s: System, n: int, seen: set<string>, key: string)
    requires n in s.nodes && key in s.nodes[n].objList && key !in seen
    ensures var node := SweptSome(s, n, seen);
            && Holds(node, key, s.nodes[n].objList[key])
            && SweptSome(s, n, seen + {key}) ==
               if ListedDestroyed(s, n, key) then Node(node.objList - {key}, node.removedList + {key}) else node
  {
    var before, after := SweptSome(s, n, seen), SweptSome(s, n, seen + {key});
    if ListedDestroyed(s, n, key) {
      assert after.objList == before.objList - {key};
      assert after.removedList == before.removedList + {key};
    } else {
      assert after.objList == before.objList;
      assert after.removedList == before.removedList;
    }
  }

  lemma SweepOnce(s: System, t: System, n: int, before: Node, key: string, id: int)
    requires n in s.nodes && OnlyCounts(s, t, n, before) && Holds(s.nodes[n], key, id) && Holds(before, key, id)
    requires id in s.objects && s.objects[id].name == key
    ensures OnlyCounts(s, CountOut(t, n, key), n, Node(before.objList - {key}, before.removedList + {key}))
  {
    var after := Node(before.objList - {key}, before.removedList + {key});
    assert s.nodes[n := before][n := after] == s.nodes[n := after];
    forall o | o in s.objects
      ensures CountOut(t, n, key).objects[o] == Recounted(s.objects[o], o, s.nodes[n], after)
    {
      RecountedWithoutOne(s.objects[o], o, s.nodes[n], before, after, key, id);
    }
  }

  lemma SweepNext(s: System, t: System, n: int, seen: set<string>, key: string)
    requires NamesMatch(s) && n in s.nodes && key in s.nodes[n].objList && key !in seen
    requires OnlyCounts(s, t, n, SweptSome(s, n, seen))
    ensures key in t.nodes[n].objList && t.nodes[n].objList[key] in t.objects
    ensures OnlyCounts(s, if ListedDestroyed(t, n, key) then CountOut(t, n, key) else t, n,
                       SweptSome(s, n, seen + {key}))
  {
    var id := s.nodes[n].objList[key];
    SweptWithOneMore(s, n, seen, key);
    assert t.nodes[n] == SweptSome(s, n, seen);
    assert t.objects[id] == Recounted(s.objects[id], id, s.nodes[n], t.nodes[n]);
    if ListedDestroyed(s, n, key) {
      SweepOnce(s, t, n, SweptSome(s, n, seen), key, id);
    }
  }

  /** What it lists and waits for once it has dropped some entries of a dead owner. */
  function DroppedSome(s: System, n: int, keys: set<string>): Node
    requires n in s.nodes
  {
    Node(s.nodes[n].objList - keys, s.nodes[n].removedList + s.nodes[n].objList.Keys * keys)
  }

  /** The object when one node has dropped it because its owner is dead. */
  function Dropped(info: Object, o: int, was: Node, now: Node): Object {
    if Holds(was, info.name, o) && !Holds(now, info.name, o) then info.(refCnt := info.refCnt - 1, isDestroy := true)
    else info
  }

  /** From `s` to `t` node n has become `node`, what it dropped is marked, and nothing else has changed. */
  ghost predicate OnlyDrops(s: System, t: System, n: int, node: Node)
    requires n in s.nodes
  {
    && t == s.(objects := t.objects, nodes := s.nodes[n := node]) && t.objects.Keys == s.objects.Keys
    && forall o | o in s.objects :: t.objects[o] == Dropped(s.objects[o], o, s.nodes[n], node)
  }

  lemma DroppedWithoutOne(info: Object, o: int, was: Node, node: Node, less: Node, key: string, id: int)
    requires Holds(was, key, id) && Holds(node, key, id) && less.objList == node.objList - {key}
    ensures var before := Dropped(info, o, was, node);
            Dropped(info, o, was, less) ==
            if info.name == key && o == id then before.(refCnt := before.refCnt - 1, isDestroy := true) else before
  {
  }

  lemma DroppedWithOneMore(s: System, n: int, seen: set<string>, key: string)
    requires n in s.nodes && key in s.nodes[n].objList && key !in seen
    ensures var node := DroppedSome(s, n, seen);
            && Holds(node, key, s.nodes[n].objList[key])
            && DroppedSome(s, n, seen + {key}) == Node(node.objList - {key}, node.removedList + {key})
  {
    var before, after := DroppedSome(s, n, seen), DroppedSome(s, n, seen + {key});
    assert after.objList == before.objList - {key};
    assert after.removedList == before.removedList + {key};
  }

  lemma DropOnce(s: System, t: System, n: int, before: Node, key: string, id: int)
    requires n in s.nodes && OnlyDrops(s, t, n, before) && Holds(s.nodes[n], key, id) && Holds(before, key, id)
    requires id in s.objects && s.objects[id].name == key
    ensures OnlyDrops(s, MonitorDrop(t, n, key), n, Node(before.objList - {key}, before.removedList + {key}))
  {
    var after := Node(before.objList - {key}, before.removedList + {key});
    assert s.nodes[n := before][n := after] == s.nodes[n := after];
    forall o | o in s.objects
      ensures MonitorDrop(t, n, key).objects[o] == Dropped(s.objects[o], o, s.nodes[n], after)
    {
      DroppedWithoutOne(s.objects[o], o, s.nodes[n], before, after, key, id);
    }
  }

  lemma DropNext(s: System, t: System, n: int, seen: set<string>, key: string)
    requires NamesMatch(s) && n in s.nodes && key in s.nodes[n].objList && key !in seen
    requires OnlyDrops(s, t, n, DroppedSome(s, n, seen))
    ensures key in t.nodes[n].objList && t.nodes[n].objList[key] in t.objects
    ensures OnlyDrops(s, MonitorDrop(t, n, key), n, DroppedSome(s, n, seen + {key}))
  {
    DroppedWithOneMore(s, n, seen, key);
    DropOnce(s, t, n, DroppedSome(s, n, seen), key, s.nodes[n].objList[key]);
  }

  lemma DropNothing(s: System, n: int)
    requires n in s.nodes
    ensures OnlyDrops(s, s, n, DroppedSome(s, n, {}))
  {
    assert DroppedSome(s, n, {}).objList == s.nodes[n].objList;
    assert DroppedSome(s, n, {}).removedList == s.nodes[n].removedList;
    assert s.nodes[n := s.nodes[n]] == s.nodes;
  }

  /** Everything the node lists is what the owner's map now holds under that name. */
  ghost predicate UpToDate(s: System, n: int) {
    && n in s.nodes
    && (forall k | k in s.nodes[n].objList :: k in s.objMap && s.objMap[k] == s.nodes[n].objList[k])
  }

  /** After a sweep a node with a live owner lists nothing that has left the owner's map. */
  lemma SweepSettles(s: System, t: System, n: int)
    requires Inv(s) && Inv(t) && n in s.nodes && t.ownerAlive
    requires OnlyCounts(s, t, n, Swept(s, n))
    ensures UpToDate(t, n)
  {
    forall k | k in t.nodes[n].objList
      ensures k in t.objMap && t.objMap[k] == t.nodes[n].objList[k]
    {
      var o := t.nodes[n].objList[k];
      assert Accounted(t, o) && n in Listers(t.nodes, k, o);
      assert k in s.nodes[n].objList && !ListedDestroyed(s, n, k);
      assert !t.objects[o].isDestroy;
    }
  }
}
