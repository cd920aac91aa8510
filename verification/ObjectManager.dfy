/** The object managers of the owner and of its external nodes, run over their maps in place. */
module ObjectManager {
  import opened ObjectLife
  import opened ObjectEffects

  /** What a loop over a set has still to do and what it has done. */
  ghost predicate Parted(all: set<string>, todo: set<string>, seen: set<string>) {
    todo + seen == all && todo !! seen
  }

  lemma PartNext(all: set<string>, todo: set<string>, seen: set<string>, key: string)
    requires Parted(all, todo, seen) && key in todo
    ensures Parted(all, todo - {key}, seen + {key})
  {
  }

  class ShmObjManager {
    var objects: map<int, Object>
    var objMap: map<string, int>
    var removedMap: map<string, int>
    var ownList: set<string>
    var ownerAlive: bool
    var nodes: map<int, Node>

    ghost function View(): System
      reads this
    {
      System(objects, objMap, removedMap, ownList, ownerAlive, nodes)
    }

    ghost predicate Valid()
      reads this
    {
      Inv(View())
    }

    constructor ()
      ensures Valid() && View() == START
    {
      objects, objMap, removedMap, ownList, ownerAlive, nodes := map[], map[], map[], {}, true, map[];
    }

    /** The result is the object the caller gets a handle for, -1 for none. */
    method Create(name: string, id: int) returns (ret: int)
      requires Valid() && ownerAlive && id !in objects && id >= 0
      modifies this
      ensures Valid() && View() == ObjectLife.Create(old(View()), name, id)
      ensures ret == if name in old(ownList) then (if name in objMap then objMap[name] else -1)
                     else if name in old(objMap) then -1 else id
      ensures name in ownList <==> name in old(ownList) || name !in old(objMap)
      ensures name !in old(ownList) && name !in old(objMap) ==>
                name in objMap && objMap[name] == id && id in objects && objects[id] == Object(name, 1, false, 0)
    {
      CreateKeepsInv(View(), name, id);
      ret := -1;
      if name in ownList {
        if name in objMap {
          ret := objMap[name];
        }
      } else if name !in objMap {
        objects := objects[id := Object(name, 1, false, 0)];
        objMap := objMap[name := id];
        ret := id;
        ownList := ownList + {name};
      }
    }

    /** One pass of the loop in clear_shm_obj_remove_map_. */
    method ReclaimKey(key: string)
      requires key in removedMap && removedMap[key] in objects
      modifies `objects, `removedMap
      ensures View() == if Reclaimable(old(View()), key) then ReclaimOne(old(View()), key) else old(View())
    {
      var o := removedMap[key];
      if objects[o].refCnt == 0 {
        objects := objects[o := objects[o].(releases := objects[o].releases + 1)];
        removedMap := removedMap - {key};
      }
    }

    /** clear_shm_obj_remove_map_. */
    method ClearRemoveMap()
      requires Core(View())
      modifies `objects, `removedMap
      ensures View() == Reclaim(old(View()))
    {
      ghost var s := View();
      var todo := removedMap.Keys;
      ghost var all, seen: set<string> := todo, {};
      ReclaimNothing(s);
      while todo != {}
        invariant Parted(all, todo, seen)
        invariant View() == ReclaimSome(s, seen)
        decreases todo
      {
        var key :| key in todo;
        ReclaimNext(s, seen, key);
        ReclaimKey(key);
        PartNext(all, todo, seen, key);
        todo := todo - {key};
        seen := seen + {key};
      }
    }

    /** The first part of destroy, under the node map lock only. */
    method DropHandle(name: string)
      requires Valid() && ownerAlive
      modifies `ownList
      ensures Valid() && View() == ObjectLife.DropHandle(old(View()), name)
      ensures ownList == old(ownList) - {name}
    {
      StepKeepsInv(View(), DoDropHandle(name));
      ownList := ownList - {name};
    }

    /** The end of the second part of destroy. */
    method UnmapObject(name: string, key: string)
      requires name in objMap && objMap[name] in objects
      modifies this
      ensures View() == Unmap(old(View()), name, key)
    {
      var o := objMap[name];
      if objects[o].refCnt == 1 {
        objects := objects[o := objects[o].(releases := objects[o].releases + 1)];
      } else {
        objects := objects[o := objects[o].(refCnt := objects[o].refCnt - 1)];
        removedMap := removedMap[key := o];
      }
      objMap := objMap - {name};
    }

    /** The second part of destroy; `key` is the name with the time of destruction appended. */
    method DestroyObject(name: string, key: string)
      requires Valid() && ownerAlive && key !in removedMap
      modifies this
      ensures Valid()
      ensures View() == if name in old(objMap) then Destroy(old(View()), name, key) else old(View())
      ensures name in old(objMap) ==> Destroyed(old(View()), name, key, View())
      ensures name !in objMap
    {
      if name in objMap {
        ghost var s := View();
        DestroyTakesEffect(s, name, key);
        DestroyKeepsInv(s, name, key);
        MarkKeepsCore(s, name);
        var o := objMap[name];
        objects := objects[o := objects[o].(isDestroy := true)];
        assert View() == MarkDestroyed(s, name);
        ClearRemoveMap();
        UnmapObject(name, key);
      }
    }

    /** discovery_shm_ for an external node; the owner is skipped unless its process is alive. */
    method DiscoveryShm(n: int, key: string) returns (found: bool)
      requires Valid() && n in nodes && key !in nodes[n].objList
      modifies `objects, `nodes
      ensures Valid() && (found <==> Findable(old(View()), key))
      ensures View() == if found then CountIn(old(View()), n, key) else old(View())
    {
      CountingKeepsInv(View(), n, key);
      found := false;
      if ownerAlive && key in objMap {
        var o := objMap[key];
        objects := objects[o := objects[o].(refCnt := objects[o].refCnt + 1)];
        nodes := nodes[n := Node(nodes[n].objList[key := o], nodes[n].removedList - {key})];
        found := true;
      }
    }

    method Discovery(n: int, key: string)
      requires Valid() && n in nodes
      modifies `objects, `nodes
      ensures Valid() && View() == Discover(old(View()), n, key)
      ensures if key in old(nodes[n]).objList || key in old(nodes[n]).removedList then View() == old(View())
              else Discovered(old(View()), n, key, View())
    {
      ghost var s := View();
      DiscoverTakesEffect(s, n, key);
      StepKeepsInv(s, DoDiscover(n, key));
      if key !in nodes[n].objList && key !in nodes[n].removedList {
        var found := DiscoveryShm(n, key);
        if !found {
          nodes := nodes[n := nodes[n].(removedList := nodes[n].removedList + {key})];
        }
      }
    }

    /** The first loop of the inotify handler: names waited for that have come into being. */
    method RediscoverAll(n: int)
      requires Valid() && n in nodes
      modifies `objects, `nodes
      ensures Valid() && OnlyCounts(old(View()), View(), n, Rediscovered(old(View()), n))
    {
      ghost var s := View();
      var todo := nodes[n].removedList;
      ghost var all, seen: set<string> := todo, {};
      RediscoverNothing(s, n);
      while todo != {}
        invariant Parted(all, todo, seen)
        invariant Inv(View()) && n in s.nodes && OnlyCounts(s, View(), n, RediscoveredSome(s, n, seen))
        decreases todo
      {
        var key :| key in todo;
        RediscoverNext(s, View(), n, seen, key);
        var found := DiscoveryShm(n, key);
        PartNext(all, todo, seen, key);
        todo := todo - {key};
        seen := seen + {key};
      }
    }

    /** One pass of the second loop. */
    method SweepKey(n: int, key: string)
      requires Valid() && n in nodes && key in nodes[n].objList && nodes[n].objList[key] in objects
      modifies `objects, `nodes
      ensures Valid()
      ensures View() == if ListedDestroyed(old(View()), n, key) then CountOut(old(View()), n, key) else old(View())
    {
      var o := nodes[n].objList[key];
      if objects[o].isDestroy {
        CountingKeepsInv(View(), n, key);
        ghost var t := CountOut(View(), n, key);
        objects := objects[o := objects[o].(refCnt := objects[o].refCnt - 1)];
        nodes := nodes[n := Node(nodes[n].objList - {key}, nodes[n].removedList + {key})];
        assert View() == t;
      }
    }

    method SweepPass(n: int, key: string, ghost s: System, ghost seen: set<string>)
      requires Valid() && NamesMatch(s) && n in s.nodes && key in s.nodes[n].objList && key !in seen
      requires OnlyCounts(s, View(), n, SweptSome(s, n, seen))
      modifies `objects, `nodes
      ensures Valid() && OnlyCounts(s, View(), n, SweptSome(s, n, seen + {key}))
    {
      SweepNext(s, View(), n, seen, key);
      SweepKey(n, key);
    }

    /** The second loop of the inotify handler: listed objects that have been destroyed. */
    method SweepAll(n: int)
      requires Valid() && n in nodes
      modifies `objects, `nodes
      ensures Valid() && OnlyCounts(old(View()), View(), n, Swept(old(View()), n))
    {
      ghost var s := View();
      var todo := nodes[n].objList.Keys;
      ghost var all, seen: set<string> := todo, {};
      SweepNothing(s, n);
      while todo != {}
        invariant Parted(all, todo, seen)
        invariant Valid() && OnlyCounts(s, View(), n, SweptSome(s, n, seen))
        decreases todo
      {
        var key :| key in todo;
        SweepPass(n, key, s, seen);
        PartNext(all, todo, seen, key);
        todo := todo - {key};
        seen := seen + {key};
      }
      assert seen == all;
    }

    /** inotify_shared_object_monitor_, for an event of the owner's directory. */
    method InotifyEvent(n: int)
      requires Valid()
      modifies `objects, `nodes
      ensures Valid()
      ensures n !in old(nodes) ==> View() == old(View())
      ensures n in old(nodes) ==> exists t ::
                && OnlyCounts(old(View()), t, n, Rediscovered(old(View()), n))
                && n in t.nodes && OnlyCounts(t, View(), n, Swept(t, n))
      ensures n in old(nodes) && ownerAlive ==> UpToDate(View(), n)
      ensures n in old(nodes) && ownerAlive ==> Settled(old(View()), old(nodes[n]), nodes[n])
    {
      if n in nodes {
        ghost var s := View();
        RediscoverAll(n);
        ghost var t := View();
        SweepAll(n);
        if ownerAlive {
          EventSettles(s, t, View(), n);
          SweepSettles(t, View(), n);
        }
      }
    }

    /** One pass of the inner loop of node_monitor_. */
    method MonitorKey(n: int, key: string)
      requires Valid() && !ownerAlive && n in nodes && key in nodes[n].objList && nodes[n].objList[key] in objects
      modifies `objects, `nodes
      ensures Valid() && View() == MonitorDrop(old(View()), n, key)
    {
      StepKeepsInv(View(), DoMonitorDrop(n, key));
      ghost var t := MonitorDrop(View(), n, key);
      var o := nodes[n].objList[key];
      objects := objects[o := objects[o].(refCnt := objects[o].refCnt - 1)];
      objects := objects[o := objects[o].(isDestroy := true)];
      nodes := nodes[n := Node(nodes[n].objList - {key}, nodes[n].removedList + {key})];
      assert objects == t.objects;
      assert View() == t;
    }

    method MonitorPass(n: int, key: string, ghost s: System, ghost seen: set<string>)
      requires Valid() && !ownerAlive && NamesMatch(s) && n in s.nodes && key in s.nodes[n].objList && key !in seen
      requires OnlyDrops(s, View(), n, DroppedSome(s, n, seen))
      modifies `objects, `nodes
      ensures Valid() && OnlyDrops(s, View(), n, DroppedSome(s, n, seen + {key}))
    {
      DropNext(s, View(), n, seen, key);
      MonitorKey(n, key);
    }

    /** node_monitor_ for one node whose owner may have died. */
    method NodeMonitor(n: int)
      requires Valid() && n in nodes
      modifies `objects, `nodes
      ensures Valid()
      ensures ownerAlive ==> View() == old(View())
      ensures !ownerAlive ==>
        OnlyDrops(old(View()), View(), n, Node(map[], old(nodes[n].removedList + nodes[n].objList.Keys)))
    {
      if !ownerAlive {
        ghost var s := View();
        var todo := nodes[n].objList.Keys;
        ghost var all, seen: set<string> := todo, {};
        DropNothing(s, n);
        while todo != {}
          invariant Parted(all, todo, seen)
          invariant Valid() && !ownerAlive && OnlyDrops(s, View(), n, DroppedSome(s, n, seen))
          decreases todo
        {
          var key :| key in todo;
          MonitorPass(n, key, s, seen);
          PartNext(all, todo, seen, key);
          todo := todo - {key};
          seen := seen + {key};
        }
        assert seen == all;
        assert DroppedSome(s, n, seen) == Node(map[], s.nodes[n].removedList + s.nodes[n].objList.Keys);
      }
    }
  }
}
