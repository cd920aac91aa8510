/** What the operations on shared objects achieve, for whoever looks at the maps afterwards. */
module ObjectEffects {
  import opened ObjectLife

  // ---------------------------------------------------------------- destroy

  /** Where the object destroyed ends up: given back at once if no node lists it, else kept for them. */
  ghost predicate LeftTo(s: System, name: string, key: string, t: System)
    requires name in s.objMap
  {
    var o := s.objMap[name];
    && o in t.objects && t.objects[o].isDestroy && t.objMap == s.objMap - {name}
    && if Listers(s.nodes, name, o) == {} then t.objects[o].releases == 1 && !InRemoved(t, o)
       else
         && t.objects[o].releases == 0 && t.objects[o].refCnt == |Listers(s.nodes, name, o)|
         && key in t.removedMap && t.removedMap[key] == o
  }

  /** What becomes of the objects destroyed earlier: those nobody lists any more are given back. */
  ghost predicate Cleared(s: System, key: string, t: System) {
    forall k | k in s.removedMap && k != key ::
      var o := s.removedMap[k];
      && o in s.objects && o in t.objects
      && if s.objects[o].refCnt == 0 then k !in t.removedMap && t.objects[o].releases == 1
         else k in t.removedMap && t.removedMap[k] == o && t.objects[o] == s.objects[o]
  }

  ghost predicate Destroyed(s: System, name: string, key: string, t: System)
    requires name in s.objMap
  {
    && LeftTo(s, name, key, t) && Cleared(s, key, t)
    && t.nodes == s.nodes && t.ownList == s.ownList && t.ownerAlive == s.ownerAlive
    && t.removedMap.Keys <= s.removedMap.Keys + {key}
    && t.objects.Keys == s.objects.Keys
    && forall o | o in s.objects && !InRemoved(s, o) && o != s.objMap[name] :: t.objects[o] == s.objects[o]
  }

  /** Reclaiming does not reach an object that is mapped. */
  lemma ReclaimSpares(s: System, o: int)
    requires o in s.objects && !InRemoved(s, o)
    ensures Reclaim(s).objects[o] == s.objects[o]
  {
  }

  lemma ReclaimClears(s: System, k: string)
    requires Core(s) && k in s.removedMap
    ensures var o, t := s.removedMap[k], Reclaim(s);
            if s.objects[o].refCnt == 0 then k !in t.removedMap && t.objects[o].releases == 1
            else k in t.removedMap && t.removedMap[k] == o && t.objects[o] == s.objects[o]
  {
    var o := s.removedMap[k];
    assert InRemoved(s, o) && Accounted(s, o);
    assert Reclaimable(s, k) <==> s.objects[o].refCnt == 0;
  }

  lemma DestroyClears(s: System, name: string, key: string)
    requires Inv(s) && name in s.objMap && s.objMap[name] in s.objects && key !in s.removedMap
    ensures Cleared(s, key, Destroy(s, name, key))
  {
    var m, id, t := MarkDestroyed(s, name), s.objMap[name], Destroy(s, name, key);
    MarkKeepsCore(s, name);
    assert Accounted(s, id) && InMap(s, id) && !InRemoved(s, id);
    forall k | k in s.removedMap && k != key
      ensures var o := s.removedMap[k];
              && o in s.objects && o in t.objects
              && if s.objects[o].refCnt == 0 then k !in t.removedMap && t.objects[o].releases == 1
                 else k in t.removedMap && t.removedMap[k] == o && t.objects[o] == s.objects[o]
    {
      ReclaimClears(m, k);
    }
  }

  lemma DestroyLeaves(s: System, name: string, key: string)
    requires Inv(s) && name in s.objMap && s.objMap[name] in s.objects && key !in s.removedMap
    ensures LeftTo(s, name, key, Destroy(s, name, key))
  {
    var m, id := MarkDestroyed(s, name), s.objMap[name];
    assert Accounted(s, id) && InMap(s, id) && !InRemoved(s, id);
    assert !InRemoved(m, id);
    ReclaimSpares(m, id);
    if Listers(s.nodes, name, id) != {} {
      assert |Listers(s.nodes, name, id)| > 0;
    }
  }

  /**
   * destroy takes the object out of the owner's map and marks it; it is given back at once if no
   * node lists it and otherwise kept, with one reference per node that does.
   */
  lemma DestroyTakesEffect(s: System, name: string, key: string)
    requires Inv(s) && name in s.objMap && s.objMap[name] in s.objects && key !in s.removedMap
    ensures Destroyed(s, name, key, Destroy(s, name, key))
    ensures !Findable(Destroy(s, name, key), name)
  {
    DestroyLeaves(s, name, key);
    DestroyClears(s, name, key);
    var m, id := MarkDestroyed(s, name), s.objMap[name];
    forall o | o in s.objects && !InRemoved(s, o) && o != id
      ensures Destroy(s, name, key).objects[o] == s.objects[o]
    {
      assert !InRemoved(m, o);
      ReclaimSpares(m, o);
    }
  }

  // ---------------------------------------------------------------- create and discover

  /** After a create the owner holds the name, unless it is mapped and the owner had let go of it. */
  lemma CreateTakesEffect(s: System, name: string, id: int)
    requires Inv(s) && id !in s.objects
    ensures var t := Create(s, name, id);
            && (name in t.ownList <==> name in s.ownList || name !in s.objMap)
            && (name !in s.ownList && name !in s.objMap ==>
                  && name in t.objMap && t.objMap[name] == id
                  && id in t.objects && t.objects[id] == Object(name, 1, false, 0))
            && (name in s.ownList || name in s.objMap ==> t.objMap == s.objMap && t.objects == s.objects)
            && (forall o | o in s.objects :: o in t.objects && t.objects[o] == s.objects[o])
            && t.removedMap == s.removedMap && t.nodes == s.nodes
            && forall other | other != name ::
                 && (other in t.ownList <==> other in s.ownList)
                 && (other in t.objMap <==> other in s.objMap)
                 && (other in s.objMap ==> t.objMap[other] == s.objMap[other])
  {
  }

  /** A node that discovers a name it does not know is counted in if the object is there, else it waits. */
  ghost predicate Discovered(s: System, n: int, key: string, t: System)
    requires n in s.nodes
  {
    if s.ownerAlive && key in s.objMap then
      var o := s.objMap[key];
      && o in s.objects && Lists(t.nodes, n, key, o) && key !in t.nodes[n].removedList
      && t.objects == s.objects[o := s.objects[o].(refCnt := s.objects[o].refCnt + 1)]
    else
      && n in t.nodes && key !in t.nodes[n].objList && key in t.nodes[n].removedList
      && t.objects == s.objects
  }

  lemma DiscoverTakesEffect(s: System, n: int, key: string)
    requires Inv(s) && n in s.nodes
    ensures var t := Discover(s, n, key);
            if key in s.nodes[n].objList || key in s.nodes[n].removedList then t == s
            else
              && Discovered(s, n, key, t)
              && t.nodes.Keys == s.nodes.Keys && (forall m | m in s.nodes && m != n :: t.nodes[m] == s.nodes[m])
              && t.objMap == s.objMap && t.removedMap == s.removedMap && t.ownList == s.ownList
  {
  }

  /** A node that looks for a new object finds it and is the second to be counted. */
  lemma CreatedIsFound(s: System, name: string, id: int, n: int)
    requires Inv(s) && s.ownerAlive && name !in s.ownList && name !in s.objMap && id !in s.objects
    requires n in s.nodes && name !in s.nodes[n].objList && name !in s.nodes[n].removedList
    ensures n in Create(s, name, id).nodes
    ensures var t := Discover(Create(s, name, id), n, name);
            && Inv(t) && Lists(t.nodes, n, name, id)
            && id in t.objects && t.objects[id] == Object(name, 2, false, 0)
  {
    var a := Create(s, name, id);
    CreateKeepsInv(s, name, id);
    DiscoverKeepsInv(a, n, name);
    DiscoverTakesEffect(a, n, name);
  }

  /** A name whose object was destroyed can be used again while nodes still list the old object. */
  lemma NameIsFreeAgain(s: System, name: string, key: string, next: int)
    requires Inv(s) && name in s.objMap && key !in s.removedMap && next !in s.objects
    requires s.objMap[name] in s.objects
    ensures var u := Create(Destroy(DropHandle(s, name), name, key), name, next);
            && name in u.objMap && u.objMap[name] == next && name in u.ownList
            && (Listers(s.nodes, name, s.objMap[name]) != {} ==>
                  && key in u.removedMap && u.removedMap[key] == s.objMap[name]
                  && s.objMap[name] in u.objects && u.objects[s.objMap[name]].isDestroy)
  {
    var c := DropHandle(s, name);
    ListsKeepCore(s, c);
    assert Inv(c);
    DestroyTakesEffect(c, name, key);
    DestroyKeepsInv(c, name, key);
    CreateTakesEffect(Destroy(c, name, key), name, next);
  }

  // ---------------------------------------------------------------- what an event does to a node

  /**
   * While the owner lives a node lists afterwards the names whose object it listed and is still
   * mapped, and those it waited for that are mapped; it waits for the rest of what it knew. A name
   * destroyed and created again between two events is waited for after the first.
   */
  ghost predicate Settled(s: System, was: Node, now: Node) {
    && (forall k :: k in now.objList <==>
          && k in s.objMap
          && ((k in was.objList && was.objList[k] == s.objMap[k]) || k in was.removedList))
    && (forall k | k in now.objList :: k in s.objMap && now.objList[k] == s.objMap[k])
    && (forall k :: k in now.objList || k in now.removedList <==> k in was.objList || k in was.removedList)
    && now.objList.Keys !! now.removedList
  }

  lemma RediscoveredKnows(s: System, n: int, k: string)
    requires Inv(s) && s.ownerAlive && n in s.nodes
    ensures var was, now := s.nodes[n], Rediscovered(s, n);
            && (k in now.objList <==> k in was.objList || (k in was.removedList && k in s.objMap))
            && (k in was.objList ==> now.objList[k] == was.objList[k])
            && (k in now.objList && k !in was.objList ==> now.objList[k] == s.objMap[k])
            && (k in now.removedList <==> k in was.removedList && k !in s.objMap)
  {
  }

  lemma SweptKnows(s: System, n: int, k: string)
    requires Inv(s) && s.ownerAlive && n in s.nodes
    ensures var was, now := s.nodes[n], Swept(s, n);
            && (k in now.objList <==> k in was.objList && k in s.objMap && s.objMap[k] == was.objList[k])
            && (k in now.objList ==> now.objList[k] == was.objList[k])
            && (k in now.removedList <==> k in was.removedList || (k in was.objList && k !in now.objList))
  {
    if k in s.nodes[n].objList {
      var o := s.nodes[n].objList[k];
      assert n in Listers(s.nodes, k, o) && Accounted(s, o);
      assert s.objects[o].isDestroy <==> !InMap(s, o);
    }
  }

  lemma EventSettles(s: System, t: System, u: System, n: int)
    requires Inv(s) && Inv(t) && s.ownerAlive && n in s.nodes
    requires OnlyCounts(s, t, n, Rediscovered(s, n)) && OnlyCounts(t, u, n, Swept(t, n))
    ensures Settled(s, s.nodes[n], u.nodes[n])
  {
    forall k
      ensures k in u.nodes[n].objList <==>
              && k in s.objMap
              && ((k in s.nodes[n].objList && s.nodes[n].objList[k] == s.objMap[k]) || k in s.nodes[n].removedList)
      ensures k in u.nodes[n].objList ==> u.nodes[n].objList[k] == s.objMap[k]
      ensures k in u.nodes[n].objList || k in u.nodes[n].removedList <==>
              k in s.nodes[n].objList || k in s.nodes[n].removedList
      ensures k !in u.nodes[n].objList || k !in u.nodes[n].removedList
    {
      RediscoveredKnows(s, n, k);
      SweptKnows(t, n, k);
    }
  }
}
