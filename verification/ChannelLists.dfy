/**
 * The lists in which a process keeps its readers: those waiting for their object to exist and
 * those connected to it, and the services it works for.
 */
module ChannelLists {

  /** What the loops can ask of the world: who still exists, whose object does, whose flag is up. */
  datatype World = World(alive: set<int>, shared: set<int>, flagged: set<int>, updateTime: int)

  datatype Lists = Lists(waiting: seq<int>, connected: seq<int>, attached: set<int>, lastUpdate: int)

  /** The entries that are in a set, in order. */
  function Kept(s: seq<int>, keep: set<int>): (r: seq<int>)
    ensures forall id :: id in r <==> id in s && id in keep
  {
    if s == [] then []
    else Kept(s[..|s| - 1], keep) + if s[|s| - 1] in keep then [s[|s| - 1]] else []
  }

  function Ids(s: seq<int>): set<int> {
    set id | id in s
  }

  lemma IdsNext(s: seq<int>, id: int)
    ensures Ids(s + [id]) == Ids(s) + {id}
  {
  }

  lemma KeptNext(s: seq<int>, keep: set<int>, k: nat)
    requires k < |s|
    ensures Kept(s[..k + 1], keep) == if s[k] in keep then Kept(s[..k], keep) + [s[k]] else Kept(s[..k], keep)
  {
    assert s[..k + 1][..k] == s[..k];
  }

  /** A loop that erases as it goes: it stands at i in `cur` and has looked at `seen` entries of `was`. */
  ghost predicate Passed(cur: seq<int>, was: seq<int>, keep: set<int>, i: nat, seen: nat) {
    && i <= |cur| && seen <= |was|
    && cur[..i] == Kept(was[..seen], keep)
    && cur[i..] == was[seen..]
  }

  lemma PassedOne(cur: seq<int>, was: seq<int>, keep: set<int>, i: nat, seen: nat)
    requires Passed(cur, was, keep, i, seen) && i < |cur|
    ensures seen < |was| && cur[i] == was[seen]
    ensures if cur[i] in keep then Passed(cur, was, keep, i + 1, seen + 1)
            else Passed(cur[..i] + cur[i + 1..], was, keep, i, seen + 1)
  {
    assert cur[i] == cur[i..][0] && was[seen] == was[seen..][0];
    KeptNext(was, keep, seen);
    assert cur[i + 1..] == cur[i..][1..] && was[seen + 1..] == was[seen..][1..];
    if cur[i] in keep {
      assert cur[..i + 1] == cur[..i] + [cur[i]];
    } else {
      var next := cur[..i] + cur[i + 1..];
      assert next[..i] == cur[..i] && next[i..] == cur[i + 1..];
    }
  }

  lemma PassedAll(cur: seq<int>, was: seq<int>, keep: set<int>, seen: nat)
    requires Passed(cur, was, keep, |cur|, seen)
    ensures seen == |was| && cur == Kept(was, keep)
  {
    assert cur[..|cur|] == cur && was[..|was|] == was;
  }

  /** How often an entry occurs is not changed by keeping it and is zero otherwise. */
  lemma {:induction false} KeptCount(s: seq<int>, keep: set<int>, id: int)
    ensures multiset(Kept(s, keep))[id] == if id in keep then multiset(s)[id] else 0
  {
    if s != [] {
      KeptCount(s[..|s| - 1], keep, id);
      assert s == s[..|s| - 1] + [s[|s| - 1]];
    }
  }

  /** check_connect_immediately_: the waiting readers whose object exists are connected. */
  function Connected(t: Lists, w: World): Lists {
    var found := Kept(t.waiting, w.alive * w.shared);
    Lists(Kept(t.waiting, w.alive - w.shared), t.connected + found,
          t.attached + Ids(found), w.updateTime)
  }

  /** The second half of check_connect_status_: connected readers no longer online wait again. */
  function Dropped(t: Lists, w: World): Lists {
    var online := t.attached * w.flagged;
    var lost := Kept(t.connected, w.alive - online);
    t.(waiting := t.waiting + lost, connected := Kept(t.connected, w.alive * online),
       attached := t.attached - Ids(lost))
  }

  function Checked(t: Lists, w: World): Lists {
    Dropped(if t.lastUpdate != w.updateTime then Connected(t, w) else t, w)
  }

  ghost predicate Once(t: Lists) {
    forall id :: multiset(t.waiting + t.connected)[id] <= 1
  }

  /** Who is connected holds its object, so that it may be asked whether it is ready. */
  ghost predicate Inv(t: Lists) {
    && Once(t)
    && (forall id | id in t.connected :: id in t.attached)
    && (forall id | id in t.waiting :: id !in t.attached)
  }

  /** A live reader is never lost and never entered twice; a dead one is never entered again. */
  lemma CheckedConserves(t: Lists, w: World, id: int)
    ensures var u := Checked(t, w);
            var before, after := multiset(t.waiting + t.connected)[id], multiset(u.waiting + u.connected)[id];
            (id in w.alive ==> after == before) && after <= before
  {
    var s := if t.lastUpdate != w.updateTime then Connected(t, w) else t;
    KeptCount(t.waiting, w.alive * w.shared, id);
    KeptCount(t.waiting, w.alive - w.shared, id);
    KeptCount(s.connected, w.alive - s.attached * w.flagged, id);
    KeptCount(s.connected, w.alive * (s.attached * w.flagged), id);
  }

  lemma ConnectedKeepsAttached(t: Lists, w: World)
    requires Inv(t)
    ensures forall id | id in Connected(t, w).connected :: id in Connected(t, w).attached
    ensures forall id | id in Connected(t, w).waiting :: id !in Connected(t, w).attached
  {
  }

  lemma CheckedKeepsInv(t: Lists, w: World)
    requires Inv(t)
    ensures Inv(Checked(t, w))
    ensures forall id | id in Checked(t, w).connected :: id in w.alive && id in w.flagged
  {
    var s := if t.lastUpdate != w.updateTime then Connected(t, w) else t;
    var u := Dropped(s, w);
    ConnectedKeepsAttached(t, w);
    forall id
      ensures multiset(u.waiting + u.connected)[id] <= 1
    {
      CheckedConserves(t, w, id);
    }
  }

  // ---------------------------------------------------------------- what a check achieves

  /** Readers that a check connects or leaves connected: waiting ones are looked at after a map change. */
  predicate GoesOnline(t: Lists, w: World, id: int) {
    && id in w.alive && id in w.flagged
    && (id in t.connected || (t.lastUpdate != w.updateTime && id in t.waiting && id in w.shared))
  }

  /** A dead reader is forgotten when its list is walked: among the waiting, only after a map change. */
  predicate StillHeld(t: Lists, w: World, id: int) {
    || (id in w.alive && (id in t.waiting || id in t.connected))
    || (t.lastUpdate == w.updateTime && id in t.waiting)
  }

  ghost predicate UpToDate(t: Lists, w: World, u: Lists) {
    && u.lastUpdate == w.updateTime
    && (forall id :: id in u.connected <==> GoesOnline(t, w, id))
    && (forall id :: id in u.waiting <==>
          !GoesOnline(t, w, id) && StillHeld(t, w, id))
  }

  /** After a check exactly the readers that should be are connected; every other live one waits. */
  lemma CheckTakesEffect(t: Lists, w: World)
    requires Inv(t)
    ensures UpToDate(t, w, Checked(t, w))
  {
    var s := if t.lastUpdate != w.updateTime then Connected(t, w) else t;
    ConnectedKeepsAttached(t, w);
    assert forall id | id in s.connected :: id in s.attached;
    forall id
      ensures id in Checked(t, w).waiting <==> !GoesOnline(t, w, id) && StillHeld(t, w, id)
    {
      CheckMoves(t, w, id);
    }
  }

  lemma CheckMoves(t: Lists, w: World, id: int)
    requires Inv(t)
    ensures id in Checked(t, w).waiting <==> !GoesOnline(t, w, id) && StillHeld(t, w, id)
  {
    ConnectedKeepsAttached(t, w);
    assert multiset(t.waiting + t.connected)[id] <= 1;
    NeverTwice(t.waiting, t.connected, id);
  }

  lemma NeverTwice(s: seq<int>, t: seq<int>, id: int)
    requires multiset(s + t)[id] <= 1
    ensures id !in s || id !in t
  {
    assert multiset(s + t) == multiset(s) + multiset(t);
    assert id in s ==> multiset(s)[id] >= 1;
    assert id in t ==> multiset(t)[id] >= 1;
  }

  lemma Regrouped(s: seq<int>, t: seq<int>, id: int)
    ensures s + (t + [id]) == (s + t) + [id]
  {
  }

  lemma {:induction false} KeptAppend(s: seq<int>, t: seq<int>, keep: set<int>)
    ensures Kept(s + t, keep) == Kept(s, keep) + Kept(t, keep)
  {
    if t == [] {
      assert s + t == s;
    } else {
      var rest, last := t[..|t| - 1], t[|t| - 1];
      assert t == rest + [last];
      KeptAppend(s, rest, keep);
      Regrouped(s, rest, last);
      Regrouped(Kept(s, keep), Kept(rest, keep), last);
      KeptPush(rest, last, keep);
      KeptPush(s + rest, last, keep);
    }
  }

  lemma KeptPush(s: seq<int>, id: int, keep: set<int>)
    ensures Kept(s + [id], keep) == if id in keep then Kept(s, keep) + [id] else Kept(s, keep)
  {
    assert (s + [id])[..|s|] == s;
  }

  lemma {:induction false} KeptTwice(s: seq<int>, keep: set<int>, same: set<int>, both: set<int>)
    requires forall id | id in s :: id in both <==> id in keep && id in same
    ensures Kept(Kept(s, keep), same) == Kept(s, both)
  {
    if s != [] {
      var rest, last := s[..|s| - 1], s[|s| - 1];
      assert last in s && forall id | id in rest :: id in s;
      KeptTwice(rest, keep, same, both);
      assert s == rest + [last];
      KeptPush(rest, last, keep);
      KeptPush(rest, last, both);
      KeptPush(Kept(rest, keep), last, same);
    }
  }

  /** Those connected before come first, then the new ones, each in the order in which they were held. */
  lemma CheckKeepsOrder(t: Lists, w: World)
    requires Inv(t)
    ensures var u := Checked(t, w);
            var looked := if t.lastUpdate != w.updateTime then t.waiting else [];
            u.connected == Kept(t.connected + looked, Ids(u.connected))
  {
    var s := if t.lastUpdate != w.updateTime then Connected(t, w) else t;
    var looked := if t.lastUpdate != w.updateTime then t.waiting else [];
    var u, online := Checked(t, w), w.alive * (s.attached * w.flagged);
    CheckTakesEffect(t, w);
    ConnectedKeepsAttached(t, w);
    KeptAppend(t.connected, looked, Ids(u.connected));
    KeptSame(t.connected, online, Ids(u.connected));
    if t.lastUpdate != w.updateTime {
      KeptAppend(t.connected, Kept(t.waiting, w.alive * w.shared), online);
      KeptTwice(t.waiting, w.alive * w.shared, online, Ids(u.connected));
    }
  }

  lemma {:induction false} KeptSame(s: seq<int>, keep: set<int>, same: set<int>)
    requires forall id | id in s :: id in keep <==> id in same
    ensures Kept(s, keep) == Kept(s, same)
  {
    if s != [] {
      var rest, last := s[..|s| - 1], s[|s| - 1];
      assert last in s && forall id | id in rest :: id in s;
      KeptSame(rest, keep, same);
      assert s == rest + [last];
      KeptPush(rest, last, keep);
      KeptPush(rest, last, same);
    }
  }

  // ---------------------------------------------------------------- what the loops have done so far

  ghost predicate Connecting(t: Lists, u: Lists, w: World, i: nat, seen: nat) {
    && Passed(u.waiting, t.waiting, w.alive - w.shared, i, seen)
    && u.connected == t.connected + Kept(t.waiting[..seen], w.alive * w.shared)
    && u.attached == t.attached + Ids(Kept(t.waiting[..seen], w.alive * w.shared))
  }

  /** One pass of the loop over the waiting readers: the lists and the position after it. */
  function ConnectOne(u: Lists, w: World, i: nat): (Lists, nat)
    requires i < |u.waiting|
  {
    var id, less := u.waiting[i], u.waiting[..i] + u.waiting[i + 1..];
    if id !in w.alive then (u.(waiting := less), i)
    else if id in w.shared then (u.(waiting := less, connected := u.connected + [id], attached := u.attached + {id}), i)
    else (u, i + 1)
  }

  lemma ConnectingOne(t: Lists, u: Lists, w: World, i: nat, seen: nat)
    requires Connecting(t, u, w, i, seen) && i < |u.waiting|
    ensures seen < |t.waiting|
    ensures Connecting(t, ConnectOne(u, w, i).0, w, ConnectOne(u, w, i).1, seen + 1)
  {
    PassedOne(u.waiting, t.waiting, w.alive - w.shared, i, seen);
    KeptNext(t.waiting, w.alive * w.shared, seen);
    var found, id := Kept(t.waiting[..seen], w.alive * w.shared), u.waiting[i];
    if id in w.alive && id in w.shared {
      IdsNext(found, id);
      assert t.connected + (found + [id]) == t.connected + found + [id];
    }
  }

  lemma ConnectingDone(t: Lists, u: Lists, w: World, seen: nat)
    requires Connecting(t, u, w, |u.waiting|, seen)
    ensures u.(lastUpdate := w.updateTime) == Connected(t, w)
  {
    PassedAll(u.waiting, t.waiting, w.alive - w.shared, seen);
    assert t.waiting[..seen] == t.waiting;
  }

  ghost predicate Dropping(t: Lists, u: Lists, w: World, i: nat, seen: nat) {
    && Passed(u.connected, t.connected, w.alive * (t.attached * w.flagged), i, seen)
    && u.waiting == t.waiting + Kept(t.connected[..seen], w.alive - t.attached * w.flagged)
    && u.attached == t.attached - Ids(Kept(t.connected[..seen], w.alive - t.attached * w.flagged))
    && u.lastUpdate == t.lastUpdate
  }

  /** One pass of the loop over the connected readers. */
  function DropOne(u: Lists, w: World, i: nat): (Lists, nat)
    requires i < |u.connected|
  {
    var id, less := u.connected[i], u.connected[..i] + u.connected[i + 1..];
    if id !in w.alive then (u.(connected := less), i)
    else if !(id in u.attached && id in w.flagged) then
      (u.(connected := less, waiting := u.waiting + [id], attached := u.attached - {id}), i)
    else (u, i + 1)
  }

  lemma DroppingOne(t: Lists, u: Lists, w: World, i: nat, seen: nat)
    requires Dropping(t, u, w, i, seen) && i < |u.connected|
    ensures seen < |t.connected|
    ensures Dropping(t, DropOne(u, w, i).0, w, DropOne(u, w, i).1, seen + 1)
  {
    var online := t.attached * w.flagged;
    PassedOne(u.connected, t.connected, w.alive * online, i, seen);
    KeptNext(t.connected, w.alive - online, seen);
    LostNext(t, Kept(t.connected[..seen], w.alive - online), u.connected[i]);
    if u.connected[i] !in w.alive {
      assert u.connected[i] !in w.alive * online;
    }
  }

  lemma LostNext(t: Lists, lost: seq<int>, id: int)
    ensures t.waiting + (lost + [id]) == t.waiting + lost + [id]
    ensures t.attached - Ids(lost + [id]) == t.attached - Ids(lost) - {id}
  {
  }

  lemma DroppingDone(t: Lists, u: Lists, w: World, seen: nat)
    requires Dropping(t, u, w, |u.connected|, seen)
    ensures u == Dropped(t, w)
  {
    PassedAll(u.connected, t.connected, w.alive * (t.attached * w.flagged), seen);
    assert t.connected[..seen] == t.connected;
  }

  // ---------------------------------------------------------------- one pass over the services

  /**
   * The loop over work_list_ after n passes: the services spun so far and those still to visit.
   * A live service whose flag is down is neither spun nor passed over.
   */
  function WorkLoop(work: seq<int>, w: World, n: nat): (r: (seq<int>, seq<int>))
    ensures |r.1| <= |work|
  {
    if n == 0 then ([], work)
    else
      var (spun, rest) := WorkLoop(work, w, n - 1);
      if rest == [] then (spun, rest)
      else if rest[0] !in w.alive then (spun, rest[1..])
      else if rest[0] in w.flagged then (spun + [rest[0]], rest[1..])
      else (spun, rest)
  }

  ghost predicate WorkLoopEnds(work: seq<int>, w: World) {
    exists n: nat :: WorkLoop(work, w, n).1 == []
  }

  ghost predicate Stuck(work: seq<int>, w: World, k: nat) {
    k < |work| && work[k] in w.alive && work[k] !in w.flagged
  }

  lemma WorkLoopNext(work: seq<int>, w: World, n: nat)
    requires n < |work| && !Stuck(work, w, n) && WorkLoop(work, w, n) == (Kept(work[..n], w.alive), work[n..])
    ensures WorkLoop(work, w, n + 1).0 == Kept(work[..n + 1], w.alive)
    ensures WorkLoop(work, w, n + 1).1 == work[n + 1..]
  {
    var rest := work[n..];
    assert rest[0] == work[n] && rest[1..] == work[n + 1..];
    KeptNext(work, w.alive, n);
  }

  lemma {:induction false} WorkLoopAdvances(work: seq<int>, w: World, n: nat)
    requires n <= |work| && forall k | 0 <= k < n :: !Stuck(work, w, k)
    ensures WorkLoop(work, w, n) == (Kept(work[..n], w.alive), work[n..])
  {
    if n == 0 {
      assert work[0..] == work;
    } else {
      var m := n - 1;
      WorkLoopAdvances(work, w, m);
      assert !Stuck(work, w, m);
      WorkLoopNext(work, w, m);
      assert WorkLoop(work, w, n).0 == Kept(work[..n], w.alive);
    }
  }

  lemma {:induction false} WorkLoopStalls(work: seq<int>, w: World, n: nat, k: nat)
    requires Stuck(work, w, k)
    ensures |WorkLoop(work, w, n).1| >= |work| - k
    ensures WorkLoop(work, w, n).1 == work[|work| - |WorkLoop(work, w, n).1|..]
  {
    if n > 0 {
      WorkLoopStalls(work, w, n - 1, k);
      var rest := WorkLoop(work, w, n - 1).1;
      assert rest[0] == work[|work| - |rest|];
      assert rest[1..] == work[|work| - |rest| + 1..];
    }
  }

  /** spin_once comes to an end exactly when every live service has its online flag up. */
  lemma WorkLoopEndsIff(work: seq<int>, w: World)
    ensures WorkLoopEnds(work, w) <==> forall id | id in work && id in w.alive :: id in w.flagged
  {
    if forall id | id in work && id in w.alive :: id in w.flagged {
      WorkLoopAdvances(work, w, |work|);
    } else {
      var id :| id in work && id in w.alive && id !in w.flagged;
      var k :| 0 <= k < |work| && work[k] == id;
      forall n: nat
        ensures WorkLoop(work, w, n).1 != []
      {
        WorkLoopStalls(work, w, n, k);
      }
    }
  }

  /** One live service whose flag is down keeps the loop from ever ending. */
  lemma StallOccurs()
    ensures !WorkLoopEnds([7], World({7}, {}, {}, 0))
  {
    assert 7 in [7];
    WorkLoopEndsIff([7], World({7}, {}, {}, 0));
  }

  // ---------------------------------------------------------------- the lists in place

  class LocalChannal {
    var waiting: seq<int>
    var connected: seq<int>
    var working: seq<int>
    var attached: set<int>
    var lastUpdate: int

    ghost function View(): Lists
      reads this
    {
      Lists(waiting, connected, attached, lastUpdate)
    }

    constructor ()
      ensures Inv(View()) && View() == Lists([], [], {}, 0) && working == []
    {
      waiting, connected, working, attached, lastUpdate := [], [], [], {}, 0;
    }

    method ConnectAt(w: World, i: nat) returns (next: nat)
      requires i < |waiting|
      modifies `waiting, `connected, `attached
      ensures (View(), next) == ConnectOne(old(View()), w, i)
    {
      next := i;
      var id := waiting[i];
      if id !in w.alive {
        waiting := waiting[..i] + waiting[i + 1..];
      } else if id in w.shared {
        connected := connected + [id];
        attached := attached + {id};
        waiting := waiting[..i] + waiting[i + 1..];
      } else {
        next := i + 1;
      }
    }

    /** check_connect_immediately_. */
    method CheckConnectImmediately(w: World)
      modifies `waiting, `connected, `attached, `lastUpdate
      ensures View() == Connected(old(View()), w)
      ensures lastUpdate == w.updateTime
      ensures forall id :: id in connected <==>
                id in old(connected) || (id in old(waiting) && id in w.alive && id in w.shared)
      ensures forall id :: id in waiting <==> id in old(waiting) && id in w.alive && id !in w.shared
    {
      ghost var t, seen := View(), 0;
      var i := 0;
      while i < |waiting|
        invariant 0 <= i <= |waiting| && Connecting(t, View(), w, i, seen)
        decreases |t.waiting| - seen
      {
        ConnectingOne(t, View(), w, i, seen);
        i := ConnectAt(w, i);
        seen := seen + 1;
      }
      ConnectingDone(t, View(), w, seen);
      lastUpdate := w.updateTime;
    }

    /** check_connect_status_. */
    method CheckConnectStatus(w: World)
      requires Inv(View())
      modifies `waiting, `connected, `attached, `lastUpdate
      ensures Inv(View()) && View() == Checked(old(View()), w)
      ensures UpToDate(old(View()), w, View())
    {
      CheckTakesEffect(View(), w);
      CheckedKeepsInv(View(), w);
      if lastUpdate != w.updateTime {
        CheckConnectImmediately(w);
        lastUpdate := w.updateTime;
      }
      DropOffline(w);
    }

    method DropAt(w: World, i: nat) returns (next: nat)
      requires i < |connected|
      modifies `waiting, `connected, `attached
      ensures (View(), next) == DropOne(old(View()), w, i)
    {
      next := i;
      var id := connected[i];
      if id !in w.alive {
        connected := connected[..i] + connected[i + 1..];
      } else if !(id in attached && id in w.flagged) {
        waiting := waiting + [id];
        attached := attached - {id};
        connected := connected[..i] + connected[i + 1..];
      } else {
        next := i + 1;
      }
    }

    /** The second half of check_connect_status_. */
    method DropOffline(w: World)
      modifies `waiting, `connected, `attached
      ensures View() == Dropped(old(View()), w)
    {
      ghost var t, seen := View(), 0;
      var i := 0;
      while i < |connected|
        invariant 0 <= i <= |connected| && Dropping(t, View(), w, i, seen)
        decreases |t.connected| - seen
      {
        DroppingOne(t, View(), w, i, seen);
        i := DropAt(w, i);
        seen := seen + 1;
      }
      DroppingDone(t, View(), w, seen);
    }

    /**
     * The two loops of spin_once. The out-parameter lists who was spun: every live reader once, in
     * the order of the lists, and then every live service.
     */
    method SpinLists(w: World) returns (spun: seq<int>)
      requires Inv(View()) && WorkLoopEnds(working, w)
      modifies `connected, `working
      ensures spun == Kept(old(connected), w.alive) + Kept(old(working), w.alive)
      ensures connected == Kept(old(connected), w.alive) && working == Kept(old(working), w.alive)
      ensures Inv(View()) && forall id | id in connected :: id in attached
    {
      ghost var t := View();
      spun := SpinConnected(w);
      SpunKeepsInv(t, w.alive);
      var more := SpinWorking(w);
      spun := spun + more;
    }

    method SpinConnected(w: World) returns (spun: seq<int>)
      requires forall id | id in connected :: id in attached
      modifies `connected
      ensures spun == connected == Kept(old(connected), w.alive)
    {
      ghost var was := connected;
      ghost var seen := 0;
      spun := [];
      var i := 0;
      while i < |connected|
        invariant Passed(connected, was, w.alive, i, seen) && spun == connected[..i]
        decreases |was| - seen
      {
        var id := connected[i];
        PassedOne(connected, was, w.alive, i, seen);
        if id !in w.alive {
          connected := connected[..i] + connected[i + 1..];
        } else {
          assert id in attached;
          spun := spun + [id];
          i := i + 1;
        }
        seen := seen + 1;
      }
      PassedAll(connected, was, w.alive, seen);
    }

    method SpinWorking(w: World) returns (spun: seq<int>)
      requires WorkLoopEnds(working, w)
      modifies `working
      ensures spun == working == Kept(old(working), w.alive)
    {
      WorkLoopEndsIff(working, w);
      ghost var was := working;
      ghost var seen := 0;
      spun := [];
      var i := 0;
      while i < |working|
        invariant Passed(working, was, w.alive, i, seen) && spun == working[..i]
        decreases |was| - seen
      {
        var id := working[i];
        PassedOne(working, was, w.alive, i, seen);
        seen := seen + 1;
        if id !in w.alive {
          working := working[..i] + working[i + 1..];
          continue;
        }
        if id in w.flagged {
          spun := spun + [id];
          i := i + 1;
        }
      }
      PassedAll(working, was, w.alive, seen);
    }
  }

  lemma SpunKeepsInv(t: Lists, alive: set<int>)
    requires Inv(t)
    ensures Inv(t.(connected := Kept(t.connected, alive)))
  {
    var u := t.(connected := Kept(t.connected, alive));
    forall id
      ensures multiset(u.waiting + u.connected)[id] <= 1
    {
      KeptCount(t.connected, alive, id);
      assert multiset(t.waiting + t.connected)[id] == multiset(t.waiting)[id] + multiset(t.connected)[id];
    }
  }
}
