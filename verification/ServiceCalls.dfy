/**
 * Clients calling a service through the shared ring. A call pushes a request and waits until the
 * service marks it ready; the service works through a reference into the ring that it obtained
 * under the lock but uses after releasing it, while further clients push.
 */
module ServiceCalls {
  import opened SharedRing

  /**
   * Where LocalService::spin_ has got to: before each of the three reads of is_ready_, before the
   * index operator, before the callback, before is_ready is set, before idx_ is advanced.
   */
  datatype Pc = AtHead | AtClamp | AtTail | AtGet | AtCall | AtAck | AtAdvance

  /**
   * Requests are named by their log position. `log` says which client pushed each, `slots` which
   * request each ring slot holds, `waiting` which request each blocked client waits for, and
   * `succeeded` which client got true for which request.
   */
  datatype State = State(
    n: nat, start: nat, log: seq<int>, slots: seq<int>,
    idx: nat, pc: Pc, ref: nat,
    served: seq<int>, ready: set<int>,
    waiting: map<int, int>, succeeded: set<(int, int)>)

  function Init(n: nat, log: seq<int>, slots: seq<int>): State {
    State(n, |log|, log, slots, |log|, AtHead, 0, [], {}, map[], {})
  }

  predicate Sane(s: State) {
    && s.n > 0 && |s.slots| == s.n
    && (s.pc == AtCall || s.pc == AtAck ==> s.ref < s.n)
    && (s.pc == AtGet ==> s.log != [])
  }

  function ServiceStep(s: State): State
    requires Sane(s)
  {
    match s.pc
    case AtHead => s.(pc := if s.idx < HeadOf(s.n, |s.log|) then AtClamp else AtTail)
    case AtClamp => s.(idx := HeadOf(s.n, |s.log|), pc := AtTail)
    case AtTail => s.(pc := if s.idx < |s.log| then AtGet else AtHead)
    case AtGet => s.(ref := ReadPosition(s.n, |s.log|, s.idx) % s.n, pc := AtCall)
    case AtCall => s.(served := s.served + [s.slots[s.ref]], pc := AtAck)
    case AtAck => s.(ready := s.ready + {s.slots[s.ref]}, pc := AtAdvance)
    case AtAdvance => s.(idx := s.idx + 1, pc := AtHead)
  }

  /** The push of LocalClient::call; from here on the client is blocked. */
  function Push(s: State, client: int): State
    requires Sane(s)
  {
    var p := |s.log|;
    s.(log := s.log + [client], slots := s.slots[p % s.n := p], waiting := s.waiting[client := p])
  }

  /** A blocked client finds its request ready and returns true. */
  function Return(s: State, client: int): State
    requires client in s.waiting
  {
    s.(waiting := s.waiting - {client}, succeeded := s.succeeded + {(client, s.waiting[client])})
  }

  /** A step of the service, a call by a client not blocked in one, or the return from one. */
  ghost predicate Next(s: State, t: State) {
    && Sane(s)
    && (|| t == ServiceStep(s)
        || (exists c :: c !in s.waiting && t == Push(s, c))
        || (exists c :: c in s.waiting && s.waiting[c] in s.ready && t == Return(s, c)))
  }

  ghost predicate Trace(tr: seq<State>) {
    && |tr| > 0 && tr[0].n > 0 && |tr[0].slots| == tr[0].n
    && tr[0] == Init(tr[0].n, tr[0].log, tr[0].slots)
    && forall i | 0 <= i < |tr| - 1 :: Next(tr[i], tr[i + 1])
  }

  /** At most n - 1 clients are ever blocked at once. */
  ghost predicate FewBlocked(tr: seq<State>) {
    forall i | 0 <= i < |tr| :: |tr[i].waiting| <= tr[i].n - 1
  }

  // ---------------------------------------------------------------- invariant

  /** The first request the callback has not been run on, and the first not marked ready. */
  function Unserved(s: State): nat {
    if s.pc == AtAck || s.pc == AtAdvance then s.idx + 1 else s.idx
  }

  function Unready(s: State): nat {
    if s.pc == AtAdvance then s.idx + 1 else s.idx
  }

  ghost predicate BlockedOwners(s: State) {
    forall p | Unready(s) <= p < |s.log| :: s.log[p] in s.waiting && s.waiting[s.log[p]] == p
  }

  ghost predicate SlotsHoldTail(s: State)
    requires Sane(s)
  {
    forall p | Unready(s) <= p < |s.log| :: s.slots[p % s.n] == p
  }

  ghost predicate Inv(s: State) {
    && Sane(s) && s.start <= s.idx <= Unserved(s) <= |s.log|
    && |s.waiting| <= s.n - 1
    && (s.pc == AtGet || s.pc == AtCall || s.pc == AtAck ==> s.idx < |s.log|)
    && BlockedOwners(s) && SlotsHoldTail(s)
    && s.pc != AtClamp
    && (s.pc == AtCall || s.pc == AtAck ==> s.ref == s.idx % s.n)
    && |s.served| == Unserved(s) - s.start
    && (forall j | 0 <= j < |s.served| :: s.served[j] == s.start + j)
    && (forall p :: p in s.ready <==> s.start <= p < Unready(s))
    && (forall c | c in s.waiting :: OwnRequest(s, c, s.waiting[c]))
    && (forall c, p | (c, p) in s.succeeded :: OwnRequest(s, c, p) && p in s.ready)
  }

  ghost predicate OwnRequest(s: State, client: int, p: int) {
    s.start <= p < |s.log| && s.log[p] == client
  }

  /** Requests from i on belong to different blocked clients, so there are no more than those. */
  lemma {:induction false} PendingAtMostBlocked(log: seq<int>, waiting: map<int, int>, i: nat)
    requires i <= |log|
    requires forall p | i <= p < |log| :: log[p] in waiting && waiting[log[p]] == p
    ensures |log| - i <= |waiting|
    decreases |log| - i
  {
    if i < |log| {
      var rest := waiting - {log[i]};
      assert waiting.Keys == rest.Keys + {log[i]};
      assert |waiting.Keys| == |waiting| && |rest.Keys| == |rest|;
      PendingAtMostBlocked(log, rest, i + 1);
    }
  }

  lemma WindowHoldsPending(s: State)
    requires Inv(s)
    ensures |s.log| - Unready(s) <= s.n - 1
    ensures HeadOf(s.n, |s.log|) <= Unready(s)
  {
    PendingAtMostBlocked(s.log, s.waiting, Unready(s));
  }

  lemma PushBlocks(s: State, c: int)
    requires Sane(s) && c !in s.waiting
    ensures |Push(s, c).waiting| == |s.waiting| + 1
  {
    assert Push(s, c).waiting.Keys == s.waiting.Keys + {c};
    assert |Push(s, c).waiting.Keys| == |Push(s, c).waiting| && |s.waiting.Keys| == |s.waiting|;
  }

  lemma PushKeepsInv(s: State, c: int)
    requires Inv(s) && c !in s.waiting && |s.waiting| < s.n - 1
    ensures Inv(Push(s, c))
  {
    var t := Push(s, c);
    WindowHoldsPending(s);
    PendingAtMostBlocked(s.log, s.waiting, Unready(s));
    PushBlocks(s, c);
    forall p | Unready(t) <= p < |t.log|
      ensures t.slots[p % t.n] == p
    {
      if p < |s.log| {
        SlotsDiffer(p, |s.log|, s.n);
      }
    }
  }

  lemma ReturnUnblocks(s: State, c: int)
    requires c in s.waiting
    ensures |Return(s, c).waiting| == |s.waiting| - 1
  {
    assert s.waiting.Keys == Return(s, c).waiting.Keys + {c};
    assert |Return(s, c).waiting.Keys| == |Return(s, c).waiting| && |s.waiting.Keys| == |s.waiting|;
  }

  lemma ReturnKeepsInv(s: State, c: int)
    requires Inv(s) && c in s.waiting && s.waiting[c] in s.ready
    ensures Inv(Return(s, c))
  {
    var t := Return(s, c);
    ReturnUnblocks(s, c);
    assert OwnRequest(s, c, s.waiting[c]);
    assert forall b, p | OwnRequest(s, b, p) :: OwnRequest(t, b, p);
    forall p | Unready(t) <= p < |t.log|
      ensures t.log[p] in t.waiting && t.waiting[t.log[p]] == p
    {
      assert s.log[p] in s.waiting && s.waiting[s.log[p]] == p && p !in s.ready;
    }
  }

  lemma ServeKeepsInv(s: State)
    requires Inv(s) && (s.pc == AtCall || s.pc == AtAck)
    ensures Inv(ServiceStep(s))
  {
    var t := ServiceStep(s);
    assert s.slots[s.ref] == s.idx;
    assert forall c, p | OwnRequest(s, c, p) :: OwnRequest(t, c, p);
  }

  lemma LookKeepsInv(s: State)
    requires Inv(s) && s.pc != AtCall && s.pc != AtAck
    ensures Inv(ServiceStep(s))
  {
    var t := ServiceStep(s);
    WindowHoldsPending(s);
    assert forall c, p | OwnRequest(s, c, p) :: OwnRequest(t, c, p);
  }

  lemma ServiceStepKeepsInv(s: State)
    requires Inv(s)
    ensures Inv(ServiceStep(s))
  {
    if s.pc == AtCall || s.pc == AtAck {
      ServeKeepsInv(s);
    } else {
      LookKeepsInv(s);
    }
  }

  lemma {:induction false} TraceKeepsInv(tr: seq<State>, i: nat)
    requires Trace(tr) && FewBlocked(tr) && i < |tr|
    ensures Inv(tr[i]) && tr[i].start == |tr[0].log|
  {
    if i > 0 {
      TraceKeepsInv(tr, i - 1);
      var s, t := tr[i - 1], tr[i];
      assert Next(tr[i - 1], tr[i - 1 + 1]);
      if t == ServiceStep(s) {
        ServiceStepKeepsInv(s);
      } else if c :| c !in s.waiting && t == Push(s, c) {
        assert |t.waiting| <= t.n - 1;
        PushBlocks(s, c);
        PushKeepsInv(s, c);
      } else {
        var c :| c in s.waiting && s.waiting[c] in s.ready && t == Return(s, c);
        ReturnKeepsInv(s, c);
      }
    }
  }

  // ---------------------------------------------------------------- what calls can rely on

  /** The callback has been run on the requests since the service came up, in push order, once each. */
  lemma ServedInPushOrder(tr: seq<State>, i: nat)
    requires Trace(tr) && FewBlocked(tr) && i < |tr|
    ensures |tr[0].log| + |tr[i].served| <= |tr[i].log|
    ensures forall j | 0 <= j < |tr[i].served| :: tr[i].served[j] == |tr[0].log| + j
  {
    TraceKeepsInv(tr, i);
  }

  /** A request not yet marked ready is still in its slot, and the reader never skips over it. */
  lemma NoneEvictedUnserved(tr: seq<State>, i: nat, p: nat)
    requires Trace(tr) && FewBlocked(tr) && i < |tr| && |tr[0].log| <= p < |tr[i].log| && p !in tr[i].ready
    ensures Sane(tr[i]) && tr[i].slots[p % tr[i].n] == p
    ensures HeadOf(tr[i].n, |tr[i].log|) <= p && tr[i].idx <= p
  {
    TraceKeepsInv(tr, i);
    WindowHoldsPending(tr[i]);
  }

  /** call returns true only after the callback ran on the caller's own request. */
  lemma TrueMeansServed(tr: seq<State>, i: nat, client: int, p: int)
    requires Trace(tr) && FewBlocked(tr) && i < |tr| && (client, p) in tr[i].succeeded
    ensures 0 <= p < |tr[i].log| && tr[i].log[p] == client
    ensures p in tr[i].served
  {
    TraceKeepsInv(tr, i);
    assert OwnRequest(tr[i], client, p);
    assert tr[i].served[p - tr[i].start] == p;
  }

  // ---------------------------------------------------------------- every request is served

  /** Steps of the service until the first request not marked ready is. */
  function StepsLeft(pc: Pc): nat {
    match pc
    case AtAdvance => 7
    case AtHead => 6
    case AtClamp => 5
    case AtTail => 4
    case AtGet => 3
    case AtCall => 2
    case AtAck => 1
  }

  /**
   * With a request waiting each step of the service brings its being marked ready nearer, and the
   * last one marks it.
   */
  lemma ServiceAdvances(s: State)
    requires Inv(s) && Unready(s) < |s.log|
    ensures var t := ServiceStep(s);
            && t.log == s.log && Inv(t)
            && if s.pc == AtAck then Unready(t) == Unready(s) + 1 && Unready(s) in t.ready && Unready(s) in t.served
               else Unready(t) == Unready(s) && StepsLeft(t.pc) < StepsLeft(s.pc)
  {
    ServiceStepKeepsInv(s);
    if s.pc == AtAck {
      var t := ServiceStep(s);
      assert t.served[Unready(s) - s.start] == Unready(s);
    }
  }

  /** What clients do meanwhile takes nothing of that back. */
  lemma ClientsTakeNothingBack(s: State, c: int)
    requires Inv(s)
    ensures Unready(Push(s, c)) == Unready(s) && StepsLeft(Push(s, c).pc) == StepsLeft(s.pc)
    ensures c in s.waiting ==> Unready(Return(s, c)) == Unready(s) && StepsLeft(Return(s, c).pc) == StepsLeft(s.pc)
  {
  }

  lemma ReadyIsServed(s: State, p: nat)
    requires Inv(s) && s.start <= p < Unready(s)
    ensures p in s.ready && p in s.served
  {
    assert s.served[p - s.start] == p;
  }

  /** The service on its own. */
  ghost function Alone(s: State, steps: nat): (t: State)
    requires Inv(s)
    ensures Inv(t)
    decreases steps
  {
    if steps == 0 then s
    else
      ServiceStepKeepsInv(s);
      Alone(ServiceStep(s), steps - 1)
  }

  /** A service left to itself marks every request pushed so far ready, seven steps for each at most. */
  lemma {:induction false} EveryRequestIsServed(s: State, p: nat) returns (steps: nat)
    requires Inv(s) && s.start <= p < |s.log|
    ensures p >= Unready(s) ==> steps <= 7 * (p - Unready(s)) + StepsLeft(s.pc)
    ensures p < Unready(s) ==> steps == 0
    ensures Alone(s, steps).log == s.log && p in Alone(s, steps).ready && p in Alone(s, steps).served
    decreases |s.log| - Unready(s), StepsLeft(s.pc)
  {
    if p < Unready(s) {
      steps := 0;
      ReadyIsServed(s, p);
    } else {
      var t := ServiceStep(s);
      ServiceAdvances(s);
      assert t.start == s.start;
      var rest := EveryRequestIsServed(t, p);
      steps := rest + 1;
      assert Alone(s, steps) == Alone(t, rest);
    }
  }

  // ---------------------------------------------------------------- one client too many

  /** Clients 0 to k - 1 have called a service that has not looked yet. */
  function Crowd(n: nat, slots: seq<int>, k: nat): (s: State)
    requires n > 0 && |slots| == n
    ensures Sane(s) && s.n == n && s.pc == AtHead && s.idx == 0 && |s.log| == k
    ensures s.ready == {} && s.served == []
    ensures forall c :: c in s.waiting <==> 0 <= c < k
    ensures |s.waiting| == k
  {
    if k == 0 then Init(n, [], slots)
    else
      PushBlocks(Crowd(n, slots, k - 1), k - 1);
      Push(Crowd(n, slots, k - 1), k - 1)
  }

  lemma Extends(tr: seq<State>, t: State)
    requires Trace(tr) && Next(tr[|tr| - 1], t)
    ensures Trace(tr + [t])
  {
    var longer := tr + [t];
    forall i | 0 <= i < |longer| - 1
      ensures Next(longer[i], longer[i + 1])
    {
      if i < |tr| - 1 {
        assert Next(tr[i], tr[i + 1]);
      }
    }
  }

  lemma {:induction false} CrowdIsReached(n: nat, slots: seq<int>, k: nat) returns (tr: seq<State>)
    requires n > 0 && |slots| == n
    ensures Trace(tr) && tr[|tr| - 1] == Crowd(n, slots, k) && |tr[0].log| == 0
    ensures forall i | 0 <= i < |tr| :: tr[i].n == n && |tr[i].waiting| <= k
  {
    if k == 0 {
      tr := [Crowd(n, slots, 0)];
    } else {
      tr := CrowdIsReached(n, slots, k - 1);
      var s, t := Crowd(n, slots, k - 1), Crowd(n, slots, k);
      assert t == Push(s, k - 1) && k - 1 !in s.waiting;
      Extends(tr, t);
      tr := tr + [t];
    }
  }

  /**
   * With a ring of any size, n clients blocked at once are one too many: the service moves past
   * the first request, which has not been served and has left the window.
   */
  lemma EvictionOccurs(n: nat, slots: seq<int>) returns (tr: seq<State>)
    requires n > 0 && |slots| == n
    ensures Trace(tr) && forall i | 0 <= i < |tr| :: tr[i].n == n && |tr[i].waiting| <= n
    ensures var s := tr[|tr| - 1];
            && |tr[0].log| == 0 && 0 in s.waiting && s.waiting[0] == 0
            && s.served == [] && 0 !in s.ready
            && s.idx == HeadOf(n, |s.log|) == 1
  {
    tr := CrowdIsReached(n, slots, n);
    var s := Crowd(n, slots, n);
    FirstWaits(n, slots, n);
    var t := ServiceStep(s);
    Extends(tr, t);
    Extends(tr + [t], ServiceStep(t));
    tr := tr + [t] + [ServiceStep(t)];
  }

  lemma {:induction false} FirstWaits(n: nat, slots: seq<int>, k: nat)
    requires n > 0 && |slots| == n && k > 0
    ensures 0 in Crowd(n, slots, k).waiting && Crowd(n, slots, k).waiting[0] == 0
  {
    if k > 1 {
      FirstWaits(n, slots, k - 1);
    }
  }
}
