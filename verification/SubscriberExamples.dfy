/** Short runs of a subscriber in which messages are lost or come twice. */
module SubscriberExamples {
  import opened SharedRing
  import opened SubscriberRuns

  function Last(tr: seq<System<int>>): System<int>
    requires tr != []
  {
    tr[|tr| - 1]
  }

  lemma Extends(tr: seq<System<int>>, t: System<int>)
    requires Trace(tr) && Next(Last(tr), t)
    ensures Trace(tr + [t])
  {
    var longer := tr + [t];
    forall i | 0 <= i < |longer| - 1
      ensures Next(longer[i], longer[i + 1])
    {
      if i < |tr| - 1 {
        assert Next(tr[i], tr[i + 1]);
      }
    }
  }

  /** A run that starts with a connection to an empty ring. */
  lemma Begins(n: nat, bs: nat) returns (tr: seq<System<int>>)
    requires n > 0
    ensures Trace(tr) && Last(tr) == Connect(n, bs, [])
  {
    tr := [Connect(n, bs, [])];
  }

  lemma Pushes(tr: seq<System<int>>, v: int) returns (longer: seq<System<int>>)
    requires Trace(tr) && Ready(Last(tr))
    ensures Trace(longer) && Last(longer) == Publish(Last(tr), v)
  {
    longer := tr + [Publish(Last(tr), v)];
    Extends(tr, Publish(Last(tr), v));
  }

  lemma Reads(tr: seq<System<int>>) returns (longer: seq<System<int>>)
    requires Trace(tr) && Ready(Last(tr))
    ensures Trace(longer) && Last(longer) == ReaderStep(Last(tr))
  {
    longer := tr + [ReaderStep(Last(tr))];
    Extends(tr, ReaderStep(Last(tr)));
  }

  /** Two messages into a ring of two slots before the reader looks: the first never arrives. */
  lemma LossOccurs() returns (tr: seq<System<int>>)
    ensures Trace(tr) && Last(tr).n == 2 && Last(tr).r.pc == AtHead
    ensures Last(tr).log == [10, 20] && Last(tr).r.callbacks == [20]
    ensures (forall j | 0 <= j < |tr| - 1 :: Ready(tr[j])) && Overtaken(tr, |tr| - 1)
  {
    tr := Begins(2, 1);
    tr := Pushes(tr, 10);
    tr := Pushes(tr, 20);
    assert Last(tr).log == [10, 20];
    tr := Reads(tr);
    tr := Reads(tr);
    assert Last(tr).r.idx == 1 && Last(tr).r.clamped;
    tr := Reads(tr);
    tr := Reads(tr);
    assert Last(tr).r.local == [20];
    tr := Reads(tr);
    ClampedIffOvertaken(tr, |tr| - 1);
  }

  /** A push between is_ready_ and invoke_ overruns the reader: it loses one message and takes the next twice. */
  lemma RepeatOccurs() returns (tr: seq<System<int>>)
    ensures Trace(tr) && Last(tr).n == 2 && Last(tr).r.pc == AtHead
    ensures Last(tr).log == [10, 20] && Last(tr).r.callbacks == [20, 20]
    ensures Last(tr).r.taken == [Taken(1, true), Taken(1, false)]
  {
    tr := Begins(2, 1);
    tr := Pushes(tr, 10);
    tr := Reads(tr);
    tr := Reads(tr);
    assert Last(tr).r.pc == AtCopy && Last(tr).r.idx == 0;
    tr := Pushes(tr, 20);
    assert Last(tr).log == [10, 20];
    tr := Reads(tr);
    assert Last(tr).r.local == [20] && Last(tr).r.taken == [Taken(1, true)];
    tr := Reads(tr);
    tr := Reads(tr);
    tr := Reads(tr);
    assert Last(tr).r.pc == AtCopy && Last(tr).r.idx == 1;
    tr := Reads(tr);
    assert Last(tr).r.local == [20];
    tr := Reads(tr);
  }

  /** In a ring of one slot a message can be lost and the callbacks show nothing of it. */
  lemma SilentLossOccurs() returns (tr: seq<System<int>>)
    ensures Trace(tr) && Last(tr).n == 1 && Last(tr).r.pc == AtHead
    ensures Last(tr).log == [10] && Last(tr).r.idx == 1 && Last(tr).r.callbacks == []
    ensures (forall j | 0 <= j < |tr| - 1 :: Ready(tr[j])) && Overtaken(tr, |tr| - 1)
  {
    tr := Begins(1, 1);
    tr := Pushes(tr, 10);
    tr := Reads(tr);
    tr := Reads(tr);
    tr := Reads(tr);
    assert Last(tr).r.pc == AtSpin && Last(tr).r.clamped;
    tr := Reads(tr);
    ClampedIffOvertaken(tr, |tr| - 1);
  }
}
