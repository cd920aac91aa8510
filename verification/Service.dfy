/** The service and its clients as objects over a shared ring of requests. */
module Service {
  import opened Powers
  import opened SharedRing

  /** What a client pushes: the request, room for the answer, and the flag it waits on. */
  class Request {
    const req: int
    var ack: int
    var isReady: bool

    constructor (req: int, ack: int)
      ensures this.req == req && this.ack == ack && !isReady
    {
      this.req := req;
      this.ack := ack;
      isReady := false;
    }
  }

  datatype Answer = Waiting | Done(result: bool)

  class LocalService {
    const buffer: SharedCircularBuffer<Request?>
    const cb: int -> int
    var idx: nat
    var isOnline: bool

    ghost predicate Valid()
      reads this, buffer, buffer.buffer
    {
      && buffer.Valid() && |buffer.log| < SIZE_T && idx <= |buffer.log|
      && null !in buffer.log
    }

    /** The next request the service would look at: its index, moved into the window. */
    function NextIndex(): nat
      reads this, buffer
    {
      if idx < buffer.head then buffer.head else idx
    }

    constructor (buffer: SharedCircularBuffer<Request?>, cb: int -> int)
      requires buffer.Valid() && |buffer.log| < SIZE_T && null !in buffer.log
      ensures Valid() && this.buffer == buffer && this.cb == cb && idx == |buffer.log| && isOnline
    {
      this.buffer := buffer;
      this.cb := cb;
      idx := buffer.tail;
      isOnline := true;
    }

    method IsReady() returns (ready: bool)
      requires Valid()
      modifies `idx
      ensures Valid() && idx == old(NextIndex())
      ensures ready <==> idx < |buffer.log|
    {
      if idx < buffer.head {
        idx := buffer.head;
      }
      return idx < buffer.tail;
    }

    /**
     * Answers the next request, if there is one: that request and no other, even one that sits
     * in the ring under another index.
     */
    method Spin() returns (served: Request?)
      requires Valid()
      modifies `idx, set r | r in buffer.log && r != null
      ensures Valid()
      ensures var i := old(NextIndex());
              if i < |buffer.log| then
                && idx == i + 1 && served == buffer.log[i] && served != null
                && served.isReady && served.ack == cb(served.req)
              else
                idx == i && served == null
      ensures forall r | r in buffer.log && r != null && r != served ::
                r.isReady == old(r.isReady) && r.ack == old(r.ack)
    {
      served := null;
      var ready := IsReady();
      if ready {
        var slot := buffer.At(idx);
        assert ReadPosition(buffer.totalSize, |buffer.log|, idx) == idx;
        var it := buffer.buffer[slot];
        assert it == buffer.log[idx] && it in buffer.log;
        it.ack := cb(it.req);
        it.isReady := true;
        served := it;
        idx := idx + 1;
      }
    }
  }

  class LocalClient {
    const buffer: SharedCircularBuffer<Request?>

    constructor (buffer: SharedCircularBuffer<Request?>)
      ensures this.buffer == buffer
    {
      this.buffer := buffer;
    }

    /** The first half of call: the request is pushed, not ready. */
    method Begin(req: int, ack: int) returns (ptr: Request)
      requires buffer.Valid()
      modifies buffer, buffer.buffer
      ensures buffer.Valid() && fresh(ptr) && buffer.log == old(buffer.log) + [ptr]
      ensures ptr.req == req && ptr.ack == ack && !ptr.isReady
    {
      ptr := new Request(req, ack);
      buffer.PushBack(ptr);
    }

    /** One round of the waiting loop of call: `ok` says the process goes on running. */
    method Poll(ptr: Request, isOnline: bool, ok: bool) returns (answer: Answer)
      ensures answer == Done(true) <==> ptr.isReady
      ensures answer == Waiting <==> !ptr.isReady && ok && isOnline
    {
      if !ptr.isReady && ok {
        if !isOnline {
          return Done(false);
        }
        return Waiting;
      }
      return Done(ptr.isReady);
    }
  }
}
