/** `Selector::Select`: the dispatch of one batch of epoll events.

Up to any callback other threads may register new handlers, each once.  A callback may unregister its own
handler and no other; `RemoveTimer` from another thread during a batch lies outside the model.
*/
module Dispatch {

  type Handler = nat

  datatype Event = Event(h: Handler, readable: bool, writable: bool, error: bool)

  /** What a callback does: whether it unregisters its handler and what it returns; and who has been
      registered by other threads since the callback before. */
  datatype Reaction = Reaction(unregisters: bool, keep: bool, arrivals: set<Handler>)

  /** What the callbacks for one event would do. */
  datatype Behaviour = Behaviour(read: Reaction, write: Reaction, error: Reaction)

  datatype Kind = HandleRead | HandleWrite | HandleError

  /** A callback made, and whether its handler was in m_handlers at that moment. */
  datatype Call = Call(h: Handler, kind: Kind, present: bool)

  /** HandleWrite is reached unless HandleRead was called and returned false. */
  predicate WriteRuns(e: Event, b: Behaviour) {
    e.writable && (e.readable ==> b.read.keep)
  }

  predicate ErrorRuns(e: Event, b: Behaviour) {
    e.error && (e.readable ==> b.read.keep) && (WriteRuns(e, b) ==> b.write.keep)
  }

  /** No callback that unregistered its handler is followed by a further one on it. */
  predicate Tidy(e: Event, b: Behaviour) {
    && (e.readable && b.read.unregisters ==> !WriteRuns(e, b) && !ErrorRuns(e, b))
    && (WriteRuns(e, b) && b.write.unregisters ==> !ErrorRuns(e, b))
  }

  /** A handler is registered once, so it does not arrive while its events are dispatched. */
  predicate OnceOnly(e: Event, b: Behaviour) {
    e.h !in b.read.arrivals && e.h !in b.write.arrivals && e.h !in b.error.arrivals
  }

  /** The documented contract of a callback: return false once unregistered. */
  predicate Contract(b: Behaviour) {
    && (b.read.unregisters ==> !b.read.keep)
    && (b.write.unregisters ==> !b.write.keep)
  }

  /** The callbacks made for one event, in order. */
  function Plan(e: Event, b: Behaviour): seq<Kind> {
    (if e.readable then [HandleRead] else [])
    + (if WriteRuns(e, b) then [HandleWrite] else [])
    + (if ErrorRuns(e, b) then [HandleError] else [])
  }

  function Rank(kind: Kind): nat {
    match kind
    case HandleRead => 0
    case HandleWrite => 1
    case HandleError => 2
  }

  /** Which callbacks these are: HandleRead exactly if the event is readable; HandleWrite exactly if it is
      writable and no HandleRead has returned false; HandleError exactly if it is in error and neither has;
      in this order, each once. */
  lemma PlanExact(e: Event, b: Behaviour)
    ensures var plan := Plan(e, b);
      && (HandleRead in plan <==> e.readable)
      && (HandleWrite in plan <==> e.writable && !(e.readable && !b.read.keep))
      && (HandleError in plan <==>
            e.error && !(e.readable && !b.read.keep) && !(HandleWrite in plan && !b.write.keep))
      && (forall i, j | 0 <= i < j < |plan| :: Rank(plan[i]) < Rank(plan[j]))
  {
    var r := if e.readable then [HandleRead] else [];
    var w := if WriteRuns(e, b) then [HandleWrite] else [];
    var x := if ErrorRuns(e, b) then [HandleError] else [];
    assert Plan(e, b) == r + w + x;
    assert HandleRead in r <==> e.readable;
    assert HandleWrite in w <==> WriteRuns(e, b);
    assert HandleError in x <==> ErrorRuns(e, b);
  }

  /** The calls are those of the plan, on the handler of the event. */
  predicate Follows(calls: seq<Call>, e: Event, b: Behaviour) {
    && |calls| == |Plan(e, b)|
    && forall i | 0 <= i < |calls| :: calls[i].h == e.h && calls[i].kind == Plan(e, b)[i]
  }

  predicate AllPresent(calls: seq<Call>) {
    forall i | 0 <= i < |calls| :: calls[i].present
  }

  /** The batch comes from the interest set: its handlers are in the map, each at most once. */
  ghost predicate GoodBatch(batch: seq<Event>, from: nat, handlers: set<Handler>) {
    && (forall i | from <= i < |batch| :: batch[i].h in handlers)
    && (forall i, j | from <= i < j < |batch| :: batch[i].h != batch[j].h)
  }

  class Selector {
    var handlers: set<Handler>   // the keys of the loop's m_handlers

    constructor (handlers: set<Handler>)
      ensures this.handlers == handlers
    {
      this.handlers := handlers;
    }

    /** One callback. */
    method Invoke(h: Handler, kind: Kind, r: Reaction) returns (keep: bool, call: Call)
      modifies this
      ensures handlers == old(handlers) + r.arrivals - if r.unregisters then {h} else {}
      ensures keep == r.keep && call == Call(h, kind, h in old(handlers) + r.arrivals)
    {
      handlers := handlers + r.arrivals;
      call := Call(h, kind, h in handlers);
      if r.unregisters {
        handlers := handlers - {h};
      }
      keep := r.keep;
    }

    /** The body of the loop. */
    method DispatchOne(e: Event, b: Behaviour) returns (calls: seq<Call>)
      requires e.h in handlers && OnceOnly(e, b)
      modifies this
      ensures Follows(calls, e, b)
      ensures AllPresent(calls) <==> Tidy(e, b)
      ensures old(handlers) - {e.h} <= handlers
    {
      calls := [];
      var keep, call;
      if e.readable {
        keep, call := Invoke(e.h, HandleRead, b.read);
        calls := calls + [call];
        assert calls[|calls| - 1] == call;
        if !keep {
          return;
        }
      }
      if e.writable {
        keep, call := Invoke(e.h, HandleWrite, b.write);
        calls := calls + [call];
        assert calls[|calls| - 1] == call;
        if !keep {
          return;
        }
      }
      if e.error {
        keep, call := Invoke(e.h, HandleError, b.error);
        calls := calls + [call];
        assert calls[|calls| - 1] == call;
      }
    }

    /** `Select`, on the batch that epoll_wait returned; `calls` lists the callbacks event by event.
        Every one is made on a handler that is in the map if and only if no callback that unregistered
        its handler lets another one follow. */
    method Select(batch: seq<Event>, behave: seq<Behaviour>) returns (calls: seq<seq<Call>>)
      requires |batch| == |behave| && GoodBatch(batch, 0, handlers)
      requires forall i | 0 <= i < |batch| :: OnceOnly(batch[i], behave[i])
      modifies this
      ensures |calls| == |batch| && forall i | 0 <= i < |batch| :: Follows(calls[i], batch[i], behave[i])
      ensures forall i | 0 <= i < |batch| :: AllPresent(calls[i]) <==> Tidy(batch[i], behave[i])
      ensures (forall b | b in behave :: Contract(b)) ==> forall i | 0 <= i < |batch| :: AllPresent(calls[i])
    {
      calls := [];
      for n := 0 to |batch|
        invariant GoodBatch(batch, n, handlers) && |calls| == n
        invariant forall i | 0 <= i < n :: Follows(calls[i], batch[i], behave[i])
        invariant forall i | 0 <= i < n :: AllPresent(calls[i]) <==> Tidy(batch[i], behave[i])
      {
        var more := DispatchOne(batch[n], behave[n]);
        calls := calls + [more];
      }
      forall i | 0 <= i < |batch| && Contract(behave[i]) ensures AllPresent(calls[i]) {
        ContractIsTidy(batch[i], behave[i]);
      }
    }
  }

  /** Callbacks that keep the documented contract are tidy, whatever events arrive; and for a handler
      on which every event arrives at once, tidiness is the contract itself. */
  lemma ContractIsTidy(e: Event, b: Behaviour)
    ensures Contract(b) ==> Tidy(e, b)
    ensures e.readable && e.writable && e.error && b.read.keep ==> (Contract(b) <==> Tidy(e, b))
  {
  }
}
