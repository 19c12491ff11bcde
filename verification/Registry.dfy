/** The handler registry of an event loop against the interest set of its epoll instance.

`Register` and `Unregister` are two steps each: the map changes under the lock, epoll outside it.
Any number of threads may be between the two.  A handler lives as long as somebody holds a shared
pointer to it; with the last one it is destroyed, its stream or timer closes the descriptor, and that
takes it out of epoll.
*/
module Registry {

  type Handler = nat

  datatype Loop = Loop(
    handlers: set<Handler>,    // the keys of m_handlers
    interest: set<Handler>,    // what epoll holds a raw pointer to
    adding: set<Handler>,      // Register calls in front of EPOLL_CTL_ADD
    deleting: set<Handler>,    // Unregister calls in front of EPOLL_CTL_DEL, keeping h_ptr
    held: set<Handler>,        // shared pointers outside the loop, among them those of Register's callers
    lostAdds: set<Handler>,    // in the map although their ADD failed
    lostDels: set<Handler>,    // in epoll although they left the map, as their DEL failed
    known: set<Handler>)       // ever registered

  const EMPTY := Loop({}, {}, {}, {}, {}, {}, {}, {})

  datatype Step =
    | Insert(h: Handler)             // Register, under the lock
    | Add(h: Handler, ok: bool)      // Register, epoll_ctl
    | Erase(h: Handler)              // Unregister, under the lock
    | Del(h: Handler, ok: bool)      // Unregister, epoll_ctl, and h_ptr goes
    | Release(h: Handler)            // the shared pointers outside the loop go
    | Acquire(h: Handler)            // somebody outside takes one, as a timer handler does when it fires

  /** epoll refuses to add what it has and to delete what it has not.  Who registers a handler holds a
      shared pointer to it, at least until Register returns. */
  predicate Enabled(l: Loop, s: Step) {
    match s
    case Insert(h) => h in l.held || h !in l.known
    case Add(h, ok) => h in l.adding && (ok ==> h !in l.interest)
    case Erase(_) => true
    case Del(h, ok) => h in l.deleting && (ok ==> h in l.interest)
    case Release(h) => h in l.held && h !in l.adding
    case Acquire(h) => Alive(l, h)
  }

  /** Somebody holds a shared pointer to the handler. */
  predicate Alive(l: Loop, h: Handler) {
    h in l.handlers || h in l.deleting || h in l.held
  }

  /** A handler nobody holds is destroyed: its descriptor is closed, and epoll forgets it. */
  function Settle(l: Loop, h: Handler): Loop {
    if Alive(l, h) then l else l.(interest := l.interest - {h}, lostDels := l.lostDels - {h})
  }

  function Next(l: Loop, s: Step): Loop
    requires Enabled(l, s)
  {
    match s
    case Insert(h) =>
      var l' := l.(held := l.held + {h}, known := l.known + {h});
      if h in l.handlers then l' else l'.(handlers := l.handlers + {h}, adding := l.adding + {h})
    case Add(h, ok) =>
      if ok then l.(adding := l.adding - {h}, interest := l.interest + {h})
      else l.(adding := l.adding - {h}, lostAdds := if h in l.handlers then l.lostAdds + {h} else l.lostAdds)
    case Erase(h) =>
      if h !in l.handlers then l
      else l.(handlers := l.handlers - {h}, deleting := l.deleting + {h}, lostAdds := l.lostAdds - {h})
    case Del(h, ok) =>
      Settle(if ok then l.(deleting := l.deleting - {h}, interest := l.interest - {h})
             else l.(deleting := l.deleting - {h},
                     lostDels := if h in l.interest then l.lostDels + {h} else l.lostDels), h)
    case Release(h) => Settle(l.(held := l.held - {h}), h)
    case Acquire(h) => l.(held := l.held + {h})
  }

  ghost predicate Runs(l: Loop, steps: seq<Step>, l': Loop)
    decreases |steps|
  {
    if steps == [] then l' == l
    else Enabled(l, steps[0]) && Runs(Next(l, steps[0]), steps[1..], l')
  }

  // ---------------------------------------------------------------- no dangling pointer

  ghost predicate Held(l: Loop) {
    l.adding <= l.held && (forall h | h in l.interest :: Alive(l, h))
  }

  lemma StepKeepsHeld(l: Loop, s: Step)
    requires Held(l) && Enabled(l, s)
    ensures Held(Next(l, s))
  {
  }

  /** In every run, disciplined or not and whatever epoll_ctl answers, every handler that epoll points to is
      alive. */
  lemma {:induction false} RunKeepsHeld(l: Loop, steps: seq<Step>, l': Loop)
    requires Held(l) && Runs(l, steps, l')
    ensures Held(l')
    decreases |steps|
  {
    if steps != [] {
      StepKeepsHeld(l, steps[0]);
      RunKeepsHeld(Next(l, steps[0]), steps[1..], l');
    }
  }

  // ---------------------------------------------------------------- agreement

  /** Each handler is registered once, and unregistered only after its ADD has been decided. */
  predicate Disciplined(l: Loop, s: Step) {
    match s
    case Insert(h) => h !in l.known
    case Erase(h) => h !in l.adding
    case _ => true
  }

  /** Where every handler stands. */
  ghost predicate Inv(l: Loop) {
    && l.handlers == l.interest - l.deleting - l.lostDels + l.adding + l.lostAdds
    && l.handlers + l.interest + l.deleting + l.held <= l.known
    && l.adding <= l.held && l.lostDels <= l.interest * l.held
    && l.handlers !! l.deleting && l.handlers !! l.lostDels && l.deleting !! l.lostDels
    && l.interest !! l.adding && l.interest !! l.lostAdds && l.adding !! l.lostAdds
  }

  lemma StepKeepsInv(l: Loop, s: Step)
    requires Inv(l) && Enabled(l, s) && Disciplined(l, s)
    ensures Inv(Next(l, s))
  {
    match s
    case Insert(h) =>
    case Add(h, ok) =>
    case Erase(h) =>
    case Del(h, ok) =>
    case Release(h) =>
    case Acquire(h) =>
  }

  /** A run in which every step follows the discipline. */
  ghost predicate DisciplinedRun(l: Loop, steps: seq<Step>, l': Loop)
    decreases |steps|
  {
    if steps == [] then l' == l
    else Enabled(l, steps[0]) && Disciplined(l, steps[0]) && DisciplinedRun(Next(l, steps[0]), steps[1..], l')
  }

  lemma {:induction false} RunKeepsInv(l: Loop, steps: seq<Step>, l': Loop)
    requires Inv(l) && DisciplinedRun(l, steps, l')
    ensures Inv(l')
    decreases |steps|
  {
    if steps != [] {
      StepKeepsInv(l, steps[0]);
      RunKeepsInv(Next(l, steps[0]), steps[1..], l');
    }
  }

  /** Agreement, in every disciplined interleaving.  epoll points only to handlers in the map, to ones that
      an Unregister call in flight keeps alive, and to ones whose DEL failed and that somebody outside the
      loop still holds.  When no call is in flight, the map and epoll agree if and only if no failed ADD was
      left in the map and no handler of the last kind is left; and if nobody outside holds a handler, a
      failed DEL leaves no trace, so that only failed ADDs can come between the two. */
  lemma Agreement(steps: seq<Step>, l: Loop)
    requires DisciplinedRun(EMPTY, steps, l)
    ensures l.interest <= l.handlers + l.deleting + l.lostDels && l.lostDels <= l.held
    ensures l.adding == {} && l.deleting == {} ==>
      (l.handlers == l.interest <==> l.lostAdds == {} && l.lostDels == {})
    ensures l.adding == {} && l.deleting == {} && l.held == {} ==>
      l.interest <= l.handlers && (l.handlers == l.interest <==> l.lostAdds == {})
  {
    RunKeepsInv(EMPTY, steps, l);
    if l.adding == {} && l.deleting == {} && l.handlers == l.interest {
      assert forall h | h in l.lostAdds :: h in l.handlers;
      assert forall h | h in l.lostDels :: h in l.interest;
    }
  }

  /** epoll_ctl never fails. */
  predicate AllSucceed(steps: seq<Step>) {
    forall i | 0 <= i < |steps| :: (steps[i].Add? || steps[i].Del?) ==> steps[i].ok
  }

  lemma {:induction false} NothingLost(l: Loop, steps: seq<Step>, l': Loop)
    requires DisciplinedRun(l, steps, l') && AllSucceed(steps) && l.lostAdds == l.lostDels == {}
    ensures l'.lostAdds == l'.lostDels == {}
    decreases |steps|
  {
    if steps != [] {
      NothingLost(Next(l, steps[0]), steps[1..], l');
    }
  }

  /** If epoll_ctl never fails, the map and epoll are equal whenever no call is in flight, and at any time
      epoll has only handlers that are in the map or in the hands of an Unregister. */
  lemma AgreementWithoutFailures(steps: seq<Step>, l: Loop)
    requires DisciplinedRun(EMPTY, steps, l) && AllSucceed(steps)
    ensures l.interest <= l.handlers + l.deleting
    ensures l.adding == {} && l.deleting == {} ==> l.handlers == l.interest
  {
    Agreement(steps, l);
    NothingLost(EMPTY, steps, l);
  }

  /** What a failed DEL leads to: epoll keeps the handler exactly if somebody outside the loop holds it. */
  lemma AfterFailedDel(l: Loop, h: Handler)
    requires Inv(l) && h in l.deleting
    ensures Next(l, Del(h, false)).interest == if h in l.held then l.interest else l.interest - {h}
  {
  }

  /** Without the second half of the discipline the map and epoll part, from any state: an Unregister that
      overtakes the ADD of the same handler leaves it watched while it is outside the map; and once the
      caller of Register lets go of it, it is destroyed and silently watched no more. */
  lemma EarlyUnregisterLoses(l: Loop, h: Handler) returns (watched: Loop, gone: Loop)
    requires Inv(l) && h in l.adding
    ensures Enabled(l, Erase(h)) && !Disciplined(l, Erase(h))
    ensures Runs(l, [Erase(h), Del(h, false), Add(h, true)], watched)
    ensures h in watched.interest && h !in watched.handlers + watched.deleting && Alive(watched, h)
    ensures Runs(watched, [Release(h)], gone) && !Alive(gone, h) && h !in gone.interest
  {
    var l1 := Next(l, Erase(h));
    var l2 := Next(l1, Del(h, false));
    watched := Next(l2, Add(h, true));
    gone := Next(watched, Release(h));
    assert [Add(h, true)][1..] == [] && [Release(h)][1..] == [];
    assert Runs(l2, [Add(h, true)], watched);
    assert [Del(h, false), Add(h, true)][1..] == [Add(h, true)];
    assert Runs(l1, [Del(h, false), Add(h, true)], watched);
    assert [Erase(h), Del(h, false), Add(h, true)][1..] == [Del(h, false), Add(h, true)];
  }

  /** `EventLoop`, with calls that nobody interrupts. */
  class EventLoop {
    var handlers: set<Handler>
    var interest: set<Handler>
    ghost var rest: Loop           // the bookkeeping of the model: calls in flight, owners and failures

    ghost function View(): Loop
      reads this
    {
      rest.(handlers := handlers, interest := interest)
    }

    constructor ()
      ensures View() == EMPTY
    {
      handlers, interest := {}, {};
      rest := EMPTY;
    }

    /** `epollOk` is the answer of EPOLL_CTL_ADD.  A failed ADD leaves the entry in the map. */
    method Register(h: Handler, epollOk: bool) returns (ok: bool)
      requires Enabled(View(), Insert(h)) && (epollOk ==> h !in interest)
      modifies this
      ensures ok <==> h !in old(handlers) && epollOk
      ensures handlers == old(handlers) + {h}
      ensures interest == if ok then old(interest) + {h} else old(interest)
      ensures View() == var l := Next(old(View()), Insert(h));
        if h in old(handlers) then l else Next(l, Add(h, epollOk))
    {
      if h in handlers {
        rest := Next(View(), Insert(h));
        return false;
      }
      rest := Next(Next(View(), Insert(h)), Add(h, epollOk));
      handlers := handlers + {h};
      if epollOk {
        interest := interest + {h};
      }
      return epollOk;
    }

    /** `epollOk` is the answer of EPOLL_CTL_DEL, and `last` says that h_ptr is the last pointer to the
        handler, whose destructor then closes the descriptor.  A handler not in the map is no failure. */
    method Unregister(h: Handler, epollOk: bool, last: bool) returns (ok: bool)
      requires h !in rest.deleting && (epollOk ==> h in interest) && (last <==> h !in rest.held)
      modifies this
      ensures ok <==> h !in old(handlers) || epollOk
      ensures handlers == old(handlers) - {h}
      ensures interest == if h in old(handlers) && (epollOk || last) then old(interest) - {h} else old(interest)
      ensures View() == var l := Next(old(View()), Erase(h));
        if h in old(handlers) then Next(l, Del(h, epollOk)) else l
    {
      if h !in handlers {
        return true;
      }
      rest := Next(Next(View(), Erase(h)), Del(h, epollOk));
      handlers := handlers - {h};
      if epollOk || last {
        interest := interest - {h};
      }
      return epollOk;
    }
  }
}
