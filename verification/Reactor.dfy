/** The loop thread of an event loop, batch after batch, over the registry that the other threads change.

`Select` takes a batch from epoll and calls back handler by handler; a callback may call `Unregister` on
its own handler, in its two half-steps, and on no other.  Between any two steps other threads register
handlers, in two half-steps each, and take and lose shared pointers.  `RemoveTimer` from another thread lies
outside the model.
*/
module Reactor {
  import opened Dispatch
  import R = Registry

  /** Where the loop thread is: in front of epoll_wait, in front of the test for one kind of event, inside a
      callback (`gone` says that Unregister has run), or inside the callback's Unregister in front of DEL. */
  datatype Stage = Idle | Testing(kind: Kind) | Inside(kind: Kind, gone: bool) | Deleting(kind: Kind)

  datatype World = World(
    reg: R.Loop,
    batch: seq<Event>,     // the events not yet dealt with, the current one first
    stage: Stage,
    calls: seq<Call>)      // every callback made

  const START := World(R.EMPTY, [], Idle, [])

  datatype Step =
    | Other(s: R.Step)         // another thread: a half-step of Register, or taking or losing a pointer
    | Wait(batch: seq<Event>)  // epoll_wait
    | Test                     // if the event is there, call back
    | Erase                    // the callback's Unregister, under the lock
    | Del(ok: bool)            // the callback's Unregister, epoll_ctl
    | Return(keep: bool)

  predicate Asked(e: Event, kind: Kind) {
    match kind
    case HandleRead => e.readable
    case HandleWrite => e.writable
    case HandleError => e.error
  }

  /** epoll reports each of its handlers at most once in a batch. */
  predicate FromEpoll(batch: seq<Event>, interest: set<R.Handler>) {
    && (forall i | 0 <= i < |batch| :: batch[i].h in interest)
    && (forall i, j | 0 <= i < j < |batch| :: batch[i].h != batch[j].h)
  }

  predicate Enabled(w: World, s: Step) {
    match s
    case Other(r) => (r.Insert? || r.Add? || r.Release? || r.Acquire?) && R.Enabled(w.reg, r) && R.Disciplined(w.reg, r)
    case Wait(batch) => w.stage.Idle? && FromEpoll(batch, w.reg.interest)
    case Test => w.stage.Testing? && w.batch != []
    case Erase => w.stage.Inside? && w.batch != []
    case Del(ok) => w.stage.Deleting? && w.batch != [] && R.Enabled(w.reg, R.Del(w.batch[0].h, ok))
    case Return(keep) => w.stage.Inside? && w.batch != []
  }

  /** The next event of the batch, or the next epoll_wait. */
  function NextEvent(w: World): World
    requires w.batch != []
  {
    w.(batch := w.batch[1..], stage := if |w.batch| == 1 then Idle else Testing(HandleRead))
  }

  /** Behind the test for one kind of event and its callback. */
  function GoOn(w: World, kind: Kind): World
    requires w.batch != []
  {
    match kind
    case HandleRead => w.(stage := Testing(HandleWrite))
    case HandleWrite => w.(stage := Testing(HandleError))
    case HandleError => NextEvent(w)
  }

  function Next(w: World, s: Step): World
    requires Enabled(w, s)
  {
    match s
    case Other(r) => w.(reg := R.Next(w.reg, r))
    case Wait(batch) => w.(batch := batch, stage := if batch == [] then Idle else Testing(HandleRead))
    case Test =>
      var e, kind := w.batch[0], w.stage.kind;
      if Asked(e, kind)
      then w.(calls := w.calls + [Call(e.h, kind, e.h in w.reg.handlers)], stage := Inside(kind, false))
      else GoOn(w, kind)
    case Erase =>
      var h := w.batch[0].h;
      w.(reg := R.Next(w.reg, R.Erase(h)),
         stage := if h in w.reg.handlers then Deleting(w.stage.kind) else Inside(w.stage.kind, true))
    case Del(ok) => w.(reg := R.Next(w.reg, R.Del(w.batch[0].h, ok)), stage := Inside(w.stage.kind, true))
    case Return(keep) =>
      if keep || w.stage.kind.HandleError? then GoOn(w, w.stage.kind) else NextEvent(w)
  }

  /** The contract of callbacks and of epoll: a callback that has unregistered its handler returns false, and
      DEL does not fail for a handler that is watched and that somebody outside the loop holds. */
  predicate Proper(w: World, s: Step) {
    match s
    case Return(keep) => w.stage.Inside? && w.stage.gone && !w.stage.kind.HandleError? ==> !keep
    case Del(ok) => !ok && w.batch != [] && w.batch[0].h in w.reg.interest ==> w.batch[0].h !in w.reg.held
    case _ => true
  }

  // ---------------------------------------------------------------- safety

  /** The current handler is in the map unless its own callback has taken it out; those behind it in the
      batch are in the map. */
  ghost predicate BatchOk(w: World) {
    && (w.stage.Idle? <==> w.batch == [])
    && (forall i | 0 < i < |w.batch| :: w.batch[i].h in w.reg.handlers && w.batch[i].h in w.reg.interest)
    && (forall i, j | 0 <= i < j < |w.batch| :: w.batch[i].h != w.batch[j].h)
    && (w.batch != [] ==>
          var h := w.batch[0].h;
          && h in w.reg.known && h !in w.reg.adding
          && (w.stage.Testing? || (w.stage.Inside? && !w.stage.gone) ==> h in w.reg.handlers && h in w.reg.interest)
          && w.reg.deleting == if w.stage.Deleting? then {h} else {})
  }

  ghost predicate Inv(w: World) {
    && R.Inv(w.reg) && w.reg.lostDels == {} && (w.stage.Idle? ==> w.reg.deleting == {})
    && BatchOk(w) && AllPresent(w.calls)
  }

  /** Whatever batch epoll_wait returns, its handlers are all in the map at that moment: the assumption of
      `Dispatch.Selector.Select` follows from the registry's invariant. */
  lemma WaitGivesGoodBatch(w: World, batch: seq<Event>)
    requires Inv(w) && Enabled(w, Wait(batch))
    ensures GoodBatch(batch, 0, w.reg.handlers)
  {
  }

  lemma OtherKeepsInv(w: World, r: R.Step)
    requires Inv(w) && Enabled(w, Other(r))
    ensures Inv(Next(w, Other(r)))
  {
    R.StepKeepsInv(w.reg, r);
  }

  lemma UnregisterKeepsInv(w: World, s: Step)
    requires Inv(w) && Enabled(w, s) && Proper(w, s) && (s.Erase? || s.Del?)
    ensures Inv(Next(w, s))
  {
    var h := w.batch[0].h;
    R.StepKeepsInv(w.reg, if s.Erase? then R.Erase(h) else R.Del(h, s.ok));
  }

  lemma StepKeepsInv(w: World, s: Step)
    requires Inv(w) && Enabled(w, s) && Proper(w, s)
    ensures Inv(Next(w, s))
  {
    match s
    case Other(r) => OtherKeepsInv(w, r);
    case Wait(batch) =>
    case Test =>
    case Erase => UnregisterKeepsInv(w, s);
    case Del(ok) => UnregisterKeepsInv(w, s);
    case Return(keep) =>
  }

  ghost predicate Runs(w: World, steps: seq<Step>, w': World)
    decreases |steps|
  {
    if steps == [] then w' == w
    else Enabled(w, steps[0]) && Runs(Next(w, steps[0]), steps[1..], w')
  }

  ghost predicate ProperRun(w: World, steps: seq<Step>, w': World)
    decreases |steps|
  {
    if steps == [] then w' == w
    else Enabled(w, steps[0]) && Proper(w, steps[0]) && ProperRun(Next(w, steps[0]), steps[1..], w')
  }

  lemma {:induction false} RunKeepsInv(w: World, steps: seq<Step>, w': World)
    requires Inv(w) && ProperRun(w, steps, w')
    ensures Inv(w')
    decreases |steps|
  {
    if steps != [] {
      StepKeepsInv(w, steps[0]);
      RunKeepsInv(Next(w, steps[0]), steps[1..], w');
    }
  }

  /** Dispatch safety, over any number of batches and with other threads registering handlers meanwhile:
      no callback is ever made on a handler that is not in the map. */
  lemma NoAbsentHandler(steps: seq<Step>, w: World)
    requires ProperRun(START, steps, w)
    ensures forall i | 0 <= i < |w.calls| :: w.calls[i].present
  {
    RunKeepsInv(START, steps, w);
  }

  // ---------------------------------------------------------------- completeness

  /** What epoll has reported of an event, in the order of the callbacks. */
  function Kinds(e: Event): seq<Kind> {
    (if e.readable then [HandleRead] else [])
    + (if e.writable then [HandleWrite] else [])
    + (if e.error then [HandleError] else [])
  }

  /** How many of these callbacks there are, given what they return: up to the first HandleRead or HandleWrite
      that returns false. */
  function Cut(kinds: seq<Kind>, returned: seq<bool>): (n: nat)
    ensures n <= |kinds|
  {
    if kinds == [] then 0
    else if returned != [] && !returned[0] && !kinds[0].HandleError? then 1
    else 1 + Cut(kinds[1..], Tail(returned, 1))
  }

  function Tail(returned: seq<bool>, n: nat): seq<bool> {
    if n <= |returned| then returned[n..] else []
  }

  /** A callback due, or made. */
  datatype Due = Due(h: Handler, kind: Kind)

  function On(h: Handler, kinds: seq<Kind>): seq<Due> {
    if kinds == [] then [] else [Due(h, kinds[0])] + On(h, kinds[1..])
  }

  /** The callbacks that a batch calls for, event by event, given what they return. */
  function Expected(batch: seq<Event>, returned: seq<bool>): seq<Due>
    decreases |batch|, 0
  {
    if batch == [] then [] else Dealt(batch[0].h, Kinds(batch[0]), batch[1..], returned)
  }

  /** The same where of the current event only these kinds are left. */
  function Dealt(h: Handler, kinds: seq<Kind>, batch: seq<Event>, returned: seq<bool>): seq<Due>
    decreases |batch|, 1
  {
    var n := Cut(kinds, returned);
    On(h, kinds[..n]) + Expected(batch, Tail(returned, n))
  }

  function Made(calls: seq<Call>): seq<Due> {
    if calls == [] then [] else Made(calls[..|calls| - 1]) + [Due(calls[|calls| - 1].h, calls[|calls| - 1].kind)]
  }

  /** What the callbacks of a run have returned. */
  function Returned(steps: seq<Step>): seq<bool> {
    if steps == [] then []
    else if steps[0].Return? then [steps[0].keep] + Returned(steps[1..])
    else Returned(steps[1..])
  }

  predicate NoWait(steps: seq<Step>) {
    forall i | 0 <= i < |steps| :: !steps[i].Wait?
  }

  /** The kinds from this one on, and behind it. */
  function From(e: Event, kind: Kind): seq<Kind> {
    match kind
    case HandleRead => Kinds(e)
    case HandleWrite => (if e.writable then [HandleWrite] else []) + (if e.error then [HandleError] else [])
    case HandleError => if e.error then [HandleError] else []
  }

  function Behind(e: Event, kind: Kind): seq<Kind> {
    match kind
    case HandleRead => From(e, HandleWrite)
    case HandleWrite => From(e, HandleError)
    case HandleError => []
  }

  /** What is still due, given what the callbacks still to return will return. */
  function StillDue(w: World, returned: seq<bool>): seq<Due> {
    if w.batch == [] || w.stage.Idle? then []
    else
      var e, rest := w.batch[0], w.batch[1..];
      if w.stage.Testing? then Dealt(e.h, From(e, w.stage.kind), rest, returned)
      else if returned != [] && !returned[0] && !w.stage.kind.HandleError? then Expected(rest, returned[1..])
      else Dealt(e.h, Behind(e, w.stage.kind), rest, Tail(returned, 1))
  }

  lemma DealtNone(h: Handler, batch: seq<Event>, returned: seq<bool>)
    ensures Dealt(h, [], batch, returned) == Expected(batch, returned)
  {
  }

  lemma DealtOne(h: Handler, kinds: seq<Kind>, batch: seq<Event>, returned: seq<bool>)
    requires kinds != []
    ensures Dealt(h, kinds, batch, returned)
         == [Due(h, kinds[0])]
            + if returned != [] && !returned[0] && !kinds[0].HandleError? then Expected(batch, returned[1..])
              else Dealt(h, kinds[1..], batch, Tail(returned, 1))
  {
    var n := Cut(kinds, returned);
    if returned != [] && !returned[0] && !kinds[0].HandleError? {
      assert n == 1 && kinds[..1] == [kinds[0]] && [kinds[0]][1..] == [];
      assert On(h, kinds[..1]) == [Due(h, kinds[0])] + [];
    } else {
      assert kinds[..n][1..] == kinds[1..][..n - 1];
      assert Tail(Tail(returned, 1), n - 1) == Tail(returned, n);
      var more, rest := On(h, kinds[1..][..n - 1]), Expected(batch, Tail(returned, n));
      assert On(h, kinds[..n]) == [Due(h, kinds[0])] + more;
      assert [Due(h, kinds[0])] + more + rest == [Due(h, kinds[0])] + (more + rest);
    }
  }

  lemma MadeOne(calls: seq<Call>, call: Call, due: seq<Due>)
    ensures Made(calls + [call]) + due == Made(calls) + ([Due(call.h, call.kind)] + due)
  {
    assert (calls + [call])[..|calls|] == calls;
  }

  /** A test makes the callback that is due next, or there is none of its kind. */
  lemma TestDeals(w: World, returned: seq<bool>)
    requires Enabled(w, Test)
    ensures Made(Next(w, Test).calls) + StillDue(Next(w, Test), returned) == Made(w.calls) + StillDue(w, returned)
  {
    var e, kind, rest := w.batch[0], w.stage.kind, w.batch[1..];
    if Asked(e, kind) {
      FromAsked(e, kind);
      DealtOne(e.h, From(e, kind), rest, returned);
      var w' := Next(w, Test);
      MadeOne(w.calls, Call(e.h, kind, e.h in w.reg.handlers), StillDue(w', returned));
    } else {
      FromOther(e, kind);
      if kind.HandleError? {
        DealtNone(e.h, rest, returned);
      }
    }
  }

  lemma FromAsked(e: Event, kind: Kind)
    requires Asked(e, kind)
    ensures From(e, kind) != [] && From(e, kind)[0] == kind && From(e, kind)[1..] == Behind(e, kind)
  {
    assert From(e, kind) == [kind] + Behind(e, kind);
  }

  lemma FromOther(e: Event, kind: Kind)
    requires !Asked(e, kind)
    ensures From(e, kind) == Behind(e, kind)
  {
  }

  lemma StepDeals(w: World, s: Step, returned: seq<bool>)
    requires Enabled(w, s) && !s.Wait?
    ensures var before := if s.Return? then [s.keep] + returned else returned;
      Made(Next(w, s).calls) + StillDue(Next(w, s), returned) == Made(w.calls) + StillDue(w, before)
  {
    if s.Test? {
      TestDeals(w, returned);
    } else if s.Return? {
      var e, kind, rest := w.batch[0], w.stage.kind, w.batch[1..];
      assert ([s.keep] + returned)[1..] == returned;
      if kind.HandleError? {
        DealtNone(e.h, rest, returned);
      }
    }
  }

  lemma {:induction false} RunDeals(w: World, steps: seq<Step>, w': World)
    requires Runs(w, steps, w') && NoWait(steps) && w'.stage.Idle?
    ensures Made(w'.calls) == Made(w.calls) + StillDue(w, Returned(steps))
    decreases |steps|
  {
    if steps == [] {
      assert Made(w.calls) + [] == Made(w.calls);
    } else {
      assert !steps[0].Wait?;
      StepDeals(w, steps[0], Returned(steps[1..]));
      RunDeals(Next(w, steps[0]), steps[1..], w');
    }
  }

  /** Nothing that epoll reports is passed over: from one epoll_wait until the loop thread is in front of the
      next, whatever the other threads do meanwhile, the callbacks made are exactly those that the batch calls
      for, event by event in its order: HandleRead if readable, then HandleWrite if writable, then HandleError
      if in error, up to the first HandleRead or HandleWrite that returned false. */
  lemma BatchDispatched(w: World, batch: seq<Event>, steps: seq<Step>, w': World)
    requires Enabled(w, Wait(batch)) && Runs(w, [Wait(batch)] + steps, w') && NoWait(steps) && w'.stage.Idle?
    ensures Made(w'.calls) == Made(w.calls) + Expected(batch, Returned(steps))
  {
    assert ([Wait(batch)] + steps)[1..] == steps;
    RunDeals(Next(w, Wait(batch)), steps, w');
  }

  /** Until then the loop thread can always go on. */
  lemma LoopGoesOn(w: World)
    requires Inv(w) && !w.stage.Idle?
    ensures Enabled(w, Test) || Enabled(w, Return(false)) || Enabled(w, Del(true)) || Enabled(w, Del(false))
  {
  }

  // ---------------------------------------------------------------- the condition on DEL

  /** The condition on DEL is needed, from any state: if DEL fails for a handler that is watched and held
      outside the loop, the next batch can bring a callback on it although it has left the map. */
  lemma FailedDelIsDispatched(w: World) returns (w': World)
    requires Inv(w) && w.stage == Deleting(HandleRead) && |w.batch| == 1
    requires w.batch[0].h in w.reg.interest && w.batch[0].h in w.reg.held
    ensures var h := w.batch[0].h;
      Runs(w, [Del(false), Return(false), Wait([Event(h, true, false, false)]), Test], w')
      && w'.calls == w.calls + [Call(h, HandleRead, false)]
  {
    var h := w.batch[0].h;
    var e := Event(h, true, false, false);
    var w1 := Next(w, Del(false));
    var w2 := Next(w1, Return(false));
    var w3 := Next(w2, Wait([e]));
    w' := Next(w3, Test);
    assert [Test][1..] == [] && [Wait([e]), Test][1..] == [Test];
    assert Runs(w3, [Test], w');
    assert Runs(w2, [Wait([e]), Test], w');
    assert [Return(false), Wait([e]), Test][1..] == [Wait([e]), Test];
    assert Runs(w1, [Return(false), Wait([e]), Test], w');
    assert [Del(false), Return(false), Wait([e]), Test][1..] == [Return(false), Wait([e]), Test];
  }

  /** A handler is registered and reported readable. */
  lemma FirstBatch(h: R.Handler) returns (w: World)
    ensures Runs(START, [Other(R.Insert(h)), Other(R.Add(h, true)), Wait([Event(h, true, false, false)])], w)
    ensures w == World(R.Loop({h}, {h}, {}, {}, {h}, {}, {}, {h}), [Event(h, true, false, false)],
                       Testing(HandleRead), [])
  {
    var e := Event(h, true, false, false);
    var s0, s1, s2 := Other(R.Insert(h)), Other(R.Add(h, true)), Wait([e]);
    var w1 := Next(START, s0);
    assert w1 == World(R.Loop({h}, {}, {h}, {}, {h}, {}, {}, {h}), [], Idle, []);
    var w2 := Next(w1, s1);
    assert w2 == World(R.Loop({h}, {h}, {}, {}, {h}, {}, {}, {h}), [], Idle, []);
    w := Next(w2, s2);
    assert [s2][1..] == [] && [s1, s2][1..] == [s2] && [s0, s1, s2][1..] == [s1, s2];
    assert Runs(w2, [s2], w);
    assert Runs(w1, [s1, s2], w);
  }

  lemma {:induction false} RunsOn(w: World, a: seq<Step>, w1: World, b: seq<Step>, w2: World)
    requires Runs(w, a, w1) && Runs(w1, b, w2)
    ensures Runs(w, a + b, w2)
    decreases |a|
  {
    if a == [] {
      assert a + b == b;
    } else {
      RunsOn(Next(w, a[0]), a[1..], w1, b, w2);
      assert (a + b)[1..] == a[1..] + b;
    }
  }

  /** Such a state is reached: the handler is registered, reported readable, and unregisters itself while
      Register's caller still holds it. */
  lemma FailedDelIsReachable(h: R.Handler) returns (w: World)
    ensures var e := Event(h, true, false, false);
      Runs(START, [Other(R.Insert(h)), Other(R.Add(h, true)), Wait([e]), Test, Erase], w)
    ensures Inv(w) && w.stage == Deleting(HandleRead) && w.batch == [Event(h, true, false, false)]
    ensures h in w.reg.interest && h in w.reg.held
  {
    var w3 := FirstBatch(h);
    var w4 := Next(w3, Test);
    w := Next(w4, Erase);
    assert w.reg == R.Loop({}, {h}, {}, {h}, {h}, {}, {}, {h});
    assert [Erase][1..] == [] && [Test, Erase][1..] == [Erase];
    assert Runs(w4, [Erase], w);
    var first := [Other(R.Insert(h)), Other(R.Add(h, true)), Wait([Event(h, true, false, false)])];
    RunsOn(START, first, w3, [Test, Erase], w);
    assert first + [Test, Erase] == [first[0], first[1], first[2], Test, Erase];
  }
}
