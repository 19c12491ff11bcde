/** Whole calls of `BlockingQueue`, through any number of waits.

The monitor's steps are cut where `wait` releases the mutex.  Here a call is followed from its first
critical section to its return: first as the steps of one thread in an arbitrary run, then as the
methods of the class, whose wait loops run against whatever the other threads do.
*/
module Queue {
  import opened QueueMonitor

  // ---------------------------------------------------------------- one thread in a run

  predicate OfThread<T>(s: Step<T>, t: Tid) {
    !s.SetCapacity? && s.t == t
  }

  /** A step inside a call that has begun to wait. */
  predicate Continues<T>(s: Step<T>) {
    s.ResumeP? || s.ResumeC? || s.Spurious? || s.TimeOut? || s.LateTimeOut?
  }

  predicate GivesUp<T>(s: Step<T>, t: Tid) {
    (s.TimeOut? || s.LateTimeOut?) && s.t == t
  }

  /** The thread begins no further call. */
  predicate OneCall<T>(steps: seq<Step<T>>, t: Tid) {
    steps == [] || ((OfThread(steps[0], t) ==> Continues(steps[0])) && OneCall(steps[1..], t))
  }

  predicate GaveUp<T>(steps: seq<Step<T>>, t: Tid) {
    steps != [] && (GivesUp(steps[0], t) || GaveUp(steps[1..], t))
  }

  predicate Waiting<T>(m: Monitor<T>, t: Tid) {
    !Idle(m, t)
  }

  /** What a step appends to the queue, and what it takes. */
  function Pushes<T>(m: Monitor<T>, s: Step<T>): seq<T>
    requires Enabled(m, s)
  {
    match s
    case Push(_, v, _, _) => if Full(m) then [] else [v]
    case TryPush(_, v, _) => if Full(m) then [] else [v]
    case ResumeP(t, _) => if Full(m) then [] else [m.value[t]]
    case _ => []
  }

  function Pops<T>(m: Monitor<T>, s: Step<T>): seq<T>
    requires Enabled(m, s)
  {
    if (s.Pop? || s.TryPop? || s.ResumeC?) && m.queue != [] then [m.queue[0]] else []
  }

  /** They are what the histories of the monitor record. */
  lemma HistoryGrows<T>(m: Monitor<T>, s: Step<T>)
    requires Enabled(m, s)
    ensures Next(m, s).pushed == m.pushed + Pushes(m, s)
    ensures Next(m, s).popped == m.popped + Pops(m, s)
  {
  }

  /** What one thread appends during a run, and what it takes. */
  function OwnPushes<T>(m: Monitor<T>, steps: seq<Step<T>>, t: Tid): seq<T>
    decreases |steps|
  {
    if steps == [] || !Enabled(m, steps[0]) then []
    else (if OfThread(steps[0], t) then Pushes(m, steps[0]) else []) + OwnPushes(Next(m, steps[0]), steps[1..], t)
  }

  function OwnPops<T>(m: Monitor<T>, steps: seq<Step<T>>, t: Tid): seq<T>
    decreases |steps|
  {
    if steps == [] || !Enabled(m, steps[0]) then []
    else (if OfThread(steps[0], t) then Pops(m, steps[0]) else []) + OwnPops(Next(m, steps[0]), steps[1..], t)
  }

  // ---------------------------------------------------------------- whose is what

  /** An entry of a history, with the thread whose step it was. */
  datatype Commit<T> = Commit(owner: Tid, value: T)

  function Tagged<T>(s: Step<T>, values: seq<T>): seq<Commit<T>> {
    if s.SetCapacity? || values == [] then [] else [Commit(s.t, values[0])] + Tagged(s, values[1..])
  }

  /** All that the steps of a run append, and all that they take. */
  function AllPushes<T>(m: Monitor<T>, steps: seq<Step<T>>): seq<Commit<T>>
    decreases |steps|
  {
    if steps == [] || !Enabled(m, steps[0]) then []
    else Tagged(steps[0], Pushes(m, steps[0])) + AllPushes(Next(m, steps[0]), steps[1..])
  }

  function AllPops<T>(m: Monitor<T>, steps: seq<Step<T>>): seq<Commit<T>>
    decreases |steps|
  {
    if steps == [] || !Enabled(m, steps[0]) then []
    else Tagged(steps[0], Pops(m, steps[0])) + AllPops(Next(m, steps[0]), steps[1..])
  }

  function Values<T>(cs: seq<Commit<T>>): seq<T> {
    if cs == [] then [] else [cs[0].value] + Values(cs[1..])
  }

  /** The values that one thread has committed, in order. */
  function ByThread<T>(cs: seq<Commit<T>>, t: Tid): seq<T> {
    if cs == [] then []
    else (if cs[0].owner == t then [cs[0].value] else []) + ByThread(cs[1..], t)
  }

  lemma {:induction false} ValuesAppend<T>(a: seq<Commit<T>>, b: seq<Commit<T>>)
    ensures Values(a + b) == Values(a) + Values(b)
    decreases |a|
  {
    if a == [] {
      assert a + b == b;
    } else {
      ValuesAppend(a[1..], b);
      assert (a + b)[1..] == a[1..] + b;
      Associates([a[0].value], Values(a[1..]), Values(b));
    }
  }

  lemma {:induction false} ByThreadAppend<T>(a: seq<Commit<T>>, b: seq<Commit<T>>, t: Tid)
    ensures ByThread(a + b, t) == ByThread(a, t) + ByThread(b, t)
    decreases |a|
  {
    if a == [] {
      assert a + b == b;
    } else {
      ByThreadAppend(a[1..], b, t);
      assert (a + b)[1..] == a[1..] + b;
      Associates(if a[0].owner == t then [a[0].value] else [], ByThread(a[1..], t), ByThread(b, t));
    }
  }

  lemma TaggedOnce<T>(s: Step<T>, values: seq<T>, t: Tid)
    requires |values| <= 1 && (s.SetCapacity? ==> values == [])
    ensures Values(Tagged(s, values)) == values
    ensures ByThread(Tagged(s, values), t) == if OfThread(s, t) then values else []
  {
    if values != [] {
      assert values[1..] == [] && values == [values[0]];
      assert Tagged(s, values) == [Commit(s.t, values[0])];
    }
  }

  /** Over a run the histories of the monitor grow by exactly what its steps commit, and what one thread
      appends and takes is exactly its share of that. */
  lemma {:induction false} HistoryOfRun<T>(m: Monitor<T>, steps: seq<Step<T>>, m': Monitor<T>, t: Tid)
    requires Runs(m, steps, m', Free)
    ensures m'.pushed == m.pushed + Values(AllPushes(m, steps))
    ensures m'.popped == m.popped + Values(AllPops(m, steps))
    ensures OwnPushes(m, steps, t) == ByThread(AllPushes(m, steps), t)
    ensures OwnPops(m, steps, t) == ByThread(AllPops(m, steps), t)
    decreases |steps|
  {
    if steps == [] {
      assert m.pushed + [] == m.pushed && m.popped + [] == m.popped;
    } else {
      var s, n := steps[0], Next(m, steps[0]);
      HistoryGrows(m, s);
      HistoryOfRun(n, steps[1..], m', t);
      TaggedOnce(s, Pushes(m, s), t);
      TaggedOnce(s, Pops(m, s), t);
      ValuesAppend(Tagged(s, Pushes(m, s)), AllPushes(n, steps[1..]));
      ValuesAppend(Tagged(s, Pops(m, s)), AllPops(n, steps[1..]));
      ByThreadAppend(Tagged(s, Pushes(m, s)), AllPushes(n, steps[1..]), t);
      ByThreadAppend(Tagged(s, Pops(m, s)), AllPops(n, steps[1..]), t);
      Associates(m.pushed, Pushes(m, s), Values(AllPushes(n, steps[1..])));
      Associates(m.popped, Pops(m, s), Values(AllPops(n, steps[1..])));
    }
  }

  lemma Associates<T>(a: seq<T>, b: seq<T>, c: seq<T>)
    ensures a + b + c == a + (b + c)
  {
  }

  // ---------------------------------------------------------------- one call

  /** A waiting producer stays one, with its value, whatever the others do and whenever it wakes. */
  lemma ProducerStays<T>(m: Monitor<T>, s: Step<T>, t: Tid)
    requires Inv(m) && Enabled(m, s) && t in m.asleepP + m.wokenP
    requires OfThread(s, t) ==> s.Spurious? || (s.ResumeP? && Full(m))
    ensures var m' := Next(m, s);
      && t in m'.asleepP + m'.wokenP && t in m'.value && m'.value[t] == m.value[t]
      && (t in m'.timed <==> t in m.timed)
  {
  }

  lemma ConsumerStays<T>(m: Monitor<T>, s: Step<T>, t: Tid)
    requires Inv(m) && Enabled(m, s) && t in m.asleepC + m.wokenC
    requires OfThread(s, t) ==> s.Spurious? || (s.ResumeC? && m.queue == [])
    ensures t in Next(m, s).asleepC + Next(m, s).wokenC && (t in Next(m, s).timed <==> t in m.timed)
  {
  }

  /** A thread that is in no call stays so while it begins none. */
  lemma {:induction false} IdleRun<T>(m: Monitor<T>, steps: seq<Step<T>>, m': Monitor<T>, t: Tid)
    requires Inv(m) && Idle(m, t) && Runs(m, steps, m', Free) && OneCall(steps, t)
    ensures Idle(m', t) && !GaveUp(steps, t)
    ensures OwnPushes(m, steps, t) == [] && OwnPops(m, steps, t) == []
    decreases |steps|
  {
    if steps != [] {
      StepKeepsInv(m, steps[0]);
      StaysIdle(m, steps[0], t);
      IdleRun(Next(m, steps[0]), steps[1..], m', t);
    }
  }

  lemma StaysIdle<T>(m: Monitor<T>, s: Step<T>, t: Tid)
    requires Inv(m) && Idle(m, t) && Enabled(m, s) && (OfThread(s, t) ==> Continues(s))
    ensures !OfThread(s, t) && Idle(Next(m, s), t)
  {
  }

  /** A step of a waiting producer ends the call, with the value appended or given up, or leaves it waiting. */
  lemma ProducerStep<T>(m: Monitor<T>, s: Step<T>, t: Tid)
    requires Inv(m) && Enabled(m, s) && t in m.asleepP + m.wokenP && OfThread(s, t) && Continues(s)
    ensures !(s.Spurious? || (s.ResumeP? && Full(m))) ==>
      Idle(Next(m, s), t) && Pushes(m, s) == if GivesUp(s, t) then [] else [m.value[t]]
    ensures Pops(m, s) == [] && (GivesUp(s, t) ==> t in m.timed)
    ensures s.Spurious? || (s.ResumeP? && Full(m)) ==> Pushes(m, s) == []
  {
  }

  lemma {:induction false} WaitingPush<T>(m: Monitor<T>, steps: seq<Step<T>>, m': Monitor<T>, t: Tid)
    requires Inv(m) && t in m.asleepP + m.wokenP && Runs(m, steps, m', Free) && OneCall(steps, t)
    ensures OwnPops(m, steps, t) == [] && (GaveUp(steps, t) ==> t in m.timed)
    ensures OwnPushes(m, steps, t) == if Waiting(m', t) || GaveUp(steps, t) then [] else [m.value[t]]
    decreases |steps|
  {
    if steps != [] {
      var s, n := steps[0], Next(m, steps[0]);
      StepKeepsInv(m, s);
      if OfThread(s, t) {
        ProducerStep(m, s, t);
      }
      if OfThread(s, t) && !(s.Spurious? || (s.ResumeP? && Full(m))) {
        IdleRun(n, steps[1..], m', t);
      } else {
        ProducerStays(m, s, t);
        WaitingPush(n, steps[1..], m', t);
      }
    }
  }

  /** A push, from the call to its return and through any number of waits, in any interleaving: while it
      waits it has appended nothing; if it gives up, which takes a time limit, it never does; otherwise it
      has appended its value exactly once. */
  lemma WholePush<T>(m: Monitor<T>, v: T, timeLimit: bool, wake: Tid, rest: seq<Step<T>>, m': Monitor<T>, t: Tid)
    requires Inv(m) && Runs(m, [Push(t, v, timeLimit, wake)] + rest, m', Free) && OneCall(rest, t)
    ensures OwnPops(m, [Push(t, v, timeLimit, wake)] + rest, t) == []
    ensures GaveUp(rest, t) ==> timeLimit
    ensures OwnPushes(m, [Push(t, v, timeLimit, wake)] + rest, t)
         == if Waiting(m', t) || GaveUp(rest, t) then [] else [v]
  {
    var s := Push(t, v, timeLimit, wake);
    assert ([s] + rest)[1..] == rest;
    StepKeepsInv(m, s);
    if Full(m) {
      WaitingPush(Next(m, s), rest, m', t);
    } else {
      IdleRun(Next(m, s), rest, m', t);
    }
  }

  ghost predicate IsPush<T>(s: Step<T>, t: Tid, v: T, timeLimit: bool) {
    s.Push? && s.t == t && s.v == v && s.timeLimit == timeLimit
  }

  predicate IsPop<T>(s: Step<T>, t: Tid, timeLimit: bool) {
    s.Pop? && s.t == t && s.timeLimit == timeLimit
  }

  /** So the history of the queue holds that value exactly once from this call, or not at all. */
  lemma PushInHistory<T>(m: Monitor<T>, v: T, timeLimit: bool, wake: Tid, rest: seq<Step<T>>, m': Monitor<T>, t: Tid)
    requires Inv(m) && Runs(m, [Push(t, v, timeLimit, wake)] + rest, m', Free) && OneCall(rest, t)
    ensures var all := AllPushes(m, [Push(t, v, timeLimit, wake)] + rest);
      && m'.pushed == m.pushed + Values(all)
      && ByThread(all, t) == if Waiting(m', t) || GaveUp(rest, t) then [] else [v]
  {
    WholePush(m, v, timeLimit, wake, rest, m', t);
    HistoryOfRun(m, [Push(t, v, timeLimit, wake)] + rest, m', t);
  }

  lemma ConsumerStep<T>(m: Monitor<T>, s: Step<T>, t: Tid)
    requires Inv(m) && Enabled(m, s) && t in m.asleepC + m.wokenC && OfThread(s, t) && Continues(s)
    ensures !(s.Spurious? || (s.ResumeC? && m.queue == [])) ==>
      Idle(Next(m, s), t) && |Pops(m, s)| == if GivesUp(s, t) then 0 else 1
    ensures Pushes(m, s) == [] && (GivesUp(s, t) ==> t in m.timed)
    ensures s.Spurious? || (s.ResumeC? && m.queue == []) ==> Pops(m, s) == []
  {
  }

  lemma {:induction false} WaitingPop<T>(m: Monitor<T>, steps: seq<Step<T>>, m': Monitor<T>, t: Tid)
    requires Inv(m) && t in m.asleepC + m.wokenC && Runs(m, steps, m', Free) && OneCall(steps, t)
    ensures OwnPushes(m, steps, t) == [] && (GaveUp(steps, t) ==> t in m.timed)
    ensures |OwnPops(m, steps, t)| == if Waiting(m', t) || GaveUp(steps, t) then 0 else 1
    decreases |steps|
  {
    if steps != [] {
      var s, n := steps[0], Next(m, steps[0]);
      StepKeepsInv(m, s);
      if OfThread(s, t) {
        ConsumerStep(m, s, t);
      }
      if OfThread(s, t) && !(s.Spurious? || (s.ResumeC? && m.queue == [])) {
        IdleRun(n, steps[1..], m', t);
      } else {
        ConsumerStays(m, s, t);
        WaitingPop(n, steps[1..], m', t);
      }
    }
  }

  /** A pop likewise: one entry is taken exactly if the call returns without giving up. */
  lemma WholePop<T>(m: Monitor<T>, timeLimit: bool, wake: Tid, rest: seq<Step<T>>, m': Monitor<T>, t: Tid)
    requires Inv(m) && Runs(m, [Pop(t, timeLimit, wake)] + rest, m', Free) && OneCall(rest, t)
    ensures OwnPushes(m, [Pop(t, timeLimit, wake)] + rest, t) == []
    ensures GaveUp(rest, t) ==> timeLimit
    ensures |OwnPops(m, [Pop(t, timeLimit, wake)] + rest, t)| == if Waiting(m', t) || GaveUp(rest, t) then 0 else 1
  {
    var s := Step<T>.Pop(t, timeLimit, wake);
    assert ([s] + rest)[1..] == rest;
    StepKeepsInv(m, s);
    if m.queue == [] {
      WaitingPop(Next(m, s), rest, m', t);
    } else {
      IdleRun(Next(m, s), rest, m', t);
    }
  }

  lemma PopInHistory<T>(m: Monitor<T>, timeLimit: bool, wake: Tid, rest: seq<Step<T>>, m': Monitor<T>, t: Tid)
    requires Inv(m) && Runs(m, [Pop(t, timeLimit, wake)] + rest, m', Free) && OneCall(rest, t)
    ensures var all := AllPops(m, [Pop(t, timeLimit, wake)] + rest);
      && m'.popped == m.popped + Values(all)
      && |ByThread(all, t)| == if Waiting(m', t) || GaveUp(rest, t) then 0 else 1
  {
    WholePop(m, timeLimit, wake, rest, m', t);
    HistoryOfRun(m, [Pop(t, timeLimit, wake)] + rest, m', t);
  }

  // ---------------------------------------------------------------- the steps of one call

  lemma {:induction false} CallGoesOn<T>(a: seq<Step<T>>, b: seq<Step<T>>, t: Tid)
    requires OneCall(a, t) && OneCall(b, t)
    ensures OneCall(a + b, t)
    ensures GaveUp(a + b, t) <==> GaveUp(a, t) || GaveUp(b, t)
    decreases |a|
  {
    if a == [] {
      assert a + b == b;
    } else {
      CallGoesOn(a[1..], b, t);
      assert (a + b)[1..] == a[1..] + b;
    }
  }

  lemma {:induction false} OwnPopsOn<T>(m: Monitor<T>, a: seq<Step<T>>, m1: Monitor<T>, b: seq<Step<T>>, t: Tid)
    requires Runs(m, a, m1, Free)
    ensures OwnPops(m, a + b, t) == OwnPops(m, a, t) + OwnPops(m1, b, t)
    decreases |a|
  {
    if a == [] {
      assert a + b == b;
    } else {
      OwnPopsOn(Next(m, a[0]), a[1..], m1, b, t);
      assert (a + b)[1..] == a[1..] + b;
      Associates(if OfThread(a[0], t) then Pops(m, a[0]) else [], OwnPops(Next(m, a[0]), a[1..], t), OwnPops(m1, b, t));
    }
  }

  /** The call that began at m0 with the first of the steps has got as far as m, and has not given up. */
  ghost predicate Under<T>(m0: Monitor<T>, steps: seq<Step<T>>, m: Monitor<T>, t: Tid) {
    steps != [] && Runs(m0, steps, m, Free) && OneCall(steps[1..], t) && !GaveUp(steps[1..], t)
  }

  lemma Extend<T>(m0: Monitor<T>, steps: seq<Step<T>>, m: Monitor<T>, more: seq<Step<T>>, m': Monitor<T>, t: Tid)
    requires Under(m0, steps, m, t) && Runs(m, more, m', Free) && OneCall(more, t)
    ensures var all := steps + more;
      && Runs(m0, all, m', Free) && OneCall(all[1..], t) && all[0] == steps[0]
      && (GaveUp(all[1..], t) <==> GaveUp(more, t))
  {
    RunsAppend(m0, steps, m, more, m', Free);
    CallGoesOn(steps[1..], more, t);
    assert (steps + more)[1..] == steps[1..] + more;
  }

  lemma PushFollowed<T>(m0: Monitor<T>, steps: seq<Step<T>>, m: Monitor<T>, t: Tid, v: T, timeLimit: bool)
    requires Inv(m0) && Runs(m0, steps, m, Free) && steps != []
    requires IsPush(steps[0], t, v, timeLimit) && OneCall(steps[1..], t)
    ensures GaveUp(steps[1..], t) ==> timeLimit
    ensures OwnPushes(m0, steps, t) == if Waiting(m, t) || GaveUp(steps[1..], t) then [] else [v]
  {
    assert [steps[0]] + steps[1..] == steps;
    WholePush(m0, v, timeLimit, steps[0].wake, steps[1..], m, t);
  }

  lemma PushWaited<T>(m0: Monitor<T>, steps: seq<Step<T>>, m: Monitor<T>, more: seq<Step<T>>, m': Monitor<T>,
                      t: Tid, v: T, timeLimit: bool)
    requires Inv(m0) && Under(m0, steps, m, t) && IsPush(steps[0], t, v, timeLimit)
    requires Runs(m, more, m', Free) && OneCall(more, t) && (Waiting(m', t) || GaveUp(more, t))
    ensures var all := steps + more;
      && Runs(m0, all, m', Free) && OneCall(all[1..], t) && all[0] == steps[0]
      && (GaveUp(all[1..], t) <==> GaveUp(more, t)) && (GaveUp(more, t) ==> timeLimit)
      && OwnPushes(m0, all, t) == []
  {
    Extend(m0, steps, m, more, m', t);
    PushFollowed(m0, steps + more, m', t, v, timeLimit);
  }

  lemma PopWaited<T>(m0: Monitor<T>, steps: seq<Step<T>>, m: Monitor<T>, more: seq<Step<T>>, m': Monitor<T>,
                     t: Tid, timeLimit: bool)
    requires Inv(m0) && Under(m0, steps, m, t) && IsPop(steps[0], t, timeLimit)
    requires Runs(m, more, m', Free) && OneCall(more, t) && (Waiting(m', t) || GaveUp(more, t))
    ensures var all := steps + more;
      && Runs(m0, all, m', Free) && OneCall(all[1..], t) && all[0] == steps[0]
      && (GaveUp(all[1..], t) <==> GaveUp(more, t)) && (GaveUp(more, t) ==> timeLimit)
      && OwnPops(m0, all, t) == []
  {
    Extend(m0, steps, m, more, m', t);
    var all := steps + more;
    assert [all[0]] + all[1..] == all;
    WholePop(m0, timeLimit, all[0].wake, all[1..], m', t);
  }

  /** The steps of one pop, which has taken nothing yet. */
  ghost predicate PopSoFar<T>(m0: Monitor<T>, steps: seq<Step<T>>, m: Monitor<T>, t: Tid, timeLimit: bool) {
    && steps != [] && Runs(m0, steps, m, Free) && IsPop(steps[0], t, timeLimit)
    && OneCall(steps[1..], t) && OwnPops(m0, steps, t) == []
  }

  /** The pop is about to begin, or has the mutex again. */
  ghost predicate PopBegun<T>(m0: Monitor<T>, steps: seq<Step<T>>, m: Monitor<T>, t: Tid, timeLimit: bool) {
    if steps == [] then m == m0 && Idle(m, t)
    else PopSoFar(m0, steps, m, t, timeLimit) && !GaveUp(steps[1..], t) && t in m.wokenC
  }

  lemma OneMore<T>(m: Monitor<T>, s: Step<T>, t: Tid)
    requires Enabled(m, s) && (OfThread(s, t) ==> Continues(s))
    ensures Runs(m, [s], Next(m, s), Free) && OneCall([s], t) && (GaveUp([s], t) <==> GivesUp(s, t))
  {
    assert [s][1..] == [];
  }

  /** The thread is where it was: on the same condition, with the same value and the same time limit. */
  ghost predicate SameWait<T>(m: Monitor<T>, m': Monitor<T>, t: Tid) {
    && (t in m.asleepP + m.wokenP ==> t in m'.asleepP + m'.wokenP)
    && (t in m.asleepC + m.wokenC ==> t in m'.asleepC + m'.wokenC)
    && (t in m.asleepP + m.wokenP && t in m.value ==> t in m'.value && m'.value[t] == m.value[t])
  }

  lemma OthersKeepWait<T>(m: Monitor<T>, s: Step<T>, t: Tid)
    requires Inv(m) && Waiting(m, t) && Enabled(m, s)
    requires OfThread(s, t) ==> !s.ResumeP? && !s.ResumeC?
    ensures OfThread(s, t) ==> s.Spurious? || GivesUp(s, t)
    ensures if GivesUp(s, t) then Idle(Next(m, s), t) else Waiting(Next(m, s), t) && SameWait(m, Next(m, s), t)
  {
    if OfThread(s, t) ==> s.Spurious? {
      if t in m.asleepP + m.wokenP {
        ProducerStays(m, s, t);
      } else {
        ConsumerStays(m, s, t);
      }
    }
  }

  /** One step of the others during a wait, or one that wakes the waiting thread or ends its wait. */
  lemma WaitStep<T>(m0: Monitor<T>, steps: seq<Step<T>>, m: Monitor<T>, s: Step<T>, t: Tid)
    requires Runs(m0, steps, m, Free) && OneCall(steps, t) && !GaveUp(steps, t)
    requires Inv(m) && Waiting(m, t) && SameWait(m0, m, t) && Enabled(m, s)
    requires OfThread(s, t) ==> !s.ResumeP? && !s.ResumeC?
    ensures var m' := Next(m, s);
      && Inv(m') && Runs(m0, steps + [s], m', Free) && OneCall(steps + [s], t)
      && (GaveUp(steps + [s], t) <==> GivesUp(s, t))
      && (if GivesUp(s, t) then Idle(m', t) else Waiting(m', t) && SameWait(m0, m', t))
  {
    OthersKeepWait(m, s, t);
    OneMore(m, s, t);
    StepKeepsInv(m, s);
    RunsAppend(m0, steps, m, [s], Next(m, s), Free);
    CallGoesOn(steps, [s], t);
  }

  // ---------------------------------------------------------------- how a call ends

  /** How a wait ends: with the mutex, with a timeout, or not as far as the schedule goes. */
  datatype Back = Resumed | Expired | Unscheduled

  /** That, where the monitor then stands, and what is left of the schedule. */
  datatype WaitOver<T> = WaitOver(back: Back, m: Monitor<T>, rest: seq<Step<T>>)

  datatype Outcome = Done | TimedOut | StillWaiting

  /** The scheduler lets the thread run on. */
  predicate IsResume<T>(s: Step<T>, t: Tid) {
    (s.ResumeP? || s.ResumeC?) && s.t == t
  }

  predicate Woken<T>(m: Monitor<T>, t: Tid) {
    t in m.wokenP + m.wokenC
  }

  /** A wait of `t` under a schedule: what is not possible is passed over, and it ends where the thread is let
      run on after it was woken, or times out. */
  function WaitEnd<T>(m: Monitor<T>, schedule: seq<Step<T>>, t: Tid): (w: WaitOver<T>)
    ensures w.back.Unscheduled? || |w.rest| < |schedule|
    decreases |schedule|
  {
    if schedule == [] then WaitOver(Unscheduled, m, [])
    else
      var s, rest := schedule[0], schedule[1..];
      if IsResume(s, t) then
        if Woken(m, t) then WaitOver(Resumed, m, rest) else WaitEnd(m, rest, t)
      else if !Enabled(m, s) then WaitEnd(m, rest, t)
      else if GivesUp(s, t) then WaitOver(Expired, Next(m, s), rest)
      else WaitEnd(Next(m, s), rest, t)
  }

  /** What the woken thread waits for is there. */
  predicate GetsOn<T>(m: Monitor<T>, t: Tid) {
    if t in m.wokenP then !Full(m) else m.queue != []
  }

  function SleepAgain<T>(m: Monitor<T>, t: Tid): Monitor<T> {
    if t in m.wokenP then m.(wokenP := m.wokenP - {t}, asleepP := m.asleepP + {t})
    else m.(wokenC := m.wokenC - {t}, asleepC := m.asleepC + {t})
  }

  /** A call of `t` that sleeps in m, under a schedule. */
  function CallEnd<T>(m: Monitor<T>, schedule: seq<Step<T>>, t: Tid): Outcome
    decreases |schedule|
  {
    var w := WaitEnd(m, schedule, t);
    match w.back
    case Expired => TimedOut
    case Unscheduled => StillWaiting
    case Resumed => if GetsOn(w.m, t) then Done else CallEnd(SleepAgain(w.m, t), w.rest, t)
  }

  /** The end of a call that has just been woken and has the mutex. */
  function EndFrom<T>(m: Monitor<T>, schedule: seq<Step<T>>, t: Tid): Outcome {
    if GetsOn(m, t) then Done else CallEnd(SleepAgain(m, t), schedule, t)
  }

  /** The call that began at m0 with the first of the steps, and slept, ends like this. */
  ghost predicate Foreseen<T>(m0: Monitor<T>, steps: seq<Step<T>>, schedule0: seq<Step<T>>, t: Tid, o: Outcome) {
    steps != [] && Enabled(m0, steps[0]) && CallEnd(Next(m0, steps[0]), schedule0, t) == o
  }

  /** Nothing happens to the thread but that it may be woken. */
  predicate Quiet<T>(steps: seq<Step<T>>, t: Tid) {
    forall i | 0 <= i < |steps| :: !IsResume(steps[i], t) && !GivesUp(steps[i], t)
  }

  lemma {:induction false} WaitGoesOn<T>(m: Monitor<T>, pre: seq<Step<T>>, m1: Monitor<T>, rest: seq<Step<T>>, t: Tid)
    requires Runs(m, pre, m1, Free) && Quiet(pre, t)
    ensures WaitEnd(m, pre + rest, t) == WaitEnd(m1, rest, t)
    decreases |pre|
  {
    if pre == [] {
      assert pre + rest == rest;
    } else {
      assert (pre + rest)[1..] == pre[1..] + rest;
      assert !IsResume(pre[0], t) && !GivesUp(pre[0], t);
      WaitGoesOn(Next(m, pre[0]), pre[1..], m1, rest, t);
    }
  }

  /** Behind any run of the others, a wait ends exactly with the next thing that its own thread does: it is
      let run on after it was woken, or it times out; until then it has not ended. */
  lemma WaitEnds<T>(m: Monitor<T>, pre: seq<Step<T>>, m1: Monitor<T>, s: Step<T>, post: seq<Step<T>>, t: Tid)
    requires Runs(m, pre, m1, Free) && Quiet(pre, t)
    ensures WaitEnd(m, pre, t) == WaitOver(Unscheduled, m1, [])
    ensures IsResume(s, t) && Woken(m1, t) ==> WaitEnd(m, pre + ([s] + post), t) == WaitOver(Resumed, m1, post)
    ensures GivesUp(s, t) && Enabled(m1, s) ==>
      WaitEnd(m, pre + ([s] + post), t) == WaitOver(Expired, Next(m1, s), post)
  {
    WaitGoesOn(m, pre, m1, [], t);
    assert pre + [] == pre;
    WaitGoesOn(m, pre, m1, [s] + post, t);
    assert ([s] + post)[1..] == post;
  }

  /** How a waiting call ends, over any run in which its thread begins no other: it is still waiting exactly
      if its thread is, it reports a timeout exactly if its thread gave up, and otherwise it is done. */
  lemma {:induction false} CallEnds<T>(m: Monitor<T>, steps: seq<Step<T>>, m': Monitor<T>, t: Tid)
    requires Inv(m) && Waiting(m, t) && Runs(m, steps, m', Free) && OneCall(steps, t)
    ensures CallEnd(m, steps, t)
         == if Waiting(m', t) then StillWaiting else if GaveUp(steps, t) then TimedOut else Done
    decreases |steps|
  {
    if steps != [] {
      var s, n, rest := steps[0], Next(m, steps[0]), steps[1..];
      StepKeepsInv(m, s);
      if IsResume(s, t) && GetsOn(m, t) {
        IdleRun(n, rest, m', t);
      } else if IsResume(s, t) {
        assert n == SleepAgain(m, t);
        CallEnds(n, rest, m', t);
      } else {
        OthersKeepWait(m, s, t);
        if GivesUp(s, t) {
          IdleRun(n, rest, m', t);
        } else {
          CallEnds(n, rest, m', t);
        }
      }
    }
  }

  // ---------------------------------------------------------------- the class

  class BlockingQueue<T> {
    var capacity: nat
    var queue: seq<T>
    // the two condition variables: who sleeps on them, and who has left them but not resumed
    var notEmptyAsleep: set<Tid>
    var notEmptyWoken: set<Tid>
    var notFullAsleep: set<Tid>
    var notFullWoken: set<Tid>
    // the waiting calls
    var timed: set<Tid>
    var value: map<Tid, T>
    // everything pushed and everything popped
    var pushed: seq<T>
    var popped: seq<T>
    // what the other threads, the clock and the scheduler do while a call waits
    var schedule: seq<Step<T>>

    function View(): Monitor<T>
      reads this
    {
      Monitor(capacity, queue, notEmptyAsleep, notEmptyWoken, notFullAsleep, notFullWoken,
              timed, value, pushed, popped)
    }

    constructor (capacity: nat)
      ensures View() == Fresh(capacity) && schedule == []
    {
      this.capacity := capacity;
      queue := [];
      notEmptyAsleep, notEmptyWoken, notFullAsleep, notFullWoken := {}, {}, {}, {};
      timed, value := {}, map[];
      pushed, popped, schedule := [], [], [];
    }

    /** The critical section of another thread. */
    method Perform(s: Step<T>)
      requires Enabled(View(), s)
      modifies this
      ensures View() == Next(old(View()), s) && schedule == old(schedule)
    {
      var m := Next(View(), s);
      capacity, queue := m.capacity, m.queue;
      notEmptyAsleep, notEmptyWoken := m.asleepC, m.wokenC;
      notFullAsleep, notFullWoken := m.asleepP, m.wokenP;
      timed, value, pushed, popped := m.timed, m.value, m.pushed, m.popped;
    }

    /** `notify_one` picks a sleeper. */
    method PickOne(sleepers: set<Tid>) returns (t: Tid)
      ensures sleepers == {} || t in sleepers
    {
      t := 0;
      if sleepers != {} {
        t :| t in sleepers;
      }
    }

    /** `wait` and `wait_for`, from falling asleep to having the mutex again. */
    method Wait(t: Tid) returns (back: Back, ghost steps: seq<Step<T>>)
      requires Inv(View()) && Waiting(View(), t)
      modifies this
      ensures Inv(View()) && Runs(old(View()), steps, View(), Free) && OneCall(steps, t)
      ensures GaveUp(steps, t) <==> back == Expired
      ensures if back == Expired then Idle(View(), t) else Waiting(View(), t) && SameWait(old(View()), View(), t)
      ensures back == Resumed ==> Woken(View(), t) && |schedule| < |old(schedule)|
      ensures WaitOver(back, View(), schedule) == WaitEnd(old(View()), old(schedule), t)
    {
      steps := [];
      while |schedule| > 0
        invariant Inv(View()) && Runs(old(View()), steps, View(), Free) && OneCall(steps, t) && !GaveUp(steps, t)
        invariant Waiting(View(), t) && SameWait(old(View()), View(), t) && |schedule| <= |old(schedule)|
        invariant WaitEnd(View(), schedule, t) == WaitEnd(old(View()), old(schedule), t)
        decreases |schedule|
      {
        var s := schedule[0];
        schedule := schedule[1..];
        if IsResume(s, t) {
          if t in notFullWoken + notEmptyWoken {
            return Resumed, steps;
          }
        } else if Enabled(View(), s) {
          WaitStep(old(View()), steps, View(), s, t);
          Perform(s);
          steps := steps + [s];
          if GivesUp(s, t) {
            return Expired, steps;
          }
        }
      }
      return Unscheduled, steps;
    }

    /** Put a value behind the others and notify one consumer. */
    method Append(v: T) returns (wake: Tid)
      modifies this`queue, this`pushed, this`notEmptyAsleep, this`notEmptyWoken
      ensures PicksC(old(View()), wake) && View() == QueueMonitor.Append(old(View()), v, wake)
    {
      wake := PickOne(notEmptyAsleep);
      queue := queue + [v];
      pushed := pushed + [v];
      if wake in notEmptyAsleep {
        notEmptyWoken := notEmptyWoken + {wake};
      }
      notEmptyAsleep := notEmptyAsleep - {wake};
    }

    /** Take the value in front and notify one producer. */
    method Take() returns (v: T, wake: Tid)
      requires queue != []
      modifies this`queue, this`popped, this`notFullAsleep, this`notFullWoken
      ensures v == old(queue[0]) && PicksP(old(View()), wake) && View() == QueueMonitor.Take(old(View()), wake)
    {
      wake := PickOne(notFullAsleep);
      v := queue[0];
      queue := queue[1..];
      popped := popped + [v];
      if wake in notFullAsleep {
        notFullWoken := notFullWoken + {wake};
      }
      notFullAsleep := notFullAsleep - {wake};
    }

    /** The call of `t` is over. */
    method Leave(t: Tid)
      modifies this`notEmptyAsleep, this`notEmptyWoken, this`notFullAsleep, this`notFullWoken, this`timed
      ensures View() == QueueMonitor.Leave(old(View()), t)
    {
      notEmptyAsleep, notEmptyWoken := notEmptyAsleep - {t}, notEmptyWoken - {t};
      notFullAsleep, notFullWoken := notFullAsleep - {t}, notFullWoken - {t};
      timed := timed - {t};
    }

    /** A producer goes to sleep, at first or again; `s` is the step that this is. */
    method SleepNotFull(t: Tid, v: T, timeLimit: bool) returns (ghost s: Step<T>)
      requires Inv(View()) && |queue| >= capacity
      requires Idle(View(), t) || (t in notFullWoken && t in value && value[t] == v)
      modifies this`notFullAsleep, this`notFullWoken, this`value, this`timed
      ensures Enabled(old(View()), s) && View() == Next(old(View()), s)
      ensures if old(Idle(View(), t)) then IsPush(s, t, v, timeLimit) else s.ResumeP? && s.t == t
      ensures Inv(View()) && t in notFullAsleep && value[t] == v
    {
      var wake := PickOne(notEmptyAsleep);
      s := if Idle(View(), t) then Step.Push(t, v, timeLimit, wake) else ResumeP(t, wake);
      StepKeepsInv(View(), s);
      if t !in notFullWoken {
        value := value[t := v];
        timed := if timeLimit then timed + {t} else timed - {t};
      }
      notFullWoken := notFullWoken - {t};
      notFullAsleep := notFullAsleep + {t};
    }

    /** There is room: append and return; `s` is the step that this is. */
    method FinishPush(t: Tid, v: T, timeLimit: bool) returns (ghost s: Step<T>)
      requires Inv(View()) && |queue| < capacity
      requires Idle(View(), t) || (t in notFullWoken && t in value && value[t] == v)
      modifies this
      ensures schedule == old(schedule)
      ensures Enabled(old(View()), s) && View() == Next(old(View()), s)
      ensures if old(Idle(View(), t)) then IsPush(s, t, v, timeLimit) else s.ResumeP? && s.t == t
      ensures Inv(View()) && Idle(View(), t)
    {
      ghost var m := View();
      if t in notFullWoken {
        Leave(t);
      }
      var wake := Append(v);
      s := if Idle(m, t) then Step.Push(t, v, timeLimit, wake) else ResumeP(t, wake);
      StepKeepsInv(m, s);
    }

    /** `Push(v)` and `Push(v, timeout_ms)`.  Whatever happens meanwhile, the call has appended its value
        exactly once if it returns true, and not at all if it returns false or still waits.  With room it
        returns at once; otherwise it ends as `CallEnds` says of a call that sleeps. */
    method Push(t: Tid, v: T, timeLimit: bool) returns (outcome: Outcome, ghost steps: seq<Step<T>>)
      requires Inv(View()) && Idle(View(), t)
      modifies this
      ensures Inv(View()) && Runs(old(View()), steps, View(), Free)
      ensures steps != [] && IsPush(steps[0], t, v, timeLimit)
      ensures OneCall(steps[1..], t)
      ensures OwnPushes(old(View()), steps, t) == if outcome == Done then [v] else []
      ensures outcome == StillWaiting <==> Waiting(View(), t)
      ensures outcome == TimedOut ==> timeLimit
      ensures outcome == if !Full(old(View())) then Done
                         else CallEnd(Next(old(View()), steps[0]), old(schedule), t)
    {
      ghost var m0, schedule0 := View(), schedule;
      steps := [];
      while |queue| >= capacity
        invariant Inv(View())
        invariant if steps == [] then View() == m0 else
            && Under(m0, steps, View(), t) && t in notFullWoken && t in value && value[t] == v
            && IsPush(steps[0], t, v, timeLimit)
        invariant if steps == [] then schedule == schedule0 else
            Full(m0) && Foreseen(m0, steps, schedule0, t, EndFrom(View(), schedule, t))
        decreases |schedule|, if steps == [] then 1 else 0
      {
        ghost var m := View();
        ghost var s := SleepNotFull(t, v, timeLimit);
        steps := Taken(m0, steps, m, s, View(), t);
        ghost var asleep, more := View(), [];
        var back;
        back, more := Wait(t);
        PushWaited(m0, steps, asleep, more, View(), t, v, timeLimit);
        steps := steps + more;
        if back == Expired {
          return TimedOut, steps;
        } else if back == Unscheduled {
          return StillWaiting, steps;
        }
      }
      ghost var m := View();
      ghost var s := FinishPush(t, v, timeLimit);
      steps := Taken(m0, steps, m, s, View(), t);
      PushFollowed(m0, steps, View(), t, v, timeLimit);
      return Done, steps;
    }

    /** A consumer goes to sleep, at first or again; `s` is the step that this is. */
    method SleepNotEmpty(t: Tid, timeLimit: bool) returns (ghost s: Step<T>)
      requires Inv(View()) && queue == [] && (Idle(View(), t) || t in notEmptyWoken)
      modifies this`notEmptyAsleep, this`notEmptyWoken, this`timed
      ensures Enabled(old(View()), s) && View() == Next(old(View()), s)
      ensures if old(Idle(View(), t)) then IsPop(s, t, timeLimit) else s.ResumeC? && s.t == t
      ensures Inv(View()) && t in notEmptyAsleep
    {
      var wake := PickOne(notFullAsleep);
      s := if Idle(View(), t) then Step.Pop(t, timeLimit, wake) else ResumeC(t, wake);
      StepKeepsInv(View(), s);
      if t !in notEmptyWoken {
        timed := if timeLimit then timed + {t} else timed - {t};
      }
      notEmptyWoken := notEmptyWoken - {t};
      notEmptyAsleep := notEmptyAsleep + {t};
    }

    /** There is an entry: take it and return; `s` is the step that this is. */
    method FinishPop(t: Tid, timeLimit: bool) returns (v: T, ghost s: Step<T>)
      requires Inv(View()) && queue != [] && (Idle(View(), t) || t in notEmptyWoken)
      modifies this
      ensures schedule == old(schedule)
      ensures Enabled(old(View()), s) && View() == Next(old(View()), s) && Pops(old(View()), s) == [v]
      ensures if old(Idle(View(), t)) then IsPop(s, t, timeLimit) else s.ResumeC? && s.t == t
      ensures Inv(View()) && Idle(View(), t)
    {
      ghost var m := View();
      if t in notEmptyWoken {
        Leave(t);
      }
      var wake;
      v, wake := Take();
      s := if Idle(m, t) then Step.Pop(t, timeLimit, wake) else ResumeC(t, wake);
      StepKeepsInv(m, s);
    }

    /** One round of the wait loop of `Pop`. */
    method PopRound(t: Tid, timeLimit: bool, ghost m0: Monitor<T>, ghost schedule0: seq<Step<T>>,
                    ghost steps: seq<Step<T>>)
      returns (back: Back, ghost all: seq<Step<T>>)
      requires Inv(m0) && Inv(View()) && queue == [] && PopBegun(m0, steps, View(), t, timeLimit)
      requires if steps == [] then schedule == schedule0
               else Foreseen(m0, steps, schedule0, t, EndFrom(View(), schedule, t))
      modifies this
      ensures Foreseen(m0, all, schedule0, t,
                       match back
                       case Resumed => EndFrom(View(), schedule, t)
                       case Expired => TimedOut
                       case Unscheduled => StillWaiting)
      ensures Inv(View()) && PopSoFar(m0, all, View(), t, timeLimit)
      ensures back == Resumed ==> PopBegun(m0, all, View(), t, timeLimit) && all != []
      ensures back == Resumed ==> |schedule| < |old(schedule)|
      ensures back == Expired ==> timeLimit && Idle(View(), t)
      ensures back == Unscheduled ==> Waiting(View(), t)
    {
      ghost var m := View();
      ghost var s := SleepNotEmpty(t, timeLimit);
      all := Taken(m0, steps, m, s, View(), t);
      ghost var asleep, more := View(), [];
      back, more := Wait(t);
      PopWaited(m0, all, asleep, more, View(), t, timeLimit);
      all := all + more;
    }

    /** `Pop(v)` and `Pop(v, timeout_ms)`.  Whatever happens meanwhile, the call has taken exactly the value
        it hands back if it returns true, and nothing, `v` unchanged, if it returns false or still waits.
        With an entry there it returns at once; otherwise it ends as `CallEnds` says of a call that sleeps. */
    method Pop(t: Tid, timeLimit: bool, v0: T) returns (outcome: Outcome, v: T, ghost steps: seq<Step<T>>)
      requires Inv(View()) && Idle(View(), t)
      modifies this
      ensures Inv(View()) && Runs(old(View()), steps, View(), Free)
      ensures steps != [] && IsPop(steps[0], t, timeLimit) && OneCall(steps[1..], t)
      ensures OwnPops(old(View()), steps, t) == if outcome == Done then [v] else []
      ensures outcome != Done ==> v == v0
      ensures outcome == StillWaiting <==> Waiting(View(), t)
      ensures outcome == TimedOut ==> timeLimit
      ensures outcome == if old(queue) != [] then Done
                         else CallEnd(Next(old(View()), steps[0]), old(schedule), t)
    {
      ghost var m0, schedule0 := View(), schedule;
      v, steps := v0, [];
      while queue == []
        invariant Inv(View()) && PopBegun(m0, steps, View(), t, timeLimit)
        invariant if steps == [] then schedule == schedule0 else
            m0.queue == [] && Foreseen(m0, steps, schedule0, t, EndFrom(View(), schedule, t))
        decreases |schedule|, if steps == [] then 1 else 0
      {
        var back;
        back, steps := PopRound(t, timeLimit, m0, schedule0, steps);
        if back == Expired {
          return TimedOut, v, steps;
        } else if back == Unscheduled {
          return StillWaiting, v, steps;
        }
      }
      ghost var m := View();
      ghost var s;
      v, s := FinishPop(t, timeLimit);
      steps := Taken(m0, steps, m, s, View(), t);
      return Done, v, steps;
    }

    /** `TryPush(v)` never waits: it appends and notifies a consumer, or changes nothing. */
    method TryPush(v: T) returns (ok: bool)
      modifies this
      ensures ok <==> old(|queue| < capacity)
      ensures !ok ==> View() == old(View())
      ensures ok ==> exists wake :: PicksC(old(View()), wake) && View() == QueueMonitor.Append(old(View()), v, wake)
    {
      if |queue| >= capacity {
        return false;
      }
      var wake := Append(v);
      return true;
    }

    /** `TryPop(v)` likewise. */
    method TryPop(v0: T) returns (ok: bool, v: T)
      modifies this
      ensures ok <==> old(queue) != []
      ensures !ok ==> View() == old(View()) && v == v0
      ensures ok ==> v == old(queue)[0]
      ensures ok ==> exists wake :: PicksP(old(View()), wake) && View() == QueueMonitor.Take(old(View()), wake)
    {
      if queue == [] {
        return false, v0;
      }
      var wake;
      v, wake := Take();
      return true, v;
    }

    /** `SetCapacity` notifies nobody. */
    method SetCapacity(c: nat)
      modifies this`capacity
      ensures capacity == c
    {
      capacity := c;
    }

    method Size() returns (n: nat)
      ensures n == |queue|
    {
      n := |queue|;
    }
  }

  /** The call has taken its first step, or one more. */
  ghost function Taken<T>(m0: Monitor<T>, steps: seq<Step<T>>, m: Monitor<T>, s: Step<T>, m': Monitor<T>, t: Tid)
    : (all: seq<Step<T>>)
    requires Enabled(m, s) && m' == Next(m, s) && OfThread(s, t) && !GivesUp(s, t)
    requires if steps == [] then m == m0 else Under(m0, steps, m, t) && Continues(s)
    ensures Under(m0, all, m', t) && all[0] == if steps == [] then s else steps[0]
    ensures OwnPops(m0, all, t) == OwnPops(m0, steps, t) + Pops(m, s)
  {
    assert [s][1..] == [] && OwnPops(m, [s], t) == Pops(m, s) + [];
    if steps == [] then
      [s]
    else
      OneMore(m, s, t);
      OwnPopsOn(m0, steps, m, [s], t);
      Extend(m0, steps, m, [s], m', t);
      steps + [s]
  }
}
