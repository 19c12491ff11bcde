/** `BlockingQueue` as a monitor: a bounded queue, one mutex, two condition variables, `notify_one`
(section 30.5 of ISO C++11).

A step is one critical section: from taking the mutex to releasing it, which `wait` does as well.
A thread inside a blocking call is asleep (in `wait`, not notified) or woken (notified, or woken
spuriously, and about to take the mutex again); any number of threads take part.
*/
module QueueMonitor {

  type Tid = nat

  datatype Monitor<T> = Monitor(
    capacity: nat,
    queue: seq<T>,
    asleepC: set<Tid>,      // consumers asleep on m_not_empty_cond
    wokenC: set<Tid>,       // consumers that have left it and not yet resumed
    asleepP: set<Tid>,      // producers asleep on m_not_full_cond
    wokenP: set<Tid>,       // producers that have left it and not yet resumed
    timed: set<Tid>,        // those of them inside a timed call
    value: map<Tid, T>,     // what the waiting producers are pushing
    pushed: seq<T>,         // everything pushed, in commit order
    popped: seq<T>)         // everything popped, in commit order

  function Fresh<T>(capacity: nat): Monitor<T> {
    Monitor(capacity, [], {}, {}, {}, {}, {}, map[], [], [])
  }

  /** `wake` is the thread that notify_one picks; it counts only if somebody is asleep. */
  datatype Step<T> =
    | Push(t: Tid, v: T, timeLimit: bool, wake: Tid)  // Push(v) or Push(v, timeout_ms), up to its first wait
    | TryPush(t: Tid, v: T, wake: Tid)
    | Pop(t: Tid, timeLimit: bool, wake: Tid)         // Pop(v) or Pop(v, timeout_ms), up to its first wait
    | TryPop(t: Tid, wake: Tid)
    | ResumeP(t: Tid, wake: Tid)                      // a woken producer tests the condition again
    | ResumeC(t: Tid, wake: Tid)                      // a woken consumer tests the condition again
    | Spurious(t: Tid)                                // a sleeper wakes without being notified
    | TimeOut(t: Tid)                                 // a timed sleeper gives up
    | LateTimeOut(t: Tid)                             // a timed waiter was notified, but reports a timeout
    | SetCapacity(c: nat)

  predicate Idle<T>(m: Monitor<T>, t: Tid) {
    t !in m.asleepC + m.wokenC + m.asleepP + m.wokenP
  }

  predicate Full<T>(m: Monitor<T>) {
    |m.queue| >= m.capacity
  }

  predicate PicksC<T>(m: Monitor<T>, wake: Tid) {
    m.asleepC == {} || wake in m.asleepC
  }

  predicate PicksP<T>(m: Monitor<T>, wake: Tid) {
    m.asleepP == {} || wake in m.asleepP
  }

  predicate Enabled<T>(m: Monitor<T>, s: Step<T>) {
    match s
    case Push(t, _, _, wake) => Idle(m, t) && PicksC(m, wake)
    case TryPush(t, _, wake) => Idle(m, t) && PicksC(m, wake)
    case Pop(t, _, wake) => Idle(m, t) && PicksP(m, wake)
    case TryPop(t, wake) => Idle(m, t) && PicksP(m, wake)
    case ResumeP(t, wake) => t in m.wokenP && t in m.value && PicksC(m, wake)
    case ResumeC(t, wake) => t in m.wokenC && PicksP(m, wake)
    case Spurious(t) => t in m.asleepC || t in m.asleepP
    case TimeOut(t) => t in m.timed && (t in m.asleepC || t in m.asleepP)
    case LateTimeOut(t) => t in m.timed && (t in m.wokenC || t in m.wokenP)
    case SetCapacity(_) => true
  }

  /** Put a value behind the others and notify one consumer. */
  function Append<T>(m: Monitor<T>, v: T, wake: Tid): Monitor<T> {
    m.(queue := m.queue + [v], pushed := m.pushed + [v],
       asleepC := m.asleepC - {wake},
       wokenC := if wake in m.asleepC then m.wokenC + {wake} else m.wokenC)
  }

  /** Take the value in front and notify one producer. */
  function Take<T>(m: Monitor<T>, wake: Tid): Monitor<T>
    requires m.queue != []
  {
    m.(queue := m.queue[1..], popped := m.popped + [m.queue[0]],
       asleepP := m.asleepP - {wake},
       wokenP := if wake in m.asleepP then m.wokenP + {wake} else m.wokenP)
  }

  /** The thread is out of its call. */
  function Leave<T>(m: Monitor<T>, t: Tid): Monitor<T> {
    m.(asleepC := m.asleepC - {t}, wokenC := m.wokenC - {t},
       asleepP := m.asleepP - {t}, wokenP := m.wokenP - {t}, timed := m.timed - {t})
  }

  function Next<T>(m: Monitor<T>, s: Step<T>): Monitor<T>
    requires Enabled(m, s)
  {
    match s
    case Push(t, v, timeLimit, wake) =>
      if Full(m) then
        m.(asleepP := m.asleepP + {t}, value := m.value[t := v],
           timed := if timeLimit then m.timed + {t} else m.timed - {t})
      else Append(m, v, wake)
    case TryPush(_, v, wake) => if Full(m) then m else Append(m, v, wake)
    case Pop(t, timeLimit, wake) =>
      if m.queue == [] then
        m.(asleepC := m.asleepC + {t}, timed := if timeLimit then m.timed + {t} else m.timed - {t})
      else Take(m, wake)
    case TryPop(_, wake) => if m.queue == [] then m else Take(m, wake)
    case ResumeP(t, wake) =>
      if Full(m) then m.(wokenP := m.wokenP - {t}, asleepP := m.asleepP + {t})
      else Append(Leave(m, t), m.value[t], wake)
    case ResumeC(t, wake) =>
      if m.queue == [] then m.(wokenC := m.wokenC - {t}, asleepC := m.asleepC + {t})
      else Take(Leave(m, t), wake)
    case Spurious(t) =>
      if t in m.asleepC then m.(asleepC := m.asleepC - {t}, wokenC := m.wokenC + {t})
      else m.(asleepP := m.asleepP - {t}, wokenP := m.wokenP + {t})
    case TimeOut(t) => Leave(m, t)
    case LateTimeOut(t) => Leave(m, t)
    case SetCapacity(c) => m.(capacity := c)
  }

  // ---------------------------------------------------------------- invariants

  /** A thread is in one place at a time, and the queue is what was pushed and not yet popped. */
  ghost predicate Inv<T>(m: Monitor<T>) {
    && m.asleepC !! m.wokenC && m.asleepC !! m.asleepP && m.asleepC !! m.wokenP
    && m.wokenC !! m.asleepP && m.wokenC !! m.wokenP && m.asleepP !! m.wokenP
    && m.asleepP + m.wokenP <= m.value.Keys
    && m.pushed == m.popped + m.queue
  }

  ghost predicate AwakeC<T>(m: Monitor<T>) {
    m.asleepC != {} ==> |m.queue| <= |m.wokenC|
  }

  ghost predicate AwakeP<T>(m: Monitor<T>) {
    m.asleepP != {} ==> m.capacity - |m.queue| <= |m.wokenP|
  }

  /** No lost wakeup: while a consumer sleeps, every entry has a woken consumer on its way to it, and
      while a producer sleeps, every free slot has a woken producer on its way to it. */
  ghost predicate Awake<T>(m: Monitor<T>) {
    AwakeC(m) && AwakeP(m)
  }

  /** Linearizability: whatever the steps, the values pushed are, in commit order, the values popped
      followed by the queue. */
  lemma StepKeepsInv<T>(m: Monitor<T>, s: Step<T>)
    requires Inv(m) && Enabled(m, s)
    ensures Inv(Next(m, s))
  {
    if m.queue != [] {
      assert m.popped + m.queue == m.popped + [m.queue[0]] + m.queue[1..];
    }
    match s
    case Push(_, v, _, _) => assert m.popped + (m.queue + [v]) == m.popped + m.queue + [v];
    case TryPush(_, v, _) => assert m.popped + (m.queue + [v]) == m.popped + m.queue + [v];
    case ResumeP(t, _) => assert m.popped + (m.queue + [m.value[t]]) == m.popped + m.queue + [m.value[t]];
    case _ =>
  }

  lemma Grows(s: set<Tid>, t: Tid)
    ensures |s + {t}| == if t in s then |s| else |s| + 1
  {
    if t in s {
      assert s + {t} == s;
    }
  }

  lemma Shrinks(s: set<Tid>, t: Tid)
    ensures |s - {t}| == if t in s then |s| - 1 else |s|
  {
    if t !in s {
      assert s - {t} == s;
    }
  }

  lemma NotThere(s: set<Tid>, t: Tid)
    ensures t !in s ==> s - {t} == s
  {
  }

  /** A push by a thread that is no longer among the woken producers. */
  lemma AppendKeepsAwake<T>(m: Monitor<T>, v: T, wake: Tid)
    requires m.asleepC !! m.wokenC && PicksC(m, wake) && AwakeC(m)
    requires m.asleepP != {} ==> m.capacity - |m.queue| <= |m.wokenP| + 1
    ensures Awake(Append(m, v, wake))
  {
    Grows(m.wokenC, wake);
  }

  /** A pop by a thread that is no longer among the woken consumers. */
  lemma TakeKeepsAwake<T>(m: Monitor<T>, wake: Tid)
    requires m.queue != [] && m.asleepP !! m.wokenP && PicksP(m, wake) && AwakeP(m)
    requires m.asleepC != {} ==> |m.queue| <= |m.wokenC| + 1
    ensures Awake(Take(m, wake))
  {
    Grows(m.wokenP, wake);
  }

  lemma LeaveCounts<T>(m: Monitor<T>, t: Tid)
    requires Inv(m) && (t in m.wokenC || t in m.wokenP)
    ensures var m' := Leave(m, t);
      && m'.asleepC == m.asleepC && m'.asleepP == m.asleepP
      && |m'.wokenC| == |m.wokenC| - (if t in m.wokenC then 1 else 0)
      && |m'.wokenP| == |m.wokenP| - (if t in m.wokenP then 1 else 0)
  {
    Shrinks(m.wokenC, t);
    Shrinks(m.wokenP, t);
    NotThere(m.asleepC, t);
    NotThere(m.asleepP, t);
  }

  /** Every step keeps every entry and every free slot covered, except a timeout that swallows a
      notification and a rise of the capacity. */
  lemma StepKeepsAwake<T>(m: Monitor<T>, s: Step<T>)
    requires Inv(m) && Awake(m) && Enabled(m, s)
    requires !s.LateTimeOut? && (s.SetCapacity? ==> s.c <= m.capacity)
    ensures Awake(Next(m, s))
  {
    match s
    case Push(t, v, _, wake) => if !Full(m) { AppendKeepsAwake(m, v, wake); }
    case TryPush(t, v, wake) => if !Full(m) { AppendKeepsAwake(m, v, wake); }
    case Pop(t, _, wake) => if m.queue != [] { TakeKeepsAwake(m, wake); }
    case TryPop(t, wake) => if m.queue != [] { TakeKeepsAwake(m, wake); }
    case ResumeP(t, wake) =>
      LeaveCounts(m, t);
      if !Full(m) { AppendKeepsAwake(Leave(m, t), m.value[t], wake); }
    case ResumeC(t, wake) =>
      LeaveCounts(m, t);
      if m.queue != [] { TakeKeepsAwake(Leave(m, t), wake); }
    case Spurious(t) =>
      Grows(m.wokenC, t);
      Grows(m.wokenP, t);
    case TimeOut(t) =>
      Shrinks(m.wokenC, t);
      Shrinks(m.wokenP, t);
    case SetCapacity(c) =>
  }

  // ---------------------------------------------------------------- who calls what

  /** The threads that call the blocking operations, without and with a time limit. */
  datatype Users = Users(pops: set<Tid>, timedPops: set<Tid>, pushes: set<Tid>, timedPushes: set<Tid>)

  predicate By<T>(s: Step<T>, u: Users) {
    match s
    case Push(t, _, timeLimit, _) => if timeLimit then t in u.timedPushes else t in u.pushes
    case Pop(t, timeLimit, _) => if timeLimit then t in u.timedPops else t in u.pops
    case _ => true
  }

  /** Where a time limit is used on a condition, nobody but its one user waits there. */
  predicate OneWaiter(u: Users) {
    && (u.timedPops == {} || |u.pops + u.timedPops| <= 1)
    && (u.timedPushes == {} || |u.pushes + u.timedPushes| <= 1)
  }

  /** Only the users wait, and only those with a time limit can time out. */
  ghost predicate WaitersAre<T>(m: Monitor<T>, u: Users) {
    && m.asleepC + m.wokenC <= u.pops + u.timedPops
    && m.asleepP + m.wokenP <= u.pushes + u.timedPushes
    && (m.asleepC + m.wokenC) * m.timed <= u.timedPops
    && (m.asleepP + m.wokenP) * m.timed <= u.timedPushes
  }

  lemma StepKeepsWaiters<T>(m: Monitor<T>, s: Step<T>, u: Users)
    requires WaitersAre(m, u) && Inv(m) && Enabled(m, s) && By(s, u)
    ensures WaitersAre(Next(m, s), u)
  {
    match s
    case Push(_, _, _, _) =>
    case Pop(_, _, _) =>
    case ResumeP(_, _) =>
    case ResumeC(_, _) =>
    case _ =>
  }

  lemma AtMostOne(s: set<Tid>, t: Tid, x: Tid)
    requires |s| <= 1 && t in s && x in s
    ensures x == t
  {
    if x != t {
      var two := {t, x};
      assert two <= s;
      Fewer(two, s);
    }
  }

  lemma {:induction false} Fewer(a: set<Tid>, b: set<Tid>)
    requires a <= b
    ensures |a| <= |b|
  {
    assert b == a + (b - a);
  }

  /** A timeout that swallows a notification is harmless where only its thread waits. */
  lemma LateTimeOutKeepsAwake<T>(m: Monitor<T>, t: Tid, u: Users)
    requires Inv(m) && Awake(m) && Enabled(m, LateTimeOut(t)) && WaitersAre(m, u) && OneWaiter(u)
    ensures Awake(Next(m, LateTimeOut(t)))
  {
    LeaveCounts(m, t);
    if t in m.wokenC {
      assert t in (m.asleepC + m.wokenC) * m.timed;
      forall x | x in m.asleepC ensures x == t {
        AtMostOne(u.pops + u.timedPops, t, x);
      }
    } else {
      assert t in (m.asleepP + m.wokenP) * m.timed;
      forall x | x in m.asleepP ensures x == t {
        AtMostOne(u.pushes + u.timedPushes, t, x);
      }
    }
  }

  // ---------------------------------------------------------------- whole runs

  /** What a run may do: anything; or no timeout that swallows a notification; or any timeouts, but only by
      these users.  In the last two it does not raise the capacity. */
  datatype Discipline = Free | Punctual | ByUsers(users: Users)

  predicate Follows<T>(m: Monitor<T>, s: Step<T>, d: Discipline) {
    match d
    case Free => true
    case Punctual => !s.LateTimeOut? && (s.SetCapacity? ==> s.c <= m.capacity)
    case ByUsers(u) => By(s, u) && (s.SetCapacity? ==> s.c <= m.capacity)
  }

  /** The steps can be taken one after the other, each from the state the one before leaves. */
  ghost predicate Runs<T>(m: Monitor<T>, steps: seq<Step<T>>, m': Monitor<T>, d: Discipline)
    decreases |steps|
  {
    if steps == [] then m' == m
    else Enabled(m, steps[0]) && Follows(m, steps[0], d) && Runs(Next(m, steps[0]), steps[1..], m', d)
  }

  /** A state that a queue can get into under the discipline. */
  ghost predicate Reachable<T(!new)>(capacity: nat, m: Monitor<T>, d: Discipline) {
    exists steps :: Runs(Fresh(capacity), steps, m, d)
  }

  /** Nothing can get lost under the discipline. */
  predicate Sound(d: Discipline) {
    d.Punctual? || (d.ByUsers? && OneWaiter(d.users))
  }

  lemma {:induction false} RunKeepsInv<T>(m: Monitor<T>, steps: seq<Step<T>>, m': Monitor<T>, d: Discipline)
    requires Inv(m) && Runs(m, steps, m', d)
    ensures Inv(m')
    decreases |steps|
  {
    if steps != [] {
      StepKeepsInv(m, steps[0]);
      RunKeepsInv(Next(m, steps[0]), steps[1..], m', d);
    }
  }

  ghost predicate Live<T>(m: Monitor<T>, d: Discipline) {
    Inv(m) && Awake(m) && (d.ByUsers? ==> WaitersAre(m, d.users))
  }

  lemma StepKeepsLive<T>(m: Monitor<T>, s: Step<T>, d: Discipline)
    requires Live(m, d) && Sound(d) && Enabled(m, s) && Follows(m, s, d)
    ensures Live(Next(m, s), d)
  {
    StepKeepsInv(m, s);
    if d.ByUsers? {
      StepKeepsWaiters(m, s, d.users);
    }
    if s.LateTimeOut? {
      LateTimeOutKeepsAwake(m, s.t, d.users);
    } else {
      StepKeepsAwake(m, s);
    }
  }

  lemma {:induction false} RunKeepsLive<T>(m: Monitor<T>, steps: seq<Step<T>>, m': Monitor<T>, d: Discipline)
    requires Live(m, d) && Sound(d) && Runs(m, steps, m', d)
    ensures Live(m', d)
    decreases |steps|
  {
    if steps != [] {
      StepKeepsLive(m, steps[0], d);
      RunKeepsLive(Next(m, steps[0]), steps[1..], m', d);
    }
  }

  lemma {:induction false} RunKeepsSize<T>(m: Monitor<T>, steps: seq<Step<T>>, m': Monitor<T>, d: Discipline, most: nat)
    requires Runs(m, steps, m', d) && !d.Free? && |m.queue| <= most && m.capacity <= most
    ensures |m'.queue| <= most && m'.capacity <= most
    decreases |steps|
  {
    if steps != [] {
      RunKeepsSize(Next(m, steps[0]), steps[1..], m', d, most);
    }
  }

  /** In every interleaving: first in, first out, and nothing lost or invented. */
  lemma Linearizable<T>(capacity: nat, steps: seq<Step<T>>, m: Monitor<T>, d: Discipline)
    requires Runs(Fresh(capacity), steps, m, d)
    ensures m.pushed == m.popped + m.queue
  {
    RunKeepsInv(Fresh(capacity), steps, m, d);
  }

  /** No lost wakeup, in every interleaving in which the capacity is never raised and no timeout swallows
      a notification, or does so only where its thread alone waits: while a consumer sleeps, every entry
      has a woken consumer of its own on the way; while a producer sleeps, every free slot has a woken
      producer; the capacity holds; and a sleeping producer and a sleeping consumer are never stuck
      together. */
  lemma NoLostWakeup<T>(capacity: nat, steps: seq<Step<T>>, m: Monitor<T>, d: Discipline)
    requires Runs(Fresh(capacity), steps, m, d) && Sound(d)
    ensures m.asleepC != {} ==> |m.queue| <= |m.wokenC|
    ensures m.asleepP != {} ==> m.capacity - |m.queue| <= |m.wokenP|
    ensures |m.queue| <= capacity
    ensures m.capacity > 0 && m.asleepC != {} && m.asleepP != {} ==> |m.wokenC| + |m.wokenP| > 0
  {
    RunKeepsLive(Fresh(capacity), steps, m, d);
    RunKeepsSize(Fresh(capacity), steps, m, d, capacity);
  }

  /** Exactly when late timeouts lose nothing: in every run of these users no wakeup is lost if and only if
      no time limit is used where another thread may wait as well. */
  lemma LateTimeOutExact<T(!new)>(capacity: nat, u: Users, v: T)
    requires capacity > 0
    ensures (forall m: Monitor<T> | Reachable(capacity, m, ByUsers(u)) :: Awake(m)) <==> OneWaiter(u)
  {
    if OneWaiter(u) {
      forall m: Monitor<T> | Reachable(capacity, m, ByUsers(u)) ensures Awake(m) {
        var steps :| Runs(Fresh(capacity), steps, m, ByUsers(u));
        RunKeepsLive(Fresh(capacity), steps, m, ByUsers(u));
      }
    } else if u.timedPops != {} && |u.pops + u.timedPops| > 1 {
      var a, b := TwoUsers(u.timedPops, u.pops);
      var steps, m := ConsumerLoses(capacity, u, a, b, v);
      assert Reachable(capacity, m, ByUsers(u));
    } else {
      var a, b := TwoUsers(u.timedPushes, u.pushes);
      var steps, m := ProducerLoses(capacity, u, a, b, v);
      assert Reachable(capacity, m, ByUsers(u));
    }
  }

  /** Exactly when SetCapacity loses nothing: in every state that a queue of capacity c0 can be in, it keeps
      every free slot covered if and only if it does not raise the capacity. */
  lemma SetCapacityExact<T(!new)>(c0: nat, c: nat, v: T)
    ensures (forall m: Monitor<T> | Reachable(c0, m, Punctual) && m.capacity == c0 :: Awake(Next(m, SetCapacity(c))))
        <==> c <= c0
  {
    if c <= c0 {
      forall m: Monitor<T> | Reachable(c0, m, Punctual) && m.capacity == c0
        ensures Awake(Next(m, SetCapacity(c)))
      {
        var steps :| Runs(Fresh(c0), steps, m, Punctual);
        RunKeepsLive(Fresh(c0), steps, m, Punctual);
        StepKeepsAwake(m, SetCapacity(c));
      }
    } else {
      var steps, m := RaiseLoses<T>(c0, c, v);
      assert Reachable(c0, m, Punctual);
    }
  }

  // ---------------------------------------------------------------- losing runs

  lemma {:induction false} RunsAppend<T>(m: Monitor<T>, a: seq<Step<T>>, m1: Monitor<T>, b: seq<Step<T>>,
                                         m2: Monitor<T>, d: Discipline)
    requires Runs(m, a, m1, d) && Runs(m1, b, m2, d)
    ensures Runs(m, a + b, m2, d)
    decreases |a|
  {
    if a == [] {
      assert a + b == b;
    } else {
      RunsAppend(Next(m, a[0]), a[1..], m1, b, m2, d);
      assert (a + b)[1..] == a[1..] + b;
    }
  }

  lemma OneStep<T>(m: Monitor<T>, s: Step<T>, d: Discipline)
    requires Enabled(m, s) && Follows(m, s, d)
    ensures Runs(m, [s], Next(m, s), d)
  {
    assert [s][1..] == [];
  }

  /** Nobody is inside a blocking call. */
  predicate Quiet<T>(m: Monitor<T>) {
    m.asleepC == {} && m.wokenC == {} && m.asleepP == {} && m.wokenP == {}
  }

  /** A thread fills the queue. */
  lemma {:induction false} FillUp<T>(m: Monitor<T>, v: T, d: Discipline)
    returns (steps: seq<Step<T>>, m': Monitor<T>)
    requires Quiet(m) && |m.queue| <= m.capacity
    ensures Runs(m, steps, m', d) && Quiet(m') && |m'.queue| == m'.capacity == m.capacity
    decreases m.capacity - |m.queue|
  {
    if Full(m) {
      return [], m;
    }
    var rest;
    rest, m' := FillUp(Next(m, TryPush(0, v, 0)), v, d);
    steps := [TryPush(0, v, 0)] + rest;
    assert steps[1..] == rest;
  }

  /** A queue of any capacity that a producer waits for: whoever raises the capacity leaves the producer
      asleep next to a free slot, with nobody on the way to it. */
  lemma RaiseLoses<T>(c0: nat, c: nat, v: T) returns (steps: seq<Step<T>>, m: Monitor<T>)
    requires c0 < c
    ensures Runs(Fresh(c0), steps, m, Punctual) && m.capacity == c0
    ensures var m' := Next(m, SetCapacity(c));
      !Full(m') && m'.asleepP != {} && m'.wokenP == {} && !Awake(m')
  {
    var fill, full := FillUp<T>(Fresh(c0), v, Punctual);
    var s := Push(0, v, false, 0);
    m := Next(full, s);
    OneStep(full, s, Punctual);
    RunsAppend(Fresh(c0), fill, full, [s], m, Punctual);
    steps := fill + [s];
  }

  /** What a pop at an empty queue does, and a push at a full one. */
  lemma PopSleeps<T>(m: Monitor<T>, t: Tid, timeLimit: bool)
    requires Idle(m, t) && m.queue == [] && m.asleepP == {}
    ensures Enabled(m, Pop(t, timeLimit, 0))
    ensures Next(m, Pop(t, timeLimit, 0))
         == m.(asleepC := m.asleepC + {t}, timed := if timeLimit then m.timed + {t} else m.timed - {t})
  {
  }

  lemma PushSleeps<T>(m: Monitor<T>, t: Tid, v: T, timeLimit: bool)
    requires Idle(m, t) && Full(m) && m.asleepC == {}
    ensures Enabled(m, Push(t, v, timeLimit, 0))
    ensures Next(m, Push(t, v, timeLimit, 0))
         == m.(asleepP := m.asleepP + {t}, value := m.value[t := v],
               timed := if timeLimit then m.timed + {t} else m.timed - {t})
  {
  }

  /** Two consumers sleep; the timed one is notified of a push. */
  lemma ConsumerNotified<T>(m: Monitor<T>, a: Tid, b: Tid, v: T)
    requires m.asleepC == {a, b} && a != b && m.wokenC == {} && m.asleepP == {} && m.wokenP == {}
    requires m.queue == [] && m.capacity > 0
    ensures Enabled(m, TryPush(a + b + 1, v, a))
    ensures var m' := Next(m, TryPush(a + b + 1, v, a));
      m'.queue == [v] && m'.asleepC == {b} && m'.wokenC == {a} && m'.timed == m.timed
      && m'.asleepP == {} && m'.wokenP == {} && m'.capacity == m.capacity
  {
    assert {a, b} - {a} == {b};
  }

  /** Two producers sleep; the timed one is notified of a pop. */
  lemma ProducerNotified<T>(m: Monitor<T>, a: Tid, b: Tid)
    requires m.asleepP == {a, b} && a != b && m.wokenP == {} && m.asleepC == {} && m.wokenC == {} && m.queue != []
    ensures Enabled(m, TryPop(a + b + 1, a))
    ensures var m' := Next(m, TryPop(a + b + 1, a));
      m'.queue == m.queue[1..] && m'.asleepP == {b} && m'.wokenP == {a} && m'.timed == m.timed
      && m'.asleepC == {} && m'.wokenC == {} && m'.capacity == m.capacity
  {
    assert {a, b} - {a} == {b};
  }

  /** The notified one reports a timeout. */
  lemma NotifiedGivesUp<T>(m: Monitor<T>, a: Tid)
    requires a in m.timed && (m.wokenC == {a} || m.wokenP == {a})
    requires a !in m.asleepC && a !in m.asleepP && m.wokenC <= {a} && m.wokenP <= {a}
    ensures Enabled(m, LateTimeOut(a))
    ensures var m' := Next(m, LateTimeOut(a));
      m'.queue == m.queue && m'.capacity == m.capacity && m'.asleepC == m.asleepC && m'.asleepP == m.asleepP
      && m'.wokenC == {} && m'.wokenP == {}
  {
  }

  /** Two consumers of a fresh queue, of which the first has a time limit, go to sleep; it is notified of a
      push but reports a timeout, and the other sleeps on next to the entry, with nobody to wake it. */
  lemma ConsumerLoses<T>(capacity: nat, u: Users, a: Tid, b: Tid, v: T) returns (steps: seq<Step<T>>, m: Monitor<T>)
    requires capacity > 0 && a != b && a in u.timedPops && b in u.pops + u.timedPops
    ensures Runs(Fresh(capacity), steps, m, ByUsers(u)) && !Awake(m)
    ensures m.queue == [v] && m.asleepC == {b} && m.asleepP + m.wokenC + m.wokenP == {}
  {
    var m0, d := Fresh<T>(capacity), ByUsers(u);
    var s0, s1 := Pop(a, true, 0), Pop(b, b in u.timedPops, 0);
    var s2, s3 := TryPush(a + b + 1, v, a), LateTimeOut(a);
    PopSleeps(m0, a, true);
    var m1 := Next(m0, s0);
    PopSleeps(m1, b, b in u.timedPops);
    var m2 := Next(m1, s1);
    ConsumerNotified(m2, a, b, v);
    var m3 := Next(m2, s2);
    NotifiedGivesUp(m3, a);
    m := Next(m3, s3);
    steps := FourSteps(m0, s0, m1, s1, m2, s2, m3, s3, m, d);
  }

  /** The same for two producers at a full queue, next to a free slot. */
  lemma ProducerLoses<T>(capacity: nat, u: Users, a: Tid, b: Tid, v: T) returns (steps: seq<Step<T>>, m: Monitor<T>)
    requires capacity > 0 && a != b && a in u.timedPushes && b in u.pushes + u.timedPushes
    ensures Runs(Fresh(capacity), steps, m, ByUsers(u)) && !Awake(m)
    ensures |m.queue| == capacity - 1 && m.asleepP == {b} && m.asleepC + m.wokenC + m.wokenP == {}
  {
    var d := ByUsers(u);
    var fill, m0 := FillUp<T>(Fresh(capacity), v, d);
    var s0, s1 := Push(a, v, true, 0), Push(b, v, b in u.timedPushes, 0);
    var s2, s3 := TryPop(a + b + 1, a), LateTimeOut(a);
    PushSleeps(m0, a, v, true);
    var m1 := Next(m0, s0);
    PushSleeps(m1, b, v, b in u.timedPushes);
    var m2 := Next(m1, s1);
    ProducerNotified(m2, a, b);
    var m3 := Next(m2, s2);
    NotifiedGivesUp(m3, a);
    m := Next(m3, s3);
    var last := FourSteps(m0, s0, m1, s1, m2, s2, m3, s3, m, d);
    RunsAppend(Fresh(capacity), fill, m0, last, m, d);
    steps := fill + last;
  }

  lemma FourSteps<T>(m0: Monitor<T>, s0: Step<T>, m1: Monitor<T>, s1: Step<T>, m2: Monitor<T>, s2: Step<T>,
                     m3: Monitor<T>, s3: Step<T>, m4: Monitor<T>, d: Discipline) returns (steps: seq<Step<T>>)
    requires Enabled(m0, s0) && Follows(m0, s0, d) && m1 == Next(m0, s0)
    requires Enabled(m1, s1) && Follows(m1, s1, d) && m2 == Next(m1, s1)
    requires Enabled(m2, s2) && Follows(m2, s2, d) && m3 == Next(m2, s2)
    requires Enabled(m3, s3) && Follows(m3, s3, d) && m4 == Next(m3, s3)
    ensures Runs(m0, steps, m4, d)
  {
    OneStep(m0, s0, d);
    OneStep(m1, s1, d);
    OneStep(m2, s2, d);
    OneStep(m3, s3, d);
    RunsAppend(m2, [s2], m3, [s3], m4, d);
    RunsAppend(m1, [s1], m2, [s2] + [s3], m4, d);
    RunsAppend(m0, [s0], m1, [s1] + ([s2] + [s3]), m4, d);
    steps := [s0] + ([s1] + ([s2] + [s3]));
  }

  /** Two different users of which the first has a time limit. */
  lemma TwoUsers(limited: set<Tid>, unlimited: set<Tid>) returns (a: Tid, b: Tid)
    requires limited != {} && |unlimited + limited| > 1
    ensures a != b && a in limited && b in unlimited + limited
  {
    a :| a in limited;
    var others := unlimited + limited - {a};
    Shrinks(unlimited + limited, a);
    b :| b in others;
  }

  /** A call that reports failure changes neither the queue nor the history. */
  lemma FailureChangesNothing<T>(m: Monitor<T>, s: Step<T>)
    requires Enabled(m, s)
    requires s.TimeOut? || s.LateTimeOut? || (s.TryPush? && Full(m)) || (s.TryPop? && m.queue == [])
    ensures var m' := Next(m, s);
      m'.queue == m.queue && m'.pushed == m.pushed && m'.popped == m.popped && m'.capacity == m.capacity
  {
  }
}
