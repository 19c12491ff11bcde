/** The timer worker pool: the loop thread pushes expired timers, the workers pop and execute them, and
`Stop` pushes one null handler per worker and joins.

The queue is the monitor of module `QueueMonitor`, with its default capacity, which is taken not to
fill up.  Workers are the threads 0 .. |phase|-1; timers may expire at any time, also during `Stop`.
*/
module TimerPool {
  import L = LoopGroup
  import Q = QueueMonitor

  datatype Entry = Handler(id: nat) | Pill

  /** Where a worker is: at `Pop` (about to call it, asleep in it or woken), executing, or returned. */
  datatype Phase = Popping | Running(id: nat) | Exited

  datatype Pool = Pool(
    m: Q.Monitor<Entry>,
    phase: seq<Phase>,
    pills: nat,            // how many pills Stop has pushed
    executed: seq<nat>,    // the callbacks completed, in order
    taken: seq<nat>)       // how many pills each worker has taken

  const UNBOUNDED: nat := 0xFFFF_FFFF_FFFF_FFFF

  function Start(workers: nat): Pool {
    Pool(Q.Fresh(UNBOUNDED), seq(workers, i => Popping), 0, [], seq(workers, i => 0))
  }

  datatype Step =
    | Fire(id: nat, wake: nat)       // TimerHandler::HandleRead
    | PushPill(wake: nat)            // one round of the loop in Stop
    | WorkerPop(t: nat, wake: nat)   // Pop, or one more round of its wait loop
    | Finish(t: nat)                 // HandleTimeout returns
    | WakeUp(t: nat)                 // a spurious wakeup

  /** The monitor step behind a pool step. */
  function MonitorStep(p: Pool, s: Step): Q.Step<Entry>
    requires !s.Finish?
  {
    match s
    case Fire(id, wake) => Q.Push(|p.phase|, Handler(id), false, wake)
    case PushPill(wake) => Q.Push(|p.phase| + 1, Pill, false, wake)
    case WorkerPop(t, wake) => if t in p.m.wokenC then Q.ResumeC(t, wake) else Q.Pop(t, false, wake)
    case WakeUp(t) => Q.Spurious(t)
  }

  predicate Enabled(p: Pool, s: Step) {
    && (s.Finish? || Q.Enabled(p.m, MonitorStep(p, s)))
    && match s
       case Fire(_, _) => !Q.Full(p.m)
       case PushPill(_) => !Q.Full(p.m) && p.pills < |p.phase|
       case WorkerPop(t, _) => t < |p.phase| && p.phase[t] == Popping
       case Finish(t) => t < |p.phase| && p.phase[t].Running?
       case WakeUp(t) => true
  }

  function After(e: Entry): Phase {
    if e.Pill? then Exited else Running(e.id)
  }

  function Next(p: Pool, s: Step): Pool
    requires Enabled(p, s)
  {
    match s
    case Fire(_, _) => p.(m := Q.Next(p.m, MonitorStep(p, s)))
    case PushPill(_) => p.(m := Q.Next(p.m, MonitorStep(p, s)), pills := p.pills + 1)
    case WorkerPop(t, _) =>
      p.(m := Q.Next(p.m, MonitorStep(p, s)),
         phase := if p.m.queue == [] then p.phase else p.phase[t := After(p.m.queue[0])],
         taken := if p.m.queue == [] || !p.m.queue[0].Pill? || t >= |p.taken| then p.taken
                  else p.taken[t := p.taken[t] + 1])
    case Finish(t) => p.(phase := p.phase[t := Popping], executed := p.executed + [p.phase[t].id])
    case WakeUp(_) => p.(m := Q.Next(p.m, MonitorStep(p, s)))
  }

  // ---------------------------------------------------------------- counting

  function Pills(es: seq<Entry>): nat {
    if es == [] then 0 else Pills(es[..|es| - 1]) + if es[|es| - 1].Pill? then 1 else 0
  }

  /** How often the handler occurs among entries, and among completed callbacks. */
  function Entries(es: seq<Entry>, id: nat): nat {
    if es == [] then 0 else Entries(es[..|es| - 1], id) + if es[|es| - 1] == Handler(id) then 1 else 0
  }

  function Done(ids: seq<nat>, id: nat): nat {
    if ids == [] then 0 else Done(ids[..|ids| - 1], id) + if ids[|ids| - 1] == id then 1 else 0
  }

  function Exits(ps: seq<Phase>): (n: nat)
    ensures n <= |ps|
  {
    if ps == [] then 0 else Exits(ps[..|ps| - 1]) + if ps[|ps| - 1].Exited? then 1 else 0
  }

  /** How many workers execute the handler, and how many execute any. */
  function Doing(ps: seq<Phase>, id: nat): nat {
    if ps == [] then 0 else Doing(ps[..|ps| - 1], id) + if ps[|ps| - 1] == Running(id) then 1 else 0
  }

  function Busy(ps: seq<Phase>): nat {
    if ps == [] then 0 else Busy(ps[..|ps| - 1]) + if ps[|ps| - 1].Running? then 1 else 0
  }

  lemma Snoc(es: seq<Entry>, e: Entry)
    ensures Pills(es + [e]) == Pills(es) + if e.Pill? then 1 else 0
    ensures forall id :: Entries(es + [e], id) == Entries(es, id) + if e == Handler(id) then 1 else 0
  {
    assert (es + [e])[..|es|] == es;
  }

  lemma SnocDone(ids: seq<nat>, x: nat)
    ensures forall id :: Done(ids + [x], id) == Done(ids, id) + if x == id then 1 else 0
  {
    assert (ids + [x])[..|ids|] == ids;
  }

  lemma {:induction false} PillsAppend(a: seq<Entry>, b: seq<Entry>)
    ensures Pills(a + b) == Pills(a) + Pills(b)
    decreases |b|
  {
    if b == [] {
      assert a + b == a;
    } else {
      var k := |b| - 1;
      PillsAppend(a, b[..k]);
      assert (a + b)[..|a| + k] == a + b[..k];
    }
  }

  lemma {:induction false} ExitsUpdate(ps: seq<Phase>, t: nat, q: Phase)
    requires t < |ps|
    ensures Exits(ps[t := q]) + (if ps[t].Exited? then 1 else 0) == Exits(ps) + if q.Exited? then 1 else 0
    decreases |ps|
  {
    var k := |ps| - 1;
    if t < k {
      ExitsUpdate(ps[..k], t, q);
      assert ps[t := q][..k] == ps[..k][t := q];
    } else {
      assert ps[t := q][..k] == ps[..k];
    }
  }

  lemma {:induction false} BusyUpdate(ps: seq<Phase>, t: nat, q: Phase)
    requires t < |ps|
    ensures Busy(ps[t := q]) + (if ps[t].Running? then 1 else 0) == Busy(ps) + if q.Running? then 1 else 0
    decreases |ps|
  {
    var k := |ps| - 1;
    if t < k {
      BusyUpdate(ps[..k], t, q);
      assert ps[t := q][..k] == ps[..k][t := q];
    } else {
      assert ps[t := q][..k] == ps[..k];
    }
  }

  lemma {:induction false} DoingUpdate(ps: seq<Phase>, t: nat, q: Phase, id: nat)
    requires t < |ps|
    ensures Doing(ps[t := q], id) + (if ps[t] == Running(id) then 1 else 0)
         == Doing(ps, id) + if q == Running(id) then 1 else 0
    decreases |ps|
  {
    var k := |ps| - 1;
    if t < k {
      DoingUpdate(ps[..k], t, q, id);
      assert ps[t := q][..k] == ps[..k][t := q];
    } else {
      assert ps[t := q][..k] == ps[..k];
    }
  }

  lemma {:induction false} ExitsAll(ps: seq<Phase>)
    ensures Exits(ps) == |ps| <==> forall t | 0 <= t < |ps| :: ps[t].Exited?
    decreases |ps|
  {
    if ps != [] {
      ExitsAll(ps[..|ps| - 1]);
    }
  }

  lemma {:induction false} NoneRunning(ps: seq<Phase>, id: nat)
    requires forall t | 0 <= t < |ps| :: !ps[t].Running?
    ensures Doing(ps, id) == 0
    decreases |ps|
  {
    if ps != [] {
      NoneRunning(ps[..|ps| - 1], id);
    }
  }

  // ---------------------------------------------------------------- the invariant

  ghost predicate QueueOk(p: Pool) {
    && Q.Inv(p.m) && Q.Awake(p.m)
    && p.m.asleepP == {} && p.m.wokenP == {}
    && (forall t | t in p.m.asleepC || t in p.m.wokenC :: t < |p.phase| && p.phase[t] == Popping)
  }

  /** A worker has taken one pill if it has exited, and none if not. */
  ghost predicate OnePillEach(p: Pool) {
    |p.taken| == |p.phase| && forall t | 0 <= t < |p.phase| :: p.taken[t] == if p.phase[t].Exited? then 1 else 0
  }

  /** The books: pills pushed, pills popped against workers exited, callbacks against handlers popped,
      and once every worker has exited the last entry popped was a pill. */
  ghost predicate BooksOk(p: Pool) {
    && Pills(p.m.pushed) == p.pills <= |p.phase|
    && Pills(p.m.popped) == Exits(p.phase) && OnePillEach(p)
    && (forall id :: Entries(p.m.popped, id) == Done(p.executed, id) + Doing(p.phase, id))
    && (Exits(p.phase) == |p.phase| > 0 ==> p.m.popped != [] && p.m.popped[|p.m.popped| - 1] == Pill)
  }

  ghost predicate Inv(p: Pool) {
    QueueOk(p) && BooksOk(p)
  }

  /** What a pool step does to the monitor. */
  lemma Effect(p: Pool, s: Step)
    requires QueueOk(p) && Enabled(p, s)
    ensures var m, m' := p.m, Next(p, s).m;
      && m'.asleepP == {} && m'.wokenP == {}
      && match s
         case Fire(id, _) =>
           m'.queue == m.queue + [Handler(id)] && m'.pushed == m.pushed + [Handler(id)] && m'.popped == m.popped
         case PushPill(_) =>
           m'.queue == m.queue + [Pill] && m'.pushed == m.pushed + [Pill] && m'.popped == m.popped
         case WorkerPop(_, _) =>
           && m'.pushed == m.pushed
           && if m.queue == [] then m'.queue == [] && m'.popped == m.popped
              else m'.queue == m.queue[1..] && m'.popped == m.popped + [m.queue[0]]
         case _ => m'.queue == m.queue && m'.pushed == m.pushed && m'.popped == m.popped
  {
  }

  /** The threads at the monitor's consumer side. */
  function Consumers(m: Q.Monitor<Entry>): set<nat> {
    m.asleepC + m.wokenC
  }

  function Joining(m: Q.Monitor<Entry>, t: nat): set<nat> {
    if m.queue == [] then Consumers(m) + {t} else Consumers(m) - {t}
  }

  lemma PopConsumers(m: Q.Monitor<Entry>, t: nat, wake: nat)
    requires Q.Enabled(m, Q.Pop(t, false, wake))
    ensures Consumers(Q.Next(m, Q.Pop(t, false, wake))) == Joining(m, t)
  {
  }

  lemma ResumeConsumers(m: Q.Monitor<Entry>, t: nat, wake: nat)
    requires Q.Inv(m) && Q.Enabled(m, Q.ResumeC(t, wake))
    ensures Consumers(Q.Next(m, Q.ResumeC(t, wake))) == Joining(m, t)
  {
  }

  /** A pop that finds nothing adds a consumer, and one that takes an entry removes it. */
  lemma ConsumersAfterPop(p: Pool, t: nat, wake: nat)
    requires QueueOk(p) && Enabled(p, WorkerPop(t, wake))
    ensures Consumers(Next(p, WorkerPop(t, wake)).m) == Joining(p.m, t)
  {
    if t in p.m.wokenC {
      ResumeConsumers(p.m, t, wake);
    } else {
      PopConsumers(p.m, t, wake);
    }
  }

  /** No other step changes who is there. */
  lemma ConsumersKept(p: Pool, s: Step)
    requires QueueOk(p) && Enabled(p, s) && !s.WorkerPop?
    ensures Consumers(Next(p, s).m) == Consumers(p.m)
  {
  }

  /** Only workers at Pop sleep or are woken. */
  lemma Waiters(p: Pool, s: Step)
    requires QueueOk(p) && Enabled(p, s)
    ensures var p' := Next(p, s);
      forall t | t in p'.m.asleepC || t in p'.m.wokenC :: t < |p'.phase| && p'.phase[t] == Popping
  {
    if s.WorkerPop? {
      ConsumersAfterPop(p, s.t, s.wake);
    } else {
      ConsumersKept(p, s);
    }
    var p' := Next(p, s);
    forall t | t in Consumers(p'.m) ensures t < |p'.phase| && p'.phase[t] == Popping {
      assert t in Consumers(p.m) || (s.WorkerPop? && s.t == t);
    }
  }

  lemma StepKeepsQueue(p: Pool, s: Step)
    requires QueueOk(p) && Enabled(p, s)
    ensures QueueOk(Next(p, s))
  {
    Effect(p, s);
    Waiters(p, s);
    if !s.Finish? {
      Q.StepKeepsInv(p.m, MonitorStep(p, s));
      Q.StepKeepsAwake(p.m, MonitorStep(p, s));
    }
  }

  lemma StepKeepsBooks(p: Pool, s: Step)
    requires QueueOk(p) && BooksOk(p) && Enabled(p, s)
    ensures BooksOk(Next(p, s))
  {
    Effect(p, s);
    match s
    case Fire(id, _) => Snoc(p.m.pushed, Handler(id));
    case PushPill(_) => Snoc(p.m.pushed, Pill);
    case WorkerPop(t, _) =>
      if p.m.queue != [] {
        PopKeepsBooks(p, Next(p, s), t);
      }
    case Finish(t) => FinishKeepsBooks(p, t);
    case WakeUp(_) =>
  }

  lemma PopKeepsBooks(p: Pool, p': Pool, t: nat)
    requires BooksOk(p) && t < |p.phase| && p.phase[t] == Popping && p.m.queue != []
    requires p'.phase == p.phase[t := After(p.m.queue[0])]
    requires p'.pills == p.pills && p'.executed == p.executed
    requires p'.taken == if p.m.queue[0].Pill? then p.taken[t := p.taken[t] + 1] else p.taken
    requires p'.m.pushed == p.m.pushed && p'.m.popped == p.m.popped + [p.m.queue[0]]
    ensures BooksOk(p')
  {
    var e := p.m.queue[0];
    Snoc(p.m.popped, e);
    ExitsUpdate(p.phase, t, After(e));
    forall id ensures Entries(p'.m.popped, id) == Done(p'.executed, id) + Doing(p'.phase, id) {
      DoingUpdate(p.phase, t, After(e), id);
    }
    ExitsAll(p'.phase);
    assert p'.phase[t] == After(e);
  }

  lemma FinishKeepsBooks(p: Pool, t: nat)
    requires BooksOk(p) && Enabled(p, Finish(t))
    ensures BooksOk(Next(p, Finish(t)))
  {
    var p' := Next(p, Finish(t));
    ExitsUpdate(p.phase, t, Popping);
    SnocDone(p.executed, p.phase[t].id);
    forall id ensures Entries(p'.m.popped, id) == Done(p'.executed, id) + Doing(p'.phase, id) {
      DoingUpdate(p.phase, t, Popping, id);
    }
    ExitsAll(p'.phase);
    assert p'.phase[t] == Popping;
  }

  lemma StartInv(workers: nat)
    ensures Inv(Start(workers))
  {
    var ps := Start(workers).phase;
    forall id ensures Doing(ps, id) == 0 {
      NoneRunning(ps, id);
    }
    NoneExited(ps);
  }

  lemma {:induction false} NoneExited(ps: seq<Phase>)
    requires forall t | 0 <= t < |ps| :: !ps[t].Exited?
    ensures Exits(ps) == 0
    decreases |ps|
  {
    if ps != [] {
      NoneExited(ps[..|ps| - 1]);
    }
  }

  ghost predicate Runs(p: Pool, steps: seq<Step>, p': Pool)
    decreases |steps|
  {
    if steps == [] then p' == p
    else Enabled(p, steps[0]) && Runs(Next(p, steps[0]), steps[1..], p')
  }

  lemma {:induction false} RunKeepsInv(p: Pool, steps: seq<Step>, p': Pool)
    requires Inv(p) && Runs(p, steps, p')
    ensures Inv(p') && |p'.phase| == |p.phase|
    decreases |steps|
  {
    if steps != [] {
      StepKeepsQueue(p, steps[0]);
      StepKeepsBooks(p, steps[0]);
      RunKeepsInv(Next(p, steps[0]), steps[1..], p');
    }
  }

  // ---------------------------------------------------------------- shutdown

  /** `Stop` has pushed all its pills. */
  predicate Stopping(p: Pool) {
    p.pills == |p.phase|
  }

  /** `m_work_threads.Join()` can return. */
  predicate Joined(p: Pool) {
    Stopping(p) && forall t | 0 <= t < |p.phase| :: p.phase[t].Exited?
  }

  /** Exact shutdown: when Join returns, what has been popped is exactly what was pushed up to and
      including the last pill; the callbacks completed are exactly those of the handlers among it, each
      once; what is left in the queue was pushed behind the last pill; and each worker took exactly one
      pill. */
  ghost predicate ExactlyShut(p: Pool) {
    && (|p.phase| > 0 ==> p.m.popped != [] && p.m.popped[|p.m.popped| - 1] == Pill)
    && p.m.pushed == p.m.popped + p.m.queue && Pill !in p.m.queue
    && (forall id :: Done(p.executed, id) == Entries(p.m.popped, id))
    && Pills(p.m.popped) == |p.phase| == |p.taken| && forall t | 0 <= t < |p.taken| :: p.taken[t] == 1
  }

  lemma JoinedIsExact(p: Pool)
    requires Inv(p) && Joined(p)
    ensures ExactlyShut(p)
  {
    ExitsAll(p.phase);
    forall id ensures Doing(p.phase, id) == 0 {
      NoneRunning(p.phase, id);
    }
    PillsAppend(p.m.popped, p.m.queue);
    PillsPresent(p.m.queue);
  }

  lemma ExactShutdown(workers: nat, steps: seq<Step>, p: Pool)
    requires Runs(Start(workers), steps, p) && Joined(p)
    ensures workers > 0 ==> p.m.popped != [] && p.m.popped[|p.m.popped| - 1] == Pill
    ensures p.m.pushed == p.m.popped + p.m.queue && Pill !in p.m.queue
    ensures forall id :: Done(p.executed, id) == Entries(p.m.popped, id)
    ensures Pills(p.m.popped) == workers == |p.taken| && forall t | 0 <= t < workers :: p.taken[t] == 1
  {
    StartInv(workers);
    RunKeepsInv(Start(workers), steps, p);
    JoinedIsExact(p);
  }

  lemma {:induction false} PillsPresent(es: seq<Entry>)
    ensures Pill in es <==> Pills(es) > 0
    decreases |es|
  {
    if es != [] {
      PillsPresent(es[..|es| - 1]);
      assert es == es[..|es| - 1] + [es[|es| - 1]];
    }
  }

  predicate IsWorkerStep(s: Step) {
    s.WorkerPop? || s.Finish?
  }

  /** Shutdown cannot deadlock: once the pills are pushed, some worker can take a step until all have
      exited, whatever the others do and without any spurious wakeup. */
  lemma NoDeadlock(p: Pool) returns (s: Step)
    requires Inv(p) && Stopping(p) && !Joined(p)
    ensures IsWorkerStep(s) && Enabled(p, s)
  {
    var t :| 0 <= t < |p.phase| && !p.phase[t].Exited?;
    ExitsAll(p.phase);
    PillsLeft(p);
    if p.phase[t].Running? {
      return Finish(t);
    }
    if t in p.m.asleepC {
      var w :| w in p.m.wokenC;
      return WorkerPop(w, 0);
    }
    return WorkerPop(t, 0);
  }

  /** While a worker lives after Stop's loop, the queue holds as many pills as workers live. */
  lemma PillsLeft(p: Pool)
    requires Inv(p) && Stopping(p)
    ensures Pills(p.m.queue) == |p.phase| - Exits(p.phase)
    ensures Exits(p.phase) < |p.phase| ==> p.m.queue != [] && (p.m.asleepC != {} ==> p.m.wokenC != {})
  {
    PillsAppend(p.m.popped, p.m.queue);
  }

  /** The number of entries up to and including the last pill. */
  function UpToPill(es: seq<Entry>): nat {
    if es == [] then 0 else if es[|es| - 1].Pill? then |es| else UpToPill(es[..|es| - 1])
  }

  lemma {:induction false} UpToPillTail(es: seq<Entry>)
    requires Pills(es) > 0
    ensures es != [] && UpToPill(es) == UpToPill(es[1..]) + 1
    decreases |es|
  {
    var k := |es| - 1;
    if k > 0 {
      assert es[1..][k - 1] == es[k] && es[1..][..k - 1] == es[..k][1..];
    }
    if !es[k].Pill? {
      UpToPillTail(es[..k]);
    }
  }

  /** What the workers still have to do. */
  function Work(p: Pool): nat {
    2 * UpToPill(p.m.queue) + Busy(p.phase)
  }

  /** After Stop's loop every worker step uses up work, and no other step creates any. */
  lemma StepUsesWork(p: Pool, s: Step)
    requires Inv(p) && Stopping(p) && Enabled(p, s)
    ensures Stopping(Next(p, s))
    ensures IsWorkerStep(s) ==> Work(Next(p, s)) < Work(p)
    ensures !IsWorkerStep(s) ==> Work(Next(p, s)) == Work(p)
  {
    Effect(p, s);
    match s
    case Fire(id, _) =>
      assert (p.m.queue + [Handler(id)])[..|p.m.queue|] == p.m.queue;
    case WorkerPop(t, _) =>
      ExitsAll(p.phase);
      PillsLeft(p);
      UpToPillTail(p.m.queue);
      BusyUpdate(p.phase, t, After(p.m.queue[0]));
    case Finish(t) => BusyUpdate(p.phase, t, Popping);
    case WakeUp(_) =>
  }

  function WorkerSteps(steps: seq<Step>): nat {
    if steps == [] then 0 else (if IsWorkerStep(steps[0]) then 1 else 0) + WorkerSteps(steps[1..])
  }

  lemma {:induction false} RunUsesWork(p: Pool, steps: seq<Step>, p': Pool)
    requires Inv(p) && Stopping(p) && Runs(p, steps, p')
    ensures Inv(p') && Stopping(p') && WorkerSteps(steps) + Work(p') <= Work(p)
    decreases |steps|
  {
    if steps != [] {
      StepKeepsQueue(p, steps[0]);
      StepKeepsBooks(p, steps[0]);
      StepUsesWork(p, steps[0]);
      RunUsesWork(Next(p, steps[0]), steps[1..], p');
    }
  }

  /** Shutdown ends: after Stop's loop the workers take at most Work(p) more steps, however timers fire
      and wakeups come, and a run in which they have taken that many has brought all of them home. */
  lemma ShutdownEnds(p: Pool, steps: seq<Step>, p': Pool)
    requires Inv(p) && Stopping(p) && Runs(p, steps, p')
    ensures WorkerSteps(steps) <= Work(p)
    ensures WorkerSteps(steps) == Work(p) ==> Joined(p')
  {
    RunUsesWork(p, steps, p');
    if WorkerSteps(steps) == Work(p) && !Joined(p') {
      var s := NoDeadlock(p');
      StepUsesWork(p', s);
    }
  }

  // ---------------------------------------------------------------- WorkThread and Stop

  /** The callbacks are those of the first k entries, all of them handlers, in order. */
  ghost predicate Executes(ids: seq<nat>, es: seq<Entry>, k: nat) {
    |ids| == k <= |es| && forall i | 0 <= i < k :: es[i] == Handler(ids[i])
  }

  /** `WorkThread`, with no other worker in between, on a queue that holds a pill: it executes the handlers
      in front of the first pill, takes the pill and leaves what is behind it. */
  method WorkThread(queue: seq<Entry>) returns (executed: seq<nat>, rest: seq<Entry>)
    requires Pill in queue
    ensures exists k :: 0 <= k < |queue| && queue[k] == Pill && Pill !in queue[..k]
              && rest == queue[k + 1..] && Executes(executed, queue, k)
  {
    executed, rest := [], queue;
    ghost var k := 0;
    while true
      invariant k < |queue| && rest == queue[k..] && Pill in rest && Pill !in queue[..k]
      invariant Executes(executed, queue, k)
      decreases |rest|
    {
      var e := rest[0];
      rest := rest[1..];
      assert rest == queue[k + 1..];
      if e.Pill? {
        return;
      }
      assert queue[..k + 1] == queue[..k] + [e];
      executed := executed + [e.id];
      k := k + 1;
    }
  }

  /** All that was pushed before the first pill has been popped when the pool is shut. */
  lemma AllBefore(before: seq<Entry>, p: Pool)
    requires ExactlyShut(p) && |p.phase| > 0 && Pills(before) == 0 && before <= p.m.pushed
    ensures before <= p.m.popped
  {
    var last := |p.m.popped| - 1;
    assert p.m.pushed[last] == Pill;
    PillsPresent(before);
    assert forall i | 0 <= i < |before| :: before[i] == p.m.pushed[i] && before[i] in before;
    assert last >= |before|;
  }

  /** What comes of a list of steps, those that cannot be taken being passed over. */
  function Played(p: Pool, steps: seq<Step>): Pool
    decreases |steps|
  {
    if steps == [] then p else Played(if Enabled(p, steps[0]) then Next(p, steps[0]) else p, steps[1..])
  }

  lemma {:induction false} RunIsPlayed(p: Pool, steps: seq<Step>, p': Pool)
    requires Runs(p, steps, p')
    ensures Played(p, steps) == p'
    decreases |steps|
  {
    if steps != [] {
      RunIsPlayed(Next(p, steps[0]), steps[1..], p');
    }
  }

  lemma StepSizes(p: Pool, s: Step)
    requires QueueOk(p) && Enabled(p, s)
    ensures var p' := Next(p, s);
      && |p'.phase| == |p.phase| && p.m.pushed <= p'.m.pushed
      && |p'.m.queue| <= |p.m.queue| + 1 && p'.m.capacity == p.m.capacity
  {
    Effect(p, s);
  }

  /** The pool, with what the loop thread and the workers do in the course of a call. */
  class TimerManager {
    var pool: Pool
    var loop: L.Loop           // m_loop, in whose Select the timers expire

    constructor (workers: nat)
      ensures pool == Start(workers) && Inv(pool) && L.LoopOk(loop, false, false)
    {
      pool := Start(workers);
      loop := L.Loop(L.Started, L.Test, 0);
      StartInv(workers);
    }

    /** One step of the pool, which keeps the invariant. */
    method Step(s: Step)
      requires Inv(pool) && Enabled(pool, s)
      modifies `pool
      ensures pool == Next(old(pool), s) && Inv(pool)
      ensures |pool.phase| == |old(pool).phase| && old(pool).m.pushed <= pool.m.pushed
      ensures |pool.m.queue| <= |old(pool).m.queue| + 1 && pool.m.capacity == old(pool).m.capacity
    {
      StepSizes(pool, s);
      StepKeepsQueue(pool, s);
      StepKeepsBooks(pool, s);
      pool := Next(pool, s);
    }

    /** Timers expire, workers work and threads wake; steps that cannot be taken are passed over. */
    method Others(steps: seq<Step>)
      requires Inv(pool) && forall i | 0 <= i < |steps| :: !steps[i].PushPill?
      modifies `pool
      ensures pool == Played(old(pool), steps)
      ensures Inv(pool) && |pool.phase| == |old(pool).phase| && pool.pills == old(pool).pills
      ensures old(pool).m.pushed <= pool.m.pushed && pool.m.capacity == old(pool).m.capacity
      ensures |pool.m.queue| <= |old(pool).m.queue| + |steps|
      ensures Stopping(old(pool)) ==> Work(pool) <= Work(old(pool))
      ensures Joined(old(pool)) ==> Joined(pool)
    {
      for k := 0 to |steps|
        invariant Played(pool, steps[k..]) == Played(old(pool), steps)
        invariant Inv(pool) && |pool.phase| == |old(pool).phase| && pool.pills == old(pool).pills
        invariant old(pool).m.pushed <= pool.m.pushed && pool.m.capacity == old(pool).m.capacity
        invariant |pool.m.queue| <= |old(pool).m.queue| + k
        invariant Stopping(old(pool)) ==> Work(pool) <= Work(old(pool))
        invariant Joined(old(pool)) ==> Joined(pool)
      {
        assert steps[k..][0] == steps[k] && steps[k..][1..] == steps[k + 1..];
        if Enabled(pool, steps[k]) {
          if Stopping(pool) {
            StepUsesWork(pool, steps[k]);
          }
          Step(steps[k]);
        }
      }
    }

    /** Others work, as far as the schedule goes. */
    method Meanwhile(schedule: seq<seq<Step>>) returns (left: seq<seq<Step>>)
      requires Inv(pool) && NoPills(schedule)
      modifies `pool
      ensures pool == if schedule == [] then old(pool) else Played(old(pool), schedule[0])
      ensures Inv(pool) && |pool.phase| == |old(pool).phase| && pool.pills == old(pool).pills
      ensures old(pool).m.pushed <= pool.m.pushed && pool.m.capacity == old(pool).m.capacity
      ensures NoPills(left) && |pool.m.queue| + Length(left) <= |old(pool).m.queue| + Length(schedule)
      ensures Stopping(old(pool)) ==> Work(pool) <= Work(old(pool))
      ensures Joined(old(pool)) ==> Joined(pool)
    {
      left := schedule;
      if |schedule| > 0 {
        Others(schedule[0]);
        left := schedule[1..];
      }
    }

    /** One round of the loop of `Stop`. */
    method PushOne()
      requires Inv(pool) && pool.pills < |pool.phase| && |pool.m.queue| < pool.m.capacity
      modifies `pool
      ensures Inv(pool) && pool.pills == old(pool).pills + 1 && |pool.phase| == |old(pool).phase|
      ensures old(pool).m.pushed <= pool.m.pushed && pool.m.capacity == old(pool).m.capacity
      ensures |pool.m.queue| <= |old(pool).m.queue| + 1
    {
      var wake := 0;
      if pool.m.asleepC != {} {
        wake :| wake in pool.m.asleepC;
      }
      Step(PushPill(wake));
    }

    /** The loop of `Stop`: one pill for each worker. */
    method PushPills(schedule: seq<seq<Step>>) returns (left: seq<seq<Step>>)
      requires Inv(pool) && pool.pills == 0 && NoPills(schedule)
      requires |pool.m.queue| + |pool.phase| + Length(schedule) <= pool.m.capacity
      modifies `pool
      ensures Inv(pool) && Stopping(pool) && |pool.phase| == |old(pool).phase| && NoPills(left)
      ensures old(pool).m.pushed <= pool.m.pushed
    {
      left := schedule;
      while pool.pills < |pool.phase|
        invariant Inv(pool) && |pool.phase| == |old(pool).phase| && NoPills(left)
        invariant old(pool).m.pushed <= pool.m.pushed
        invariant |pool.m.queue| + (|pool.phase| - pool.pills) + Length(left) <= pool.m.capacity
        decreases |pool.phase| - pool.pills
      {
        left := Meanwhile(left);
        PushOne();
      }
    }

    /** A worker that can take a step. */
    method Runnable() returns (s: Step)
      requires Inv(pool) && Stopping(pool) && !Joined(pool)
      ensures IsWorkerStep(s) && Enabled(pool, s)
    {
      s := Finish(0);
      for t := 0 to |pool.phase|
        invariant forall u | 0 <= u < t :: pool.phase[u] == Exited || (pool.phase[u] == Popping && u in pool.m.asleepC)
      {
        if pool.phase[t].Running? {
          return Finish(t);
        } else if pool.phase[t].Popping? && t !in pool.m.asleepC {
          return WorkerPop(t, 0);
        }
      }
      ghost var none := NoDeadlock(pool);
      assert false;
    }

    /** `m_work_threads.Join()`: it waits while workers run, in any order; where the schedule ends, any worker
        that can goes on. */
    method Join(schedule: seq<seq<Step>>)
      requires Inv(pool) && Stopping(pool) && NoPills(schedule)
      modifies `pool
      ensures Inv(pool) && Joined(pool) && |pool.phase| == |old(pool).phase|
      ensures old(pool).m.pushed <= pool.m.pushed
    {
      var left := schedule;
      while !Joined(pool)
        invariant Inv(pool) && Stopping(pool) && |pool.phase| == |old(pool).phase| && NoPills(left)
        invariant old(pool).m.pushed <= pool.m.pushed
        decreases Work(pool)
      {
        left := Meanwhile(left);
        if !Joined(pool) {
          var s := Runnable();
          StepUsesWork(pool, s);
          Step(s);
        } else {
          break;
        }
      }
    }

    /** `m_loop.Stop()`: the loop is asked to stop and joined; as long as its thread is in Select, timers go on
        expiring. */
    method StopLoop(schedule: seq<seq<Step>>)
      requires Inv(pool) && Joined(pool) && NoPills(schedule) && L.LoopOk(loop, false, false)
      modifies this
      ensures Inv(pool) && Joined(pool) && |pool.phase| == |old(pool).phase|
      ensures old(pool).m.pushed <= pool.m.pushed
      ensures L.LoopOk(loop, true, true)
    {
      var left := schedule;
      if loop.state == L.Started {
        loop := loop.(state := L.Stopping);
      }
      while loop.pc != L.Returned
        invariant Inv(pool) && Joined(pool) && |pool.phase| == |old(pool).phase| && NoPills(left)
        invariant old(pool).m.pushed <= pool.m.pushed && L.LoopOk(loop, true, false)
        decreases L.TurnsLeft(loop)
      {
        if loop.pc == L.Selecting {
          left := Meanwhile(left);
        }
        loop := L.AfterTurn(loop);
      }
      loop := loop.(state := L.Stopped);
    }

    /** `Stop`, while timers expire and workers run in any order: it returns; the pool is then shut exactly,
        every handler queued before the call has been popped, and so executed, and each worker has taken
        one pill; and the loop thread has returned, with at most one Select completed since it was asked. */
    method Stop(first: seq<seq<Step>>, second: seq<seq<Step>>, third: seq<seq<Step>>)
      requires Inv(pool) && pool.pills == 0 && NoPills(first) && NoPills(second) && NoPills(third)
      requires |pool.m.queue| + |pool.phase| + Length(first) <= pool.m.capacity
      requires L.LoopOk(loop, false, false)
      modifies this
      ensures Joined(pool) && ExactlyShut(pool) && |pool.phase| == |old(pool).phase|
      ensures |pool.phase| > 0 ==> old(pool).m.pushed <= pool.m.popped
      ensures loop.state == L.Stopped && loop.pc == L.Returned && loop.late <= 1
    {
      var _ := PushPills(first);
      Join(second);
      StopLoop(third);
      JoinedIsExact(pool);
      if |pool.phase| > 0 {
        AllBefore(old(pool).m.pushed, pool);
      }
    }
  }

  predicate NoPills(schedule: seq<seq<Step>>) {
    forall k, i | 0 <= k < |schedule| && 0 <= i < |schedule[k]| :: !schedule[k][i].PushPill?
  }

  function Length(schedule: seq<seq<Step>>): nat {
    if schedule == [] then 0 else |schedule[0]| + Length(schedule[1..])
  }

  // ---------------------------------------------------------------- InitTime

  datatype TimeSpec = TimeSpec(sec: int, nsec: int)

  /** `(int) interval_ms/1000`: the cast comes first, and division truncates towards zero. */
  function InitTime(intervalMs: nat): TimeSpec
    requires intervalMs < 0x1_0000_0000
  {
    var signed := if intervalMs < 0x8000_0000 then intervalMs else intervalMs - 0x1_0000_0000;
    TimeSpec(if signed >= 0 then signed / 1000 else -(-signed / 1000), intervalMs % 1000 * 1000000)
  }

  /** The nanoseconds are always in range, and the seconds are those of the cast value, truncated towards zero;
      the timer is set to the interval asked for exactly if that is below 2^31 milliseconds. */
  lemma InitTimeExact(intervalMs: nat)
    requires intervalMs < 0x1_0000_0000
    ensures InitTime(intervalMs).sec * 1_000_000_000 + InitTime(intervalMs).nsec == intervalMs * 1_000_000
        <==> intervalMs < 0x8000_0000
    ensures 0 <= InitTime(intervalMs).nsec < 1_000_000_000
    ensures intervalMs >= 0x8000_0000 ==>
      var sec := InitTime(intervalMs).sec;
      sec <= 0 && -1000 < intervalMs - 0x1_0000_0000 - 1000 * sec <= 0
  {
  }
}
