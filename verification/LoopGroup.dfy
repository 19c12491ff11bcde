/** `EventLoopGroup::Stop`: a first pass asks every loop to stop, a second joins the threads.

The state fields are taken to be sequentially consistent, and every `Select` to return.
*/
module LoopGroup {

  datatype State = Stopped | Started | Stopping

  /** A loop thread: about to test m_state, past the test, inside Select, or returned. */
  datatype Pc = Test | Passed | Selecting | Returned

  /** `late` counts the Select calls completed since the loop was asked to stop. */
  datatype Loop = Loop(state: State, pc: Pc, late: nat)

  /** The stopping thread: `asked` loops have had Stopping called, then `joined` have been joined. */
  datatype Group = Group(loops: seq<Loop>, asked: nat, joined: nat)

  function Running(n: nat): Group {
    Group(seq(n, i => Loop(Started, Test, 0)), 0, 0)
  }

  datatype Step =
    | Ask            // one round of the first pass: EventLoop::Stopping
    | Join           // one round of the second pass: EventLoop::Join returns
    | Turn(i: nat)   // loop thread i takes a step

  predicate Enabled(g: Group, s: Step) {
    match s
    case Ask => g.asked < |g.loops|
    case Join => g.asked == |g.loops| && g.joined < |g.loops| && g.loops[g.joined].pc == Returned
    case Turn(i) => i < |g.loops| && g.loops[i].pc != Returned
  }

  function AfterTurn(l: Loop): Loop {
    match l.pc
    case Test => l.(pc := if l.state == Stopping then Returned else Passed)
    case Passed => l.(pc := Selecting)
    case Selecting => l.(pc := Test, late := if l.state == Stopping then l.late + 1 else l.late)
    case Returned => l
  }

  function Next(g: Group, s: Step): Group
    requires Enabled(g, s)
  {
    match s
    case Ask =>
      var l := g.loops[g.asked];
      g.(loops := g.loops[g.asked := if l.state == Started then l.(state := Stopping) else l],
         asked := g.asked + 1)
    case Join =>
      g.(loops := g.loops[g.joined := g.loops[g.joined].(state := Stopped)], joined := g.joined + 1)
    case Turn(i) => g.(loops := g.loops[i := AfterTurn(g.loops[i])])
  }

  /** A loop asked to stop completes at most one more Select: the one its thread is in, or the one its
      thread is about to enter because it is past the test. */
  ghost predicate LoopOk(l: Loop, asked: bool, joined: bool) {
    && l.state == (if joined then Stopped else if asked then Stopping else Started)
    && (l.pc == Returned ==> asked)
    && (joined ==> l.pc == Returned)
    && (!asked ==> l.late == 0)
    && l.late + (if l.pc == Passed || l.pc == Selecting then 1 else 0) <= 1
  }

  ghost predicate Inv(g: Group) {
    && g.asked <= |g.loops| && g.joined <= |g.loops|
    && (g.joined > 0 ==> g.asked == |g.loops|)
    && forall i | 0 <= i < |g.loops| :: LoopOk(g.loops[i], i < g.asked, i < g.joined)
  }

  lemma StepKeepsInv(g: Group, s: Step)
    requires Inv(g) && Enabled(g, s)
    ensures Inv(Next(g, s))
  {
  }

  ghost predicate Runs(g: Group, steps: seq<Step>, g': Group)
    decreases |steps|
  {
    if steps == [] then g' == g
    else Enabled(g, steps[0]) && Runs(Next(g, steps[0]), steps[1..], g')
  }

  lemma {:induction false} RunKeepsInv(g: Group, steps: seq<Step>, g': Group)
    requires Inv(g) && Runs(g, steps, g')
    ensures Inv(g') && |g'.loops| == |g.loops|
    decreases |steps|
  {
    if steps != [] {
      StepKeepsInv(g, steps[0]);
      RunKeepsInv(Next(g, steps[0]), steps[1..], g');
    }
  }

  /** As long as it has not been asked, a loop goes on: it passes the test, enters Select, and comes back to
      the test. */
  lemma StartedGoesOn(l: Loop)
    requires l.state == Started && l.pc == Test
    ensures AfterTurn(l).pc == Passed && AfterTurn(AfterTurn(l)).pc == Selecting
    ensures AfterTurn(AfterTurn(AfterTurn(l))) == l
  {
  }

  /** How many calls of Select a loop completes in a run after it has been asked to stop. */
  function LateSelects(g: Group, steps: seq<Step>, i: nat): nat
    decreases |steps|
  {
    if steps == [] || !Enabled(g, steps[0]) then 0
    else
      (if steps[0] == Turn(i) && g.loops[i].pc == Selecting && i < g.asked then 1 else 0)
      + LateSelects(Next(g, steps[0]), steps[1..], i)
  }

  /** This is what `late` counts. */
  lemma {:induction false} LateCounts(g: Group, steps: seq<Step>, g': Group, i: nat)
    requires Inv(g) && Runs(g, steps, g') && i < |g.loops|
    ensures |g'.loops| == |g.loops| && g'.loops[i].late == g.loops[i].late + LateSelects(g, steps, i)
    decreases |steps|
  {
    if steps != [] {
      StepKeepsInv(g, steps[0]);
      LateCounts(Next(g, steps[0]), steps[1..], g', i);
    }
  }

  /** Two-phase stop, in every interleaving: when EventLoopGroup::Stop returns, every thread has returned
      and every loop is in the state its destructor asserts; and at no time has a loop completed more
      than one Select since it was asked to stop. */
  lemma StopIsExact(n: nat, steps: seq<Step>, g: Group)
    requires Runs(Running(n), steps, g)
    ensures |g.loops| == n
    ensures g.joined == n ==> forall i | 0 <= i < n :: g.loops[i].state == Stopped && g.loops[i].pc == Returned
    ensures forall i | 0 <= i < n :: LateSelects(Running(n), steps, i) <= 1
  {
    RunKeepsInv(Running(n), steps, g);
    forall i | 0 <= i < n ensures LateSelects(Running(n), steps, i) <= 1 {
      LateCounts(Running(n), steps, g, i);
    }
  }

  /** How many turns a thread asked to stop has left. */
  function TurnsLeft(l: Loop): nat {
    match l.pc
    case Passed => 3
    case Selecting => 2
    case Test => 1
    case Returned => 0
  }

  function AllTurnsLeft(ls: seq<Loop>): nat {
    if ls == [] then 0 else AllTurnsLeft(ls[..|ls| - 1]) + TurnsLeft(ls[|ls| - 1])
  }

  lemma {:induction false} TurnsUpdate(ls: seq<Loop>, i: nat, l: Loop)
    requires i < |ls|
    ensures AllTurnsLeft(ls[i := l]) + TurnsLeft(ls[i]) == AllTurnsLeft(ls) + TurnsLeft(l)
    decreases |ls|
  {
    var k := |ls| - 1;
    if i < k {
      TurnsUpdate(ls[..k], i, l);
      assert ls[i := l][..k] == ls[..k][i := l];
    } else {
      assert ls[i := l][..k] == ls[..k];
    }
  }

  /** What is left to do once every loop has been asked. */
  function Work(g: Group): nat
    requires g.joined <= |g.loops|
  {
    AllTurnsLeft(g.loops) + (|g.loops| - g.joined)
  }

  /** Stop ends: after the first pass every step uses up work, and as long as the second pass is not
      through, a step is possible. */
  lemma StopEnds(g: Group)
    requires Inv(g) && g.asked == |g.loops|
    ensures forall s | Enabled(g, s) :: Inv(Next(g, s)) && Next(g, s).asked == g.asked && Work(Next(g, s)) < Work(g)
    ensures g.joined < |g.loops| ==> exists s :: Enabled(g, s)
  {
    forall s | Enabled(g, s)
      ensures Inv(Next(g, s)) && Next(g, s).asked == g.asked && Work(Next(g, s)) < Work(g)
    {
      StepKeepsInv(g, s);
      match s
      case Turn(i) => TurnsUpdate(g.loops, i, AfterTurn(g.loops[i]));
      case Join => TurnsUpdate(g.loops, g.joined, g.loops[g.joined].(state := Stopped));
    }
    if g.joined < |g.loops| {
      if g.loops[g.joined].pc == Returned {
        assert Enabled(g, Join);
      } else {
        assert Enabled(g, Turn(g.joined));
      }
    }
  }

  /** Where a group may be between two steps of its Stop. */
  ghost predicate AllOk(loops: seq<Loop>, asked: nat, joined: nat) {
    forall i | 0 <= i < |loops| :: LoopOk(loops[i], i < asked, i < joined)
  }

  /** What comes of some turns; threads that have returned take none. */
  function Turned(loops: seq<Loop>, threads: seq<nat>): seq<Loop>
    decreases |threads|
  {
    if threads == [] then loops
    else
      var i := threads[0];
      Turned(if i < |loops| then loops[i := AfterTurn(loops[i])] else loops, threads[1..])
  }

  class EventLoopGroup {
    var loops: seq<Loop>

    constructor (n: nat)
      ensures loops == Running(n).loops && AllOk(loops, 0, 0)
    {
      loops := Running(n).loops;
    }

    /** The loop threads take some turns; those that have returned take none. */
    method Turns(threads: seq<nat>, ghost asked: nat, ghost joined: nat)
      requires AllOk(loops, asked, joined)
      modifies this
      ensures loops == Turned(old(loops), threads)
      ensures |loops| == |old(loops)| && AllOk(loops, asked, joined)
    {
      for k := 0 to |threads|
        invariant Turned(loops, threads[k..]) == Turned(old(loops), threads)
        invariant |loops| == |old(loops)| && AllOk(loops, asked, joined)
      {
        assert threads[k..][0] == threads[k] && threads[k..][1..] == threads[k + 1..];
        if threads[k] < |loops| {
          loops := loops[threads[k] := AfterTurn(loops[threads[k]])];
        }
      }
    }

    /** `Stop`, with the loop threads taking the turns `turns[k]` before its k-th step.  In each state it goes
        through, and so at its end, no loop has completed more than one Select since it was asked; and at
        its end every thread has returned and every loop is stopped. */
    method Stop(turns: seq<seq<nat>>)
      requires AllOk(loops, 0, 0)
      modifies this
      ensures |loops| == |old(loops)| && AllOk(loops, |loops|, |loops|)
      ensures forall i | 0 <= i < |loops| ::
        loops[i].state == Stopped && loops[i].pc == Returned && loops[i].late <= 1
    {
      var n := |loops|;
      for i := 0 to n
        invariant |loops| == n && AllOk(loops, i, 0)
      {
        Turns(if i < |turns| then turns[i] else [], i, 0);
        var l := loops[i];
        loops := loops[i := if l.state == Started then l.(state := Stopping) else l];
      }
      for i := 0 to n
        invariant |loops| == n && AllOk(loops, n, i)
      {
        Turns(if n + i < |turns| then turns[n + i] else [], n, i);
        while loops[i].pc != Returned
          invariant |loops| == n && AllOk(loops, n, i)
          decreases TurnsLeft(loops[i])
        {
          loops := loops[i := AfterTurn(loops[i])];
        }
        loops := loops[i := loops[i].(state := Stopped)];
      }
    }
  }
}
