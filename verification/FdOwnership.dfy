/** Who owns a file descriptor: streams by construction, move and destruction, and the local variable of
a function between opening a descriptor and wrapping it.
*/
module FdOwnership {

  type Fd = int
  type Id = nat            // a Stream object, also inside a handler

  const INVALID_SOCKET: Fd := -1

  datatype World = World(
    open: set<Fd>,         // the kernel's table
    raw: set<Fd>,          // opened, and held by a local variable
    streams: map<Id, Fd>,  // the live Stream objects and their m_fd
    opens: seq<Fd>,        // every descriptor ever opened
    closes: seq<Fd>)       // every call of close

  const START := World({}, {}, map[], [], [])

  datatype Step =
    | Open(fd: Fd)            // socket, accept4: the kernel hands out a descriptor not in use
    | Wrap(id: Id, fd: Fd)    // Stream(fd), with a raw descriptor or INVALID_SOCKET
    | CloseRaw(fd: Fd)        // close(fd) on the local variable
    | MoveTo(from: Id, to: Id)  // Stream(Stream&&), also the one inside a handler
    | Destroy(id: Id)         // ~Stream

  predicate Enabled(w: World, s: Step) {
    match s
    case Open(fd) => fd >= 0 && fd !in w.open
    case Wrap(id, fd) => id !in w.streams && (fd in w.raw || fd == INVALID_SOCKET)
    case CloseRaw(fd) => fd in w.raw
    case MoveTo(from, to) => from in w.streams && to !in w.streams
    case Destroy(id) => id in w.streams
  }

  function Close(w: World, fd: Fd): World {
    w.(open := w.open - {fd}, closes := w.closes + [fd])
  }

  function Next(w: World, s: Step): World
    requires Enabled(w, s)
  {
    match s
    case Open(fd) => w.(open := w.open + {fd}, raw := w.raw + {fd}, opens := w.opens + [fd])
    case Wrap(id, fd) => w.(streams := w.streams[id := fd], raw := w.raw - {fd})
    case CloseRaw(fd) => Close(w, fd).(raw := w.raw - {fd})
    case MoveTo(from, to) => w.(streams := w.streams[to := w.streams[from]][from := INVALID_SOCKET])
    case Destroy(id) =>
      var w' := w.(streams := w.streams - {id});
      if w.streams[id] != INVALID_SOCKET then Close(w', w.streams[id]) else w'
  }

  function Count(s: seq<Fd>, fd: Fd): nat {
    if s == [] then 0 else Count(s[..|s| - 1], fd) + if s[|s| - 1] == fd then 1 else 0
  }

  /** Linear ownership: an open descriptor has exactly one owner, a stream or a local variable. */
  ghost predicate Owned(w: World) {
    && INVALID_SOCKET !in w.open
    && w.raw <= w.open
    && (forall id | id in w.streams && w.streams[id] != INVALID_SOCKET ::
          w.streams[id] in w.open && w.streams[id] !in w.raw)
    && (forall i, j | i in w.streams && j in w.streams && i != j && w.streams[i] != INVALID_SOCKET ::
          w.streams[i] != w.streams[j])
    && (forall fd | fd in w.open && fd !in w.raw :: exists id :: id in w.streams && w.streams[id] == fd)
  }

  /** Every opening is closed once or still open, and nothing else has been closed. */
  ghost predicate Balanced(w: World) {
    forall fd :: Count(w.opens, fd) == Count(w.closes, fd) + if fd in w.open then 1 else 0
  }

  lemma StepKeepsOwned(w: World, s: Step)
    requires Owned(w) && Enabled(w, s)
    ensures Owned(Next(w, s))
  {
    var w' := Next(w, s);
    forall fd | fd in w'.open && fd !in w'.raw
      ensures exists id :: id in w'.streams && w'.streams[id] == fd
    {
      if fd in w.open && fd !in w.raw {
        var id :| id in w.streams && w.streams[id] == fd;
        if s.MoveTo? && id == s.from {
          assert w'.streams[s.to] == fd;
        } else {
          assert w'.streams[id] == fd;
        }
      } else {
        assert s.Wrap? && w'.streams[s.id] == fd;
      }
    }
  }

  /** Whatever is closed is open at that moment. */
  lemma StepKeepsBalanced(w: World, s: Step)
    requires Owned(w) && Balanced(w) && Enabled(w, s)
    ensures Balanced(Next(w, s))
  {
    forall fd
      ensures Count(Next(w, s).opens, fd) == Count(Next(w, s).closes, fd) + if fd in Next(w, s).open then 1 else 0
    {
      match s
      case Open(x) => CountSnoc(w.opens, x, fd);
      case CloseRaw(x) => CountSnoc(w.closes, x, fd);
      case Destroy(id) => CountSnoc(w.closes, w.streams[id], fd);
      case _ =>
    }
  }

  lemma CountSnoc(s: seq<Fd>, x: Fd, fd: Fd)
    ensures Count(s + [x], fd) == Count(s, fd) + if x == fd then 1 else 0
  {
    assert (s + [x])[..|s|] == s;
  }

  /** What a move does: the object moved from holds nothing any more, so that its destruction closes nothing,
      and the object moved to holds what the other held, so that its destruction closes exactly that. */
  lemma MoveThenDestroy(w: World, from: Id, to: Id)
    requires Owned(w) && Enabled(w, MoveTo(from, to))
    ensures var w' := Next(w, MoveTo(from, to));
      var w1, w2 := Next(w', Destroy(from)), Next(w', Destroy(to));
      && w'.open == w1.open == w.open && w'.closes == w1.closes == w.closes
      && (w.streams[from] != INVALID_SOCKET ==>
            w2.open == w.open - {w.streams[from]} && w2.closes == w.closes + [w.streams[from]])
      && (w.streams[from] == INVALID_SOCKET ==> w2.open == w.open && w2.closes == w.closes)
  {
    assert from != to;
  }

  ghost predicate Runs(w: World, steps: seq<Step>, w': World)
    decreases |steps|
  {
    if steps == [] then w' == w
    else Enabled(w, steps[0]) && Runs(Next(w, steps[0]), steps[1..], w')
  }

  lemma {:induction false} RunKeepsBoth(w: World, steps: seq<Step>, w': World)
    requires Owned(w) && Balanced(w) && Runs(w, steps, w')
    ensures Owned(w') && Balanced(w')
    decreases |steps|
  {
    if steps != [] {
      StepKeepsOwned(w, steps[0]);
      StepKeepsBalanced(w, steps[0]);
      RunKeepsBoth(Next(w, steps[0]), steps[1..], w');
    }
  }

  /** Over every sequence of openings, constructions, moves and destructions: no descriptor is held
      twice, an open one is held either by a stream or by a local variable, each is closed as often as it
      was opened less the one time it may still be open, and once no stream and no local variable is
      left, every descriptor has been closed. */
  lemma LinearOwnership(steps: seq<Step>, w: World)
    requires Runs(START, steps, w)
    ensures forall i, j | i in w.streams && j in w.streams && i != j && w.streams[i] != INVALID_SOCKET ::
      w.streams[i] != w.streams[j]
    ensures forall fd | fd in w.open :: fd in w.raw <==> !exists id :: id in w.streams && w.streams[id] == fd
    ensures forall fd :: Count(w.opens, fd) == Count(w.closes, fd) + if fd in w.open then 1 else 0
    ensures w.streams == map[] && w.raw == {} ==> w.open == {}
  {
    RunKeepsBoth(START, steps, w);
    if w.streams == map[] && w.raw == {} {
      assert forall fd | fd in w.open :: fd !in w.raw;
      assert forall fd :: fd !in w.open;
    }
  }

  /** One answer of connect(2), or of the wait for EINPROGRESS. */
  datatype Answer = Connected | Interrupted | Writable | NotWritable | Refused

  /** A connection comes about: only interruptions and waits that found the socket writable come before
      the first success.  A script that ends without a decision is followed by a wait that times out. */
  predicate Succeeds(answers: seq<Answer>) {
    && answers != []
    && (answers[0].Connected? || ((answers[0].Interrupted? || answers[0].Writable?) && Succeeds(answers[1..])))
  }

  lemma {:induction false} SucceedsExact(answers: seq<Answer>)
    ensures Succeeds(answers) <==> exists k | 0 <= k < |answers| :: FirstSuccess(answers, k)
  {
    if answers != [] {
      SucceedsExact(answers[1..]);
      if answers[0].Connected? {
        assert FirstSuccess(answers, 0);
      } else if answers[0].Interrupted? || answers[0].Writable? {
        if Succeeds(answers[1..]) {
          var k :| 0 <= k < |answers| - 1 && FirstSuccess(answers[1..], k);
          assert FirstSuccess(answers, k + 1);
        }
        if k :| 0 <= k < |answers| && FirstSuccess(answers, k) {
          assert FirstSuccess(answers[1..], k - 1);
        }
      } else {
        assert forall k | 0 <= k < |answers| :: !FirstSuccess(answers, k);
      }
    }
  }

  /** The k-th answer is a connection, and only interruptions and writable sockets come before. */
  predicate FirstSuccess(answers: seq<Answer>, k: nat)
    requires k < |answers|
  {
    answers[k].Connected? && forall i | 0 <= i < k :: answers[i].Interrupted? || answers[i].Writable?
  }

  /** The loop around connect(2). */
  method TryConnect(answers: seq<Answer>) returns (connected: bool)
    ensures connected <==> Succeeds(answers)
  {
    var left := answers;
    while left != [] && !left[0].NotWritable? && !left[0].Refused?
      invariant Succeeds(left) <==> Succeeds(answers)
      decreases |left|
    {
      if left[0].Connected? {
        return true;
      }
      left := left[1..];
    }
    return false;
  }

  /** A stream around the descriptor just opened. */
  lemma OpenedAndWrapped(w: World, fd: Fd, id: Id)
    requires Owned(w) && id !in w.streams && Enabled(w, Open(fd))
    ensures Enabled(Next(w, Open(fd)), Wrap(id, fd))
    ensures var w' := Next(Next(w, Open(fd)), Wrap(id, fd));
      && Owned(w') && w'.raw == w.raw && w'.streams == w.streams[id := fd]
      && w'.open == w.open + {fd} && w'.closes == w.closes
  {
    StepKeepsOwned(w, Open(fd));
    StepKeepsOwned(Next(w, Open(fd)), Wrap(id, fd));
    assert w.raw + {fd} - {fd} == w.raw;
  }

  /** The descriptor just opened is closed again. */
  lemma OpenedAndClosed(w: World, fd: Fd)
    requires Owned(w) && Enabled(w, Open(fd))
    ensures Enabled(Next(w, Open(fd)), CloseRaw(fd))
    ensures var w' := Next(Next(w, Open(fd)), CloseRaw(fd));
      && Owned(w') && w'.raw == w.raw && w'.streams == w.streams
      && w'.open == w.open && w'.closes == w.closes + [fd]
  {
    StepKeepsOwned(w, Open(fd));
    StepKeepsOwned(Next(w, Open(fd)), CloseRaw(fd));
    assert w.raw + {fd} - {fd} == w.raw && w.open + {fd} - {fd} == w.open;
  }

  /** An invalid stream. */
  lemma WrappedNothing(w: World, id: Id)
    requires Owned(w) && id !in w.streams
    ensures var w' := Next(w, Wrap(id, INVALID_SOCKET));
      && Owned(w') && w' == w.(streams := w.streams[id := INVALID_SOCKET])
  {
    StepKeepsOwned(w, Wrap(id, INVALID_SOCKET));
    assert w.raw - {INVALID_SOCKET} == w.raw;
  }

  /** `Connector::Connect`: the stream it returns holds the descriptor it opened, or is invalid and the
      descriptor is closed.  `fd` is what SocketUtil::Open answers. */
  method Connect(w: World, fd: Fd, answers: seq<Answer>, id: Id) returns (w': World, valid: bool)
    requires Owned(w) && id !in w.streams
    requires fd == INVALID_SOCKET || Enabled(w, Open(fd))
    ensures Owned(w') && w'.raw == w.raw
    ensures w'.streams == w.streams[id := if valid then fd else INVALID_SOCKET]
    ensures valid <==> fd != INVALID_SOCKET && exists k | 0 <= k < |answers| :: FirstSuccess(answers, k)
    ensures valid ==> w'.open == w.open + {fd} && w'.closes == w.closes
    ensures !valid ==> w'.open == w.open && w'.closes == w.closes + if fd != INVALID_SOCKET then [fd] else []
  {
    if fd == INVALID_SOCKET {
      WrappedNothing(w, id);
      return Next(w, Wrap(id, fd)), false;
    }
    w' := Next(w, Open(fd));
    var connected := TryConnect(answers);
    SucceedsExact(answers);
    if connected {
      OpenedAndWrapped(w, fd, id);
      return Next(w', Wrap(id, fd)), true;
    }
    OpenedAndClosed(w, fd);
    w' := Next(w', CloseRaw(fd));
    WrappedNothing(w', id);
    return Next(w', Wrap(id, INVALID_SOCKET)), false;
  }
}
