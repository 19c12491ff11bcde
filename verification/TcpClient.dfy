/** The connect thread of `TcpClient`: addresses between the connect queue, the failed queue and the
handlers, while other threads add addresses.

A step is one call on a queue or one outcome of a connect; between any two steps other threads may add.
The queues have their default capacity, which is taken not to fill up, so a push never waits.
*/
module TcpClient {
  import Q = QueueMonitor

  type Address = nat

  /** Where the connect thread is inside `Connect`, and the address it has in hand. */
  datatype Pc =
    | Ready                      // about to pop the connect queue
    | Dialing(addr: Address)     // in Connector::Connect
    | Offering(addr: Address)    // handing the stream to the callback
    | Failing(addr: Address)     // about to push the failed queue
    | Migrating                  // at the top of the migration loop
    | Carrying(addr: Address)    // between TryPop and Push in that loop

  /** Who put an entry into the connect queue. */
  datatype Entry = Added(addr: Address) | Migrated(addr: Address)

  datatype Client = Client(
    connect: seq<Entry>,
    failed: seq<Address>,
    pc: Pc,
    added: seq<Address>,      // everything ever passed to Add
    served: seq<Address>,     // handed to a handler
    dropped: seq<Address>)    // given up after a failed connect

  const FRESH := Client([], [], Ready, [], [], [])

  datatype Step =
    | Add(addr: Address)         // any thread
    | Pop                        // the timed Pop returns an address
    | TimeOut                    // the timed Pop returns false
    | Dial(ok: bool)
    | Offer(ok: bool)
    | PushFailed
    | TryPop                     // the loop condition, with an entry or without
    | PushBack

  predicate Enabled(c: Client, s: Step) {
    match s
    case Add(_) => true
    case Pop => c.pc == Ready && c.connect != []
    case TimeOut => c.pc == Ready
    case Dial(_) => c.pc.Dialing?
    case Offer(_) => c.pc.Offering?
    case PushFailed => c.pc.Failing?
    case TryPop => c.pc == Migrating
    case PushBack => c.pc.Carrying?
  }

  function Next(c: Client, s: Step): Client
    requires Enabled(c, s)
  {
    match s
    case Add(a) => c.(connect := c.connect + [Added(a)], added := c.added + [a])
    case Pop => c.(connect := c.connect[1..], pc := Dialing(c.connect[0].addr))
    case TimeOut => c.(pc := Migrating)
    case Dial(ok) =>
      if ok then c.(pc := Offering(c.pc.addr))
      else c.(pc := Ready, dropped := c.dropped + [c.pc.addr])
    case Offer(ok) =>
      if ok then c.(pc := Ready, served := c.served + [c.pc.addr])
      else c.(pc := Failing(c.pc.addr))
    case PushFailed => c.(failed := c.failed + [c.pc.addr], pc := Ready)
    case TryPop =>
      if c.failed == [] then c.(pc := Ready)
      else c.(failed := c.failed[1..], pc := Carrying(c.failed[0]))
    case PushBack => c.(connect := c.connect + [Migrated(c.pc.addr)], pc := Migrating)
  }

  /** The address in hand. */
  function InHand(pc: Pc): seq<Address> {
    if pc == Ready || pc == Migrating then [] else [pc.addr]
  }

  function Addrs(es: seq<Entry>): (r: seq<Address>)
    ensures |r| == |es|
  {
    if es == [] then [] else Addrs(es[..|es| - 1]) + [es[|es| - 1].addr]
  }

  /** How often an address occurs. */
  function Count(s: seq<Address>, a: Address): nat {
    if s == [] then 0 else Count(s[..|s| - 1], a) + if s[|s| - 1] == a then 1 else 0
  }

  lemma CountSnoc(s: seq<Address>, x: Address, a: Address)
    ensures Count(s + [x], a) == Count(s, a) + if x == a then 1 else 0
  {
    assert (s + [x])[..|s|] == s;
  }

  lemma {:induction false} CountTail(s: seq<Address>, a: Address)
    requires s != []
    ensures Count(s, a) == Count(s[1..], a) + if s[0] == a then 1 else 0
    decreases |s|
  {
    var k := |s| - 1;
    if k > 0 {
      CountTail(s[..k], a);
      assert s[1..][..k - 1] == s[..k][1..];
    }
  }

  lemma AddrsSnoc(es: seq<Entry>, e: Entry)
    ensures Addrs(es + [e]) == Addrs(es) + [e.addr]
  {
    assert (es + [e])[..|es|] == es;
  }

  lemma {:induction false} AddrsTail(es: seq<Entry>)
    requires es != []
    ensures Addrs(es)[0] == es[0].addr && Addrs(es)[1..] == Addrs(es[1..])
    decreases |es|
  {
    var k := |es| - 1;
    if k > 0 {
      AddrsTail(es[..k]);
      assert es[1..][..k - 1] == es[..k][1..];
    }
  }

  /** In how many places an address is. */
  function Places(c: Client, a: Address): nat {
    Count(Addrs(c.connect), a) + Count(c.failed, a) + Count(InHand(c.pc), a) + Count(c.served, a) + Count(c.dropped, a)
  }

  /** No address is lost or invented: it is in as many places as it was added times. */
  ghost predicate Conserved(c: Client) {
    forall a :: Count(c.added, a) == Places(c, a)
  }

  lemma StepConserves(c: Client, s: Step)
    requires Conserved(c) && Enabled(c, s)
    ensures Conserved(Next(c, s))
  {
    forall a ensures Count(Next(c, s).added, a) == Places(Next(c, s), a) {
      StepConservesOne(c, s, a);
    }
  }

  lemma StepConservesOne(c: Client, s: Step, a: Address)
    requires Count(c.added, a) == Places(c, a) && Enabled(c, s)
    ensures Count(Next(c, s).added, a) == Places(Next(c, s), a)
  {
    match s
    case Add(x) => AddConserves(c, x, a);
    case Pop => PopConserves(c, a);
    case TimeOut => HandCount(c.pc, a);
    case Dial(ok) => DialConserves(c, ok, a);
    case Offer(ok) => OfferConserves(c, ok, a);
    case PushFailed => PushFailedConserves(c, a);
    case TryPop => TryPopConserves(c, a);
    case PushBack => PushBackConserves(c, a);
  }

  lemma AddConserves(c: Client, x: Address, a: Address)
    ensures var c' := Next(c, Step.Add(x));
      Places(c', a) - Places(c, a) == Count(c'.added, a) - Count(c.added, a)
  {
    AddrsSnoc(c.connect, Added(x));
    CountSnoc(Addrs(c.connect), x, a);
    CountSnoc(c.added, x, a);
  }

  lemma DialConserves(c: Client, ok: bool, a: Address)
    requires Enabled(c, Dial(ok))
    ensures Places(Next(c, Dial(ok)), a) == Places(c, a)
  {
    HandCount(c.pc, a);
    HandCount(Next(c, Dial(ok)).pc, a);
    CountSnoc(c.dropped, c.pc.addr, a);
  }

  lemma OfferConserves(c: Client, ok: bool, a: Address)
    requires Enabled(c, Offer(ok))
    ensures Places(Next(c, Offer(ok)), a) == Places(c, a)
  {
    HandCount(c.pc, a);
    HandCount(Next(c, Offer(ok)).pc, a);
    CountSnoc(c.served, c.pc.addr, a);
  }

  lemma PushFailedConserves(c: Client, a: Address)
    requires Enabled(c, PushFailed)
    ensures Places(Next(c, PushFailed), a) == Places(c, a)
  {
    HandCount(c.pc, a);
    HandCount(Next(c, PushFailed).pc, a);
    CountSnoc(c.failed, c.pc.addr, a);
  }

  lemma PushBackConserves(c: Client, a: Address)
    requires Enabled(c, PushBack)
    ensures Places(Next(c, PushBack), a) == Places(c, a)
  {
    HandCount(c.pc, a);
    HandCount(Next(c, PushBack).pc, a);
    AddrsSnoc(c.connect, Migrated(c.pc.addr));
    CountSnoc(Addrs(c.connect), c.pc.addr, a);
  }

  lemma HandCount(pc: Pc, a: Address)
    ensures Count(InHand(pc), a) == if pc != Ready && pc != Migrating && pc.addr == a then 1 else 0
  {
    if pc != Ready && pc != Migrating {
      CountSnoc([], pc.addr, a);
      assert [] + [pc.addr] == [pc.addr];
    }
  }

  lemma PopConserves(c: Client, a: Address)
    requires Enabled(c, Pop)
    ensures Places(Next(c, Pop), a) == Places(c, a)
  {
    HandCount(c.pc, a);
    HandCount(Next(c, Pop).pc, a);
    AddrsTail(c.connect);
    CountTail(Addrs(c.connect), a);
  }

  lemma TryPopConserves(c: Client, a: Address)
    requires Enabled(c, TryPop)
    ensures Places(Next(c, TryPop), a) == Places(c, a)
  {
    HandCount(c.pc, a);
    HandCount(Next(c, TryPop).pc, a);
    if c.failed != [] {
      CountTail(c.failed, a);
    }
  }

  ghost predicate Runs(c: Client, steps: seq<Step>, c': Client)
    decreases |steps|
  {
    if steps == [] then c' == c
    else Enabled(c, steps[0]) && Runs(Next(c, steps[0]), steps[1..], c')
  }

  /** Address conservation over whole runs, with any number of concurrent adds: every address ever added
      is in exactly one place. */
  lemma {:induction false} RunConserves(c: Client, steps: seq<Step>, c': Client)
    requires Conserved(c) && Runs(c, steps, c')
    ensures Conserved(c')
    decreases |steps|
  {
    if steps != [] {
      StepConserves(c, steps[0]);
      RunConserves(Next(c, steps[0]), steps[1..], c');
    }
  }

  lemma EveryAddressAccounted(steps: seq<Step>, c: Client)
    requires Runs(FRESH, steps, c)
    ensures forall a :: Count(c.added, a) == Places(c, a)
  {
    RunConserves(FRESH, steps, c);
  }

  // ---------------------------------------------------------------- the migration loop

  /** A step the connect thread or another thread can take during the migration loop. */
  predicate Migration(s: Step) {
    s.TryPop? || s.PushBack? || s.Add?
  }

  /** The migrated entries of the connect queue, in order. */
  function Moved(es: seq<Entry>): seq<Address> {
    if es == [] then []
    else Moved(es[..|es| - 1]) + if es[|es| - 1].Migrated? then [es[|es| - 1].addr] else []
  }

  function Carried(pc: Pc): seq<Address> {
    if pc.Carrying? then [pc.addr] else []
  }

  ghost predicate MigrationRun(c: Client, steps: seq<Step>, c': Client)
    decreases |steps|
  {
    if steps == [] then c' == c
    else
      && (c.pc == Migrating || c.pc.Carrying?)
      && Migration(steps[0]) && Enabled(c, steps[0])
      && MigrationRun(Next(c, steps[0]), steps[1..], c')
  }

  /** What the loop has still to move, the address in hand first. */
  function ToMove(c: Client): seq<Address> {
    Carried(c.pc) + c.failed
  }

  /** Since c0 the loop has only appended to the connect queue, and what it has moved and what it has
      still to move are, in this order, what it had to move at c0. */
  ghost predicate Moving(c0: Client, c: Client) {
    && c0.connect <= c.connect
    && Moved(c.connect[|c0.connect|..]) + ToMove(c) == ToMove(c0)
  }

  lemma StepKeepsMoving(c0: Client, c: Client, s: Step)
    requires Moving(c0, c) && Migration(s) && Enabled(c, s)
    ensures Moving(c0, Next(c, s))
  {
    var n, c' := |c0.connect|, Next(c, s);
    match s
    case Add(a) => AppendMoved(c.connect, n, Added(a));
    case PushBack =>
      AppendMoved(c.connect, n, Migrated(c.pc.addr));
      Shift(Moved(c.connect[n..]), c.pc.addr, c.failed);
    case TryPop =>
      if c.failed != [] {
        assert [c.failed[0]] + c.failed[1..] == c.failed;
      }
  }

  lemma AppendMoved(es: seq<Entry>, n: nat, e: Entry)
    requires n <= |es|
    ensures Moved((es + [e])[n..]) == Moved(es[n..]) + if e.Migrated? then [e.addr] else []
  {
    assert (es + [e])[n..] == es[n..] + [e];
    assert (es[n..] + [e])[..|es| - n] == es[n..];
  }

  lemma Shift(done: seq<Address>, a: Address, rest: seq<Address>)
    ensures done + ([a] + rest) == done + [a] + ([] + rest)
  {
  }

  lemma {:induction false} RunKeepsMoving(c0: Client, c: Client, steps: seq<Step>, c': Client)
    requires Moving(c0, c) && MigrationRun(c, steps, c')
    ensures Moving(c0, c')
    decreases |steps|
  {
    if steps != [] {
      StepKeepsMoving(c0, c, steps[0]);
      RunKeepsMoving(c0, Next(c, steps[0]), steps[1..], c');
    }
  }

  /** The migration loop, with any number of concurrent adds, keeps the order: at every moment the
      entries it has appended to the connect queue, the one in hand and the failed queue are, in this
      order, the failed queue it started from; and when the loop is through, all of it has moved. */
  lemma MigrationKeepsOrder(c: Client, steps: seq<Step>, c': Client)
    requires c.pc == Migrating && MigrationRun(c, steps, c')
    ensures c.connect <= c'.connect
    ensures Moved(c'.connect[|c.connect|..]) + Carried(c'.pc) + c'.failed == c.failed
    ensures c'.pc == Ready ==> Moved(c'.connect[|c.connect|..]) == c.failed && c'.failed == []
  {
    assert c.connect[|c.connect|..] == [];
    RunKeepsMoving(c, c, steps, c');
    var moved := Moved(c'.connect[|c.connect|..]);
    assert moved + Carried(c'.pc) + c'.failed == moved + ToMove(c');
    assert ToMove(c) == c.failed;
    if c'.pc == Ready {
      LoopLeftEmpty(c, steps, c');
      assert moved + [] + [] == moved;
    }
  }

  lemma {:induction false} LoopLeftEmpty(c: Client, steps: seq<Step>, c': Client)
    requires (c.pc == Migrating || c.pc.Carrying?) && MigrationRun(c, steps, c') && c'.pc == Ready
    ensures c'.failed == []
    decreases |steps|
  {
    var m := Next(c, steps[0]);
    if m.pc != Ready {
      LoopLeftEmpty(m, steps[1..], c');
    }
  }

  /** The steps of the connect thread left before the loop ends; adds by others do not change it. */
  function LoopWork(c: Client): nat {
    2 * |c.failed| + (if c.pc == Migrating then 1 else if c.pc.Carrying? then 2 else 0)
  }

  lemma LoopEnds(c: Client, s: Step)
    requires (c.pc == Migrating || c.pc.Carrying?) && Migration(s) && Enabled(c, s)
    ensures LoopWork(Next(c, s)) == LoopWork(c) - if s.Add? then 0 else 1
  {
  }

  // ---------------------------------------------------------------- Add and Connect

  /** Other threads add some addresses. */
  function AddAll(c: Client, addrs: seq<Address>): Client
    decreases |addrs|
  {
    if addrs == [] then c else AddAll(Next(c, Step.Add(addrs[0])), addrs[1..])
  }

  /** The entries that these adds make. */
  function AsAdded(addrs: seq<Address>): (es: seq<Entry>)
    ensures |es| == |addrs|
  {
    seq(|addrs|, i requires 0 <= i < |addrs| => Added(addrs[i]))
  }

  /** Adds append their addresses to the connect queue, in order, change nothing else, and keep every
      account. */
  lemma {:induction false} AddAllKeeps(c: Client, addrs: seq<Address>)
    ensures var c' := AddAll(c, addrs);
      && c' == c.(connect := c.connect + AsAdded(addrs), added := c.added + addrs)
      && (Conserved(c) ==> Conserved(c'))
      && (forall c0 | Moving(c0, c) :: Moving(c0, c'))
    decreases |addrs|
  {
    if addrs == [] {
      assert c.added + [] == c.added && c.connect + AsAdded([]) == c.connect;
    } else {
      var n := Next(c, Step.Add(addrs[0]));
      assert AsAdded(addrs) == [Added(addrs[0])] + AsAdded(addrs[1..]);
      assert c.connect + [Added(addrs[0])] + AsAdded(addrs[1..]) == c.connect + AsAdded(addrs);
      forall c0 | Moving(c0, c) ensures Moving(c0, n) {
        StepKeepsMoving(c0, c, Step.Add(addrs[0]));
      }
      if Conserved(c) {
        StepConserves(c, Step.Add(addrs[0]));
      }
      AddAllKeeps(n, addrs[1..]);
      assert c.added + [addrs[0]] + addrs[1..] == c.added + addrs;
    }
  }

  /** `Connect` when the timed Pop returned an address and other threads add some while it dials. */
  function Dialed(c: Client, addrs: seq<Address>, dialed: bool, accepted: bool): Client
    requires c.pc == Ready && c.connect != []
  {
    var c1 := AddAll(Next(c, Pop), addrs);
    AddAllKeeps(Next(c, Pop), addrs);
    var c2 := Next(c1, Dial(dialed));
    if !dialed then c2
    else if accepted then Next(c2, Offer(true))
    else Next(Next(c2, Offer(false)), PushFailed)
  }

  lemma DialedConserves(c: Client, addrs: seq<Address>, dialed: bool, accepted: bool)
    requires c.pc == Ready && c.connect != [] && Conserved(c)
    ensures Conserved(Dialed(c, addrs, dialed, accepted))
  {
    StepConserves(c, Pop);
    AddAllKeeps(Next(c, Pop), addrs);
    var c1 := AddAll(Next(c, Pop), addrs);
    StepConserves(c1, Dial(dialed));
    if dialed {
      var c2 := Next(c1, Dial(dialed));
      StepConserves(c2, Offer(accepted));
      if !accepted {
        StepConserves(Next(c2, Offer(false)), PushFailed);
      }
    }
  }

  /** What a Pop finds: if the queue is empty, what other threads add while it waits. */
  function Awaited(c: Client, before: seq<Address>): (r: Client)
    ensures r.pc == c.pc
  {
    AddAllKeeps(c, before);
    if c.connect == [] then AddAll(c, before) else c
  }

  /** The address if the condition holds. */
  function If(b: bool, a: Address): seq<Address> {
    if b then [a] else []
  }

  function FirstOf(adds: seq<seq<Address>>): seq<Address> {
    if adds == [] then [] else adds[0]
  }

  class TcpClient {
    var connect: seq<Entry>
    var failed: seq<Address>
    ghost var added: seq<Address>
    ghost var served: seq<Address>
    ghost var dropped: seq<Address>

    /** The state, with the connect thread at `pc`. */
    ghost function At(pc: Pc): Client
      reads this
    {
      Client(connect, failed, pc, added, served, dropped)
    }

    constructor ()
      ensures At(Ready) == FRESH
    {
      connect, failed, added, served, dropped := [], [], [], [], [];
    }

    /** `Add(const Address&)`. */
    method Add(a: Address)
      modifies `connect, `added
      ensures At(Ready) == Next(old(At(Ready)), Step.Add(a))
    {
      connect := connect + [Added(a)];
      added := added + [a];
    }

    /** Other threads call `Add`. */
    method OthersAdd(addrs: seq<Address>, ghost pc: Pc)
      modifies `connect, `added
      ensures At(pc) == AddAll(old(At(pc)), addrs)
    {
      var left := addrs;
      while |left| > 0
        invariant AddAll(old(At(pc)), addrs) == AddAll(At(pc), left)
        decreases |left|
      {
        Add(left[0]);
        left := left[1..];
      }
    }

    /** The loop of `Connect` after the timed Pop gave up, with other threads adding `adds[k]` at its k-th
        step: the failed queue moves to the connect queue whole and in order, and nothing gets lost. */
    method Migrate(adds: seq<seq<Address>>)
      modifies `connect, `failed, `added
      ensures old(connect) <= connect && Moved(connect[|old(connect)|..]) == old(failed) && failed == []
      ensures old(added) <= added
      ensures old(Conserved(At(Migrating))) ==> Conserved(At(Migrating))
    {
      var left := adds;
      ghost var c0 := At(Migrating);
      assert connect[|connect|..] == [];
      while failed != []
        invariant Moving(c0, At(Migrating)) && old(added) <= added
        invariant Conserved(c0) ==> Conserved(At(Migrating))
        decreases |failed|
      {
        ghost var c := At(Migrating);
        var a := failed[0];
        failed := failed[1..];
        StepKeepsMoving(c0, c, TryPop);
        ghost var c1 := Next(c, TryPop);
        AddAllKeeps(c1, if left == [] then [] else left[0]);
        if left != [] {
          OthersAdd(left[0], Carrying(a));
          left := left[1..];
        }
        ghost var c2 := At(Carrying(a));
        StepKeepsMoving(c0, c2, PushBack);
        if Conserved(c0) {
          StepConserves(c, TryPop);
          StepConserves(c2, PushBack);
        }
        connect := connect + [Migrated(a)];
      }
      assert Carried(Migrating) + [] == [];
      assert Moved(connect[|c0.connect|..]) + ToMove(At(Migrating)) == Moved(connect[|c0.connect|..]);
      assert ToMove(c0) == c0.failed;
    }

    /** `Connect`.  An empty connect queue makes the timed Pop wait: then other threads may add `before`, and
        `late` says that it reports a timeout all the same.  `dialed` says that the connection came about and
        `accepted` that the callback took the stream; meanwhile other threads add `adds`.  The address that
        the Pop finds is given up if it cannot be dialled, served if it is accepted and put into the failed
        queue if not. */
    method Connect(before: seq<Address>, late: bool, dialed: bool, accepted: bool, adds: seq<seq<Address>>)
      returns (res: bool)
      modifies this
      ensures var timedOut := old(connect) == [] && (before == [] || late);
        var c := Awaited(old(At(Ready)), before);
        && (res <==> !timedOut && dialed && accepted)
        && (timedOut ==> c.connect <= connect && Moved(connect[|c.connect|..]) == old(failed) && failed == []
                         && served == old(served) && dropped == old(dropped))
        && (!timedOut ==> c.connect != [] && At(Ready) == Dialed(c, FirstOf(adds), dialed, accepted))
      ensures var timedOut := old(connect) == [] && (before == [] || late);
        var found := if old(connect) == [] then AsAdded(before) else old(connect);
        && (timedOut ==> found <= connect && Moved(connect[|found|..]) == old(failed))
        && (!timedOut ==>
              var a := found[0].addr;
              && connect == found[1..] + AsAdded(FirstOf(adds))
              && dropped == old(dropped) + If(!dialed, a)
              && served == old(served) + If(dialed && accepted, a)
              && failed == old(failed) + If(dialed && !accepted, a))
      ensures old(Conserved(At(Ready))) ==> Conserved(At(Ready))
    {
      ghost var c0 := At(Ready);
      AddAllKeeps(c0, before);
      var waits := |connect| == 0;
      if waits {
        OthersAdd(before, Ready);
      }
      assert At(Ready) == Awaited(c0, before);
      if waits && (|before| == 0 || late) {
        if Conserved(c0) {
          StepConserves(At(Ready), TimeOut);
        }
        Migrate(adds);
        if Conserved(At(Migrating)) {
          StepConserves(At(Migrating), TryPop);
        }
        return false;
      }
      res := DialNext(dialed, accepted, FirstOf(adds));
    }

    /** `Connect` behind a Pop that finds an address. */
    method DialNext(dialed: bool, accepted: bool, adds: seq<Address>) returns (res: bool)
      requires connect != []
      modifies this
      ensures res <==> dialed && accepted
      ensures At(Ready) == Dialed(old(At(Ready)), adds, dialed, accepted)
      ensures var a := old(connect)[0].addr;
        && connect == old(connect)[1..] + AsAdded(adds)
        && dropped == old(dropped) + If(!dialed, a)
        && served == old(served) + If(dialed && accepted, a)
        && failed == old(failed) + If(dialed && !accepted, a)
      ensures old(Conserved(At(Ready))) ==> Conserved(At(Ready))
    {
      ghost var c := At(Ready);
      if Conserved(c) {
        DialedConserves(c, adds, dialed, accepted);
      }
      var a := connect[0].addr;
      connect := connect[1..];
      AddAllKeeps(Next(c, Pop), adds);
      OthersAdd(adds, Dialing(a));
      if !dialed {
        dropped := dropped + [a];
        return false;
      }
      if accepted {
        served := served + [a];
        return true;
      }
      failed := failed + [a];
      return false;
    }
  }

  // ---------------------------------------------------------------- the connect queue

  /** Adds from any threads, all without a time limit, and the timed Pop of the connect thread. */
  function ConnectUsers(connector: Q.Tid, adders: set<Q.Tid>): Q.Users {
    Q.Users({}, {connector}, adders, {})
  }

  /** The connect thread is the one waiter on its condition, so late timeouts of its Pop lose no wakeup: an
      address in the queue never waits while the connect thread sleeps on. */
  lemma ConnectThreadWakes(connector: Q.Tid, adders: set<Q.Tid>, capacity: nat,
                           steps: seq<Q.Step<Address>>, m: Q.Monitor<Address>)
    requires Q.Runs(Q.Fresh(capacity), steps, m, Q.ByUsers(ConnectUsers(connector, adders)))
    ensures Q.OneWaiter(ConnectUsers(connector, adders))
    ensures m.queue != [] ==> connector !in m.asleepC
  {
    var u := ConnectUsers(connector, adders);
    var d := Q.ByUsers(u);
    assert u.pops + u.timedPops == {connector};
    Q.RunKeepsLive(Q.Fresh(capacity), steps, m, d);
    if connector in m.asleepC {
      assert forall t | t in m.wokenC :: t == connector;
      assert m.wokenC == {} && |m.queue| <= 0;
    }
  }
}
