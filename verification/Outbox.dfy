/** `Send` from any thread against `HandleWrite` in the loop thread.

Every step is one critical section of `m_mutex`, or one call of `m_stream.Send` outside it, so the
states between steps are those in which the mutex is free.  `Modify` is assumed to succeed and the
handler to be registered.  The bytes that a call of `m_stream.Send` moves are those of module
`Transfer`, under either rule for the pointer.
*/
module Outbox {
  import opened Kernel
  import opened Framing
  import opened Transfer
  import opened Echo

  /** Where the loop thread is: outside HandleWrite, at the top of its loop, in front of the write, or
      behind a complete write and in front of `pop_front`; Gone after an error. */
  datatype Pc = Outside | Top | Writing | Written | Gone

  datatype Box = Box(
    rule: Rule,
    queue: seq<seq<Byte>>,   // m_send_datas
    cur: Cursor,             // m_send_ptr, relative to the front packet, and m_send_size
    armed: bool,             // write interest
    pc: Pc,
    out: seq<Byte>,          // everything written
    log: seq<Move>,          // every move of a write
    pushed: seq<seq<Byte>>)  // everything handed to Send, in the order of the lock

  function Fresh(rule: Rule): Box {
    Box(rule, [], Cursor(0, 0), false, Outside, [], [], [])
  }

  datatype Step =
    | Push(data: seq<Byte>)          // Send, by any thread
    | Enter                          // epoll reports the socket writable
    | Check                          // the top of the loop
    | Send(script: seq<Event>)       // m_stream.Send, on these answers of the kernel
    | Pop                            // pop_front, under the lock

  predicate Enabled(b: Box, s: Step) {
    match s
    case Push(_) => true
    case Enter => b.pc == Outside
    case Check => b.pc == Top
    case Send(_) => b.pc == Writing
    case Pop => b.pc == Written
  }

  /** The front packet, which the code takes to be there when it writes and when it pops. */
  function Front(b: Box): seq<Byte> {
    if b.queue == [] then [] else b.queue[0]
  }

  function Next(b: Box, s: Step): Box
    requires Enabled(b, s)
  {
    match s
    case Push(data) =>
      b.(queue := b.queue + [data], armed := b.pc != Gone, pushed := b.pushed + [data])
    case Enter => b.(pc := Top)
    case Check =>
      if b.cur.size != 0 then b.(pc := Writing)
      else if b.queue == [] then b.(armed := false, pc := Outside)
      else b.(cur := Cursor(0, |b.queue[0]|), pc := Writing)
    case Send(script) => AfterSend(b, Call(Write, b.rule, b.cur, script))
    case Pop => b.(queue := if b.queue == [] then [] else b.queue[1..], pc := Top)
  }

  function AfterSend(b: Box, r: Run): Box {
    b.(out := b.out + Gather(Block(Front(b)), r.addrs), cur := r.cur, log := b.log + r.moves,
       pc := if r.ret == 1 then Written else if r.ret == 0 then Outside else Gone,
       armed := b.armed && r.ret >= 0)
  }

  /** The front packet is there when it is needed, packets queued mean write interest armed, and outside
      HandleWrite nothing queued means write interest off. */
  ghost predicate Shape(b: Box) {
    && 0 <= b.cur.size
    && (b.cur.size > 0 || b.pc == Writing || b.pc == Written ==> b.queue != [])
    && (b.cur.size > 0 ==> b.cur.size <= |b.queue[0]|)
    && (b.pc == Written ==> b.cur.size == 0)
    && (b.pc == Writing && b.cur.size == 0 ==> b.queue[0] == [])
    && (b.queue != [] && b.pc != Gone ==> b.armed)
    && (b.queue == [] && b.pc == Outside ==> !b.armed)
  }

  /** What still counts of the queue: a packet written but not yet popped no longer does. */
  function Pending(b: Box): seq<seq<Byte>>
    requires b.pc == Written ==> b.queue != []
  {
    if b.pc == Written then b.queue[1..] else b.queue
  }

  ghost predicate Inv(b: Box) {
    Shape(b) && (AllGood(b.rule, b.log) ==> WriterKept(b.out, Pending(b), b.cur, Concat(b.pushed)))
  }

  lemma StepKeepsInv(b: Box, s: Step)
    requires Inv(b) && Enabled(b, s)
    ensures Inv(Next(b, s))
  {
    match s
    case Push(data) => PushKeepsInv(b, data);
    case Enter =>
    case Check => CheckKeepsInv(b);
    case Send(script) => WriteKeepsInv(b, script);
    case Pop =>
  }

  lemma CheckKeepsInv(b: Box)
    requires Inv(b) && Enabled(b, Check)
    ensures Inv(Next(b, Check))
  {
    var b' := Next(b, Check);
    assert Pending(b') == Pending(b) == b.queue && b'.out == b.out;
    if b.cur.size == 0 && b.queue != [] {
      if AllGood(b.rule, b.log) {
        TakeStaysKept(b.out, b.queue, b.cur, Concat(b.pushed));
      }
    } else {
      assert b'.cur == b.cur;
    }
  }

  lemma PushKeepsInv(b: Box, data: seq<Byte>)
    requires Inv(b)
    ensures Inv(Next(b, Push(data)))
  {
    ConcatAppend(b.pushed, [data]);
    ConcatOne(data);
    UnsentAppend(Pending(b), b.cur.size, data);
    Glue(b.out, Unsent(Pending(b), b.cur.size), data);
    assert b.pc == Written ==> (b.queue + [data])[1..] == b.queue[1..] + [data];
  }

  lemma WriteKeepsInv(b: Box, script: seq<Event>)
    requires Inv(b) && Enabled(b, Send(script))
    ensures Inv(Next(b, Send(script)))
  {
    var r := Call(Write, b.rule, b.cur, script);
    CallShape(Write, b.rule, b.cur, script);
    AllGoodAppend(b.rule, b.log, r.moves);
    if AllGood(b.rule, b.log + r.moves) {
      GoodIsClean(Write, b.rule, b.cur, script);
      SendStaysKept(b.cur, r, b.out, b.queue, Concat(b.pushed));
    }
  }

  /** The steps can be taken one after the other, each from the state the one before leaves. */
  ghost predicate Runs(b: Box, steps: seq<Step>, b': Box)
    decreases |steps|
  {
    if steps == [] then b' == b
    else Enabled(b, steps[0]) && Runs(Next(b, steps[0]), steps[1..], b')
  }

  lemma {:induction false} RunKeepsInv(b: Box, steps: seq<Step>, b': Box)
    requires Inv(b) && Runs(b, steps, b')
    ensures Inv(b') && b'.rule == b.rule
    decreases |steps|
  {
    if steps != [] {
      StepKeepsInv(b, steps[0]);
      RunKeepsInv(Next(b, steps[0]), steps[1..], b');
    }
  }

  /** No output is stranded, in any interleaving of any number of senders and under either rule for the
      pointer: whenever the mutex is free and packets are queued, write interest is armed; outside HandleWrite
      it is armed only then, so that epoll does not report for nothing; and the front packet is there
      whenever the code takes it to be. */
  lemma NoStrandedOutput(rule: Rule, steps: seq<Step>, b: Box)
    requires Runs(Fresh(rule), steps, b)
    ensures b.queue != [] && b.pc != Gone ==> b.armed
    ensures b.pc == Outside ==> (b.armed <==> b.queue != [])
    ensures b.pc == Writing || b.pc == Written ==> b.queue != [] && b.cur.size <= |b.queue[0]|
  {
    RunKeepsInv(Fresh(rule), steps, b);
  }

  /** And if all moves of the writes were good, what is written is at any time the start of everything
      handed to Send, in the order in which the lock was taken, the rest being the unsent end of the
      packet in flight and the packets behind it; with write interest off, all of it is written. */
  lemma OutputInOrder(rule: Rule, steps: seq<Step>, b: Box)
    requires Runs(Fresh(rule), steps, b) && AllGood(rule, b.log)
    ensures b.pc == Written ==> b.queue != [] && b.out + Concat(b.queue[1..]) == Concat(b.pushed)
    ensures b.cur.size > 0 ==> b.queue != [] && b.cur.size <= |b.queue[0]|
    ensures b.pc != Written ==> b.out + Unsent(b.queue, b.cur.size) == Concat(b.pushed)
    ensures b.out <= Concat(b.pushed)
    ensures !b.armed && b.pc != Gone ==> b.out == Concat(b.pushed)
  {
    RunKeepsInv(Fresh(rule), steps, b);
  }
}
