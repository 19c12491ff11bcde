/** The echo handler of the example server: an incremental frame parser and a resumable writer on a
non-blocking stream.

`rule` selects how `Stream::Send` and `Stream::Recv` move their pointer.  The invariant below holds
for both rules as long as every move so far was a good one, which under `ByCount` is no condition.
*/
module Echo {
  import opened Kernel
  import opened Transfer
  import opened Framing
  import opened Streams

  const HEAD: int := 0           // where m_head lies
  const BLOCK: int := HEAD + 4   // where the block of m_pkt_data lies

  datatype Interest = ReadOnly | ReadWrite

  /** Aborted: the process ended in `resize` or at an assertion, on a negative length. */
  datatype Status = Open | Closed | Aborted

  datatype Callback = OnRead | OnWrite

  datatype Turn = Turn(callback: Callback, events: seq<Event>)

  /** What is still to be written: the unsent end of the packet in flight and the packets behind it. */
  function Unsent(datas: seq<seq<Byte>>, sendSize: int): seq<Byte>
    requires sendSize > 0 ==> datas != [] && sendSize <= |datas[0]|
  {
    if sendSize > 0 then datas[0][|datas[0]| - sendSize..] + Concat(datas[1..]) else Concat(datas)
  }

  /** A string as it lies in memory. */
  function Block(s: seq<Byte>): Memory {
    map i | 0 <= i < |s| :: s[i]
  }

  /** Everything received is `done` and the part of a head that lies in memory. */
  ghost predicate HeadKept(wire: nat -> Byte, got: nat, cells: Memory, done: seq<Byte>, c: Cursor)
    requires 0 <= c.size <= HEAD_SIZE
  {
    && Incoming(wire, 0, got) == done + Gather(cells, Range(HEAD, HEAD_SIZE - c.size))
    && (c.size > 0 ==> c.data == HEAD + HEAD_SIZE - c.size)
  }

  /** Everything received is `done` and the part of a packet that lies in memory, whose head
      announces the size of the packet. */
  ghost predicate BodyKept(wire: nat -> Byte, got: nat, cells: Memory, done: seq<Byte>, c: Cursor, pktSize: nat)
    requires 0 <= c.size && pktSize >= HEAD_SIZE + c.size
  {
    var bytes := Gather(cells, Range(BLOCK, pktSize - c.size));
    && Incoming(wire, 0, got) == done + bytes
    && Decode32(bytes[..HEAD_SIZE]) == pktSize - HEAD_SIZE
    && (c.size > 0 ==> c.data == BLOCK + pktSize - c.size)
  }

  /** The outcome of a call in place: the next bytes moved, and the cursor denotes the others. */
  ghost predicate Clean(c: Cursor, r: Run) {
    InPlace(c, r) && r.cur.size == c.size - |r.addrs| >= 0
  }

  lemma GoodIsClean(op: Op, rule: Rule, c: Cursor, script: seq<Event>)
    requires c.size >= 0 && AllGood(rule, Call(op, rule, c, script).moves)
    ensures Clean(c, Call(op, rule, c, script))
  {
    CallShape(op, rule, c, script);
    GoodMovesInPlace(op, rule, c, script);
  }

  /** A clean read extends the bytes kept at `base` by exactly what was received. */
  lemma ReadKeeps(c: Cursor, r: Run, base: int, have: nat,
                  cells: Memory, wire: nat -> Byte, got: nat, done: seq<Byte>)
    requires Clean(c, r) && c.size > 0 && c.data == base + have
    requires Incoming(wire, 0, got) == done + Gather(cells, Range(base, have))
    ensures var cells' := Landing(cells, wire, got, r.addrs);
      && Incoming(wire, 0, got + |r.addrs|) == done + Gather(cells', Range(base, have + |r.addrs|))
      && (have >= HEAD_SIZE ==>
            Gather(cells', Range(base, have + |r.addrs|))[..HEAD_SIZE] == Gather(cells, Range(base, have))[..HEAD_SIZE])
      && (r.cur.size > 0 ==> r.cur.data == base + have + |r.addrs|)
  {
    var news := Incoming(wire, got, |r.addrs|);
    StoreExtends(cells, base, have, news);
    IncomingAppend(wire, 0, got, |r.addrs|);
    Glue(done, Gather(cells, Range(base, have)), news);
    if have >= HEAD_SIZE {
      assert (Gather(cells, Range(base, have)) + news)[..HEAD_SIZE] == Gather(cells, Range(base, have))[..HEAD_SIZE];
    }
  }

  lemma HeadStaysKept(c: Cursor, r: Run, wire: nat -> Byte, got: nat, cells: Memory, done: seq<Byte>)
    requires 0 < c.size <= HEAD_SIZE && HeadKept(wire, got, cells, done, c) && Clean(c, r)
    ensures 0 <= r.cur.size <= HEAD_SIZE
    ensures HeadKept(wire, got + |r.addrs|, Landing(cells, wire, got, r.addrs), done, r.cur)
  {
    ReadKeeps(c, r, HEAD, HEAD_SIZE - c.size, cells, wire, got, done);
  }

  lemma BodyStaysKept(c: Cursor, r: Run, wire: nat -> Byte, got: nat, cells: Memory, done: seq<Byte>, pktSize: nat)
    requires 0 <= c.size && pktSize >= HEAD_SIZE + c.size && BodyKept(wire, got, cells, done, c, pktSize)
    requires Clean(c, r)
    ensures 0 <= r.cur.size <= c.size
    ensures BodyKept(wire, got + |r.addrs|, Landing(cells, wire, got, r.addrs), done, r.cur, pktSize)
  {
    if c.size > 0 {
      ReadKeeps(c, r, BLOCK, pktSize - c.size, cells, wire, got, done);
    } else {
      assert r.addrs == [] && Landing(cells, wire, got, []) == cells;
    }
  }

  /** What a read of the head does, on values. */
  lemma HeadRead(rule: Rule, c: Cursor, script: seq<Event>, log: seq<Move>,
                 wire: nat -> Byte, got: nat, cells: Memory, done: seq<Byte>) returns (used: seq<Event>)
    requires 0 < c.size <= HEAD_SIZE && (AllGood(rule, log) ==> HeadKept(wire, got, cells, done, c))
    ensures var r := Call(Read, rule, c, script);
      && 0 <= r.cur.size <= HEAD_SIZE && (r.ret == 1 <==> r.cur.size == 0) && r.ret <= 1
      && (r.ret == 1 ==> |r.rest| < |script|)
      && script == used + r.rest && (r.ret < 0 <==> Ends(Read, used))
      && (AllGood(rule, log + r.moves) ==>
            AllGood(rule, log)
            && HeadKept(wire, got + |r.addrs|, Landing(cells, wire, got, r.addrs), done, r.cur))
  {
    var r := Call(Read, rule, c, script);
    CallShape(Read, rule, c, script);
    used := CallBreaks(Read, rule, c, script);
    AllGoodAppend(rule, log, r.moves);
    if AllGood(rule, log + r.moves) {
      GoodIsClean(Read, rule, c, script);
      HeadStaysKept(c, r, wire, got, cells, done);
    }
  }

  /** What a read of the body does. */
  lemma BodyRead(rule: Rule, c: Cursor, script: seq<Event>, log: seq<Move>,
                 wire: nat -> Byte, got: nat, cells: Memory, done: seq<Byte>, pktSize: nat)
    returns (used: seq<Event>)
    requires 0 <= c.size && pktSize >= HEAD_SIZE + c.size
    requires AllGood(rule, log) ==> BodyKept(wire, got, cells, done, c, pktSize)
    ensures var r := Call(Read, rule, c, script);
      && 0 <= r.cur.size <= c.size && (r.ret == 1 <==> r.cur.size == 0) && r.ret <= 1
      && |r.rest| <= |script|
      && script == used + r.rest && (r.ret < 0 <==> Ends(Read, used))
      && (AllGood(rule, log + r.moves) ==>
            AllGood(rule, log)
            && BodyKept(wire, got + |r.addrs|, Landing(cells, wire, got, r.addrs), done, r.cur, pktSize))
  {
    var r := Call(Read, rule, c, script);
    CallShape(Read, rule, c, script);
    used := CallBreaks(Read, rule, c, script);
    AllGoodAppend(rule, log, r.moves);
    if AllGood(rule, log + r.moves) {
      GoodIsClean(Read, rule, c, script);
      BodyStaysKept(c, r, wire, got, cells, done, pktSize);
    }
  }

  /** Sizing the packet and copying the head into it makes of a complete head a body that has not begun. */
  lemma HeadBecomesBody(wire: nat -> Byte, got: nat, cells: Memory, done: seq<Byte>, c: Cursor)
    requires c.size == 0
    ensures var head := Gather(cells, Range(HEAD, HEAD_SIZE));
      var n := Decode32(head);
      var cells' := Scatter(cells, Range(BLOCK, HEAD_SIZE), Encode32(n));
      && Gather(cells', Range(BLOCK, HEAD_SIZE)) == head
      && (n >= 0 && HeadKept(wire, got, cells, done, c) ==>
            BodyKept(wire, got, cells', done, Cursor(BLOCK + HEAD_SIZE, n), HEAD_SIZE + n))
  {
    var head := Gather(cells, Range(HEAD, HEAD_SIZE));
    ScatterThenGather(cells, Range(BLOCK, HEAD_SIZE), Encode32(Decode32(head)));
    EncodeDecode(head);
    assert head[..HEAD_SIZE] == head;
  }

  /** A body with nothing left to read is a frame, and the next head starts from nothing. */
  lemma FrameDone(wire: nat -> Byte, got: nat, cells: Memory, echoed: seq<seq<Byte>>, c: Cursor, pktSize: nat)
    requires AllFrames(echoed) && c.size == 0 && pktSize >= HEAD_SIZE
    requires BodyKept(wire, got, cells, Concat(echoed), c, pktSize)
    ensures var pkt := Gather(cells, Range(BLOCK, pktSize));
      AllFrames(echoed + [pkt]) && HeadKept(wire, got, cells, Concat(echoed + [pkt]), Cursor(HEAD, HEAD_SIZE))
  {
    var pkt := Gather(cells, Range(BLOCK, pktSize));
    ConcatAppend(echoed, [pkt]);
    ConcatOne(pkt);
    var none := Gather(cells, Range(HEAD, 0));
    assert none == [] && Concat(echoed) + pkt + none == Concat(echoed) + pkt;
  }

  /** All of `pushed` has been written or is still to be written, in order. */
  ghost predicate WriterKept(sent: seq<Byte>, datas: seq<seq<Byte>>, c: Cursor, pushed: seq<Byte>)
    requires c.size > 0 ==> datas != [] && c.size <= |datas[0]|
  {
    && (c.size > 0 ==> c.data == |datas[0]| - c.size)
    && sent + Unsent(datas, c.size) == pushed
  }

  /** Taking the front packet in hand changes nothing about what is still to be written. */
  lemma TakeStaysKept(sent: seq<Byte>, datas: seq<seq<Byte>>, c: Cursor, pushed: seq<Byte>)
    requires c.size == 0 && datas != [] && WriterKept(sent, datas, c, pushed)
    ensures WriterKept(sent, datas, Cursor(0, |datas[0]|), pushed)
  {
  }

  /** A clean write sends the next bytes of the front packet; when it is through, the packet can go. */
  lemma SendStaysKept(c: Cursor, r: Run, sent: seq<Byte>, datas: seq<seq<Byte>>, pushed: seq<Byte>)
    requires datas != [] && 0 <= c.size <= |datas[0]| && WriterKept(sent, datas, c, pushed)
    requires c.size == 0 ==> datas[0] == []
    requires Clean(c, r)
    ensures var sent' := sent + Gather(Block(datas[0]), r.addrs);
      && 0 <= r.cur.size <= c.size
      && (r.cur.size > 0 ==> WriterKept(sent', datas, r.cur, pushed))
      && (r.cur.size == 0 ==> WriterKept(sent', datas[1..], r.cur, pushed))
  {
    var n := |r.addrs|;
    if c.size > 0 {
      SentIsPart(c, r, datas[0]);
      if r.cur.size > 0 {
        WrotePart(sent, datas, c.size, n);
      } else {
        WroteAll(sent, datas, c.size);
        assert Unsent(datas[1..], 0) == Concat(datas[1..]);
      }
    } else {
      NothingSent(sent, datas[0], r.addrs);
      EmptyFront(datas);
    }
  }

  lemma SentIsPart(c: Cursor, r: Run, front: seq<Byte>)
    requires Clean(c, r) && 0 <= c.size <= |front| && c.data == |front| - c.size
    ensures Gather(Block(front), r.addrs) == front[|front| - c.size..][..|r.addrs|]
  {
    BlockPart(front, c.data, |r.addrs|);
  }

  lemma NothingSent(sent: seq<Byte>, front: seq<Byte>, addrs: seq<int>)
    requires addrs == []
    ensures sent + Gather(Block(front), addrs) == sent
  {
  }

  /** What a write of the front packet does. */
  lemma FrontSent(rule: Rule, c: Cursor, script: seq<Event>, log: seq<Move>,
                  sent: seq<Byte>, datas: seq<seq<Byte>>, pushed: seq<Byte>) returns (used: seq<Event>)
    requires datas != [] && 0 <= c.size <= |datas[0]| && (c.size == 0 ==> datas[0] == [])
    requires AllGood(rule, log) ==> WriterKept(sent, datas, c, pushed)
    ensures var r := Call(Write, rule, c, script);
      var sent' := sent + Gather(Block(datas[0]), r.addrs);
      && 0 <= r.cur.size <= c.size && (r.ret == 1 <==> r.cur.size == 0) && r.ret <= 1
      && script == used + r.rest && (r.ret < 0 <==> Fail in used)
      && (AllGood(rule, log + r.moves) ==>
            && AllGood(rule, log)
            && (r.cur.size > 0 ==> WriterKept(sent', datas, r.cur, pushed))
            && (r.cur.size == 0 ==> WriterKept(sent', datas[1..], r.cur, pushed)))
  {
    var r := Call(Write, rule, c, script);
    CallShape(Write, rule, c, script);
    used := CallBreaks(Write, rule, c, script);
    AllGoodAppend(rule, log, r.moves);
    if AllGood(rule, log + r.moves) {
      GoodIsClean(Write, rule, c, script);
      SendStaysKept(c, r, sent, datas, pushed);
    }
  }

  lemma EmptyFront(datas: seq<seq<Byte>>)
    requires datas != [] && datas[0] == []
    ensures Concat(datas) == Concat(datas[1..])
  {
  }

  /** Writing the next n of what is unsent of the front packet moves them from the queue to the wire. */
  lemma WrotePart(sent: seq<Byte>, datas: seq<seq<Byte>>, size: nat, n: nat)
    requires datas != [] && n < size <= |datas[0]|
    ensures sent + datas[0][|datas[0]| - size..][..n] + Unsent(datas, size - n) == sent + Unsent(datas, size)
  {
    var front, rest := datas[0], Concat(datas[1..]);
    var before, after := Unsent(datas, size), Unsent(datas, size - n);
    assert before == front[|front| - size..] + rest;
    assert after == front[|front| - (size - n)..] + rest;
    PartSent(sent, front, size, n, rest);
  }

  lemma WroteAll(sent: seq<Byte>, datas: seq<seq<Byte>>, size: nat)
    requires datas != [] && 0 < size <= |datas[0]|
    ensures sent + datas[0][|datas[0]| - size..][..size] + Concat(datas[1..]) == sent + Unsent(datas, size)
  {
    var front, rest := datas[0], Concat(datas[1..]);
    assert Unsent(datas, size) == front[|front| - size..] + rest;
    PartSent(sent, front, size, size, rest);
  }

  /** Writing the next n of the last `size` bytes of a packet. */
  lemma PartSent(sent: seq<Byte>, front: seq<Byte>, size: nat, n: nat, rest: seq<Byte>)
    requires n <= size <= |front|
    ensures var part, left := front[|front| - size..][..n], front[|front| - (size - n)..];
      && sent + (front[|front| - size..] + rest) == sent + part + (left + rest)
      && (n == size ==> left + rest == rest)
  {
    var part, left := front[|front| - size..][..n], front[|front| - (size - n)..];
    NextPart(front, |front| - size, n);
    CutJoin(front[|front| - size..], n);
    Glue(part, left, rest);
    Glue(sent, part, left + rest);
  }

  lemma BlockPart(s: seq<Byte>, from: nat, n: nat)
    requires from + n <= |s|
    ensures Gather(Block(s), Range(from, n)) == s[from..][..n]
  {
  }

  /** What m_head holds behind a read of the head with the outcome `r`. */
  function HeadAfter(r: Run, wire: nat -> Byte, got: nat, cells: Memory): (head: seq<Byte>)
    ensures |head| == HEAD_SIZE
  {
    Gather(Landing(cells, wire, got, r.addrs), Range(HEAD, HEAD_SIZE))
  }

  /** The kernel delivers the rest of a head, of a body that is not empty, and nothing more. */
  predicate HeadAlone(r: Run, head: seq<Byte>)
    requires |head| == HEAD_SIZE
  {
    r.ret == 1 && r.rest == [] && Decode32(head) > 0
  }

  class TestEventHandler {
    const rule: Rule
    const stream: Stream
    const ram: Ram
    var headPtr: int
    var headSize: int
    var bodyPtr: int
    var bodySize: int
    var pktSize: nat               // m_pkt_data.size()
    var sendDatas: seq<seq<Byte>>
    var sendPtr: int               // relative to the data of the front packet
    var sendSize: int
    var interest: Interest         // what epoll watches for
    var status: Status
    ghost var pushed: seq<seq<Byte>>  // everything ever handed to Send
    ghost var echoed: seq<seq<Byte>>  // the packets HandleRead has handed to Send

    ghost predicate ReaderShape()
      reads this`headSize, this`bodySize, this`pktSize, this`status
    {
      && 0 <= headSize <= HEAD_SIZE
      && (headSize == 0 && !status.Aborted? ==> 0 <= bodySize && pktSize >= HEAD_SIZE + bodySize)
    }

    /** The part of a head that has arrived. */
    ghost function HeadBytes(): seq<Byte>
      requires 0 <= headSize <= HEAD_SIZE
      reads this`headSize, ram
    {
      Gather(ram.cells, Range(HEAD, HEAD_SIZE - headSize))
    }

    /** The head and the part of the body that has arrived. */
    ghost function BodyBytes(): seq<Byte>
      requires 0 <= bodySize <= pktSize
      reads this`bodySize, this`pktSize, ram
    {
      Gather(ram.cells, Range(BLOCK, pktSize - bodySize))
    }

    /** The bytes received that belong to no complete frame yet, as the parser's fields keep them. */
    ghost function Leftover(): seq<Byte>
      requires ReaderShape()
      reads this`headSize, this`bodySize, this`pktSize, this`status, ram
    {
      if headSize > 0 || status.Aborted? then HeadBytes() else BodyBytes()
    }

    ghost predicate HeadOk()
      requires 0 <= headSize <= HEAD_SIZE
      reads this`headSize, this`headPtr, this`echoed, stream`got, ram
    {
      AllFrames(echoed) && HeadKept(stream.wire, stream.got, ram.cells, Concat(echoed), Cursor(headPtr, headSize))
    }

    ghost predicate BodyOk()
      requires 0 <= bodySize && pktSize >= HEAD_SIZE + bodySize
      reads this`bodySize, this`bodyPtr, this`pktSize, this`echoed, stream`got, ram
    {
      && AllFrames(echoed)
      && BodyKept(stream.wire, stream.got, ram.cells, Concat(echoed), Cursor(bodyPtr, bodySize), pktSize)
    }

    /** Everything received is the frames handed on and what the fields keep. */
    ghost predicate ReaderOk()
      requires ReaderShape()
      reads this`headSize, this`headPtr, this`bodySize, this`bodyPtr, this`pktSize, this`status, this`echoed,
            stream`got, ram
    {
      if headSize > 0 then HeadOk()
      else if status.Aborted? then HeadOk() && Decode32(HeadBytes()) < 0
      else BodyOk()
    }

    ghost predicate WriterShape()
      reads this`sendSize, this`sendDatas, this`interest
    {
      && 0 <= sendSize && (sendSize > 0 ==> sendDatas != [] && sendSize <= |sendDatas[0]|)
      && (sendDatas != [] ==> interest == ReadWrite)
    }

    /** Everything handed to Send has been written or is still to be written, in order. */
    ghost predicate WriterOk()
      requires WriterShape()
      reads this`sendSize, this`sendDatas, this`interest, this`sendPtr, this`pushed, stream`sent
    {
      WriterKept(stream.sent, sendDatas, Cursor(sendPtr, sendSize), Concat(pushed))
    }

    /** The invariant inside the callbacks' loops. */
    ghost predicate InLoop()
      reads this, stream, ram
    {
      && ReaderShape() && WriterShape()
      && (AllGood(rule, stream.log) ==> ReaderOk() && WriterOk())
    }

    /** The invariant behind a read of the head, which may be complete. */
    ghost predicate AfterHead()
      reads this, stream, ram
    {
      && 0 <= headSize <= HEAD_SIZE && WriterShape()
      && (AllGood(rule, stream.log) ==> HeadOk() && WriterOk())
    }

    /** The invariant in the window behind a complete write: the front packet is out and still queued. */
    ghost predicate InWindow()
      reads this, stream, ram
    {
      && ReaderShape() && sendSize == 0 && sendDatas != [] && interest == ReadWrite
      && (AllGood(rule, stream.log) ==>
            ReaderOk() && WriterKept(stream.sent, sendDatas[1..], Cursor(sendPtr, 0), Concat(pushed)))
    }

    /** A body with nothing left to read has been handed on. */
    ghost predicate Settled()
      reads this`headSize, this`bodySize, this`status
    {
      headSize == 0 && !status.Aborted? ==> bodySize > 0
    }

    /** The invariant between callbacks. */
    ghost predicate Valid()
      reads this, stream, ram
    {
      InLoop() && Settled()
    }

    constructor (rule: Rule, stream: Stream, ram: Ram)
      requires stream.got == 0 && stream.sent == [] && stream.log == []
      ensures this.rule == rule && this.stream == stream && this.ram == ram
      ensures Valid() && status == Open && pushed == [] && echoed == []
    {
      this.rule, this.stream, this.ram := rule, stream, ram;
      headPtr, headSize, bodyPtr, bodySize, pktSize := HEAD, HEAD_SIZE, BLOCK, 0, 0;
      sendDatas, sendPtr, sendSize := [], 0, 0;
      interest, status := ReadOnly, Open;
      pushed, echoed := [], [];
    }

    /** `Send(std::string& data)`: append the packet and arm write interest, under the lock. */
    method Send(data: seq<Byte>)
      requires WriterShape()
      modifies this`sendDatas, this`interest, this`pushed
      ensures sendDatas == old(sendDatas) + [data] && interest == ReadWrite
      ensures pushed == old(pushed) + [data]
      ensures WriterShape() && (old(WriterOk()) ==> WriterOk())
    {
      UnsentAppend(sendDatas, sendSize, data);
      ConcatAppend(pushed, [data]);
      ConcatOne(data);
      Glue(stream.sent, Unsent(sendDatas, sendSize), data);
      sendDatas := sendDatas + [data];
      interest := ReadWrite;
      pushed := pushed + [data];
    }

    /** `m_loop->Unregister(this)`: no callback will come any more. */
    method Unregister()
      modifies this`status
      ensures status == Closed
    {
      status := Closed;
    }

    /** `m_stream.Recv(m_head_ptr, m_head_size)`. */
    method RecvHead() returns (ret: int, ghost r: Run, ghost used: seq<Event>)
      requires AfterHead() && headSize > 0
      modifies this`headPtr, this`headSize, stream`script, stream`blocked, stream`got, stream`log, ram
      ensures 0 <= headSize <= HEAD_SIZE && (ret == 1 <==> headSize == 0) && ret <= 1
      ensures ret == 1 ==> |stream.script| < |old(stream.script)|
      ensures ret == 0 ==> stream.blocked
      ensures r == Call(Read, rule, Cursor(old(headPtr), old(headSize)), old(stream.script)) && ret == r.ret
      ensures stream.script == r.rest && stream.got == old(stream.got) + |r.addrs|
      ensures ram.cells == Landing(old(ram.cells), stream.wire, old(stream.got), r.addrs)
      ensures old(stream.script) == used + stream.script && (ret < 0 <==> Ends(Read, used))
      ensures old(stream.log) <= stream.log
      ensures AfterHead()
    {
      ghost var c := Cursor(headPtr, headSize);
      r := Call(Read, rule, c, stream.script);
      used := HeadRead(rule, c, stream.script, stream.log, stream.wire, stream.got, ram.cells, Concat(echoed));
      ret, headPtr, headSize := stream.Recv(rule, ram, headPtr, headSize);
    }

    /** `m_stream.Recv(m_body_ptr, m_body_size)`. */
    method RecvBody() returns (ret: int, ghost used: seq<Event>)
      requires InLoop() && headSize == 0 && status == Open
      modifies this`bodyPtr, this`bodySize, stream`script, stream`blocked, stream`got, stream`log, ram
      ensures 0 <= bodySize <= old(bodySize) && (ret == 1 <==> bodySize == 0) && ret <= 1
      ensures (ret == 0 ==> stream.blocked) && |stream.script| <= |old(stream.script)|
      ensures old(stream.script == [] && bodySize > 0) ==> ret == 0 && bodySize == old(bodySize)
      ensures old(stream.script == [] && bodySize > 0) ==> ram.cells == old(ram.cells) && stream.got == old(stream.got)
      ensures old(stream.script) == used + stream.script && (ret < 0 <==> Ends(Read, used))
      ensures old(stream.log) <= stream.log
      ensures InLoop()
    {
      ghost var c := Cursor(bodyPtr, bodySize);
      used := BodyRead(rule, c, stream.script, stream.log, stream.wire, stream.got, ram.cells, Concat(echoed), pktSize);
      ret, bodyPtr, bodySize := stream.Recv(rule, ram, bodyPtr, bodySize);
    }

    /** The head is complete: size the packet and copy the head into it. */
    method SizePacket(head: seq<Byte>)
      requires headSize == 0 && head == Gather(ram.cells, Range(HEAD, HEAD_SIZE)) && bodySize == Decode32(head) >= 0
      modifies this`bodyPtr, this`pktSize, ram
      ensures pktSize == HEAD_SIZE + bodySize && BodyBytes() == head
      ensures old(HeadOk()) ==> BodyOk()
    {
      pktSize := HEAD_SIZE + bodySize;
      HeadBecomesBody(stream.wire, stream.got, ram.cells, Concat(echoed), Cursor(headPtr, 0));
      ram.cells := Scatter(ram.cells, Range(BLOCK, HEAD_SIZE), Encode32(bodySize));
      bodyPtr := BLOCK + HEAD_SIZE;
    }

    /** The head is complete: read the length and prepare for the body. */
    method StartBody()
      requires AfterHead() && headSize == 0 && status == Open
      modifies this`bodySize, this`bodyPtr, this`pktSize, this`status, ram
      ensures InLoop() && status != Closed
      ensures bodySize == Decode32(Gather(old(ram.cells), Range(HEAD, HEAD_SIZE)))
      ensures status == Open <==> bodySize >= 0
      ensures status == Aborted ==> Decode32(HeadBytes()) < 0
      ensures status == Open ==> BodyBytes() == Gather(old(ram.cells), Range(HEAD, HEAD_SIZE))
    {
      var head := Gather(ram.cells, Range(HEAD, HEAD_SIZE));
      bodySize := Decode32(head);
      if bodySize < 0 {
        status := Aborted;
        return;
      }
      SizePacket(head);
    }

    /** The body is complete: hand the packet to Send and wait for the next head. */
    method FinishBody()
      requires InLoop() && headSize == 0 && bodySize == 0 && status == Open
      modifies this`headPtr, this`headSize, this`sendDatas, this`interest, this`pushed, this`echoed
      ensures InLoop() && headSize == HEAD_SIZE
      ensures Handed(old(echoed), old(pushed), old(sendDatas), echoed, pushed, sendDatas)
    {
      var pkt := Gather(ram.cells, Range(BLOCK, pktSize));
      if BodyOk() {
        FrameDone(stream.wire, stream.got, ram.cells, echoed, Cursor(bodyPtr, bodySize), pktSize);
      }
      HandedOne(echoed, pushed, sendDatas, pkt);
      Send(pkt);
      echoed := echoed + [pkt];
      headPtr := HEAD;
      headSize := HEAD_SIZE;
    }

    /** The first branch of the loop of `HandleRead`; `more` says that the loop goes round. */
    method HeadRound() returns (more: bool, ghost r: Run, ghost head: seq<Byte>, ghost used: seq<Event>)
      requires InLoop() && headSize != 0 && status == Open
      modifies this`headPtr, this`headSize, this`bodyPtr, this`bodySize, this`pktSize, this`status,
               stream`script, stream`blocked, stream`got, stream`log, ram
      ensures InLoop() && old(stream.log) <= stream.log
      ensures more ==> status == Open && |stream.script| < |old(stream.script)|
      ensures r == Call(Read, rule, Cursor(old(headPtr), old(headSize)), old(stream.script))
      ensures head == HeadAfter(r, stream.wire, old(stream.got), old(ram.cells))
      ensures more <==> r.ret == 1 && Decode32(head) >= 0
      ensures more ==> headSize == 0 && bodySize == Decode32(head) && BodyBytes() == head
      ensures more ==> stream.script == r.rest && stream.got == old(stream.got) + |r.addrs|
      ensures !more ==> Settled() && (status == Open ==> stream.blocked)
      ensures old(stream.script) == used + stream.script && (status == Closed <==> Ends(Read, used))
      ensures status == Aborted ==> headSize == 0 && Decode32(HeadBytes()) < 0
    {
      var ret;
      ret, r, used := RecvHead();
      head := Gather(ram.cells, Range(HEAD, HEAD_SIZE));
      if ret < 0 {
        Unregister();
      } else if ret > 0 {
        StartBody();
      }
      more := ret > 0 && status == Open;
    }

    /** What a `HandleRead` that is to get nothing but the rest of a head has done: nothing yet, or it waits
        for the body. */
    ghost predicate OnlyHead(e0: seq<seq<Byte>>, d0: seq<seq<Byte>>, c: Cursor, script: seq<Event>,
                             got0: nat, cells0: Memory, r: Run, head: seq<Byte>, more: bool)
      requires |head| == HEAD_SIZE
      reads this, stream, ram
    {
      HeadAlone(r, head) ==>
      && echoed == e0 && sendDatas == d0
      && if headSize != 0 then
           && more && Cursor(headPtr, headSize) == c && stream.script == script
           && stream.got == got0 && ram.cells == cells0
         else
           && status == Open && stream.script == [] && 0 <= bodySize <= pktSize && bodySize == Decode32(head)
           && BodyBytes() == head && stream.got == got0 + |r.addrs|
    }

    /** The second branch of the loop. */
    method BodyRound(ghost e0: seq<seq<Byte>>, ghost d0: seq<seq<Byte>>, ghost c: Cursor, ghost script: seq<Event>,
                     ghost got0: nat, ghost cells0: Memory, ghost r: Run, ghost head: seq<Byte>)
      returns (more: bool, ghost used: seq<Event>)
      requires InLoop() && headSize == 0 && status == Open && |head| == HEAD_SIZE
      modifies this`headPtr, this`headSize, this`bodyPtr, this`bodySize, this`status,
               this`sendDatas, this`interest, this`pushed, this`echoed,
               stream`script, stream`blocked, stream`got, stream`log, ram
      ensures InLoop() && old(stream.log) <= stream.log
      ensures |stream.script| <= |old(stream.script)|
      ensures more ==> Handed(old(echoed), old(pushed), old(sendDatas), echoed, pushed, sendDatas)
      ensures !more ==> echoed == old(echoed) && pushed == old(pushed) && sendDatas == old(sendDatas)
      ensures more ==> status == Open && headSize != 0
      ensures old(OnlyHead(e0, d0, c, script, got0, cells0, r, head, true)) ==>
        OnlyHead(e0, d0, c, script, got0, cells0, r, head, more)
      ensures !more ==> Settled() && (status == Open ==> stream.blocked)
      ensures status != Aborted
      ensures old(stream.script) == used + stream.script && (status == Closed <==> Ends(Read, used))
    {
      var ret;
      ret, used := RecvBody();
      if ret < 0 {
        Unregister();
      } else if ret > 0 {
        FinishBody();
      }
      more := ret > 0;
    }

    /** One round of the loop of `HandleRead`; `more` says that it goes round. */
    method ReadRound(ghost e0: seq<seq<Byte>>, ghost p0: seq<seq<Byte>>, ghost d0: seq<seq<Byte>>, ghost c: Cursor,
                     ghost script: seq<Event>, ghost got0: nat, ghost cells0: Memory,
                     ghost r: Run, ghost head: seq<Byte>)
      returns (more: bool, ghost used: seq<Event>)
      requires r == Call(Read, rule, c, script) && head == HeadAfter(r, stream.wire, got0, cells0)
      requires InLoop() && status == Open && Handed(e0, p0, d0, echoed, pushed, sendDatas)
      modifies this`headPtr, this`headSize, this`bodyPtr, this`bodySize, this`pktSize, this`status,
               this`sendDatas, this`interest, this`pushed, this`echoed,
               stream`script, stream`blocked, stream`got, stream`log, ram
      ensures InLoop() && old(stream.log) <= stream.log
      ensures Handed(e0, p0, d0, echoed, pushed, sendDatas)
      ensures more ==> status == Open
      ensures more && old(headSize) != 0 ==> |stream.script| < |old(stream.script)|
      ensures more && old(headSize) == 0 ==> |stream.script| <= |old(stream.script)| && headSize != 0
      ensures !more ==> Settled() && (status == Open ==> stream.blocked)
      ensures old(stream.script) == used + stream.script && (status == Closed <==> Ends(Read, used))
      ensures status == Aborted ==> headSize == 0 && Decode32(HeadBytes()) < 0
      ensures old(OnlyHead(e0, d0, c, script, got0, cells0, r, head, true)) ==>
        OnlyHead(e0, d0, c, script, got0, cells0, r, head, more)
    {
      ghost var e, p, d := echoed, pushed, sendDatas;
      if headSize != 0 {
        ghost var r', head';
        more, r', head', used := HeadRound();
      } else {
        more, used := BodyRound(e0, d0, c, script, got0, cells0, r, head);
        if more {
          HandedTrans(e0, p0, d0, e, p, d, echoed, pushed, sendDatas);
        }
      }
    }

    /** `HandleRead`.  It hands every frame completed by the bytes read to Send, keeps the incomplete
        rest, and stops only when the kernel has nothing more or the connection is over.  It closes the
        connection exactly if it was answered with an error or with no bytes, and aborts only on a negative
        length; otherwise it returns true.  If the head is all that it gets, it goes on to a body of the
        length that m_head then holds. */
    method HandleRead() returns (res: bool, ghost used: seq<Event>)
      requires Valid() && status == Open
      modifies this`headPtr, this`headSize, this`bodyPtr, this`bodySize, this`pktSize, this`status,
               this`sendDatas, this`interest, this`pushed, this`echoed,
               stream`script, stream`blocked, stream`got, stream`log, ram
      ensures Valid() && (res <==> status == Open)
      ensures old(stream.script) == used + stream.script && (status == Closed <==> Ends(Read, used))
      ensures status == Aborted ==> headSize == 0 && Decode32(HeadBytes()) < 0
      ensures old(stream.log) <= stream.log
      ensures Handed(old(echoed), old(pushed), old(sendDatas), echoed, pushed, sendDatas)
      ensures res ==> stream.blocked
      ensures var r := Call(Read, rule, Cursor(old(headPtr), old(headSize)), old(stream.script));
        var head := HeadAfter(r, stream.wire, old(stream.got), old(ram.cells));
        old(headSize) != 0 && HeadAlone(r, head) ==>
          && res && headSize == 0 && bodySize == Decode32(head) && BodyBytes() == head
          && stream.got == old(stream.got) + |r.addrs|
          && echoed == old(echoed) && sendDatas == old(sendDatas)
    {
      ghost var c, script, got0, cells0 := Cursor(headPtr, headSize), stream.script, stream.got, ram.cells;
      ghost var r := Call(Read, rule, c, script);
      ghost var head := HeadAfter(r, stream.wire, got0, cells0);
      ghost var alone := headSize != 0;
      var more := true;
      used := [];
      while more
        invariant InLoop() && (more ==> status == Open) && (!more ==> Settled())
        invariant script == used + stream.script && (status == Closed <==> Ends(Read, used))
        invariant status == Aborted ==> headSize == 0 && Decode32(HeadBytes()) < 0
        invariant old(stream.log) <= stream.log
        invariant Handed(old(echoed), old(pushed), old(sendDatas), echoed, pushed, sendDatas)
        invariant !more && status == Open ==> stream.blocked
        invariant alone ==> OnlyHead(old(echoed), old(sendDatas), c, script, got0, cells0, r, head, more)
        decreases more, |stream.script|, if headSize == 0 then 1 else 0
      {
        ghost var next: seq<Event>;
        more, next := ReadRound(old(echoed), old(pushed), old(sendDatas), c, script, got0, cells0, r, head);
        EndsAppend(Read, used, next);
        Glue(used, next, stream.script);
        used := used + next;
      }
      return status == Open, used;
    }

    /** Under the lock: an empty queue disarms write interest, otherwise the front packet is next. */
    method TakeFront() returns (empty: bool)
      requires WriterShape() && sendSize == 0
      modifies this`sendPtr, this`sendSize, this`interest
      ensures WriterShape() && (old(WriterOk()) ==> WriterOk())
      ensures empty <==> sendDatas == []
      ensures if empty then Drained() else sendSize == |sendDatas[0]|
    {
      if sendDatas == [] {
        interest := ReadOnly;
        return true;
      }
      if WriterOk() {
        TakeStaysKept(stream.sent, sendDatas, Cursor(sendPtr, sendSize), Concat(pushed));
      }
      sendPtr, sendSize := 0, |sendDatas[0]|;
      return false;
    }

    /** `m_stream.Send(m_send_ptr, m_send_size)`.  A complete write leads into the window in front of
        `pop_front`. */
    method SendFront() returns (ret: int, ghost used: seq<Event>)
      requires InLoop() && sendDatas != [] && sendSize <= |sendDatas[0]| && (sendSize == 0 ==> sendDatas[0] == [])
      modifies this`sendPtr, this`sendSize, stream`script, stream`blocked, stream`sent, stream`log
      ensures ret <= 1 && (ret == 0 ==> stream.blocked)
      ensures old(stream.log) <= stream.log
      ensures if ret == 1 then InWindow() else InLoop()
      ensures old(stream.script) == used + stream.script && (ret < 0 <==> Fail in used)
    {
      ghost var c := Cursor(sendPtr, sendSize);
      used := FrontSent(rule, c, stream.script, stream.log, stream.sent, sendDatas, Concat(pushed));
      ret, sendPtr, sendSize := stream.Send(rule, Block(sendDatas[0]), sendPtr, sendSize);
    }

    /** `m_send_datas.pop_front()`, under the lock. */
    method PopFront()
      requires InWindow()
      modifies this`sendDatas
      ensures InLoop() && sendDatas == old(sendDatas)[1..]
    {
      sendDatas := sendDatas[1..];
    }

    /** The write of a round and what follows from its return code. */
    method WriteFront() returns (more: bool, ghost used: seq<Event>)
      requires InLoop() && status == Open
      requires sendDatas != [] && sendSize <= |sendDatas[0]| && (sendSize == 0 ==> sendDatas[0] == [])
      modifies this`sendDatas, this`sendPtr, this`sendSize, this`status,
               stream`script, stream`blocked, stream`sent, stream`log
      ensures InLoop() && old(stream.log) <= stream.log
      ensures more ==> status == Open && sendDatas == old(sendDatas)[1..]
      ensures !more ==> sendDatas == old(sendDatas) && status != Aborted && (status == Open ==> stream.blocked)
      ensures old(stream.script) == used + stream.script && (status == Closed <==> Fail in used)
    {
      var ret;
      ret, used := SendFront();
      if ret < 0 {
        Unregister();
        return false, used;
      } else if ret == 0 {
        return false, used;
      }
      PopFront();
      return true, used;
    }

    /** One round of the loop of `HandleWrite`; `more` says that it goes round. */
    method WriteRound() returns (more: bool, ghost used: seq<Event>)
      requires InLoop() && status == Open
      modifies this`sendDatas, this`sendPtr, this`sendSize, this`interest, this`status,
               stream`script, stream`blocked, stream`sent, stream`log
      ensures InLoop() && old(stream.log) <= stream.log
      ensures more ==> status == Open && old(sendDatas) != [] && sendDatas == old(sendDatas)[1..]
      ensures !more ==> sendDatas == old(sendDatas) && status != Aborted
      ensures !more && status == Open ==> Paused()
      ensures old(stream.script) == used + stream.script && (status == Closed <==> Fail in used)
    {
      if sendSize == 0 {
        var empty := TakeFront();
        if empty {
          return false, [];
        }
      }
      more, used := WriteFront();
    }

    /** Nothing is left to write and nobody is told when the socket can take more. */
    ghost predicate Drained()
      reads this`sendDatas, this`sendSize, this`interest
    {
      sendDatas == [] && sendSize == 0 && interest == ReadOnly
    }

    /** All is out, or packets are left, the kernel takes no more and will tell when it does. */
    ghost predicate Paused()
      reads this`sendDatas, this`sendSize, this`interest, stream`blocked
    {
      if sendDatas == [] then Drained() else stream.blocked && interest == ReadWrite
    }

    /** `HandleWrite`.  It writes packets in order and stops only when all are out, at EAGAIN, or when
        the connection is over, which it closes exactly if a write was answered with an error. */
    method HandleWrite() returns (res: bool, ghost used: seq<Event>)
      requires Valid() && status == Open
      modifies this`sendDatas, this`sendPtr, this`sendSize, this`interest, this`status,
               stream`script, stream`blocked, stream`sent, stream`log
      ensures Valid() && (res <==> status == Open) && status != Aborted
      ensures old(stream.script) == used + stream.script && (status == Closed <==> Fail in used)
      ensures old(stream.log) <= stream.log
      ensures exists k :: 0 <= k <= |old(sendDatas)| && sendDatas == old(sendDatas)[k..]
      ensures res ==> Paused()
    {
      var more := true;
      ghost var k, script := 0, stream.script;
      used := [];
      while more
        invariant Valid() && status != Aborted && (more ==> status == Open)
        invariant script == used + stream.script && (status == Closed <==> Fail in used)
        invariant old(stream.log) <= stream.log
        invariant 0 <= k <= |old(sendDatas)| && sendDatas == old(sendDatas)[k..]
        invariant !more && status == Open ==> Paused()
        decreases more, |sendDatas|
      {
        ghost var next: seq<Event>;
        more, next := WriteRound();
        Glue(used, next, stream.script);
        used := used + next;
        Tail(old(sendDatas), k);
        k := if more then k + 1 else k;
      }
      return status == Open, used;
    }
  }

  lemma Tail<T>(s: seq<T>, k: nat)
    ensures k < |s| ==> s[k..][1..] == s[k + 1..]
  {
  }

  /** The same packets, in the same order, went through Send into the output queue. */
  ghost predicate Handed(echoed0: seq<seq<Byte>>, pushed0: seq<seq<Byte>>, datas0: seq<seq<Byte>>,
                         echoed: seq<seq<Byte>>, pushed: seq<seq<Byte>>, datas: seq<seq<Byte>>) {
    && echoed0 <= echoed
    && pushed == pushed0 + echoed[|echoed0|..]
    && datas == datas0 + echoed[|echoed0|..]
  }

  lemma HandedOne(echoed: seq<seq<Byte>>, pushed: seq<seq<Byte>>, datas: seq<seq<Byte>>, pkt: seq<Byte>)
    ensures Handed(echoed, pushed, datas, echoed + [pkt], pushed + [pkt], datas + [pkt])
  {
    assert (echoed + [pkt])[|echoed|..] == [pkt];
  }

  lemma HandedTrans(e0: seq<seq<Byte>>, p0: seq<seq<Byte>>, d0: seq<seq<Byte>>,
                    e1: seq<seq<Byte>>, p1: seq<seq<Byte>>, d1: seq<seq<Byte>>,
                    e2: seq<seq<Byte>>, p2: seq<seq<Byte>>, d2: seq<seq<Byte>>)
    requires Handed(e0, p0, d0, e1, p1, d1) && Handed(e1, p1, d1, e2, p2, d2)
    ensures Handed(e0, p0, d0, e2, p2, d2)
  {
    assert e2[|e0|..] == e1[|e0|..] + e2[|e1|..];
  }

  /** Appending a packet appends its bytes to what is to be written. */
  lemma UnsentAppend(datas: seq<seq<Byte>>, sendSize: int, data: seq<Byte>)
    requires sendSize > 0 ==> datas != [] && sendSize <= |datas[0]|
    ensures Unsent(datas + [data], sendSize) == Unsent(datas, sendSize) + data
  {
    ConcatOne(data);
    if sendSize > 0 {
      assert (datas + [data])[1..] == datas[1..] + [data];
      ConcatAppend(datas[1..], [data]);
      Glue(datas[0][|datas[0]| - sendSize..], Concat(datas[1..]), data);
    } else {
      ConcatAppend(datas, [data]);
    }
  }

  lemma SentIsWire(wire: nat -> Byte, got: nat, sent: seq<Byte>)
    requires sent <= Incoming(wire, 0, got)
    ensures |sent| <= got && forall i | 0 <= i < |sent| :: sent[i] == wire(i)
  {
    forall i | 0 <= i < |sent| ensures sent[i] == wire(i) {
      assert sent[i] == Incoming(wire, 0, got)[i];
    }
  }

  /** The echo invariant, inside the callbacks' loops and between callbacks: when only `HandleRead` has
      handed packets to Send, the bytes read are the bytes written, the unsent end of the packet in
      flight, the packets behind it and the incomplete frame in the parser's fields, in this order; and
      between callbacks the frames handed on are exactly those of the bytes read. */
  lemma EchoInvariant(h: TestEventHandler)
    requires h.InLoop() && AllGood(h.rule, h.stream.log) && h.pushed == h.echoed
    ensures h.stream.Received() == h.stream.sent + Unsent(h.sendDatas, h.sendSize) + h.Leftover()
    ensures h.stream.sent <= h.stream.Received()
    ensures |h.stream.sent| <= h.stream.got
    ensures forall i | 0 <= i < |h.stream.sent| :: h.stream.sent[i] == h.stream.wire(i)
    ensures h.Valid() ==> Split(h.stream.Received()) == Parsed(h.echoed, h.Leftover())
  {
    if h.headSize == 0 && !h.status.Aborted? {
      assert h.Leftover() == h.BodyBytes();
    }
    SentIsWire(h.stream.wire, h.stream.got, h.stream.sent);
    if h.Valid() {
      SplitUnique(h.echoed, h.Leftover());
    }
  }

  /** A client's messages come back: if what has been received is the frames of some messages, empty ones
      included, then those frames have been handed on, nothing of them is left over, and once nothing is
      left to write they are exactly what was written. */
  lemma MessagesEchoed(h: TestEventHandler, bodies: seq<seq<Byte>>)
    requires h.Valid() && AllGood(h.rule, h.stream.log) && h.pushed == h.echoed
    requires forall i | 0 <= i < |bodies| :: |bodies[i]| < TWO31
    requires h.stream.Received() == Concat(PackAll(bodies))
    ensures h.echoed == PackAll(bodies) && h.Leftover() == []
    ensures h.Drained() ==> h.stream.sent == Concat(PackAll(bodies))
  {
    EchoInvariant(h);
    RoundTrip(bodies, []);
    assert Concat(PackAll(bodies)) + [] == Concat(PackAll(bodies));
    if h.Drained() {
      assert h.stream.sent + [] + [] == h.stream.sent;
    }
  }

  /** The same in the window behind a complete write and in front of its `pop_front`, where the front
      packet is still queued but no longer counts. */
  lemma EchoInWindow(h: TestEventHandler)
    requires h.InWindow() && AllGood(h.rule, h.stream.log) && h.pushed == h.echoed
    ensures h.stream.Received() == h.stream.sent + Concat(h.sendDatas[1..]) + h.Leftover()
    ensures h.stream.sent <= h.stream.Received()
  {
    if h.headSize == 0 && !h.status.Aborted? {
      assert h.Leftover() == h.BodyBytes();
    }
  }

  /** The kernel reports no error and no end of the stream. */
  predicate Healthy(script: seq<Event>) {
    Fail !in script && Moved(0) !in script
  }

  predicate AllHealthy(turns: seq<Turn>) {
    forall i | 0 <= i < |turns| :: Healthy(turns[i].events)
  }

  lemma HealthyParts(a: seq<Event>, b: seq<Event>)
    ensures Healthy(a + b) <==> Healthy(a) && Healthy(b)
  {
  }

  /** Whole runs: a fresh handler driven through any callbacks, on any answers of the kernel, echoes.
      Under `ByCount` every move is good, so the conclusion holds of every run; under `ByRemaining`,
      the rule as written, it holds of the runs whose every move took everything or exactly half.  And unless
      the kernel reports an error or the end of the stream, the connection is not closed. */
  method Serve(h: TestEventHandler, turns: seq<Turn>)
    requires h.Valid() && h.status == Open && h.pushed == h.echoed
    modifies h, h.stream, h.ram
    ensures h.Valid() && h.pushed == h.echoed
    ensures AllGood(h.rule, h.stream.log) ==>
      && h.stream.Received() == h.stream.sent + Unsent(h.sendDatas, h.sendSize) + h.Leftover()
      && h.stream.sent <= h.stream.Received()
      && Split(h.stream.Received()) == Parsed(h.echoed, h.Leftover())
    ensures h.rule == ByCount ==>
      |h.stream.sent| <= h.stream.got && forall i | 0 <= i < |h.stream.sent| :: h.stream.sent[i] == h.stream.wire(i)
    ensures Healthy(old(h.stream.script)) && AllHealthy(turns) ==> h.status != Closed
    ensures h.status == Aborted ==> h.headSize == 0 && Decode32(h.HeadBytes()) < 0
  {
    for i := 0 to |turns|
      invariant h.Valid() && h.pushed == h.echoed
      invariant Healthy(old(h.stream.script)) && AllHealthy(turns) ==> h.status != Closed && Healthy(h.stream.script)
      invariant h.status == Aborted ==> h.headSize == 0 && Decode32(h.HeadBytes()) < 0
    {
      if h.status != Open {
        break;
      }
      h.stream.script := h.stream.script + turns[i].events;
      var res;
      ghost var used: seq<Event>;
      match turns[i].callback {
        case OnRead => res, used := h.HandleRead();
        case OnWrite => res, used := h.HandleWrite();
      }
      HealthyParts(used, h.stream.script);
    }
    if AllGood(h.rule, h.stream.log) {
      EchoInvariant(h);
    }
  }

  /** A head that arrives as one byte and then three is misread by the code as written, whatever m_head
      held before: the four header bytes of a body of 5 + 256 bytes become a length above 2^24. */
  lemma SplitHeadMisread(wire: nat -> Byte, got: nat, m: Memory)
    requires wire(got) == 5 && wire(got + 1) == 1 && wire(got + 2) == 0 && wire(got + 3) == 0
    ensures var script := [Moved(1), Moved(3)];
      var written := Call(Read, ByRemaining, Cursor(HEAD, 4), script);
      var meant := Call(Read, ByCount, Cursor(HEAD, 4), script);
      && Decode32(Gather(Landing(m, wire, got, written.addrs), Range(HEAD, 4)))
         == 5 + 0x100 * At(m, HEAD + 1) + 0x1_0000 * At(m, HEAD + 2) + 0x100_0000
      && Decode32(Gather(Landing(m, wire, got, meant.addrs), Range(HEAD, 4))) == 5 + 0x100
  {
    WrittenRuleStrays(Read, HEAD);
    assert Incoming(wire, got, 4) == [5, 1, 0, 0];
    FourStores(m, HEAD, HEAD + 3, HEAD + 4, HEAD + 5);
    FourStores(m, HEAD, HEAD + 1, HEAD + 2, HEAD + 3);
    assert Range(HEAD, 4) == [0, 1, 2, 3];
  }

  lemma FourStores(m: Memory, a: int, b: int, c: int, d: int)
    ensures Scatter(m, [a, b, c, d], [5, 1, 0, 0]) == m[a := 5][b := 1][c := 0][d := 0]
  {
    assert [a, b, c, d][..3] == [a, b, c] && [5, 1, 0, 0][..3] == [5, 1, 0];
    assert [a, b, c][..2] == [a, b] && [5, 1, 0][..2] == [5, 1];
    assert [a, b][..1] == [a] && [5, 1][..1] == [5];
    assert Scatter(m, [a], [5]) == m[a := 5];
    assert Scatter(m, [a, b], [5, 1]) == m[a := 5][b := 1];
    assert Scatter(m, [a, b, c], [5, 1, 0]) == m[a := 5][b := 1][c := 0];
  }

  /** The handler on that input: it goes on to wait for a body of more than 2^24 bytes, and the echo invariant,
      which held before, fails: what it keeps of the frame begun is not what it has received. */
  method MisreadHead(h: TestEventHandler)
    requires h.Valid() && h.status == Open && h.rule == ByRemaining
    requires AllGood(h.rule, h.stream.log) && h.pushed == h.echoed
    requires h.headPtr == HEAD && h.headSize == HEAD_SIZE && h.stream.script == [Moved(1), Moved(3)]
    requires var wire, got := h.stream.wire, h.stream.got;
      wire(got) == 5 && wire(got + 1) == 1 && wire(got + 2) == 0 && wire(got + 3) == 0
    modifies h, h.stream, h.ram
    ensures h.Valid() && h.headSize == 0 && h.bodySize > 0x100_0000
    ensures h.stream.Received() != h.stream.sent + Unsent(h.sendDatas, h.sendSize) + h.Leftover()
  {
    MisreadSetting(h);
    ghost var before, got := h.stream.sent + Unsent(h.sendDatas, h.sendSize), h.stream.got;
    var _, _ := h.HandleRead();
    WrongLeftover(h.stream.wire, got, before, h.BodyBytes());
  }

  /** What that input does to the head, and what has been accounted for before. */
  lemma MisreadSetting(h: TestEventHandler)
    requires h.Valid() && h.status == Open && h.rule == ByRemaining
    requires AllGood(h.rule, h.stream.log) && h.pushed == h.echoed
    requires h.headPtr == HEAD && h.headSize == HEAD_SIZE && h.stream.script == [Moved(1), Moved(3)]
    requires var wire, got := h.stream.wire, h.stream.got;
      wire(got) == 5 && wire(got + 1) == 1 && wire(got + 2) == 0 && wire(got + 3) == 0
    ensures var r := Call(Read, h.rule, Cursor(h.headPtr, h.headSize), h.stream.script);
      var head := HeadAfter(r, h.stream.wire, h.stream.got, h.ram.cells);
      HeadAlone(r, head) && |r.addrs| == 4 && Decode32(head) > 0x100_0000
    ensures h.stream.Received() == h.stream.sent + Unsent(h.sendDatas, h.sendSize)
  {
    EchoInvariant(h);
    SplitHeadMisread(h.stream.wire, h.stream.got, h.ram.cells);
    BothMoves();
    var before := h.stream.sent + Unsent(h.sendDatas, h.sendSize);
    assert h.Leftover() == [] && before + [] == before;
  }

  /** What is left over cannot be the four bytes just received if it announces another length. */
  lemma WrongLeftover(wire: nat -> Byte, got: nat, before: seq<Byte>, left: seq<Byte>)
    requires wire(got) == 5 && wire(got + 1) == 1 && wire(got + 2) == 0 && wire(got + 3) == 0
    requires Incoming(wire, 0, got) == before && |left| == HEAD_SIZE && Decode32(left) != 5 + 0x100
    ensures Incoming(wire, 0, got + 4) != before + left
  {
    IncomingAppend(wire, 0, got, 4);
    assert Incoming(wire, got, 4) == [5, 1, 0, 0];
    SamePrefix(before, [5, 1, 0, 0], left);
  }

  lemma SamePrefix(a: seq<Byte>, b: seq<Byte>, c: seq<Byte>)
    ensures a + b == a + c ==> b == c
  {
    if a + b == a + c {
      assert b == (a + b)[|a|..] && c == (a + c)[|a|..];
    }
  }

  lemma BothMoves()
    ensures var r := Call(Read, ByRemaining, Cursor(HEAD, HEAD_SIZE), [Moved(1), Moved(3)]);
      r.ret == 1 && r.rest == [] && |r.addrs| == 4
  {
    WrittenRuleStrays(Read, HEAD);
    var c := Cursor(HEAD, HEAD_SIZE);
    var c1 := Advance(ByRemaining, c, 1);
    var c2 := Advance(ByRemaining, c1, 3);
    assert [Moved(1), Moved(3)][1..] == [Moved(3)];
    assert [Moved(3)][1..] == [];
    assert Call(Read, ByRemaining, c2, []).ret == 1;
    assert Call(Read, ByRemaining, c1, [Moved(3)]).ret == 1;
  }
}
