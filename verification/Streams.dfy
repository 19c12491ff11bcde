/** The class `Stream`, on a kernel that answers from a script.

The loops are those of the source; each is proved against the pure description of a call in
module `Transfer`, whose properties then hold of the loops.
*/
module Streams {
  import opened Kernel
  import opened Transfer
  import opened IoVecs

  /** What a vector call does when entered with a positive `iovcnt`: a transfer of `total` bytes by
      count, except that an empty list still makes one system call. */
  function VectorCall(op: Op, from: nat, total: nat, script: seq<Event>): Run
    decreases |script|
  {
    if total > 0 then Call(op, ByCount, Cursor(from, total), script)
    else if script == [] then Run([], [], Cursor(from, 0), [], 0)
    else match script[0]
      case Again => Run([], [], Cursor(from, 0), script[1..], 0)
      case Fail => Run([], [], Cursor(from, 0), script[1..], -1)
      case Intr => VectorCall(op, from, total, script[1..])
      case Moved(_) =>
        if op.Read? then Run([], [], Cursor(from, 0), script[1..], -2)
        else Run([Move(0, 0)], [], Cursor(from, 0), script[1..], 1)
  }

  /** A vector call with the outcome `whole` that has moved `n` bytes so far: the rest of it starts where
      it is, or it is over. */
  ghost predicate VectorProgress(op: Op, whole: Run, total: nat, moves: seq<Move>, n: nat,
                                 script: seq<Event>, more: bool)
    requires n <= total
  {
    whole == Prepend(moves, Range(0, n),
      if more then VectorCall(op, n, total - n, script) else Run([], [], Cursor(n, 0), script, 1))
  }

  /** The list behind a vector call that has moved the first `n` of the addresses `flat`: as long as
      entries are left, they denote exactly the others; once none is left everything has moved.  The count
      is then 0 under a guard in `UpdateIov`, and without one precisely when the entry behind the list is
      a non-empty one.  The entries behind the list, `tail`, keep their values. */
  ghost predicate ListLeft(guarded: bool, flat: seq<int>, tail: seq<IoVec>, now: seq<IoVec>, end: nat,
                           iov': nat, iovcnt': int, n: nat)
    requires end <= |now|
  {
    && iov' + iovcnt' == end && iov' <= |now| && n <= |flat|
    && now[end..] == tail
    && (iovcnt' > 0 ==> Flat(now[iov'..end]) == flat[n..])
    && (iovcnt' <= 0 ==> n == |flat| && (guarded || Total(tail) > 0))
    && (iovcnt' <= 0 ==> (iovcnt' == 0 <==> guarded || (end < |now| && now[end].len > 0)))
  }

  /** The call is over.  It walked out of memory, `stray`, exactly if `UpdateIov` has no guard, everything
      moved and only empty entries follow the list.  The script left and the number of bytes moved are
      those of the outcome `r`; if the walk stayed in memory, so are the return code and the list, and no
      entry is left exactly if the call reports that all has moved. */
  ghost predicate VectorOver(guarded: bool, r: Run, flat: seq<int>, tail: seq<IoVec>, now: seq<IoVec>, end: nat,
                             iov': nat, iovcnt': int, script: seq<Event>, stray: bool, ret: int, n: nat)
    requires end <= |now|
  {
    && (stray <==> !guarded && r.ret == 1 && Total(tail) == 0)
    && script == r.rest && n == |r.addrs|
    && (!stray ==> ret == r.ret && (iovcnt' > 0 <==> ret != 1)
                   && ListLeft(guarded, flat, tail, now, end, iov', iovcnt', n))
  }

  /** After a round that moved `k` bytes: the call is over, or the loop goes on. */
  ghost predicate VectorNext(op: Op, guarded: bool, whole: Run, flat: seq<int>, tail: seq<IoVec>, now: seq<IoVec>,
                             end: nat, iov': nat, iovcnt': int, script: seq<Event>, moves: seq<Move>, n: nat,
                             done: bool, stray: bool, ret: int)
    requires end <= |now|
  {
    if done then VectorOver(guarded, whole, flat, tail, now, end, iov', iovcnt', script, stray, ret, n)
    else !stray && VectorInv(op, guarded, whole, flat, tail, now, end, iov', iovcnt', script, moves, n)
  }

  /** The code a round returns when nothing moves. */
  function StopCode(count: int, errno: Errno): int {
    if count == 0 then -2 else if errno == EAGAIN then 0 else -1
  }

  /** A round in which `count` bytes move, or a write moves nothing: it goes on unless the walk strays. */
  lemma RoundMoves(op: Op, guarded: bool, whole: Run, flat: seq<int>, tail: seq<IoVec>,
                   now: seq<IoVec>, now': seq<IoVec>, end: nat, iov': nat, iovcnt': int, iov'': nat, iovcnt'': int,
                   script: seq<Event>, moves: seq<Move>, n: nat, count: nat, errno: Errno, stray: bool)
    requires end <= |now| == |now'| && iovcnt' > 0 && (count > 0 || op.Write?)
    requires VectorInv(op, guarded, whole, flat, tail, now, end, iov', iovcnt', script, moves, n)
    requires (count, errno) == if script == [] then (-1, EAGAIN) else Answer(script[0], |flat| - n)
    requires stray <==> !guarded && count == |flat| - n && Total(tail) == 0
    requires !stray ==> ListUpdated(guarded, now, now', iov', iovcnt', count, iov'', iovcnt'')
    ensures VectorNext(op, guarded, whole, flat, tail, now', end, iov'', iovcnt'', Rest(script),
                       moves + [Move(|flat| - n, count)], n + count, stray, stray, 1)
  {
    if stray {
      VectorStep(op, whole, |flat|, moves, n, script);
      assert Range(0, |flat|) + [] == Range(0, |flat|);
    } else {
      VectorInvMoved(op, guarded, whole, flat, tail, now, now', end, iov', iovcnt', iov'', iovcnt'',
                     script, moves, n, count);
    }
  }

  /** A round in which nothing moves: it goes on after an EINTR. */
  lemma RoundStops(op: Op, guarded: bool, whole: Run, flat: seq<int>, tail: seq<IoVec>, now: seq<IoVec>, end: nat,
                   iov': nat, iovcnt': int, script: seq<Event>, moves: seq<Move>, n: nat, count: int, errno: Errno)
    requires end <= |now| && iovcnt' > 0 && count <= 0 && !(count == 0 && op.Write?)
    requires VectorInv(op, guarded, whole, flat, tail, now, end, iov', iovcnt', script, moves, n)
    requires (count, errno) == if script == [] then (-1, EAGAIN) else Answer(script[0], |flat| - n)
    ensures VectorNext(op, guarded, whole, flat, tail, now, end, iov', iovcnt', Rest(script),
                       moves, n, errno != EINTR, false, if errno != EINTR then StopCode(count, errno) else 1)
  {
    VectorStep(op, whole, |flat|, moves, n, script);
  }

  /** What went out is the first `n` bytes the list denotes. */
  ghost predicate Emitted(mem: Memory, flat: seq<int>, n: nat, sent0: seq<Byte>, sent: seq<Byte>) {
    n <= |flat| && sent == sent0 + Gather(mem, flat[..n])
  }

  /** Putting out in two goes is putting out once. */
  lemma PutOut(mem: Memory, a: seq<int>, b: seq<int>, sent0: seq<Byte>, sent: seq<Byte>)
    requires sent == sent0 + Gather(mem, a)
    ensures sent + Gather(mem, b) == sent0 + Gather(mem, a + b)
  {
    GatherAppend(mem, a, b);
  }

  lemma EmittedNext(mem: Memory, flat: seq<int>, n: nat, k: nat,
                    sent0: seq<Byte>, sent1: seq<Byte>, sent2: seq<Byte>)
    requires Emitted(mem, flat, n, sent0, sent1) && Emitted(mem, flat[n..], k, sent1, sent2)
    ensures Emitted(mem, flat, n + k, sent0, sent2)
  {
    NextPart(flat, n, k);
    PutOut(mem, flat[..n], flat[n..][..k], sent0, sent1);
  }

  /** What came in is the next `n` bytes of the peer, stored at the first `n` addresses of the list
      and nowhere else. */
  ghost predicate Landed(wire: nat -> Byte, flat: seq<int>, n: nat,
                         got0: nat, cells0: Memory, got: nat, cells: Memory) {
    n <= |flat| && got == got0 + n && cells == Landing(cells0, wire, got0, flat[..n])
  }

  lemma LandedNext(wire: nat -> Byte, flat: seq<int>, n: nat, k: nat,
                   got0: nat, cells0: Memory, got1: nat, cells1: Memory, got2: nat, cells2: Memory)
    requires Landed(wire, flat, n, got0, cells0, got1, cells1)
    requires Landed(wire, flat[n..], k, got1, cells1, got2, cells2)
    ensures Landed(wire, flat, n + k, got0, cells0, got2, cells2)
  {
    NextPart(flat, n, k);
    LandingAppend(cells0, wire, got0, flat[..n], flat[n..][..k]);
  }

  /** One system call of a vector loop, against the description of the whole call. */
  lemma VectorStep(op: Op, whole: Run, total: nat, moves: seq<Move>, n: nat, script: seq<Event>)
    requires n <= total && VectorProgress(op, whole, total, moves, n, script, true)
    ensures
      if script == [] || script[0] == Again then
        whole == Run(moves, Range(0, n), Cursor(n, total - n), Rest(script), 0)
      else match script[0]
        case Fail => whole == Run(moves, Range(0, n), Cursor(n, total - n), script[1..], -1)
        case Intr => VectorProgress(op, whole, total, moves, n, script[1..], true)
        case Moved(k) =>
          var m := Min(k, total - n);
          if op.Read? && m == 0 then
            whole == Run(moves, Range(0, n), Cursor(n, total - n), script[1..], -2)
          else
            VectorProgress(op, whole, total, moves + [Move(total - n, m)], n + m, script[1..], n + m < total)
  {
    assert moves + [] == moves && Range(0, n) + [] == Range(0, n);
    if script != [] && script[0].Moved? {
      var m := Min(script[0].count, total - n);
      if !(op.Read? && m == 0) {
        RangeAppend(0, n, m);
        assert [Move(total - n, m)] + [] == [Move(total - n, m)] && Range(n, m) + [] == Range(n, m);
        var next := if n + m < total then VectorCall(op, n + m, total - n - m, script[1..])
                    else Run([], [], Cursor(total, 0), script[1..], 1);
        if n < total {
          assert Advance(ByCount, Cursor(n, total - n), m) == Cursor(n + m, total - n - m);
          assert Call(op, ByCount, Cursor(n, total - n), script)
              == Prepend([Move(total - n, m)], Range(n, m),
                         Call(op, ByCount, Cursor(n + m, total - n - m), script[1..]));
        }
        assert VectorCall(op, n, total - n, script) == Prepend([Move(total - n, m)], Range(n, m), next);
        PrependTwice(moves, Range(0, n), [Move(total - n, m)], Range(n, m), next);
      }
    }
  }

  /** The state of a vector loop: `n` bytes have moved, and the list at `iov'` denotes the others. */
  ghost predicate VectorInv(op: Op, guarded: bool, whole: Run, flat: seq<int>, tail: seq<IoVec>,
                            now: seq<IoVec>, end: nat,
                            iov': nat, iovcnt': int, script: seq<Event>, moves: seq<Move>, n: nat)
    requires end <= |now|
  {
    && ListLeft(guarded, flat, tail, now, end, iov', iovcnt', n)
    && VectorProgress(op, whole, |flat|, moves, n, script, iovcnt' > 0)
  }

  lemma VectorInvMoved(op: Op, guarded: bool, whole: Run, flat: seq<int>, tail: seq<IoVec>,
                       now: seq<IoVec>, now': seq<IoVec>, end: nat, iov': nat, iovcnt': int, iov'': nat, iovcnt'': int,
                       script: seq<Event>, moves: seq<Move>, n: nat, k: nat)
    requires end <= |now| == |now'| && iovcnt' > 0
    requires VectorInv(op, guarded, whole, flat, tail, now, end, iov', iovcnt', script, moves, n)
    requires script != [] && script[0].Moved? && k == Min(script[0].count, |flat| - n)
    requires op.Write? || k > 0
    requires ListUpdated(guarded, now, now', iov', iovcnt', k, iov'', iovcnt'')
    requires k == |flat| - n ==> guarded || Total(tail) > 0
    ensures VectorInv(op, guarded, whole, flat, tail, now', end, iov'', iovcnt'', script[1..],
                      moves + [Move(|flat| - n, k)], n + k)
  {
    NextPart(flat, n, k);
    VectorStep(op, whole, |flat|, moves, n, script);
    assert end < |now| ==> now[end..][0] == now[end] && now'[end..][0] == now'[end];
  }

  /** The loop has run out of entries: all has moved. */
  lemma VectorInvDone(op: Op, guarded: bool, whole: Run, flat: seq<int>, tail: seq<IoVec>, now: seq<IoVec>, end: nat,
                      iov': nat, iovcnt': int, script: seq<Event>, moves: seq<Move>, n: nat)
    requires end <= |now| && iovcnt' <= 0
    requires VectorInv(op, guarded, whole, flat, tail, now, end, iov', iovcnt', script, moves, n)
    ensures VectorOver(guarded, whole, flat, tail, now, end, iov', iovcnt', script, false, 1, n)
  {
  }

  function Rest<T>(s: seq<T>): seq<T> {
    if s == [] then [] else s[1..]
  }

  function Answer(e: Event, size: int): (int, Errno) {
    match e
    case Moved(k) => (Min(k, size), OK)
    case Again => (-1, EAGAIN)
    case Intr => (-1, EINTR)
    case Fail => (-1, EOTHER)
  }

  function PollCode(p: Poll): int {
    match p
    case Ready => 1
    case Timeout => 0
    case PollError => -1
    case PollReset => -2
  }

  class Stream {
    const wire: nat -> Byte     // what the peer sends, in order
    var script: seq<Event>      // the kernel's answers still to come
    var polls: seq<Poll>        // poll's answers still to come
    var sent: seq<Byte>         // everything the kernel has accepted
    var got: nat                // how much of `wire` has been delivered
    ghost var log: seq<Move>    // every move of the non-blocking cursor calls
    ghost var blocked: bool     // the last answer of the kernel was EAGAIN

    constructor (wire: nat -> Byte)
      ensures this.wire == wire && script == [] && polls == [] && sent == [] && got == 0 && log == []
    {
      this.wire := wire;
      script, polls, sent, got, log, blocked := [], [], [], 0, [], false;
    }

    ghost function Received(): seq<Byte>
      reads this`got
    {
      Incoming(wire, 0, got)
    }

    /** One system call: the answer of the kernel to a request for `size` bytes. */
    method SysCall(size: int) returns (count: int, errno: Errno)
      modifies this`script, this`blocked
      ensures script == Rest(old(script))
      ensures (count, errno) == if old(script) == [] then (-1, EAGAIN) else Answer(old(script)[0], size)
      ensures blocked <==> errno == EAGAIN
    {
      blocked := script == [] || script[0] == Again;
      if script == [] {
        return -1, EAGAIN;
      }
      var e := script[0];
      script := script[1..];
      match e
      case Moved(k) => count, errno := Min(k, size), OK;
      case Again => count, errno := -1, EAGAIN;
      case Intr => count, errno := -1, EINTR;
      case Fail => count, errno := -1, EOTHER;
    }

    /** The answer of `SocketUtil::Select`. */
    method Select() returns (events: int)
      modifies this`polls
      ensures polls == Rest(old(polls))
      ensures events == if old(polls) == [] then 0 else PollCode(old(polls)[0])
    {
      if polls == [] {
        return 0;
      }
      var p := polls[0];
      polls := polls[1..];
      match p
      case Ready => events := 1;
      case Timeout => events := 0;
      case PollError => events := -1;
      case PollReset => events := -2;
    }

    /** `Send(void*& data, ssize_t& size)`. */
    method Send(rule: Rule, mem: Memory, data: int, size: int) returns (ret: int, data': int, size': int)
      modifies this`script, this`blocked, this`sent, this`log
      ensures var r := Call(Write, rule, Cursor(data, size), old(script));
        && ret == r.ret && Cursor(data', size') == r.cur && script == r.rest
        && sent == old(sent) + Gather(mem, r.addrs)
        && log == old(log) + r.moves
      ensures ret == 0 ==> blocked
    {
      data', size' := data, size;
      ghost var moves, addrs := [], [];
      EmptyPrepend(Call(Write, rule, Cursor(data, size), script));
      while size' > 0
        invariant OnTheWay(Write, rule, Cursor(data, size), old(script), moves, addrs, Cursor(data', size'), script)
        invariant sent == old(sent) + Gather(mem, addrs)
        invariant log == old(log) + moves
        decreases |script|
      {
        LoopStep(Write, rule, Cursor(data, size), old(script), moves, addrs, Cursor(data', size'), script);
        var wsize, errno := SysCall(size');
        if wsize >= 0 {
          PutOut(mem, addrs, Range(data', wsize), old(sent), sent);
          sent := sent + Gather(mem, Range(data', wsize));
          moves, addrs := moves + [Move(size', wsize)], addrs + Range(data', wsize);
          log := old(log) + moves;
          size' := size' - wsize;
          data' := data' + (if rule.ByRemaining? then size' else wsize);
        } else if errno == EAGAIN {
          return 0, data', size';
        } else if errno != EINTR {
          return -1, data', size';
        }
      }
      LoopStep(Write, rule, Cursor(data, size), old(script), moves, addrs, Cursor(data', size'), script);
      return 1, data', size';
    }

    /** `Recv(void*& data, ssize_t& size)`. */
    method Recv(rule: Rule, ram: Ram, data: int, size: int) returns (ret: int, data': int, size': int)
      modifies this`script, this`blocked, this`got, this`log, ram
      ensures var r := Call(Read, rule, Cursor(data, size), old(script));
        && ret == r.ret && Cursor(data', size') == r.cur && script == r.rest
        && got == old(got) + |r.addrs|
        && ram.cells == Landing(old(ram.cells), wire, old(got), r.addrs)
        && log == old(log) + r.moves
      ensures ret == 0 ==> blocked
    {
      data', size' := data, size;
      ghost var moves, addrs := [], [];
      EmptyPrepend(Call(Read, rule, Cursor(data, size), script));
      while size' > 0
        invariant OnTheWay(Read, rule, Cursor(data, size), old(script), moves, addrs, Cursor(data', size'), script)
        invariant got == old(got) + |addrs|
        invariant ram.cells == Landing(old(ram.cells), wire, old(got), addrs)
        invariant log == old(log) + moves
        decreases |script|
      {
        LoopStep(Read, rule, Cursor(data, size), old(script), moves, addrs, Cursor(data', size'), script);
        var rsize, errno := SysCall(size');
        if rsize > 0 {
          LandingAppend(old(ram.cells), wire, old(got), addrs, Range(data', rsize));
          moves, addrs := moves + [Move(size', rsize)], addrs + Range(data', rsize);
          ram.cells := Landing(ram.cells, wire, got, Range(data', rsize));
          got := got + rsize;
          log := old(log) + moves;
          size' := size' - rsize;
          data' := data' + (if rule.ByRemaining? then size' else rsize);
        } else if rsize == 0 {
          return -2, data', size';
        } else if errno == EAGAIN {
          return 0, data', size';
        } else if errno != EINTR {
          return -1, data', size';
        }
      }
      LoopStep(Read, rule, Cursor(data, size), old(script), moves, addrs, Cursor(data', size'), script);
      return 1, data', size';
    }

    /** `Send(const void* data, ssize_t size, uint32_t timeout_ms)`. */
    method SendTimed(mem: Memory, data: int, size: int) returns (ret: int)
      modifies this`script, this`blocked, this`polls, this`sent
      ensures var t := Timed(Write, Cursor(data, size), old(script), old(polls));
        ret == t.ret && script == t.rest && sent == old(sent) + Gather(mem, t.addrs)
    {
      var data', size' := data, size;
      ghost var moves, addrs := [], [];
      EmptyPrepend(Timed(Write, Cursor(data, size), script, polls));
      while size' > 0
        invariant OnTheTimedWay(Write, Cursor(data, size), old(script), old(polls),
                                moves, addrs, Cursor(data', size'), script, polls)
        invariant sent == old(sent) + Gather(mem, addrs)
        decreases |script| + |polls|
      {
        TimedLoopStep(Write, Cursor(data, size), old(script), old(polls),
                      moves, addrs, Cursor(data', size'), script, polls);
        var wsize, errno := SysCall(size');
        if wsize >= 0 {
          PutOut(mem, addrs, Range(data', wsize), old(sent), sent);
          sent := sent + Gather(mem, Range(data', wsize));
          moves, addrs := moves + [Move(size', wsize)], addrs + Range(data', wsize);
          data' := data' + wsize;
          size' := size' - wsize;
        } else if errno == EAGAIN {
          var events := Select();
          if events <= 0 {
            return events;
          }
        } else if errno != EINTR {
          return -1;
        }
      }
      TimedLoopStep(Write, Cursor(data, size), old(script), old(polls),
                    moves, addrs, Cursor(data', size'), script, polls);
      return 1;
    }

    /** `Recv(void* buf, size_t size, uint32_t timeout_ms)`. */
    method RecvTimed(ram: Ram, buf: int, size: nat) returns (ret: int)
      modifies this`script, this`blocked, this`polls, this`got, ram
      ensures var t := Timed(Read, Cursor(buf, size), old(script), old(polls));
        && ret == t.ret && script == t.rest && got == old(got) + |t.addrs|
        && ram.cells == Landing(old(ram.cells), wire, old(got), t.addrs)
    {
      var buf', size' := buf, size;
      ghost var moves, addrs := [], [];
      EmptyPrepend(Timed(Read, Cursor(buf, size), script, polls));
      while size' > 0
        invariant OnTheTimedWay(Read, Cursor(buf, size), old(script), old(polls),
                                moves, addrs, Cursor(buf', size'), script, polls)
        invariant got == old(got) + |addrs|
        invariant ram.cells == Landing(old(ram.cells), wire, old(got), addrs)
        decreases |script| + |polls|
      {
        TimedLoopStep(Read, Cursor(buf, size), old(script), old(polls),
                      moves, addrs, Cursor(buf', size'), script, polls);
        var rsize, errno := SysCall(size');
        if rsize > 0 {
          LandingAppend(old(ram.cells), wire, old(got), addrs, Range(buf', rsize));
          moves, addrs := moves + [Move(size', rsize)], addrs + Range(buf', rsize);
          ram.cells := Landing(ram.cells, wire, got, Range(buf', rsize));
          got := got + rsize;
          buf' := buf' + rsize;
          size' := size' - rsize;
        } else if rsize == 0 {
          return -2;
        } else if errno == EAGAIN {
          var events := Select();
          if events <= 0 {
            return events;
          }
        } else if errno != EINTR {
          return -1;
        }
      }
      TimedLoopStep(Read, Cursor(buf, size), old(script), old(polls),
                    moves, addrs, Cursor(buf', size'), script, polls);
      return 1;
    }

    /** One `writev` and the `UpdateIov` behind it. */
    method WriteV(guarded: bool, mem: Memory, a: array<IoVec>, iov: nat, iovcnt: int,
                  ghost left: seq<int>, ghost tail: seq<IoVec>, ghost end: nat)
      returns (wsize: int, errno: Errno, stray: bool, iov': nat, iovcnt': int)
      requires iovcnt > 0 && iov + iovcnt <= a.Length
      requires iov + iovcnt == end && Flat(a[..][iov..end]) == left && a[..][end..] == tail
      modifies this`script, this`blocked, this`sent, a
      ensures script == Rest(old(script))
      ensures (wsize, errno) == (if old(script) == [] then (-1, EAGAIN) else Answer(old(script)[0], |left|))
      ensures Emitted(mem, left, if wsize >= 0 then wsize else 0, old(sent), sent)
      ensures if wsize >= 0 then
          && (stray <==> !guarded && wsize == |left| && Total(tail) == 0)
          && (!stray ==> ListUpdated(guarded, old(a[..]), a[..], iov, iovcnt, wsize, iov', iovcnt'))
        else !stray && iov' == iov && iovcnt' == iovcnt && a[..] == old(a[..])
    {
      stray, iov', iovcnt' := false, iov, iovcnt;
      var flat := Flat(a[..][iov..iov + iovcnt]);
      wsize, errno := SysCall(|flat|);
      if wsize >= 0 {
        sent := sent + Gather(mem, flat[..wsize]);
        stray, iov', iovcnt' := UpdateList(guarded, a, iov, iovcnt, wsize);
      }
    }

    /** One round of the loop of `Send(iovec_t*&, int&)`; `done` says that the loop returns. */
    method SendVRound(guarded: bool, mem: Memory, a: array<IoVec>, iov': nat, iovcnt': int, ghost whole: Run,
                      ghost flat: seq<int>, ghost tail: seq<IoVec>, ghost end: nat,
                      ghost moves: seq<Move>, ghost n: nat)
      returns (done: bool, stray: bool, ret: int, iov'': nat, iovcnt'': int, ghost moves': seq<Move>, ghost k: nat)
      requires end <= a.Length && iovcnt' > 0
      requires VectorInv(Write, guarded, whole, flat, tail, a[..], end, iov', iovcnt', script, moves, n)
      modifies this`script, this`blocked, this`sent, a
      ensures Emitted(mem, flat[n..], k, old(sent), sent)
      ensures !done ==> |script| < |old(script)|
      ensures VectorNext(Write, guarded, whole, flat, tail, a[..], end, iov'', iovcnt'', script,
                         moves', n + k, done, stray, ret)
      ensures !done ==> ret == 1
    {
      ghost var now, before := a[..], script;
      var wsize, errno;
      wsize, errno, stray, iov'', iovcnt'' := WriteV(guarded, mem, a, iov', iovcnt', flat[n..], tail, end);
      if wsize >= 0 {
        RoundMoves(Write, guarded, whole, flat, tail, now, a[..], end, iov', iovcnt', iov'', iovcnt'',
                   before, moves, n, wsize, errno, stray);
        moves', k := moves + [Move(|flat| - n, wsize)], wsize;
        done, ret := stray, 1;
      } else {
        RoundStops(Write, guarded, whole, flat, tail, now, end, iov', iovcnt', before, moves, n, wsize, errno);
        moves', k := moves, 0;
        done, ret := errno != EINTR, if errno == EINTR then 1 else StopCode(wsize, errno);
      }
    }

    /** The loop of `Send(iovec_t*&, int&)`, entered with a list. */
    method SendVLoop(guarded: bool, mem: Memory, a: array<IoVec>, iov: nat, iovcnt: int, ghost whole: Run,
                     ghost flat: seq<int>, ghost tail: seq<IoVec>, ghost end: nat)
      returns (stray: bool, ret: int, iov': nat, iovcnt': int, ghost n: nat)
      requires end <= a.Length && iovcnt > 0
      requires VectorInv(Write, guarded, whole, flat, tail, a[..], end, iov, iovcnt, script, [], 0)
      modifies this`script, this`blocked, this`sent, a
      ensures VectorOver(guarded, whole, flat, tail, a[..], end, iov', iovcnt', script, stray, ret, n)
      ensures Emitted(mem, flat, n, old(sent), sent)
    {
      iov', iovcnt', n, stray, ret := iov, iovcnt, 0, false, 1;
      var done := false;
      ghost var moves := [];
      while iovcnt' > 0 && !done
        invariant VectorNext(Write, guarded, whole, flat, tail, a[..], end, iov', iovcnt', script,
                             moves, n, done, stray, ret)
        invariant !done ==> ret == 1
        invariant Emitted(mem, flat, n, old(sent), sent)
        decreases !done, |script|
      {
        ghost var sent1 := sent;
        ghost var k: nat;
        done, stray, ret, iov', iovcnt', moves, k :=
          SendVRound(guarded, mem, a, iov', iovcnt', whole, flat, tail, end, moves, n);
        EmittedNext(mem, flat, n, k, old(sent), sent1, sent);
        n := n + k;
      }
      if !done {
        VectorInvDone(Write, guarded, whole, flat, tail, a[..], end, iov', iovcnt', script, moves, n);
      }
    }

    /** `Send(iovec_t*& iov, int& iovcnt)`, with `UpdateIov` as written or guarded. */
    method SendV(guarded: bool, mem: Memory, a: array<IoVec>, iov: nat, iovcnt: int)
      returns (stray: bool, ret: int, iov': nat, iovcnt': int, ghost n: nat)
      requires iovcnt > 0 ==> iov + iovcnt <= a.Length
      modifies this`script, this`blocked, this`sent, a
      ensures !stray ==> iov' + iovcnt' == iov + iovcnt
      ensures iovcnt <= 0 ==>
        !stray && ret == 1 && iov' == iov && script == old(script) && sent == old(sent) && a[..] == old(a[..])
      ensures iovcnt > 0 ==>
        var flat, tail := Flat(old(a[..])[iov..iov + iovcnt]), old(a[..])[iov + iovcnt..];
        var r := VectorCall(Write, 0, |flat|, old(script));
        VectorOver(guarded, r, flat, tail, a[..], iov + iovcnt, iov', iovcnt', script, stray, ret, n)
      ensures iovcnt > 0 ==>
        Emitted(mem, Flat(old(a[..])[iov..iov + iovcnt]), n, old(sent), sent)
      ensures iovcnt > 0 ==>
        EntriesSent(mem, old(a[..])[iov..iov + iovcnt], n, old(sent), sent)
    {
      stray, iov', iovcnt', n := false, iov, iovcnt, 0;
      if iovcnt' <= 0 {
        return false, 1, iov', iovcnt', n;
      }
      ghost var list := a[..][iov..iov + iovcnt];
      ghost var flat, tail := Flat(list), a[..][iov + iovcnt..];
      ghost var whole := VectorCall(Write, 0, |flat|, script);
      EmptyPrepend(whole);
      stray, ret, iov', iovcnt', n := SendVLoop(guarded, mem, a, iov, iovcnt, whole, flat, tail, iov + iovcnt);
      SentByEntry(mem, list, n, old(sent), sent);
    }

    /** One `readv` and the `UpdateIov` behind it. */
    method ReadV(guarded: bool, ram: Ram, a: array<IoVec>, iov: nat, iovcnt: int,
                  ghost left: seq<int>, ghost tail: seq<IoVec>, ghost end: nat)
      returns (rsize: int, errno: Errno, stray: bool, iov': nat, iovcnt': int)
      requires iovcnt > 0 && iov + iovcnt <= a.Length
      requires iov + iovcnt == end && Flat(a[..][iov..end]) == left && a[..][end..] == tail
      modifies this`script, this`blocked, this`got, ram, a
      ensures script == Rest(old(script))
      ensures (rsize, errno) == (if old(script) == [] then (-1, EAGAIN) else Answer(old(script)[0], |left|))
      ensures Landed(wire, left, if rsize > 0 then rsize else 0, old(got), old(ram.cells), got, ram.cells)
      ensures if rsize > 0 then
          && (stray <==> !guarded && rsize == |left| && Total(tail) == 0)
          && (!stray ==> ListUpdated(guarded, old(a[..]), a[..], iov, iovcnt, rsize, iov', iovcnt'))
        else !stray && iov' == iov && iovcnt' == iovcnt && a[..] == old(a[..])
    {
      stray, iov', iovcnt' := false, iov, iovcnt;
      var flat := Flat(a[..][iov..iov + iovcnt]);
      rsize, errno := SysCall(|flat|);
      if rsize > 0 {
        ram.cells := Landing(ram.cells, wire, got, flat[..rsize]);
        got := got + rsize;
        stray, iov', iovcnt' := UpdateList(guarded, a, iov, iovcnt, rsize);
      }
    }

    /** One round of the loop of `Recv(iovec_t*&, int&)`; `done` says that the loop returns. */
    method RecvVRound(guarded: bool, ram: Ram, a: array<IoVec>, iov': nat, iovcnt': int, ghost whole: Run,
                      ghost flat: seq<int>, ghost tail: seq<IoVec>, ghost end: nat,
                      ghost moves: seq<Move>, ghost n: nat)
      returns (done: bool, stray: bool, ret: int, iov'': nat, iovcnt'': int, ghost moves': seq<Move>, ghost k: nat)
      requires end <= a.Length && iovcnt' > 0
      requires VectorInv(Read, guarded, whole, flat, tail, a[..], end, iov', iovcnt', script, moves, n)
      modifies this`script, this`blocked, this`got, ram, a
      ensures Landed(wire, flat[n..], k, old(got), old(ram.cells), got, ram.cells)
      ensures !done ==> |script| < |old(script)|
      ensures VectorNext(Read, guarded, whole, flat, tail, a[..], end, iov'', iovcnt'', script,
                         moves', n + k, done, stray, ret)
      ensures !done ==> ret == 1
    {
      ghost var now, before := a[..], script;
      var rsize, errno;
      rsize, errno, stray, iov'', iovcnt'' := ReadV(guarded, ram, a, iov', iovcnt', flat[n..], tail, end);
      if rsize > 0 {
        RoundMoves(Read, guarded, whole, flat, tail, now, a[..], end, iov', iovcnt', iov'', iovcnt'',
                   before, moves, n, rsize, errno, stray);
        moves', k := moves + [Move(|flat| - n, rsize)], rsize;
        done, ret := stray, 1;
      } else {
        RoundStops(Read, guarded, whole, flat, tail, now, end, iov', iovcnt', before, moves, n, rsize, errno);
        moves', k := moves, 0;
        done, ret := errno != EINTR, if errno == EINTR then 1 else StopCode(rsize, errno);
      }
    }

    /** The loop of `Recv(iovec_t*&, int&)`, entered with a list. */
    method RecvVLoop(guarded: bool, ram: Ram, a: array<IoVec>, iov: nat, iovcnt: int, ghost whole: Run,
                     ghost flat: seq<int>, ghost tail: seq<IoVec>, ghost end: nat)
      returns (stray: bool, ret: int, iov': nat, iovcnt': int, ghost n: nat)
      requires end <= a.Length && iovcnt > 0
      requires VectorInv(Read, guarded, whole, flat, tail, a[..], end, iov, iovcnt, script, [], 0)
      modifies this`script, this`blocked, this`got, ram, a
      ensures VectorOver(guarded, whole, flat, tail, a[..], end, iov', iovcnt', script, stray, ret, n)
      ensures Landed(wire, flat, n, old(got), old(ram.cells), got, ram.cells)
    {
      iov', iovcnt', n, stray, ret := iov, iovcnt, 0, false, 1;
      var done := false;
      ghost var moves := [];
      while iovcnt' > 0 && !done
        invariant VectorNext(Read, guarded, whole, flat, tail, a[..], end, iov', iovcnt', script,
                             moves, n, done, stray, ret)
        invariant !done ==> ret == 1
        invariant Landed(wire, flat, n, old(got), old(ram.cells), got, ram.cells)
        decreases !done, |script|
      {
        ghost var got1, cells1 := got, ram.cells;
        ghost var k: nat;
        done, stray, ret, iov', iovcnt', moves, k :=
          RecvVRound(guarded, ram, a, iov', iovcnt', whole, flat, tail, end, moves, n);
        LandedNext(wire, flat, n, k, old(got), old(ram.cells), got1, cells1, got, ram.cells);
        n := n + k;
      }
      if !done {
        VectorInvDone(Read, guarded, whole, flat, tail, a[..], end, iov', iovcnt', script, moves, n);
      }
    }

    /** `Recv(iovec_t*& iov, int& iovcnt)`, with `UpdateIov` as written or guarded. */
    method RecvV(guarded: bool, ram: Ram, a: array<IoVec>, iov: nat, iovcnt: int)
      returns (stray: bool, ret: int, iov': nat, iovcnt': int, ghost n: nat)
      requires iovcnt > 0 ==> iov + iovcnt <= a.Length
      modifies this`script, this`blocked, this`got, ram, a
      ensures !stray ==> iov' + iovcnt' == iov + iovcnt
      ensures iovcnt <= 0 ==>
        !stray && ret == 1 && iov' == iov && script == old(script) && got == old(got)
        && ram.cells == old(ram.cells) && a[..] == old(a[..])
      ensures iovcnt > 0 ==>
        var flat, tail := Flat(old(a[..])[iov..iov + iovcnt]), old(a[..])[iov + iovcnt..];
        var r := VectorCall(Read, 0, |flat|, old(script));
        VectorOver(guarded, r, flat, tail, a[..], iov + iovcnt, iov', iovcnt', script, stray, ret, n)
      ensures iovcnt > 0 ==>
        Landed(wire, Flat(old(a[..])[iov..iov + iovcnt]), n, old(got), old(ram.cells), got, ram.cells)
      ensures iovcnt > 0 ==>
        var list := old(a[..])[iov..iov + iovcnt];
        && got == old(got) + n
        && (Separate(list) ==> EntriesFilled(wire, list, n, old(got), ram.cells))
        && NothingElse(list, old(ram.cells), ram.cells)
    {
      stray, iov', iovcnt', n := false, iov, iovcnt, 0;
      if iovcnt' <= 0 {
        return false, 1, iov', iovcnt', n;
      }
      ghost var list := a[..][iov..iov + iovcnt];
      ghost var flat, tail := Flat(list), a[..][iov + iovcnt..];
      ghost var whole := VectorCall(Read, 0, |flat|, script);
      EmptyPrepend(whole);
      stray, ret, iov', iovcnt', n := RecvVLoop(guarded, ram, a, iov, iovcnt, whole, flat, tail, iov + iovcnt);
      if Separate(list) {
        FilledByEntry(wire, list, n, old(got), old(ram.cells), got, ram.cells);
      }
      NothingElseFilled(wire, list, n, old(got), old(ram.cells), got, ram.cells);
    }
  }

  /** What went out, entry by entry: byte i of entry j is the one at its base plus i. */
  ghost predicate EntriesSent(mem: Memory, list: seq<IoVec>, n: nat, sent0: seq<Byte>, sent: seq<Byte>) {
    && |sent| == |sent0| + n && sent[..|sent0|] == sent0
    && forall j, i | 0 <= j < |list| && 0 <= i < list[j].len && Position(list, j, i) < n ::
         sent[|sent0| + Position(list, j, i)] == At(mem, list[j].base + i)
  }

  lemma SentAt(mem: Memory, flat: seq<int>, n: nat, sent0: seq<Byte>, sent: seq<Byte>, p: nat, a: int)
    requires Emitted(mem, flat, n, sent0, sent) && p < n && flat[p] == a
    ensures sent[|sent0| + p] == At(mem, a)
  {
    assert Gather(mem, flat[..n])[p] == At(mem, a);
  }

  lemma SentByEntry(mem: Memory, list: seq<IoVec>, n: nat, sent0: seq<Byte>, sent: seq<Byte>)
    requires Emitted(mem, Flat(list), n, sent0, sent)
    ensures EntriesSent(mem, list, n, sent0, sent)
  {
    forall j, i | 0 <= j < |list| && 0 <= i < list[j].len && Position(list, j, i) < n
      ensures sent[|sent0| + Position(list, j, i)] == At(mem, list[j].base + i)
    {
      FlatAt(list, j, i);
      SentAt(mem, Flat(list), n, sent0, sent, Position(list, j, i), list[j].base + i);
    }
  }

  /** What came in, entry by entry, if no two entries share an address. */
  ghost predicate EntriesFilled(wire: nat -> Byte, list: seq<IoVec>, n: nat, got0: nat, cells: Memory) {
    forall j, i | 0 <= j < |list| && 0 <= i < list[j].len && Position(list, j, i) < n ::
      At(cells, list[j].base + i) == wire(got0 + Position(list, j, i))
  }

  /** Nothing outside the entries has changed. */
  ghost predicate NothingElse(list: seq<IoVec>, cells0: Memory, cells: Memory) {
    forall a | (forall j | 0 <= j < |list| :: !Covers(list[j], a)) :: At(cells, a) == At(cells0, a)
  }

  lemma FilledAt(wire: nat -> Byte, flat: seq<int>, n: nat, got0: nat, cells0: Memory, got: nat, cells: Memory,
                 p: nat, a: int)
    requires Landed(wire, flat, n, got0, cells0, got, cells) && Distinct(flat) && p < n && flat[p] == a
    ensures At(cells, a) == wire(got0 + p)
  {
    ScatterThenGather(cells0, flat[..n], Incoming(wire, got0, n));
    assert Gather(cells, flat[..n])[p] == Incoming(wire, got0, n)[p];
  }

  lemma FilledByEntry(wire: nat -> Byte, list: seq<IoVec>, n: nat,
                      got0: nat, cells0: Memory, got: nat, cells: Memory)
    requires Landed(wire, Flat(list), n, got0, cells0, got, cells) && Separate(list)
    ensures EntriesFilled(wire, list, n, got0, cells)
  {
    SeparateIsDistinct(list);
    forall j, i | 0 <= j < |list| && 0 <= i < list[j].len && Position(list, j, i) < n
      ensures At(cells, list[j].base + i) == wire(got0 + Position(list, j, i))
    {
      FlatAt(list, j, i);
      FilledAt(wire, Flat(list), n, got0, cells0, got, cells, Position(list, j, i), list[j].base + i);
    }
  }

  lemma NothingElseFilled(wire: nat -> Byte, list: seq<IoVec>, n: nat,
                          got0: nat, cells0: Memory, got: nat, cells: Memory)
    requires Landed(wire, Flat(list), n, got0, cells0, got, cells)
    ensures NothingElse(list, cells0, cells)
  {
    var addrs := Flat(list)[..n];
    forall a | (forall j | 0 <= j < |list| :: !Covers(list[j], a)) ensures At(cells, a) == At(cells0, a) {
      if a in addrs {
        var p :| 0 <= p < n && addrs[p] == a;
        var j, i := FlatFrom(list, p);
        assert Covers(list[j], a);
      } else {
        ScatterFrame(cells0, addrs, Incoming(wire, got0, n), a);
      }
    }
  }

  /** What a non-blocking send puts out when its moves are good: the buffer's bytes, from its start. */
  lemma SendDelivers(rule: Rule, c: Cursor, script: seq<Event>, mem: Memory)
    requires AllGood(rule, Call(Write, rule, c, script).moves)
    ensures var out := Gather(mem, Call(Write, rule, c, script).addrs);
      forall i | 0 <= i < |out| :: out[i] == At(mem, c.data + i)
  {
    GoodMovesInPlace(Write, rule, c, script);
  }

  /** Where a non-blocking receive puts the peer's next bytes when its moves are good: into the buffer, from
      its start, and nothing outside the buffer changes. */
  lemma RecvDelivers(rule: Rule, c: Cursor, script: seq<Event>, wire: nat -> Byte, got: nat, cells: Memory)
    requires AllGood(rule, Call(Read, rule, c, script).moves)
    ensures var n := |Call(Read, rule, c, script).addrs|;
      var cells' := Landing(cells, wire, got, Call(Read, rule, c, script).addrs);
      forall a :: At(cells', a) == if c.data <= a < c.data + n then wire(got + (a - c.data)) else At(cells, a)
  {
    GoodMovesInPlace(Read, rule, c, script);
    var addrs := Call(Read, rule, c, script).addrs;
    var n := |addrs|;
    forall a
      ensures At(Landing(cells, wire, got, addrs), a)
           == if c.data <= a < c.data + n then wire(got + (a - c.data)) else At(cells, a)
    {
      LandedAt(cells, wire, got, c.data, n, a);
    }
  }

  lemma LandedAt(cells: Memory, wire: nat -> Byte, got: nat, base: int, n: nat, a: int)
    ensures At(Landing(cells, wire, got, Range(base, n)), a)
         == if base <= a < base + n then wire(got + (a - base)) else At(cells, a)
  {
    var addrs, news := Range(base, n), Incoming(wire, got, n);
    if base <= a < base + n {
      ScatterThenGather(cells, addrs, news);
      assert Gather(Scatter(cells, addrs, news), addrs)[a - base] == news[a - base];
    } else {
      ScatterFrame(cells, addrs, news, a);
    }
  }

  /** What a vector call promises, for both directions and every script: it moves an initial part of
      what the list denotes; it returns 1 only when all of it has moved; a non-empty list is handed
      back as a proper remainder otherwise; and only a read can report -2. */
  lemma VectorCallShape(op: Op, total: nat, script: seq<Event>)
    ensures var r := VectorCall(op, 0, total, script);
      && r.addrs == Range(0, |r.addrs|) && |r.addrs| <= total
      && (r.ret == 1 ==> |r.addrs| == total)
      && (total > 0 && r.ret != 1 ==> |r.addrs| < total)
      && r.ret in {-2, -1, 0, 1} && (op.Write? ==> r.ret != -2)
  {
    if total > 0 {
      CallShape(op, ByCount, Cursor(0, total), script);
      GoodMovesInPlace(op, ByCount, Cursor(0, total), script);
    } else {
      EmptyVectorCall(op, 0, script);
    }
  }

  /** Whatever the kernel answers, an unguarded vector call on a list of `total` bytes, followed in memory by
      `tail`, stays in memory; `VectorOver` says when a single call does. */
  ghost predicate StaysInMemory(op: Op, total: nat, tail: seq<IoVec>) {
    forall script :: !(VectorCall(op, 0, total, script).ret == 1 && Total(tail) == 0)
  }

  /** Exactly when: if a non-empty entry follows the list, or the call reads into a list of no bytes, which
      can only be told that the stream has ended. */
  lemma StaysInMemoryExact(op: Op, total: nat, tail: seq<IoVec>)
    ensures StaysInMemory(op, total, tail) <==> Total(tail) > 0 || (op.Read? && total == 0)
  {
    if Total(tail) == 0 {
      if op.Read? && total == 0 {
        forall script ensures VectorCall(op, 0, total, script).ret != 1 {
          EmptyReadNeverDone(script);
        }
      } else {
        var script := WholeListCanGo(op, total);
        assert VectorCall(op, 0, total, script).ret == 1;
      }
    }
  }

  /** A list can move whole at once. */
  lemma WholeListCanGo(op: Op, total: nat) returns (script: seq<Event>)
    requires op.Write? || total > 0
    ensures VectorCall(op, 0, total, script).ret == 1
  {
    script := [Moved(total)];
    if total > 0 {
      assert Call(op, ByCount, Advance(ByCount, Cursor(0, total), total), script[1..]).ret == 1;
    }
  }

  lemma {:induction false} EmptyReadNeverDone(script: seq<Event>)
    ensures VectorCall(Read, 0, 0, script).ret != 1
    decreases |script|
  {
    if script != [] && script[0] == Intr {
      EmptyReadNeverDone(script[1..]);
    }
  }

  lemma {:induction false} EmptyVectorCall(op: Op, from: nat, script: seq<Event>)
    ensures var r := VectorCall(op, from, 0, script);
      r.addrs == [] && r.ret in {-2, -1, 0, 1} && (op.Write? ==> r.ret != -2)
    decreases |script|
  {
    if script != [] && script[0] == Intr {
      EmptyVectorCall(op, from, script[1..]);
    }
  }

  /** A received list of separate buffers: the buffers hold the peer's next bytes consecutively, and
      no other address has changed. */
  lemma LandedInBuffers(wire: nat -> Byte, flat: seq<int>, n: nat,
                        got0: nat, cells0: Memory, got: nat, cells: Memory)
    requires Landed(wire, flat, n, got0, cells0, got, cells) && Distinct(flat)
    ensures Gather(cells, flat[..n]) == Incoming(wire, got0, n)
    ensures forall a | a !in flat[..n] :: At(cells, a) == At(cells0, a)
  {
    ScatterThenGather(cells0, flat[..n], Incoming(wire, got0, n));
    forall a | a !in flat[..n] ensures At(cells, a) == At(cells0, a) {
      ScatterFrame(cells0, flat[..n], Incoming(wire, got0, n), a);
    }
  }
}
