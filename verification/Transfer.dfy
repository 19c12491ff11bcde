/** What the loops of `Stream::Send` and `Stream::Recv` do to the caller's (data, size) pair.

The non-blocking loops compute the new pointer from `size` after `size` has been lowered
(`ByRemaining`); the timed loops advance by the count that moved (`ByCount`).  Both rules are
kept, and the first main result says exactly when the two agree.
*/
module Transfer {
  import opened Kernel

  datatype Rule = ByRemaining | ByCount

  datatype Cursor = Cursor(data: int, size: int)

  /** One system call that moved bytes: the size asked for and the count that moved. */
  datatype Move = Move(asked: int, moved: int)

  /** The outcome of a call: its moves, the address of every byte moved, the cursor handed back,
      the script left over and the return code. */
  datatype Run = Run(moves: seq<Move>, addrs: seq<int>, cur: Cursor, rest: seq<Event>, ret: int)

  function Advance(rule: Rule, c: Cursor, n: int): Cursor {
    var size := c.size - n;
    Cursor(c.data + (if rule.ByRemaining? then size else n), size)
  }

  function Prepend(moves: seq<Move>, addrs: seq<int>, r: Run): Run {
    r.(moves := moves + r.moves, addrs := addrs + r.addrs)
  }

  /** One non-blocking call: stop when all moved, or at EAGAIN, end of stream or error. */
  function Call(op: Op, rule: Rule, c: Cursor, script: seq<Event>): Run
    decreases |script|
  {
    if c.size <= 0 then Run([], [], c, script, 1)
    else if script == [] then Run([], [], c, [], 0)
    else match script[0]
      case Again => Run([], [], c, script[1..], 0)
      case Fail => Run([], [], c, script[1..], -1)
      case Intr => Call(op, rule, c, script[1..])
      case Moved(k) =>
        var n := Min(k, c.size);
        if op.Read? && n == 0 then Run([], [], c, script[1..], -2)
        else Prepend([Move(c.size, n)], Range(c.data, n), Call(op, rule, Advance(rule, c, n), script[1..]))
  }

  /** Repeated calls, each with the cursor the one before handed back. */
  function Resumed(op: Op, rule: Rule, c: Cursor, script: seq<Event>): Run
    decreases |script|
  {
    var r := Call(op, rule, c, script);
    if r.ret != 0 || r.rest == [] then r
    else
      CallShape(op, rule, c, script);
      Prepend(r.moves, r.addrs, Resumed(op, rule, r.cur, r.rest))
  }

  /** One timed call: EAGAIN waits in poll, and poll's failures are handed through. */
  function Timed(op: Op, c: Cursor, script: seq<Event>, polls: seq<Poll>): Run
    decreases |script| + |polls|
  {
    if c.size <= 0 then Run([], [], c, script, 1)
    else if script == [] || script[0].Again? then
      var rest := if script == [] then [] else script[1..];
      if polls == [] then Run([], [], c, rest, 0)
      else match polls[0]
        case Ready => Timed(op, c, rest, polls[1..])
        case Timeout => Run([], [], c, rest, 0)
        case PollError => Run([], [], c, rest, -1)
        case PollReset => Run([], [], c, rest, -2)
    else match script[0]
      case Fail => Run([], [], c, script[1..], -1)
      case Intr => Timed(op, c, script[1..], polls)
      case Moved(k) =>
        var n := Min(k, c.size);
        if op.Read? && n == 0 then Run([], [], c, script[1..], -2)
        else Prepend([Move(c.size, n)], Range(c.data, n), Timed(op, Advance(ByCount, c, n), script[1..], polls))
  }

  // ---------------------------------------------------------------- when the cursor is right

  /** The bytes moved are the next ones of the buffer, and the cursor denotes the ones left. */
  ghost predicate InPlace(c: Cursor, r: Run) {
    && r.addrs == Range(c.data, |r.addrs|)
    && (r.cur.size > 0 ==> r.cur.data == c.data + |r.addrs|)
  }

  /** The code as written survives a move of everything asked for or of exactly half of it. */
  predicate GoodMove(rule: Rule, m: Move) {
    rule.ByCount? || m.moved == m.asked || 2 * m.moved == m.asked
  }

  predicate AllGood(rule: Rule, moves: seq<Move>) {
    forall i | 0 <= i < |moves| :: GoodMove(rule, moves[i])
  }

  lemma AllGoodAppend(rule: Rule, a: seq<Move>, b: seq<Move>)
    ensures AllGood(rule, a + b) <==> AllGood(rule, a) && AllGood(rule, b)
  {
    if AllGood(rule, a + b) {
      assert forall i | 0 <= i < |a| :: a[i] == (a + b)[i];
      assert forall i | 0 <= i < |b| :: b[i] == (a + b)[|a| + i];
    }
  }

  /** `write` on a stream socket never answers 0 when asked for more. */
  predicate NoZero(script: seq<Event>) {
    forall i | 0 <= i < |script| :: script[i] != Moved(0)
  }

  /** The return code of a call is 1 exactly when everything moved; every move lies within what was asked,
      and the size handed back is what is left. */
  lemma {:induction false} CallShape(op: Op, rule: Rule, c: Cursor, script: seq<Event>)
    ensures var r := Call(op, rule, c, script);
      && r.cur.size == c.size - |r.addrs|
      && (r.ret == 1 <==> r.cur.size <= 0)
      && (c.size >= 0 ==> r.cur.size >= 0)
      && r.ret in {-2, -1, 0, 1} && (op.Write? ==> r.ret != -2)
      && |r.rest| <= |script|
      && (c.size > 0 && script != [] ==> |r.rest| < |script|)
    decreases |script|
  {
    if c.size > 0 && script != [] {
      match script[0]
      case Again =>
      case Fail =>
      case Intr => CallShape(op, rule, c, script[1..]);
      case Moved(k) =>
        CallShape(op, rule, Advance(rule, c, Min(k, c.size)), script[1..]);
    }
  }

  /** A call takes its answers from the front of the script, and returns 0 only at an EAGAIN or at the end
      of the script. */
  lemma {:induction false} CallRest(op: Op, rule: Rule, c: Cursor, script: seq<Event>)
    ensures var r := Call(op, rule, c, script);
      && |r.rest| <= |script| && r.rest == script[|script| - |r.rest|..]
      && (r.ret == 0 ==> r.rest == [] || (|r.rest| < |script| && script[|script| - |r.rest| - 1] == Again))
    decreases |script|
  {
    if c.size > 0 && script != [] {
      match script[0]
      case Again =>
      case Fail =>
      case Intr => CallRest(op, rule, c, script[1..]);
      case Moved(k) => CallRest(op, rule, Advance(rule, c, Min(k, c.size)), script[1..]);
    }
  }

  /** The answers a call has used up. */
  function Used(script: seq<Event>, rest: seq<Event>): seq<Event> {
    if |rest| <= |script| then script[..|script| - |rest|] else []
  }

  /** How many bytes the kernel was ready to move. */
  function Offered(script: seq<Event>): nat {
    if script == [] then 0 else (if script[0].Moved? then script[0].count else 0) + Offered(script[1..])
  }

  /** One of the answers puts an end to the connection: an error, or nothing for a read. */
  predicate Ends(op: Op, used: seq<Event>) {
    Fail in used || (op.Read? && Moved(0) in used)
  }

  lemma EndsAppend(op: Op, a: seq<Event>, b: seq<Event>)
    ensures Ends(op, a + b) <==> Ends(op, a) || Ends(op, b)
  {
  }

  /** A call ends with a negative code if and only if one of its answers put an end to the connection. */
  lemma CallBreaks(op: Op, rule: Rule, c: Cursor, script: seq<Event>) returns (used: seq<Event>)
    requires c.size >= 0
    ensures script == used + Call(op, rule, c, script).rest
    ensures Call(op, rule, c, script).ret < 0 <==> Ends(op, used)
  {
    CallRest(op, rule, c, script);
    CallEnds(op, rule, c, script);
    CallShape(op, rule, c, script);
    used := Used(script, Call(op, rule, c, script).rest);
  }

  lemma UsedFirst(script: seq<Event>, rest: seq<Event>)
    requires script != [] && |rest| < |script|
    ensures Used(script, rest) == [script[0]] + Used(script[1..], rest)
  {
  }

  lemma OfferedFirst(e: Event, script: seq<Event>)
    ensures Offered([e] + script) == (if e.Moved? then e.count else 0) + Offered(script)
  {
    assert ([e] + script)[1..] == script;
  }

  /** Exactly why a call ends: it returns -1 if and only if it was answered with an error and -2 if and only
      if a read was answered with nothing; and it moves what the kernel was ready to move, up to all that
      was asked for. */
  lemma {:induction false} CallEnds(op: Op, rule: Rule, c: Cursor, script: seq<Event>)
    requires c.size >= 0
    ensures var r := Call(op, rule, c, script);
      var used := Used(script, r.rest);
      && (r.ret == -1 <==> Fail in used)
      && (r.ret == -2 <==> op.Read? && Moved(0) in used)
      && |r.addrs| == Min(c.size, Offered(used))
    decreases |script|
  {
    if c.size > 0 && script != [] {
      CallRest(op, rule, c, script);
      var r := Call(op, rule, c, script);
      var c' := if script[0].Moved? then Advance(rule, c, Min(script[0].count, c.size)) else c;
      if script[0].Again? || script[0].Fail? || (op.Read? && script[0] == Moved(0)) {
        assert Used(script, r.rest) == [script[0]];
        OfferedFirst(script[0], []);
        assert [script[0]] + [] == [script[0]];
      } else {
        CallEnds(op, rule, c', script[1..]);
        CallRest(op, rule, c', script[1..]);
        UsedFirst(script, r.rest);
        OfferedFirst(script[0], Used(script[1..], r.rest));
      }
    }
  }

  /** Good moves keep the cursor right, whatever the kernel does in between. */
  lemma {:induction false} GoodMovesInPlace(op: Op, rule: Rule, c: Cursor, script: seq<Event>)
    requires AllGood(rule, Call(op, rule, c, script).moves)
    ensures InPlace(c, Call(op, rule, c, script))
    decreases |script|
  {
    if c.size > 0 && script != [] {
      match script[0]
      case Again =>
      case Fail =>
      case Intr => GoodMovesInPlace(op, rule, c, script[1..]);
      case Moved(k) =>
        var n := Min(k, c.size);
        if !(op.Read? && n == 0) {
          var next := Call(op, rule, Advance(rule, c, n), script[1..]);
          AllGoodAppend(rule, [Move(c.size, n)], next.moves);
          assert GoodMove(rule, [Move(c.size, n)][0]);
          GoodMovesInPlace(op, rule, Advance(rule, c, n), script[1..]);
          if n < c.size {
            RangeAppend(c.data, n, |next.addrs|);
          } else {
            assert next.addrs == [];
            assert Range(c.data, n) + [] == Range(c.data, n);
          }
        }
    }
  }

  /** Exactly when the code is right: for every script, a call reads or writes the next bytes in
      order and hands back the right cursor if and only if each of its moves takes everything
      asked for or exactly half of it. */
  lemma {:induction false} CursorExact(op: Op, rule: Rule, c: Cursor, script: seq<Event>)
    requires op.Read? || NoZero(script)
    ensures InPlace(c, Call(op, rule, c, script)) <==> AllGood(rule, Call(op, rule, c, script).moves)
    decreases |script|
  {
    var r := Call(op, rule, c, script);
    if AllGood(rule, r.moves) {
      GoodMovesInPlace(op, rule, c, script);
    } else if c.size > 0 && script != [] {
      match script[0]
      case Again =>
      case Fail =>
      case Intr => CursorExact(op, rule, c, script[1..]);
      case Moved(k) =>
        var n := Min(k, c.size);
        if !(op.Read? && n == 0) {
          var c' := Advance(rule, c, n);
          var next := Call(op, rule, c', script[1..]);
          CursorExact(op, rule, c', script[1..]);
          CallShape(op, rule, c', script[1..]);
          if InPlace(c, r) {
            FirstMoveRight(op, rule, c, script, n);
            AllGoodAppend(rule, [Move(c.size, n)], next.moves);
            assert false;
          }
        }
    }
  }

  /** If a call is in place then so is its first move, and what follows is in place as well. */
  lemma FirstMoveRight(op: Op, rule: Rule, c: Cursor, script: seq<Event>, n: int)
    requires c.size > 0 && script != [] && script[0].Moved? && n == Min(script[0].count, c.size) && n > 0
    requires op.Read? || NoZero(script)
    requires InPlace(c, Call(op, rule, c, script))
    ensures GoodMove(rule, Move(c.size, n))
    ensures InPlace(Advance(rule, c, n), Call(op, rule, Advance(rule, c, n), script[1..]))
  {
    var c' := Advance(rule, c, n);
    var next := Call(op, rule, c', script[1..]);
    var r := Call(op, rule, c, script);
    assert r == Prepend([Move(c.size, n)], Range(c.data, n), next);
    CallShape(op, rule, c', script[1..]);
    if n < c.size {
      if next.addrs == [] {
        assert next.cur == c' by { NoMoveNoChange(op, rule, c', script[1..]); }
      } else {
        assert r.addrs[n] == next.addrs[0] == c.data + n;
        FirstAddress(op, rule, c', script[1..]);
      }
      assert c'.data == c.data + n;
      forall i | 0 <= i < |next.addrs| ensures next.addrs[i] == c'.data + i {
        assert r.addrs[n + i] == next.addrs[i];
      }
      assert next.addrs == Range(c'.data, |next.addrs|);
    }
  }

  lemma {:induction false} NoMoveNoChange(op: Op, rule: Rule, c: Cursor, script: seq<Event>)
    requires op.Read? || NoZero(script)
    requires Call(op, rule, c, script).addrs == []
    ensures Call(op, rule, c, script).cur == c
    decreases |script|
  {
    if c.size > 0 && script != [] {
      match script[0]
      case Again =>
      case Fail =>
      case Intr => NoMoveNoChange(op, rule, c, script[1..]);
      case Moved(k) =>
    }
  }

  lemma {:induction false} FirstAddress(op: Op, rule: Rule, c: Cursor, script: seq<Event>)
    requires op.Read? || NoZero(script)
    requires Call(op, rule, c, script).addrs != []
    ensures Call(op, rule, c, script).addrs[0] == c.data
    decreases |script|
  {
    match script[0]
    case Intr => FirstAddress(op, rule, c, script[1..]);
    case Moved(k) =>
  }

  /** The code as written is safe for every kernel exactly when at most two bytes are asked for. */
  lemma SafeSizes(op: Op, c: Cursor)
    ensures (forall script | NoZero(script) :: InPlace(c, Call(op, ByRemaining, c, script))) <==> c.size <= 2
  {
    if c.size <= 2 {
      forall script | NoZero(script) ensures InPlace(c, Call(op, ByRemaining, c, script)) {
        SmallMovesGood(op, c, script);
        GoodMovesInPlace(op, ByRemaining, c, script);
      }
    } else {
      var script := [Moved(1)];
      var r := Call(op, ByRemaining, c, script);
      assert r.moves == [Move(c.size, 1)] by {
        assert Call(op, ByRemaining, Advance(ByRemaining, c, 1), script[1..]).moves == [];
      }
      CursorExact(op, ByRemaining, c, script);
      assert NoZero(script);
    }
  }

  lemma {:induction false} SmallMovesGood(op: Op, c: Cursor, script: seq<Event>)
    requires c.size <= 2 && NoZero(script)
    ensures AllGood(ByRemaining, Call(op, ByRemaining, c, script).moves)
    decreases |script|
  {
    if c.size > 0 && script != [] {
      match script[0]
      case Again =>
      case Fail =>
      case Intr => SmallMovesGood(op, c, script[1..]);
      case Moved(k) =>
        SmallMovesGood(op, Advance(ByRemaining, c, Min(k, c.size)), script[1..]);
    }
  }

  /** A failing input: four bytes that move as one and then three land at offsets 0, 3, 4 and 5. */
  lemma WrittenRuleStrays(op: Op, data: int)
    ensures Call(op, ByRemaining, Cursor(data, 4), [Moved(1), Moved(3)]).addrs
         == [data, data + 3, data + 4, data + 5]
    ensures Call(op, ByCount, Cursor(data, 4), [Moved(1), Moved(3)]).addrs
         == [data, data + 1, data + 2, data + 3]
  {
    var script := [Moved(1), Moved(3)];
    assert script[1..] == [Moved(3)];
    forall rule: Rule
      ensures Call(op, rule, Cursor(data, 4), script).addrs
           == Range(data, 1) + Range(Advance(rule, Cursor(data, 4), 1).data, 3)
    {
      var c := Advance(rule, Cursor(data, 4), 1);
      assert Call(op, rule, Advance(rule, c, 3), [Moved(3)][1..]).addrs == [];
      assert Call(op, rule, c, [Moved(3)]).addrs == Range(c.data, 3) + [];
    }
  }

  // ---------------------------------------------------------------- resumption

  function WithoutAgain(script: seq<Event>): seq<Event> {
    if script == [] then []
    else (if script[0].Again? then [] else [script[0]]) + WithoutAgain(script[1..])
  }

  /** A call that stops at EAGAIN and is entered again with the cursor it handed back behaves as
      one call for which the kernel never said EAGAIN. */
  lemma {:induction false} AgainIsInvisible(op: Op, rule: Rule, c: Cursor, script: seq<Event>)
    ensures var r := Call(op, rule, c, script);
      Call(op, rule, c, WithoutAgain(script)) ==
        if r.ret != 0 then r.(rest := WithoutAgain(r.rest))
        else Prepend(r.moves, r.addrs, Call(op, rule, r.cur, WithoutAgain(r.rest)))
    decreases |script|
  {
    if c.size > 0 && script != [] {
      assert !script[0].Again? ==> WithoutAgain(script) == [script[0]] + WithoutAgain(script[1..]);
      match script[0]
      case Again =>
        assert WithoutAgain(script) == WithoutAgain(script[1..]);
        EmptyPrepend(Call(op, rule, c, WithoutAgain(script[1..])));
      case Fail =>
        assert WithoutAgain(script)[1..] == WithoutAgain(script[1..]);
      case Intr =>
        assert WithoutAgain(script)[1..] == WithoutAgain(script[1..]);
        AgainIsInvisible(op, rule, c, script[1..]);
      case Moved(k) =>
        assert WithoutAgain(script)[1..] == WithoutAgain(script[1..]);
        var n := Min(k, c.size);
        if !(op.Read? && n == 0) {
          var next := Call(op, rule, Advance(rule, c, n), script[1..]);
          AgainIsInvisible(op, rule, Advance(rule, c, n), script[1..]);
          PrependTwice([Move(c.size, n)], Range(c.data, n), next.moves, next.addrs,
                       Call(op, rule, next.cur, WithoutAgain(next.rest)));
        }
    } else {
      EmptyPrepend(Call(op, rule, c, []));
    }
  }

  lemma EmptyPrepend(r: Run)
    ensures Prepend([], [], r) == r
  {
  }

  lemma PrependTwice(m1: seq<Move>, a1: seq<int>, m2: seq<Move>, a2: seq<int>, r: Run)
    ensures Prepend(m1, a1, Prepend(m2, a2, r)) == Prepend(m1 + m2, a1 + a2, r)
  {
    assert m1 + (m2 + r.moves) == m1 + m2 + r.moves;
    assert a1 + (a2 + r.addrs) == a1 + a2 + r.addrs;
  }

  /** However often a transfer is interrupted by EAGAIN and taken up again, its effect is that of
      one uninterrupted call. */
  lemma {:induction false} ResumedIsOneCall(op: Op, rule: Rule, c: Cursor, script: seq<Event>)
    ensures var r := Resumed(op, rule, c, script);
      r.(rest := WithoutAgain(r.rest)) == Call(op, rule, c, WithoutAgain(script))
    decreases |script|
  {
    var r := Call(op, rule, c, script);
    CallShape(op, rule, c, script);
    AgainIsInvisible(op, rule, c, script);
    if r.ret == 0 {
      if r.rest == [] {
        var last := Call(op, rule, r.cur, []);
        assert last.moves == [] && last.addrs == [] && last.cur == r.cur && last.ret == 0;
        assert r.moves + [] == r.moves && r.addrs + [] == r.addrs;
      } else {
        ResumedIsOneCall(op, rule, r.cur, r.rest);
      }
    }
  }

  /** A resumed transfer moves the caller's bytes once and in order if and only if all its moves were good
      ones, which under the rule of the timed loops they always are; it is finished exactly when it
      reports 1. */
  lemma ResumedDelivers(op: Op, rule: Rule, c: Cursor, script: seq<Event>)
    requires rule.ByCount? || op.Read? || NoZero(script)
    ensures var r := Resumed(op, rule, c, script);
      && (InPlace(c, r) <==> AllGood(rule, r.moves))
      && r.cur.size == c.size - |r.addrs|
      && (r.ret == 1 <==> r.cur.size <= 0)
  {
    ResumedIsOneCall(op, rule, c, script);
    CallShape(op, rule, c, WithoutAgain(script));
    if rule.ByCount? {
      GoodMovesInPlace(op, rule, c, WithoutAgain(script));
    } else {
      StillNoZero(op, script);
      CursorExact(op, rule, c, WithoutAgain(script));
    }
  }

  lemma {:induction false} StillNoZero(op: Op, script: seq<Event>)
    requires op.Read? || NoZero(script)
    ensures op.Read? || NoZero(WithoutAgain(script))
    decreases |script|
  {
    if op.Write? && script != [] {
      StillNoZero(op, script[1..]);
    }
  }

  // ---------------------------------------------------------------- timed calls

  function Agains(script: seq<Event>): nat {
    if script == [] then 0 else (if script[0].Again? then 1 else 0) + Agains(script[1..])
  }

  predicate AllReady(polls: seq<Poll>) {
    forall i | 0 <= i < |polls| :: polls[i] == Ready
  }

  /** A timed call whose waits all succeed has the effect of the resumed non-blocking calls with
      the documented cursor rule: same bytes, same cursor, same verdict. */
  lemma {:induction false} TimedRefines(op: Op, c: Cursor, script: seq<Event>, polls: seq<Poll>)
    requires AllReady(polls) && |polls| >= Agains(script)
    ensures var t := Timed(op, c, script, polls);
      var r := Resumed(op, ByCount, c, script);
      t.moves == r.moves && t.addrs == r.addrs && t.cur == r.cur && t.ret == r.ret
  {
    TimedIsOneCall(op, c, script, polls);
    ResumedIsOneCall(op, ByCount, c, script);
  }

  lemma {:induction false} TimedIsOneCall(op: Op, c: Cursor, script: seq<Event>, polls: seq<Poll>)
    requires AllReady(polls) && |polls| >= Agains(script)
    ensures var t := Timed(op, c, script, polls);
      t.(rest := WithoutAgain(t.rest)) == Call(op, ByCount, c, WithoutAgain(script))
    decreases |script| + |polls|
  {
    if c.size > 0 {
      if script == [] || script[0].Again? {
        if polls != [] {
          if script == [] {
            TimedIsOneCall(op, c, [], polls[1..]);
          } else {
            assert WithoutAgain(script) == WithoutAgain(script[1..]);
            TimedIsOneCall(op, c, script[1..], polls[1..]);
          }
        }
      } else {
        assert WithoutAgain(script) == [script[0]] + WithoutAgain(script[1..]);
        assert WithoutAgain(script)[1..] == WithoutAgain(script[1..]);
        match script[0]
        case Fail =>
        case Intr => TimedIsOneCall(op, c, script[1..], polls);
        case Moved(k) =>
          TimedIsOneCall(op, Advance(ByCount, c, Min(k, c.size)), script[1..], polls);
      }
    }
  }

  /** A timed call moves the next bytes of the buffer in order whatever the kernel and poll answer;
      it returns 1 exactly when all of them moved; and a timed send returns -2, which its header
      comment does not list, only when poll reported a reset. */
  lemma {:induction false} TimedCodes(op: Op, c: Cursor, script: seq<Event>, polls: seq<Poll>)
    ensures var t := Timed(op, c, script, polls);
      && t.addrs == Range(c.data, |t.addrs|)
      && t.cur.size == c.size - |t.addrs|
      && (t.ret == 1 <==> t.cur.size <= 0)
      && t.ret in {-2, -1, 0, 1}
      && (op.Write? && t.ret == -2 ==> PollReset in polls)
    decreases |script| + |polls|
  {
    if c.size > 0 {
      if script == [] || script[0].Again? {
        var rest := if script == [] then [] else script[1..];
        if polls != [] && polls[0].Ready? {
          TimedCodes(op, c, rest, polls[1..]);
        }
      } else {
        match script[0]
        case Fail =>
        case Intr => TimedCodes(op, c, script[1..], polls);
        case Moved(k) =>
          var n := Min(k, c.size);
          if !(op.Read? && n == 0) {
            var next := Timed(op, Advance(ByCount, c, n), script[1..], polls);
            TimedCodes(op, Advance(ByCount, c, n), script[1..], polls);
            RangeAppend(c.data, n, |next.addrs|);
          }
      }
    }
  }

  /** Why a timed call ends short: an error of the kernel or of the wait, the end of the stream or a reset, or
      a wait that timed out, as the one does that follows the last answer of poll. */
  lemma {:induction false} TimedEnds(op: Op, c: Cursor, script: seq<Event>, polls: seq<Poll>)
    ensures var t := Timed(op, c, script, polls);
      && (t.ret == -1 ==> Fail in script || PollError in polls)
      && (t.ret == -2 ==> PollReset in polls || (op.Read? && Moved(0) in script))
      && (t.ret == 0 ==> Timeout in polls || AllReady(polls))
    decreases |script| + |polls|
  {
    if c.size > 0 {
      if script == [] || script[0].Again? {
        if polls != [] && polls[0].Ready? {
          TimedEnds(op, c, if script == [] then [] else script[1..], polls[1..]);
        }
      } else if script[0].Intr? {
        TimedEnds(op, c, script[1..], polls);
      } else if script[0].Moved? {
        TimedEnds(op, Advance(ByCount, c, Min(script[0].count, c.size)), script[1..], polls);
      }
    }
  }

  /** The first wait that fails ends with a reset. */
  predicate ResetsFirst(polls: seq<Poll>) {
    polls != [] && (polls[0].PollReset? || (polls[0].Ready? && ResetsFirst(polls[1..])))
  }

  lemma {:induction false} OnlyResetsReset(c: Cursor, script: seq<Event>, polls: seq<Poll>)
    requires Timed(Write, c, script, polls).ret == -2
    ensures ResetsFirst(polls)
    decreases |script| + |polls|
  {
    if script == [] || script[0].Again? {
      if !polls[0].PollReset? {
        OnlyResetsReset(c, if script == [] then [] else script[1..], polls[1..]);
      }
    } else if script[0].Intr? {
      OnlyResetsReset(c, script[1..], polls);
    } else {
      OnlyResetsReset(Advance(ByCount, c, Min(script[0].count, c.size)), script[1..], polls);
    }
  }

  lemma {:induction false} ResetReached(c: Cursor, polls: seq<Poll>)
    requires c.size > 0 && ResetsFirst(polls)
    ensures Timed(Write, c, [], polls).ret == -2
    decreases |polls|
  {
    if polls[0].Ready? {
      ResetReached(c, polls[1..]);
    }
  }

  /** Exactly when a timed send can return the -2 that its header comment does not list: when the first
      failing wait reports a reset. */
  lemma TimedSendResets(c: Cursor, polls: seq<Poll>)
    requires c.size > 0
    ensures (exists script :: Timed(Write, c, script, polls).ret == -2) <==> ResetsFirst(polls)
  {
    if script :| Timed(Write, c, script, polls).ret == -2 {
      OnlyResetsReset(c, script, polls);
    }
    if ResetsFirst(polls) {
      ResetReached(c, polls);
    }
  }

  // ---------------------------------------------------------------- loops, call by call

  /** A loop that has made `moves` to `addrs` and is now at `cur` is on the way to the outcome of the
      whole call. */
  ghost predicate OnTheWay(op: Op, rule: Rule, c: Cursor, script0: seq<Event>,
                           moves: seq<Move>, addrs: seq<int>, cur: Cursor, script: seq<Event>) {
    Call(op, rule, c, script0) == Prepend(moves, addrs, Call(op, rule, cur, script))
  }

  lemma LoopStep(op: Op, rule: Rule, c: Cursor, script0: seq<Event>,
                 moves: seq<Move>, addrs: seq<int>, cur: Cursor, script: seq<Event>)
    requires OnTheWay(op, rule, c, script0, moves, addrs, cur, script)
    ensures var r := Call(op, rule, c, script0);
      var rest := if script == [] then [] else script[1..];
      if cur.size <= 0 then r == Run(moves, addrs, cur, script, 1)
      else if script == [] || script[0] == Again then r == Run(moves, addrs, cur, rest, 0)
      else match script[0]
        case Fail => r == Run(moves, addrs, cur, rest, -1)
        case Intr => OnTheWay(op, rule, c, script0, moves, addrs, cur, rest)
        case Moved(k) =>
          var n := Min(k, cur.size);
          if op.Read? && n == 0 then r == Run(moves, addrs, cur, rest, -2)
          else OnTheWay(op, rule, c, script0, moves + [Move(cur.size, n)], addrs + Range(cur.data, n),
                        Advance(rule, cur, n), rest)
  {
    assert moves + [] == moves && addrs + [] == addrs;
    if cur.size > 0 && script != [] && script[0].Moved? {
      var n := Min(script[0].count, cur.size);
      if !(op.Read? && n == 0) {
        PrependTwice(moves, addrs, [Move(cur.size, n)], Range(cur.data, n),
                     Call(op, rule, Advance(rule, cur, n), script[1..]));
      }
    }
  }

  ghost predicate OnTheTimedWay(op: Op, c: Cursor, script0: seq<Event>, polls0: seq<Poll>, moves: seq<Move>,
                                addrs: seq<int>, cur: Cursor, script: seq<Event>, polls: seq<Poll>) {
    Timed(op, c, script0, polls0) == Prepend(moves, addrs, Timed(op, cur, script, polls))
  }

  lemma TimedLoopStep(op: Op, c: Cursor, script0: seq<Event>, polls0: seq<Poll>, moves: seq<Move>,
                      addrs: seq<int>, cur: Cursor, script: seq<Event>, polls: seq<Poll>)
    requires OnTheTimedWay(op, c, script0, polls0, moves, addrs, cur, script, polls)
    ensures var t := Timed(op, c, script0, polls0);
      var rest := if script == [] then [] else script[1..];
      if cur.size <= 0 then t == Run(moves, addrs, cur, script, 1)
      else if script == [] || script[0] == Again then
        (if polls == [] then t == Run(moves, addrs, cur, rest, 0)
         else match polls[0]
           case Ready => OnTheTimedWay(op, c, script0, polls0, moves, addrs, cur, rest, polls[1..])
           case Timeout => t == Run(moves, addrs, cur, rest, 0)
           case PollError => t == Run(moves, addrs, cur, rest, -1)
           case PollReset => t == Run(moves, addrs, cur, rest, -2))
      else match script[0]
        case Fail => t == Run(moves, addrs, cur, rest, -1)
        case Intr => OnTheTimedWay(op, c, script0, polls0, moves, addrs, cur, rest, polls)
        case Moved(k) =>
          var n := Min(k, cur.size);
          if op.Read? && n == 0 then t == Run(moves, addrs, cur, rest, -2)
          else OnTheTimedWay(op, c, script0, polls0, moves + [Move(cur.size, n)], addrs + Range(cur.data, n),
                             Advance(ByCount, cur, n), rest, polls)
  {
    assert moves + [] == moves && addrs + [] == addrs;
    if cur.size > 0 && script != [] && script[0].Moved? {
      var n := Min(script[0].count, cur.size);
      if !(op.Read? && n == 0) {
        PrependTwice(moves, addrs, [Move(cur.size, n)], Range(cur.data, n),
                     Timed(op, Advance(ByCount, cur, n), script[1..], polls));
      }
    }
  }
}
