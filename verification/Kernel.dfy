/** The kernel and the address space, as far as `Stream` can see them.

A socket call is answered from a finite script of results, so that a theorem about every
script is a theorem about every way the kernel can cut a transfer into pieces.
*/
module Kernel {

  type Byte = b: int | 0 <= b < 256

  /** One answer of `read`, `write`, `readv` or `writev`. */
  datatype Event =
    | Moved(count: nat)  // at most `count` bytes move; a read of no bytes is the end of the stream
    | Again              // -1 with EAGAIN
    | Intr               // -1 with EINTR
    | Fail               // -1 with any other errno

  /** One answer of `SocketUtil::Select`. */
  datatype Poll = Ready | Timeout | PollError | PollReset

  datatype Errno = OK | EAGAIN | EINTR | EOTHER

  datatype Op = Write | Read

  /** A flat address space; a cell never written reads as 0. */
  type Memory = map<int, Byte>

  class Ram {
    var cells: Memory

    constructor ()
      ensures cells == map[]
    {
      cells := map[];
    }
  }

  function At(m: Memory, a: int): Byte {
    if a in m then m[a] else 0
  }

  function Min(a: int, b: int): int {
    if a < b then a else b
  }

  /** The `n` addresses that start at `from`. */
  function Range(from: int, n: nat): (r: seq<int>)
    ensures |r| == n
  {
    seq(n, i => from + i)
  }

  /** What lies at the given addresses. */
  function Gather(m: Memory, addrs: seq<int>): (bs: seq<Byte>)
    ensures |bs| == |addrs|
  {
    seq(|addrs|, i requires 0 <= i < |addrs| => At(m, addrs[i]))
  }

  /** The memory after storing `bs[i]` at `addrs[i]`, in order. */
  function Scatter(m: Memory, addrs: seq<int>, bs: seq<Byte>): Memory
    requires |addrs| == |bs|
  {
    if addrs == [] then m
    else
      var k := |addrs| - 1;
      Scatter(m, addrs[..k], bs[..k])[addrs[k] := bs[k]]
  }

  /** `n` bytes of the peer's stream, from position `from` on. */
  function Incoming(wire: nat -> Byte, from: nat, n: nat): (bs: seq<Byte>)
    ensures |bs| == n
  {
    seq(n, i requires 0 <= i => wire(from + i))
  }

  lemma RangeAppend(from: int, a: nat, b: nat)
    ensures Range(from, a) + Range(from + a, b) == Range(from, a + b)
  {
  }

  lemma GatherAppend(m: Memory, a: seq<int>, b: seq<int>)
    ensures Gather(m, a + b) == Gather(m, a) + Gather(m, b)
  {
  }

  lemma IncomingAppend(wire: nat -> Byte, from: nat, a: nat, b: nat)
    ensures Incoming(wire, from, a) + Incoming(wire, from + a, b) == Incoming(wire, from, a + b)
  {
  }

  /** Splitting off the next k of what is left after n. */
  lemma NextPart<T>(s: seq<T>, n: nat, k: nat)
    requires n + k <= |s|
    ensures s[n..][k..] == s[n + k..]
    ensures s[..n] + s[n..][..k] == s[..n + k]
  {
  }

  /** Storing in two goes is storing once. */
  lemma {:induction false} ScatterAppend(m: Memory, a: seq<int>, x: seq<Byte>, b: seq<int>, y: seq<Byte>)
    requires |a| == |x| && |b| == |y|
    ensures Scatter(m, a + b, x + y) == Scatter(Scatter(m, a, x), b, y)
    decreases |b|
  {
    if b == [] {
      assert a + b == a && x + y == x;
    } else {
      var k := |b| - 1;
      ScatterAppend(m, a, x, b[..k], y[..k]);
      assert (a + b)[..|a| + k] == a + b[..k];
      assert (x + y)[..|a| + k] == x + y[..k];
    }
  }

  /** The memory once the peer's bytes from position `from` on have landed at `addrs`. */
  function Landing(m: Memory, wire: nat -> Byte, from: nat, addrs: seq<int>): Memory {
    Scatter(m, addrs, Incoming(wire, from, |addrs|))
  }

  lemma LandingAppend(m: Memory, wire: nat -> Byte, from: nat, a: seq<int>, b: seq<int>)
    ensures Landing(m, wire, from, a + b) == Landing(Landing(m, wire, from, a), wire, from + |a|, b)
  {
    IncomingAppend(wire, from, |a|, |b|);
    ScatterAppend(m, a, Incoming(wire, from, |a|), b, Incoming(wire, from + |a|, |b|));
  }

  ghost predicate Distinct(addrs: seq<int>) {
    forall i, j | 0 <= i < j < |addrs| :: addrs[i] != addrs[j]
  }

  /** Frame: a store changes nothing outside its addresses. */
  lemma {:induction false} ScatterFrame(m: Memory, addrs: seq<int>, bs: seq<Byte>, a: int)
    requires |addrs| == |bs| && a !in addrs
    ensures At(Scatter(m, addrs, bs), a) == At(m, a)
    decreases |addrs|
  {
    if addrs != [] {
      var k := |addrs| - 1;
      assert a != addrs[k];
      ScatterFrame(m, addrs[..k], bs[..k], a);
    }
  }

  /** What is stored at distinct addresses is read back in order. */
  lemma {:induction false} ScatterThenGather(m: Memory, addrs: seq<int>, bs: seq<Byte>)
    requires |addrs| == |bs| && Distinct(addrs)
    ensures Gather(Scatter(m, addrs, bs), addrs) == bs
    decreases |addrs|
  {
    if addrs != [] {
      var k := |addrs| - 1;
      var before := Scatter(m, addrs[..k], bs[..k]);
      ScatterThenGather(m, addrs[..k], bs[..k]);
      SameCells(before, Scatter(m, addrs, bs), addrs[..k]);
    }
  }

  lemma SameCells(m: Memory, m': Memory, addrs: seq<int>)
    requires forall i | 0 <= i < |addrs| :: At(m, addrs[i]) == At(m', addrs[i])
    ensures Gather(m, addrs) == Gather(m', addrs)
  {
  }

  /** A store outside a block leaves the block alone. */
  lemma StoreOutside(m: Memory, addrs: seq<int>, bs: seq<Byte>, block: seq<int>)
    requires |addrs| == |bs|
    requires forall i | 0 <= i < |block| :: block[i] !in addrs
    ensures Gather(Scatter(m, addrs, bs), block) == Gather(m, block)
  {
    forall i | 0 <= i < |block|
      ensures At(Scatter(m, addrs, bs), block[i]) == At(m, block[i])
    {
      ScatterFrame(m, addrs, bs, block[i]);
    }
    SameCells(Scatter(m, addrs, bs), m, block);
  }

  /** Bytes stored right behind a block extend the block. */
  lemma StoreExtends(m: Memory, base: int, n: nat, bs: seq<Byte>)
    ensures Gather(Scatter(m, Range(base + n, |bs|), bs), Range(base, n + |bs|))
         == Gather(m, Range(base, n)) + bs
  {
    var addrs := Range(base + n, |bs|);
    ScatterThenGather(m, addrs, bs);
    RangeAppend(base, n, |bs|);
    GatherAppend(Scatter(m, addrs, bs), Range(base, n), addrs);
    StoreOutside(m, addrs, bs, Range(base, n));
  }
}
