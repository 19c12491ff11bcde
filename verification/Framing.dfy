/** The wire format of the echo protocol: a four-byte length, then that many bytes.

`Split` is the plain reading of a byte string as a list of frames; the incremental parser of the
server is proved against it.
*/
module Framing {
  import opened Kernel

  const HEAD_SIZE: nat := 4
  const TWO31: int := 0x8000_0000
  const TWO32: int := 0x1_0000_0000

  /** The bytes of a 32-bit `int` on a little-endian machine. */
  function Encode32(n: int): (h: seq<Byte>)
    requires -TWO31 <= n < TWO31
    ensures |h| == HEAD_SIZE
  {
    var u := if n < 0 then n + TWO32 else n;
    [u % 256, u / 256 % 256, u / 65536 % 256, u / 16777216]
  }

  function Unsigned(h: seq<Byte>): (u: int)
    requires |h| == HEAD_SIZE
    ensures 0 <= u < TWO32
  {
    var b0: int, b1: int, b2: int, b3: int := h[0], h[1], h[2], h[3];
    b0 + 256 * b1 + 65536 * b2 + 16777216 * b3
  }

  function Decode32(h: seq<Byte>): (n: int)
    requires |h| == HEAD_SIZE
    ensures -TWO31 <= n < TWO31
  {
    var u := Unsigned(h);
    if u >= TWO31 then u - TWO32 else u
  }

  /** Reading an `int` back from memory. */
  lemma DecodeEncode(n: int)
    requires -TWO31 <= n < TWO31
    ensures Decode32(Encode32(n)) == n
  {
    var u := if n < 0 then n + TWO32 else n;
    assert u / 65536 == u / 256 / 256 && u / 16777216 == u / 256 / 256 / 256;
  }

  /** Storing the length just read restores the header, byte for byte. */
  lemma EncodeDecode(h: seq<Byte>)
    requires |h| == HEAD_SIZE
    ensures Encode32(Decode32(h)) == h
  {
    var b0: int, b1: int, b2: int, b3: int := h[0], h[1], h[2], h[3];
    var n := Decode32(h);
    assert (if n < 0 then n + TWO32 else n) == Unsigned(h);
    Digit(b0, b1 + 256 * b2 + 65536 * b3);
    Digit(b1, b2 + 256 * b3);
    Digit(b2, b3);
    assert Unsigned(h) / 65536 == Unsigned(h) / 256 / 256;
    assert Unsigned(h) / 16777216 == Unsigned(h) / 65536 / 256;
  }

  lemma Digit(low: int, high: int)
    requires 0 <= low < 256
    ensures (low + 256 * high) % 256 == low && (low + 256 * high) / 256 == high
  {
  }

  function Concat(fs: seq<seq<Byte>>): seq<Byte> {
    if fs == [] then [] else fs[0] + Concat(fs[1..])
  }

  lemma {:induction false} ConcatAppend(a: seq<seq<Byte>>, b: seq<seq<Byte>>)
    ensures Concat(a + b) == Concat(a) + Concat(b)
  {
    if a == [] {
      assert a + b == b;
    } else {
      assert (a + b)[1..] == a[1..] + b;
      ConcatAppend(a[1..], b);
    }
  }

  lemma ConcatOne(f: seq<Byte>)
    ensures Concat([f]) == f
  {
    assert [f][1..] == [];
  }

  /** A complete frame: a header and exactly as many bytes as it announces. */
  predicate IsFrame(f: seq<Byte>) {
    |f| >= HEAD_SIZE && Decode32(f[..HEAD_SIZE]) == |f| - HEAD_SIZE
  }

  predicate AllFrames(fs: seq<seq<Byte>>) {
    forall i | 0 <= i < |fs| :: IsFrame(fs[i])
  }

  /** A string from which no frame can be taken: too short, or announcing a negative length. */
  predicate Incomplete(s: seq<Byte>) {
    |s| < HEAD_SIZE || Decode32(s[..HEAD_SIZE]) < 0 || |s| < HEAD_SIZE + Decode32(s[..HEAD_SIZE])
  }

  datatype Parsed = Parsed(frames: seq<seq<Byte>>, rest: seq<Byte>)

  function Split(s: seq<Byte>): Parsed
    decreases |s|
  {
    if Incomplete(s) then Parsed([], s)
    else
      var n := HEAD_SIZE + Decode32(s[..HEAD_SIZE]);
      var p := Split(s[n..]);
      Parsed([s[..n]] + p.frames, p.rest)
  }

  /** Splitting yields only complete frames and leaves no complete frame behind. */
  lemma {:induction false} SplitIntoFrames(s: seq<Byte>)
    ensures AllFrames(Split(s).frames) && Incomplete(Split(s).rest)
    decreases |s|
  {
    if !Incomplete(s) {
      var n := HEAD_SIZE + Decode32(s[..HEAD_SIZE]);
      SplitIntoFrames(s[n..]);
      assert IsFrame(s[..n]) by { assert s[..n][..HEAD_SIZE] == s[..HEAD_SIZE]; }
    }
  }

  /** Splitting loses nothing. */
  lemma {:induction false} SplitJoins(s: seq<Byte>)
    ensures Concat(Split(s).frames) + Split(s).rest == s
    decreases |s|
  {
    if !Incomplete(s) {
      var n := HEAD_SIZE + Decode32(s[..HEAD_SIZE]);
      var p := Split(s[n..]);
      SplitJoins(s[n..]);
      ConcatCons(s[..n], p.frames);
      Glue(s[..n], Concat(p.frames), p.rest);
      CutJoin(s, n);
    }
  }

  lemma CutJoin(s: seq<Byte>, n: nat)
    requires n <= |s|
    ensures s[..n] + s[n..] == s
  {
  }

  lemma ConcatCons(f: seq<Byte>, fs: seq<seq<Byte>>)
    ensures Concat([f] + fs) == f + Concat(fs)
  {
    assert ([f] + fs)[1..] == fs;
  }

  lemma Glue<T>(a: seq<T>, b: seq<T>, c: seq<T>)
    ensures a + b + c == a + (b + c)
  {
  }

  /** It is the only way to do so: whoever cuts a string into complete frames and an incomplete
      remainder has computed `Split`. */
  lemma {:induction false} SplitUnique(frames: seq<seq<Byte>>, rest: seq<Byte>)
    requires AllFrames(frames) && Incomplete(rest)
    ensures Split(Concat(frames) + rest) == Parsed(frames, rest)
    decreases |frames|
  {
    var s := Concat(frames) + rest;
    if frames == [] {
      assert s == rest;
    } else {
      var f := frames[0];
      assert s == f + (Concat(frames[1..]) + rest);
      assert s[..HEAD_SIZE] == f[..HEAD_SIZE];
      assert s[..|f|] == f && s[|f|..] == Concat(frames[1..]) + rest;
      SplitUnique(frames[1..], rest);
    }
  }

  /** A stream may be read in pieces: the frames of the whole are those of the first piece followed
      by those of its remainder and the second piece. */
  lemma SplitInPieces(s: seq<Byte>, t: seq<Byte>)
    ensures var p := Split(s);
      var q := Split(p.rest + t);
      Split(s + t) == Parsed(p.frames + q.frames, q.rest)
  {
    var p := Split(s);
    var q := Split(p.rest + t);
    SplitJoins(s);
    SplitJoins(p.rest + t);
    SplitIntoFrames(s);
    SplitIntoFrames(p.rest + t);
    ConcatAppend(p.frames, q.frames);
    Glue(Concat(p.frames), Concat(q.frames), q.rest);
    Glue(Concat(p.frames), p.rest, t);
    SplitUnique(p.frames + q.frames, q.rest);
  }

  /** What the client sends for one message. */
  function Pack(body: seq<Byte>): (f: seq<Byte>)
    requires |body| < TWO31
  {
    Encode32(|body|) + body
  }

  function PackAll(bodies: seq<seq<Byte>>): (fs: seq<seq<Byte>>)
    requires forall i | 0 <= i < |bodies| :: |bodies[i]| < TWO31
    ensures |fs| == |bodies| && forall i | 0 <= i < |bodies| :: fs[i] == Pack(bodies[i])
  {
    if bodies == [] then [] else [Pack(bodies[0])] + PackAll(bodies[1..])
  }

  lemma PackIsFrame(body: seq<Byte>)
    requires |body| < TWO31
    ensures IsFrame(Pack(body)) && Pack(body)[HEAD_SIZE..] == body
    ensures var f := Pack(body);
      f[0] as int + 0x100 * (f[1] as int) + 0x1_0000 * (f[2] as int) + 0x100_0000 * (f[3] as int) == |body|
  {
    DecodeEncode(|body|);
    assert Pack(body)[..HEAD_SIZE] == Encode32(|body|);
  }

  /** Round trip: the messages of a client, empty ones included, are what the server parses, even
      with part of a further frame behind them. */
  lemma RoundTrip(bodies: seq<seq<Byte>>, rest: seq<Byte>)
    requires forall i | 0 <= i < |bodies| :: |bodies[i]| < TWO31
    requires Incomplete(rest)
    ensures Split(Concat(PackAll(bodies)) + rest) == Parsed(PackAll(bodies), rest)
    ensures forall i | 0 <= i < |bodies| :: PackAll(bodies)[i][HEAD_SIZE..] == bodies[i]
  {
    forall i | 0 <= i < |bodies|
      ensures IsFrame(PackAll(bodies)[i]) && PackAll(bodies)[i][HEAD_SIZE..] == bodies[i]
    {
      PackIsFrame(bodies[i]);
    }
    SplitUnique(PackAll(bodies), rest);
  }
}
