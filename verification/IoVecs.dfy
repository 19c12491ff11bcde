/** Scatter/gather lists and `UpdateIov`, the step that drops what a vector call has moved. */
module IoVecs {
  import opened Kernel

  datatype IoVec = IoVec(base: int, len: nat)

  function Total(v: seq<IoVec>): nat {
    if v == [] then 0 else v[0].len + Total(v[1..])
  }

  /** The addresses a list denotes, in transfer order. */
  function Flat(v: seq<IoVec>): (addrs: seq<int>)
    ensures |addrs| == Total(v)
  {
    if v == [] then [] else Range(v[0].base, v[0].len) + Flat(v[1..])
  }

  /** Which addresses these are: byte i of entry j comes behind all bytes of the entries before it. */
  lemma {:induction false} FlatAt(v: seq<IoVec>, j: nat, i: nat)
    requires j < |v| && i < v[j].len
    ensures Total(v[..j]) + i < Total(v) && Flat(v)[Total(v[..j]) + i] == v[j].base + i
    decreases j
  {
    if j == 0 {
      assert Total(v[..0]) == 0;
    } else {
      FlatAt(v[1..], j - 1, i);
      assert v[..j][1..] == v[1..][..j - 1];
      assert Total(v[..j]) == v[0].len + Total(v[1..][..j - 1]);
    }
  }

  /** Every address of the list is a byte of one of its entries. */
  lemma {:induction false} FlatFrom(v: seq<IoVec>, p: nat) returns (j: nat, i: nat)
    requires p < Total(v)
    ensures j < |v| && i < v[j].len && p == Total(v[..j]) + i && Flat(v)[p] == v[j].base + i
    decreases |v|
  {
    if p < v[0].len {
      j, i := 0, p;
      assert Total(v[..0]) == 0;
    } else {
      j, i := FlatFrom(v[1..], p - v[0].len);
      j := j + 1;
      assert v[..j][1..] == v[1..][..j - 1];
    }
  }

  predicate Covers(e: IoVec, a: int) {
    e.base <= a < e.base + e.len
  }

  /** No two entries share an address. */
  ghost predicate Separate(v: seq<IoVec>) {
    forall j, k, a | 0 <= j < k < |v| && Covers(v[j], a) :: !Covers(v[k], a)
  }

  lemma SeparateIsDistinct(v: seq<IoVec>)
    requires Separate(v)
    ensures Distinct(Flat(v))
  {
    forall p, q | 0 <= p < q < |Flat(v)| ensures Flat(v)[p] != Flat(v)[q] {
      var j, i := FlatFrom(v, p);
      var k, l := FlatFrom(v, q);
      assert Covers(v[j], Flat(v)[p]) && Covers(v[k], Flat(v)[q]);
      assert j < k ==> !Covers(v[k], Flat(v)[p]);
      assert k < j ==> !Covers(v[j], Flat(v)[q]);
    }
  }

  /** Where byte i of entry j is in the transfer. */
  function Position(v: seq<IoVec>, j: nat, i: nat): nat
    requires j <= |v|
  {
    Total(v[..j]) + i
  }

  /** Where the walk of `UpdateIov` ends: at an entry with something left, or behind the last entry there
      is in memory. */
  datatype Walk = Outside | Stopped(rest: seq<IoVec>)

  /** The walk as written, on all entries in memory from `iov` on: whole entries go, the first entry with
      something left is shortened from its front. */
  function Walked(v: seq<IoVec>, k: nat): Walk {
    if v == [] then Outside
    else if k >= v[0].len then Walked(v[1..], k - v[0].len)
    else Stopped([IoVec(v[0].base + k, v[0].len - k)] + v[1..])
  }

  /** The same walk under the guard that the callers' loops have: it ends with the list at the latest. */
  function Left(v: seq<IoVec>, k: nat): (w: seq<IoVec>)
    requires k <= Total(v)
    ensures |w| <= |v|
  {
    if v == [] then []
    else if k >= v[0].len then Left(v[1..], k - v[0].len)
    else [IoVec(v[0].base + k, v[0].len - k)] + v[1..]
  }

  /** What is left flattens to exactly the flattening without its first k addresses, zero-length entries
      and a transfer of the whole list included; and nothing is left exactly after the whole. */
  lemma {:induction false} LeftIsDrop(v: seq<IoVec>, k: nat)
    requires k <= Total(v)
    ensures Flat(Left(v, k)) == Flat(v)[k..]
    ensures Left(v, k) == [] <==> k == Total(v)
  {
    if v != [] {
      if k >= v[0].len {
        LeftIsDrop(v[1..], k - v[0].len);
      } else {
        var w := Left(v, k);
        assert w[1..] == v[1..];
        RangeAppend(v[0].base, k, v[0].len - k);
      }
    }
  }

  /** Exactly when the walk as written stays in memory: if something is left of the entries from `iov` on.
      It then leaves the same as the guarded walk. */
  lemma {:induction false} WalkExact(v: seq<IoVec>, k: nat)
    ensures Walked(v, k) == if k < Total(v) then Stopped(Left(v, k)) else Outside
  {
    if v != [] && k >= v[0].len {
      WalkExact(v[1..], k - v[0].len);
    }
  }

  /** A failing input: an array of one entry, all of which has moved. */
  lemma WholeEntryLeavesMemory(base: int, len: nat)
    ensures Walked([IoVec(base, len)], len) == Outside && Left([IoVec(base, len)], len) == []
  {
    assert [IoVec(base, len)][1..] == [];
  }

  lemma Assoc<T>(a: seq<T>, b: seq<T>, c: seq<T>)
    ensures a + (b + c) == a + b + c
  {
  }

  lemma {:induction false} FlatAppend(v: seq<IoVec>, w: seq<IoVec>)
    ensures Flat(v + w) == Flat(v) + Flat(w)
    ensures Total(v + w) == Total(v) + Total(w)
  {
    if v == [] {
      assert v + w == w;
      assert [] + Flat(w) == Flat(w);
    } else {
      FlatAppend(v[1..], w);
      assert (v + w)[1..] == v[1..] + w;
      Assoc(Range(v[0].base, v[0].len), Flat(v[1..]), Flat(w));
    }
  }

  /** A list followed in memory by other entries: a partial transfer stays inside the list, a whole one
      walks on into what follows. */
  lemma {:induction false} LeftInside(v: seq<IoVec>, tail: seq<IoVec>, k: nat)
    requires k <= Total(v)
    ensures Total(v + tail) == Total(v) + Total(tail)
    ensures Left(v + tail, k) == if k < Total(v) then Left(v, k) + tail else Left(tail, 0)
  {
    if v == [] {
      assert v + tail == tail;
    } else {
      assert (v + tail)[1..] == v[1..] + tail;
      assert (v + tail)[0] == v[0];
      if k >= v[0].len {
        LeftInside(v[1..], tail, k - v[0].len);
      } else {
        LeftInside(v[1..], tail, 0);
        var first := [IoVec(v[0].base + k, v[0].len - k)];
        Assoc(first, v[1..], tail);
      }
    }
  }

  /** Empty entries in front go, and nothing else changes. */
  lemma {:induction false} LeftOfNothing(v: seq<IoVec>)
    ensures Left(v, 0) == v[|v| - |Left(v, 0)|..]
    ensures |Left(v, 0)| == |v| <==> v == [] || v[0].len > 0
  {
    if v != [] {
      if v[0].len == 0 {
        LeftOfNothing(v[1..]);
      } else {
        assert [IoVec(v[0].base + 0, v[0].len - 0)] + v[1..] == v;
      }
    }
  }

  /** `UpdateIov` as written, on a list followed in memory by `tail`.  It leaves memory exactly if all of
      the list has moved and nothing but empty entries follows.  Otherwise a partial transfer leaves
      exactly the unmoved part of the list, and a whole one walks on to the first non-empty entry, so
      that the count left is 0 exactly if that entry is the very next one, and negative if not. */
  lemma ListAfterUpdate(list: seq<IoVec>, tail: seq<IoVec>, k: nat)
    requires k <= Total(list)
    ensures var walk := Walked(list + tail, k);
      && (walk.Outside? <==> k == Total(list) && Total(tail) == 0)
      && (walk.Stopped? ==>
            var count := |walk.rest| - |tail|;
            && (count > 0 <==> k < Total(list))
            && (count >= 0 <==> k < Total(list) || tail[0].len > 0)
            && (count > 0 ==> walk.rest == Left(list, k) + tail)
            && (count <= 0 ==> walk.rest == tail[-count..]))
  {
    WalkExact(list + tail, k);
    LeftInside(list, tail, k);
    LeftOfNothing(tail);
    if k < Total(list) {
      LeftIsDrop(list, k);
    }
  }

  /** What a list of `iovcnt` entries at `iov` becomes when `size` of its bytes have moved. */
  ghost predicate ListUpdated(guarded: bool, was: seq<IoVec>, now: seq<IoVec>, iov: nat, iovcnt: int, size: nat,
                              iov': nat, iovcnt': int)
    requires iovcnt > 0 && iov + iovcnt <= |was| == |now| && size <= Total(was[iov..iov + iovcnt])
  {
    var end := iov + iovcnt;
    && iov' + iovcnt' == end && iov' <= |now|
    && now[end..] == was[end..]
    && (iovcnt' > 0 <==> size < Total(was[iov..end]))
    && (iovcnt' >= 0 <==> size < Total(was[iov..end]) || guarded || (end < |was| && was[end].len > 0))
    && (iovcnt' > 0 ==> Flat(now[iov'..end]) == Flat(was[iov..end])[size..])
  }

  lemma UpdateOfList(was: seq<IoVec>, now: seq<IoVec>, iov: nat, iovcnt: int, size: nat, iov': nat)
    requires iovcnt > 0 && iov + iovcnt <= |was| == |now| && size <= Total(was[iov..iov + iovcnt])
    requires iov <= iov' <= |now| && Walked(was[iov..], size) == Stopped(now[iov'..])
    requires now[..iov'] == was[..iov']
    ensures ListUpdated(false, was, now, iov, iovcnt, size, iov', iovcnt - (iov' - iov))
  {
    var end := iov + iovcnt;
    var list, tail := was[iov..end], was[end..];
    assert was[iov..] == list + tail;
    ListAfterUpdate(list, tail, size);
    if size < Total(list) {
      LeftIsDrop(list, size);
      PartsOfRest(now, iov', end, Left(list, size), tail);
    } else {
      SplitAt(was, end, iov');
      SuffixKept(was, now, end, iov');
    }
  }

  lemma PartsOfRest(now: seq<IoVec>, iov': nat, end: nat, w: seq<IoVec>, tail: seq<IoVec>)
    requires iov' <= |now| && end + |tail| == |now| && now[iov'..] == w + tail
    ensures iov' + |w| == end && now[iov'..end] == w && now[end..] == tail
  {
    SplitAt(now, iov', end);
  }

  lemma SplitAt<T>(s: seq<T>, i: nat, j: nat)
    requires i <= j <= |s|
    ensures s[i..][..j - i] == s[i..j] && s[i..][j - i..] == s[j..]
  {
  }

  lemma SuffixKept(was: seq<IoVec>, now: seq<IoVec>, end: nat, iov': nat)
    requires end <= iov' <= |was| == |now| && now[iov'..] == was[iov'..] && now[..iov'] == was[..iov']
    ensures now[end..] == was[end..]
  {
    assert now == now[..iov'] + now[iov'..];
    assert was == was[..iov'] + was[iov'..];
  }

  /** The last step of the walk. */
  method Shorten(a: array<IoVec>, i: nat, k: nat)
    requires i < a.Length && k < a[i].len
    modifies a
    ensures var was := old(a[..]);
      a[..] == was[i := IoVec(was[i].base + k, was[i].len - k)]
  {
    a[i] := IoVec(a[i].base + k, a[i].len - k);
  }

  /** `UpdateIov` as written: the entries are consumed in the caller's array, and the walk ends only at an
      entry with something left.  `stray` says that it reads an entry behind the end of the array. */
  method UpdateIov(a: array<IoVec>, iov: nat, iovcnt: int, size: nat)
    returns (stray: bool, iov': nat, iovcnt': int)
    requires iov <= a.Length
    modifies a
    ensures stray <==> size >= Total(old(a[..])[iov..])
    ensures stray ==> a[..] == old(a[..])
    ensures !stray ==> iov <= iov' <= a.Length && iovcnt' == iovcnt - (iov' - iov)
    ensures !stray ==> Walked(old(a[..])[iov..], size) == Stopped(a[..][iov'..])
    ensures !stray ==> a[..][..iov'] == old(a[..])[..iov']
  {
    iov', iovcnt' := iov, iovcnt;
    var left: nat := size;
    ghost var was := a[..];
    WalkExact(was[iov..], size);
    while true
      invariant iov <= iov' <= a.Length
      invariant Walked(was[iov'..], left) == Walked(was[iov..], size)
      invariant iovcnt' == iovcnt - (iov' - iov)
      modifies {}
      decreases a.Length - iov'
    {
      if iov' == a.Length {
        return true, iov', iovcnt';
      }
      WalkStep(was, iov', left);
      if left >= a[iov'].len {
        left := left - a[iov'].len;
        iov' := iov' + 1;
        iovcnt' := iovcnt' - 1;
      } else {
        break;
      }
    }
    assert a[..] == was;
    Shorten(a, iov', left);
    return false, iov', iovcnt';
  }

  /** One round of the walk. */
  lemma WalkStep(was: seq<IoVec>, i: nat, k: nat)
    requires i < |was|
    ensures k >= was[i].len ==> Walked(was[i..], k) == Walked(was[i + 1..], k - was[i].len)
    ensures k < was[i].len ==>
      var now := was[i := IoVec(was[i].base + k, was[i].len - k)];
      Walked(was[i..], k) == Stopped(now[i..]) && now[..i] == was[..i]
  {
    assert was[i..][1..] == was[i + 1..];
  }

  /** `UpdateIov` with the guard `iovcnt > 0`. */
  method GuardedUpdateIov(a: array<IoVec>, iov: nat, iovcnt: int, size: nat) returns (iov': nat, iovcnt': int)
    requires 0 <= iovcnt && iov + iovcnt <= a.Length && size <= Total(a[..][iov..iov + iovcnt])
    modifies a
    ensures iov' + iovcnt' == iov + iovcnt && iovcnt' >= 0
    ensures a[..][iov'..iov + iovcnt] == Left(old(a[..])[iov..iov + iovcnt], size)
    ensures a[..][iov + iovcnt..] == old(a[..])[iov + iovcnt..]
    ensures a[..][..iov'] == old(a[..])[..iov']
  {
    iov', iovcnt' := iov, iovcnt;
    var left: nat := size;
    ghost var was, end := a[..], iov + iovcnt;
    while iovcnt' > 0
      invariant iov <= iov' && iov' + iovcnt' == end && iovcnt' >= 0
      invariant left <= Total(was[iov'..end])
      invariant Left(was[iov'..end], left) == Left(was[iov..end], size)
      modifies {}
    {
      LeftStep(was, iov', end, left);
      if left >= a[iov'].len {
        left := left - a[iov'].len;
        iov' := iov' + 1;
        iovcnt' := iovcnt' - 1;
      } else {
        break;
      }
    }
    assert a[..] == was;
    if iovcnt' > 0 {
      Shorten(a, iov', left);
    }
  }

  lemma LeftStep(was: seq<IoVec>, i: nat, end: nat, k: nat)
    requires i < end <= |was| && k <= Total(was[i..end])
    ensures k >= was[i].len ==> k - was[i].len <= Total(was[i + 1..end])
    ensures k >= was[i].len ==> Left(was[i..end], k) == Left(was[i + 1..end], k - was[i].len)
    ensures k < was[i].len ==>
      var now := was[i := IoVec(was[i].base + k, was[i].len - k)];
      now[i..end] == Left(was[i..end], k) && now[..i] == was[..i] && now[end..] == was[end..]
  {
    assert was[i..end][1..] == was[i + 1..end];
  }

  /** `UpdateIov`, as written or guarded, on a list of which `size` bytes have moved. */
  method UpdateList(guarded: bool, a: array<IoVec>, iov: nat, iovcnt: int, size: nat)
    returns (stray: bool, iov': nat, iovcnt': int)
    requires iovcnt > 0 && iov + iovcnt <= a.Length && size <= Total(a[..][iov..iov + iovcnt])
    modifies a
    ensures stray <==> !guarded && size == Total(old(a[..])[iov..iov + iovcnt])
                       && Total(old(a[..])[iov + iovcnt..]) == 0
    ensures !stray ==> ListUpdated(guarded, old(a[..]), a[..], iov, iovcnt, size, iov', iovcnt')
  {
    ghost var was, end := a[..], iov + iovcnt;
    if guarded {
      LeftIsDrop(was[iov..end], size);
      iov', iovcnt' := GuardedUpdateIov(a, iov, iovcnt, size);
      assert |a[..][iov'..end]| == iovcnt';
      return false, iov', iovcnt';
    }
    VectorRoom(was, iov, end);
    stray, iov', iovcnt' := UpdateIov(a, iov, iovcnt, size);
    if !stray {
      UpdateOfList(was, a[..], iov, iovcnt, size, iov');
    }
  }

  lemma VectorRoom(now: seq<IoVec>, iov: nat, end: nat)
    requires iov <= end <= |now|
    ensures Total(now[iov..]) == Total(now[iov..end]) + Total(now[end..])
  {
    FlatAppend(now[iov..end], now[end..]);
    assert now[iov..] == now[iov..end] + now[end..];
  }
}
