/** The free list of the storage allocator, on values.  Addresses and sizes are in units of
    one header. */
module MallocSpec {
  import opened Basics

  /** The header fields, by address. */
  type Field = map<nat, nat>

  function After(q: seq<nat>, i: nat): nat
    requires i < |q|
  {
    if i + 1 < |q| then q[i + 1] else q[0]
  }

  /** ptr leads round the sequence q and back to its start. */
  ghost predicate Ring(q: seq<nat>, ptr: Field) {
    && q != [] && (forall i :: 0 <= i < |q| ==> q[i] in ptr)
    && forall i {:trigger After(q, i)} {:trigger ptr[q[i]]} :: 0 <= i < |q| ==> ptr[q[i]] == After(q, i)
  }

  /** Ascending addresses and positive sizes behind the static header.  Blocks i and i + 1 may
      touch for lo <= i < hi; otherwise there is a gap of at least one unit. */
  ghost predicate Spaced(q: seq<nat>, size: Field, brk: nat, lo: nat, hi: nat) {
    && q != [] && (forall i :: 0 <= i < |q| ==> q[i] in size)
    && size[q[0]] == 0 && (forall i :: 0 < i < |q| ==> size[q[i]] > 0)
    && (forall i, j {:trigger Pair(q, size, lo, hi, i, j)} :: 0 <= i < j < |q| ==> Pair(q, size, lo, hi, i, j))
    && (forall i :: 0 <= i < |q| ==> q[i] + size[q[i]] <= brk)
  }

  ghost predicate Pair(q: seq<nat>, size: Field, lo: nat, hi: nat, i: nat, j: nat)
    requires i < |q| && j < |q| && q[i] in size
  {
    q[i] < q[j] && q[i] + size[q[i]] <= q[j] && (q[i] + size[q[i]] == q[j] ==> j == i + 1 && lo <= i < hi)
  }

  /** The free list: address-ordered, and no two blocks touch. */
  ghost predicate Ordered(q: seq<nat>, size: Field, brk: nat) {
    Spaced(q, size, brk, 0, 0)
  }

  predicate Inside(a: nat, n: nat, x: nat) {
    a <= x < a + n
  }

  ghost function Range(a: nat, n: nat): set<nat> {
    set x: nat | x < a + n && Inside(a, n, x)
  }

  /** The units in the blocks of q. */
  ghost function Cover(q: seq<nat>, size: Field): set<nat>
    requires forall i :: 0 <= i < |q| ==> q[i] in size
  {
    if q == [] then {} else Range(q[0], size[q[0]]) + Cover(q[1..], size)
  }

  lemma {:induction false} CoverAppend(p: seq<nat>, q: seq<nat>, size: Field)
    requires forall i :: 0 <= i < |p| ==> p[i] in size
    requires forall i :: 0 <= i < |q| ==> q[i] in size
    ensures Cover(p + q, size) == Cover(p, size) + Cover(q, size)
    decreases |p|
  {
    if p == [] {
      assert p + q == q;
    } else {
      assert p + q == [p[0]] + (p[1..] + q);
      CoverAppend(p[1..], q, size);
      assert (p + q)[1..] == p[1..] + q;
    }
  }

  lemma {:induction false} CoverSame(q: seq<nat>, size: Field, size': Field)
    requires forall i :: 0 <= i < |q| ==> q[i] in size && q[i] in size' && size[q[i]] == size'[q[i]]
    ensures Cover(q, size) == Cover(q, size')
    decreases |q|
  {
    if q != [] {
      CoverSame(q[1..], size, size');
    }
  }

  lemma {:induction false} CoverMember(q: seq<nat>, size: Field, i: nat, x: nat)
    requires (forall i :: 0 <= i < |q| ==> q[i] in size) && i < |q| && q[i] <= x < q[i] + size[q[i]]
    ensures x in Cover(q, size)
    decreases |q|
  {
    if i > 0 {
      CoverMember(q[1..], size, i - 1, x);
    }
  }

  // ----- free

  /** The place of address b in the ring: it lies after q[k] and before what follows. */
  ghost predicate PlaceOf(q: seq<nat>, b: nat, k: nat) {
    k < |q| && q[k] < b && (k + 1 < |q| ==> b < q[k + 1])
  }

  /** b, of n units, lies in a gap of the free list. */
  ghost predicate FitsAt(q: seq<nat>, size: Field, brk: nat, b: nat, n: nat, k: nat) {
    && Ordered(q, size, brk) && PlaceOf(q, b, k) && n > 0 && b + n <= brk
    && q[k] + size[q[k]] <= b && (k + 1 < |q| ==> b + n <= q[k + 1])
  }

  function InsertAt(q: seq<nat>, k: nat, b: nat): (r: seq<nat>)
    requires k <= |q|
    ensures |r| == |q| + 1
    ensures forall i :: 0 <= i < |r| ==> r[i] == if i < k then q[i] else if i == k then b else q[i - 1]
  {
    q[..k] + [b] + q[k..]
  }

  function RemoveAt(q: seq<nat>, k: nat): (r: seq<nat>)
    requires k < |q|
    ensures |r| == |q| - 1
    ensures forall i :: 0 <= i < |r| ==> r[i] == if i < k then q[i] else q[i + 1]
  {
    q[..k] + q[k + 1..]
  }

  lemma NotInList(q: seq<nat>, size: Field, brk: nat, b: nat, n: nat, k: nat)
    requires FitsAt(q, size, brk, b, n, k)
    ensures b !in q
  {
    forall i | 0 <= i < |q|
      ensures q[i] != b
    {
      if i < k { assert Pair(q, size, 0, 0, i, k); }
      if i > k + 1 { assert Pair(q, size, 0, 0, k + 1, i); }
    }
  }

  lemma InsertSpaced(q: seq<nat>, size: Field, brk: nat, b: nat, n: nat, k: nat)
    requires FitsAt(q, size, brk, b, n, k)
    ensures Spaced(InsertAt(q, k + 1, b), size[b := n], brk, k, k + 2)
    ensures Cover(InsertAt(q, k + 1, b), size[b := n]) == Cover(q, size) + Range(b, n)
  {
    hide Cover, Range;
    NotInList(q, size, brk, b, n, k);
    InsertCover(q, size, k + 1, b, n);
    var r, size', hi := InsertAt(q, k + 1, b), size[b := n], k + 2;
    forall i, j | 0 <= i < j < |r|
      ensures Pair(r, size', k, hi, i, j)
    {
      InsertPair(q, size, brk, b, n, k, i, j);
    }
  }

  lemma InsertPair(q: seq<nat>, size: Field, brk: nat, b: nat, n: nat, k: nat, i: nat, j: nat)
    requires FitsAt(q, size, brk, b, n, k) && b !in q && i < j <= |q|
    ensures var r := InsertAt(q, k + 1, b);
            r[i] in size[b := n] && Pair(r, size[b := n], k, k + 2, i, j)
  {
    var i0, j0 := if i <= k + 1 then i else i - 1, if j <= k + 1 then j else j - 1;
    if i == k + 1 {
      if j > k + 2 { assert Pair(q, size, 0, 0, k + 1, j - 1); }
    } else if j == k + 1 {
      if i < k { assert Pair(q, size, 0, 0, i, k); }
    } else {
      assert Pair(q, size, 0, 0, i0, j0);
    }
  }

  lemma InsertCover(q: seq<nat>, size: Field, k: nat, b: nat, n: nat)
    requires k <= |q| && b !in q && forall i :: 0 <= i < |q| ==> q[i] in size
    ensures Cover(InsertAt(q, k, b), size[b := n]) == Cover(q, size) + Range(b, n)
  {
    var size' := size[b := n];
    CoverAppend(q[..k], q[k..], size);
    assert q[..k] + q[k..] == q;
    CoverAppend(q[..k] + [b], q[k..], size');
    CoverAppend(q[..k], [b], size');
    CoverSame(q[..k], size, size');
    CoverSame(q[k..], size, size');
  }

  /** Whether block i touches the next one. */
  predicate Touches(q: seq<nat>, size: Field, i: nat)
    requires i < |q| && q[i] in size
  {
    i + 1 < |q| && q[i] + size[q[i]] == q[i + 1]
  }

  /** Absorbing the next block if it touches. */
  function JoinedList(q: seq<nat>, size: Field, i: nat): seq<nat>
    requires i < |q| && q[i] in size
  {
    if Touches(q, size, i) then RemoveAt(q, i + 1) else q
  }

  function JoinedSize(q: seq<nat>, size: Field, i: nat): Field
    requires i < |q| && q[i] in size && (i + 1 < |q| ==> q[i + 1] in size)
  {
    if Touches(q, size, i) then size[q[i] := size[q[i]] + size[q[i + 1]]] else size
  }

  lemma JoinSpaced(q: seq<nat>, size: Field, brk: nat, lo: nat, i: nat)
    requires lo <= i < |q| && Spaced(q, size, brk, lo, i + 1)
    ensures Spaced(JoinedList(q, size, i), JoinedSize(q, size, i), brk, lo, i)
    ensures Cover(JoinedList(q, size, i), JoinedSize(q, size, i)) == Cover(q, size)
  {
    var r, size' := JoinedList(q, size, i), JoinedSize(q, size, i);
    forall a, b | 0 <= a < b < |q|
      ensures q[a] < q[b]
    {
      assert Pair(q, size, lo, i + 1, a, b);
    }
    if Touches(q, size, i) {
      assert i > 0 by { assert Pair(q, size, lo, i + 1, i, i + 1); }
      JoinCover(q, size, i);
    }
    forall a, b | 0 <= a < b < |r|
      ensures Pair(r, size', lo, i, a, b)
    {
      JoinPair(q, size, brk, lo, i, a, b);
    }
  }

  lemma JoinPair(q: seq<nat>, size: Field, brk: nat, lo: nat, i: nat, a: nat, b: nat)
    requires lo <= i < |q| && Spaced(q, size, brk, lo, i + 1) && a < b < |JoinedList(q, size, i)|
    ensures var r := JoinedList(q, size, i);
            r[a] in JoinedSize(q, size, i) && Pair(r, JoinedSize(q, size, i), lo, i, a, b)
  {
    if Touches(q, size, i) {
      if a == i {
        assert Pair(q, size, lo, i + 1, i, b + 1);
        assert Pair(q, size, lo, i + 1, i + 1, b + 1);
      } else {
        JoinOther(q, size, brk, lo, i, a, b);
      }
    } else {
      assert Pair(q, size, lo, i + 1, a, b);
    }
  }

  lemma JoinOther(q: seq<nat>, size: Field, brk: nat, lo: nat, i: nat, a: nat, b: nat)
    requires lo <= i < |q| && Spaced(q, size, brk, lo, i + 1) && a < b < |q| - 1 && a != i && Touches(q, size, i)
    ensures var r := RemoveAt(q, i + 1);
            var size' := size[q[i] := size[q[i]] + size[q[i + 1]]];
            r[a] in size' && Pair(r, size', lo, i, a, b)
  {
    var a0, b0 := if a < i then a else a + 1, if b <= i then b else b + 1;
    assert Pair(q, size, lo, i + 1, a0, b0);
    assert q[a0] != q[i] by {
      if a0 < i { assert Pair(q, size, lo, i + 1, a0, i); } else { assert Pair(q, size, lo, i + 1, i, a0); }
    }
    var r := RemoveAt(q, i + 1);
    assert r[a] == q[a0] && r[b] == q[b0];
  }

  lemma JoinCover(q: seq<nat>, size: Field, i: nat)
    requires i < |q| && (forall i :: 0 <= i < |q| ==> q[i] in size) && Touches(q, size, i)
    requires forall i, j :: 0 <= i < j < |q| ==> q[i] < q[j]
    ensures Cover(RemoveAt(q, i + 1), JoinedSize(q, size, i)) == Cover(q, size)
  {
    var size', r := JoinedSize(q, size, i), RemoveAt(q, i + 1);
    CoverSplit(q, size, i);
    assert q[i + 1..][1..] == q[i + 2..];
    CoverSplit(r, size', i);
    assert r[..i] == q[..i] && r[i + 1..] == q[i + 2..];
    CoverSame(q[..i], size, size');
    CoverSame(q[i + 2..], size, size');
    RangeJoin(q[i], size[q[i]], size[q[i + 1]]);
  }

  lemma CoverSplit(q: seq<nat>, size: Field, k: nat)
    requires k < |q| && forall i :: 0 <= i < |q| ==> q[i] in size
    ensures Cover(q, size) == Cover(q[..k], size) + Range(q[k], size[q[k]]) + Cover(q[k + 1..], size)
  {
    CoverAppend(q[..k], q[k..], size);
    assert q[..k] + q[k..] == q && q[k..][1..] == q[k + 1..];
  }

  lemma RangeJoin(a: nat, n: nat, m: nat)
    ensures Range(a, n + m) == Range(a, n) + Range(a + n, m)
  {
  }

  // ----- the ring under these changes

  lemma SpacedDistinct(q: seq<nat>, size: Field, brk: nat, lo: nat, hi: nat)
    requires Spaced(q, size, brk, lo, hi)
    ensures Distinct(q) && (forall i, j :: 0 <= i < j < |q| ==> q[i] < q[j]) && forall i :: 0 <= i < |q| ==> q[i] in size
  {
    forall i, j | 0 <= i < j < |q|
      ensures q[i] < q[j]
    {
      assert Pair(q, size, lo, hi, i, j);
    }
  }

  lemma RingInsert(q: seq<nat>, ptr: Field, k: nat, b: nat)
    requires Ring(q, ptr) && Distinct(q) && k < |q| && b !in q
    ensures Ring(InsertAt(q, k + 1, b), ptr[b := ptr[q[k]]][q[k] := b])
  {
    var r, ptr' := InsertAt(q, k + 1, b), ptr[b := ptr[q[k]]][q[k] := b];
    forall i | 0 <= i < |r|
      ensures r[i] in ptr' && ptr'[r[i]] == After(r, i)
    {
      var i0 := if i <= k then i else if i == k + 1 then k else i - 1;
      assert ptr[q[i0]] == After(q, i0);
    }
  }

  lemma RingRemove(q: seq<nat>, ptr: Field, i: nat)
    requires Ring(q, ptr) && Distinct(q) && i + 1 < |q|
    ensures Ring(RemoveAt(q, i + 1), ptr[q[i] := ptr[q[i + 1]]])
  {
    var r, ptr' := RemoveAt(q, i + 1), ptr[q[i] := ptr[q[i + 1]]];
    forall j | 0 <= j < |r|
      ensures r[j] in ptr' && ptr'[r[j]] == After(r, j)
    {
      RingRemoveAt(q, ptr, i, j);
    }
  }

  lemma RingRemoveAt(q: seq<nat>, ptr: Field, i: nat, j: nat)
    requires Ring(q, ptr) && Distinct(q) && i + 1 < |q| && j < |q| - 1
    ensures var r := RemoveAt(q, i + 1);
            var ptr' := ptr[q[i] := ptr[q[i + 1]]];
            r[j] in ptr' && ptr'[r[j]] == After(r, j)
  {
    var r := RemoveAt(q, i + 1);
    if j < i {
      assert r[j] == q[j] && q[j] != q[i] && ptr[q[j]] == After(q, j) == After(r, j);
    } else if j == i {
      assert r[j] == q[i] && ptr[q[i + 1]] == After(q, i + 1) == After(r, j);
    } else {
      assert r[j] == q[j + 1] && q[j + 1] != q[i] && ptr[q[j + 1]] == After(q, j + 1) == After(r, j);
    }
  }

  /** What free makes of the list and the sizes: insert behind q[k], then merge upwards and
      downwards. */
  ghost function FreedList(q: seq<nat>, size: Field, b: nat, k: nat): seq<nat>
    requires k < |q| && (forall i :: 0 <= i < |q| ==> q[i] in size) && b in size
  {
    var q1 := InsertAt(q, k + 1, b);
    JoinedList(JoinedList(q1, size, k + 1), JoinedSize(q1, size, k + 1), k)
  }

  ghost function FreedSize(q: seq<nat>, size: Field, b: nat, k: nat): Field
    requires k < |q| && (forall i :: 0 <= i < |q| ==> q[i] in size) && b in size
  {
    var q1 := InsertAt(q, k + 1, b);
    JoinedSize(JoinedList(q1, size, k + 1), JoinedSize(q1, size, k + 1), k)
  }

  lemma FreedOk(q: seq<nat>, size: Field, brk: nat, b: nat, n: nat, k: nat)
    requires b in size && size[b] == n && FitsAt(q, size, brk, b, n, k)
    ensures Ordered(FreedList(q, size, b, k), FreedSize(q, size, b, k), brk)
    ensures Cover(FreedList(q, size, b, k), FreedSize(q, size, b, k)) == Cover(q, size) + Range(b, n)
    ensures FreedList(q, size, b, k)[0] == q[0] && q[k] in FreedList(q, size, b, k)
  {
    assert size[b := n] == size;
    InsertSpaced(q, size, brk, b, n, k);
    var q1 := InsertAt(q, k + 1, b);
    JoinSpaced(q1, size, brk, k, k + 1);
    var q2, size2 := JoinedList(q1, size, k + 1), JoinedSize(q1, size, k + 1);
    assert q2[k] == q[k];
    JoinSpaced(q2, size2, brk, k, k);
    assert JoinedList(q2, size2, k)[k] == q[k];
    NoTouch(FreedList(q, size, b, k), FreedSize(q, size, b, k), brk, k);
  }

  lemma NoTouch(q: seq<nat>, size: Field, brk: nat, k: nat)
    requires Spaced(q, size, brk, k, k)
    ensures Ordered(q, size, brk)
  {
    forall i, j | 0 <= i < j < |q|
      ensures Pair(q, size, 0, 0, i, j)
    {
      assert Pair(q, size, k, k, i, j);
    }
  }

  /** b goes behind q[k]: "bp + bp->s.size == p->s.ptr" says that it touches the next block, since
      at the end of the list ptr leads back to a smaller address. */
  ghost predicate GoesBehind(q: seq<nat>, size: Field, b: nat, k: nat) {
    && k < |q| && b in size && b !in q && Distinct(q) && Distinct(InsertAt(q, k + 1, b))
    && (forall i :: 0 <= i < |q| ==> q[i] in size)
    && (b + size[b] == After(q, k) <==> Touches(InsertAt(q, k + 1, b), size, k + 1))
  }

  lemma UpTouch(q: seq<nat>, size: Field, brk: nat, b: nat, k: nat)
    requires b in size && FitsAt(q, size, brk, b, size[b], k)
    ensures GoesBehind(q, size, b, k)
  {
    SpacedDistinct(q, size, brk, 0, 0);
    NotInList(q, size, brk, b, size[b], k);
    if k + 1 == |q| && k > 0 {
      assert Pair(q, size, 0, 0, 0, k);
    }
  }

  /** First half of free, when the block absorbs the next one x. */
  lemma LinkUpMerge(q: seq<nat>, ptr: Field, b: nat, k: nat)
    requires Ring(q, ptr) && Distinct(q) && b !in q && k + 1 < |q| && Distinct(InsertAt(q, k + 1, b))
    ensures var q2 := RemoveAt(InsertAt(q, k + 1, b), k + 2);
            q2[k] == q[k] && q2[k + 1] == b && Ring(q2, ptr[b := ptr[q[k + 1]]][q[k] := b])
  {
    RingInsert(q, ptr, k, b);
    assert ptr[q[k]] == After(q, k) == q[k + 1];
    var ptr1 := ptr[b := ptr[q[k]]][q[k] := b];
    RingRemove(InsertAt(q, k + 1, b), ptr1, k + 1);
    assert ptr1[q[k + 1]] == ptr[q[k + 1]];
    assert ptr1[b := ptr[q[k + 1]]] == ptr[b := ptr[q[k + 1]]][q[k] := b];
  }

  lemma DistinctRemove(q: seq<nat>, k: nat)
    requires k < |q| && Distinct(q)
    ensures Distinct(RemoveAt(q, k))
  {
  }

  /** Second half: after merging downwards. */
  lemma LinkDown(q2: seq<nat>, size2: Field, ptrA: Field, b: nat, k: nat)
    requires k + 1 < |q2| && q2[k + 1] == b && Distinct(q2) && b in ptrA && q2[k] in size2
    requires Ring(q2, ptrA[q2[k] := b])
    ensures var p := q2[k];
            Ring(JoinedList(q2, size2, k), if p + size2[p] == b then ptrA[p := ptrA[b]] else ptrA[p := b])
  {
    var p := q2[k];
    assert p != b;
    if p + size2[p] == b {
      RingRemove(q2, ptrA[p := b], k);
      assert ptrA[p := b][p := ptrA[b]] == ptrA[p := ptrA[b]];
    }
  }

  // ----- malloc

  /** A unit of the free list belongs to one of its blocks. */
  lemma {:induction false} CoverBlock(q: seq<nat>, size: Field, x: nat) returns (i: nat)
    requires (forall i :: 0 <= i < |q| ==> q[i] in size) && x in Cover(q, size)
    ensures i < |q| && q[i] <= x < q[i] + size[q[i]]
    decreases |q|
  {
    if x in Range(q[0], size[q[0]]) {
      i := 0;
    } else {
      i := CoverBlock(q[1..], size, x);
      i := i + 1;
    }
  }

  lemma CoverBelow(q: seq<nat>, size: Field, brk: nat)
    requires Ordered(q, size, brk)
    ensures forall x :: x in Cover(q, size) ==> q[0] < x < brk
  {
    forall x | x in Cover(q, size)
      ensures q[0] < x < brk
    {
      var i := CoverBlock(q, size, x);
      if i > 0 {
        assert Pair(q, size, 0, 0, 0, i);
      }
    }
  }

  /** Unlinking block i leaves an address-ordered list without its units. */
  lemma UnlinkOk(q: seq<nat>, size: Field, brk: nat, i: nat)
    requires Ordered(q, size, brk) && 0 < i < |q|
    ensures Ordered(RemoveAt(q, i), size, brk)
    ensures Cover(q, size) == Cover(RemoveAt(q, i), size) + Range(q[i], size[q[i]])
    ensures Cover(RemoveAt(q, i), size) !! Range(q[i], size[q[i]])
  {
    var r := RemoveAt(q, i);
    forall a, b | 0 <= a < b < |r|
      ensures Pair(r, size, 0, 0, a, b)
    {
      assert Pair(q, size, 0, 0, if a < i then a else a + 1, if b < i then b else b + 1);
    }
    CoverSplit(q, size, i);
    CoverAppend(q[..i], q[i + 1..], size);
    UnlinkApart(q, size, brk, i);
  }

  lemma UnlinkApart(q: seq<nat>, size: Field, brk: nat, i: nat)
    requires Ordered(q, size, brk) && i < |q|
    ensures Cover(RemoveAt(q, i), size) !! Range(q[i], size[q[i]])
  {
    forall x | x in Cover(RemoveAt(q, i), size)
      ensures x !in Range(q[i], size[q[i]])
    {
      var j := CoverBlock(RemoveAt(q, i), size, x);
      if j < i { assert Pair(q, size, 0, 0, j, i); } else { assert Pair(q, size, 0, 0, i, j + 1); }
    }
  }

  /** Where the tail of n units split off block i begins, and the sizes after the split. */
  function TailOf(q: seq<nat>, size: Field, i: nat, n: nat): nat
    requires i < |q| && q[i] in size && n <= size[q[i]]
  {
    q[i] + (size[q[i]] - n)
  }

  function SplitSize(q: seq<nat>, size: Field, i: nat, n: nat): Field
    requires i < |q| && q[i] in size && n <= size[q[i]]
  {
    size[q[i] := size[q[i]] - n][TailOf(q, size, i, n) := n]
  }

  lemma TailNotInList(q: seq<nat>, size: Field, brk: nat, i: nat, n: nat)
    requires Ordered(q, size, brk) && i < |q| && 0 < n < size[q[i]]
    ensures TailOf(q, size, i, n) !in q
  {
    forall j | 0 <= j < |q|
      ensures q[j] != TailOf(q, size, i, n)
    {
      if j < i { assert Pair(q, size, 0, 0, j, i); }
      if i < j { assert Pair(q, size, 0, 0, i, j); }
    }
  }

  /** Splitting keeps the list and takes exactly the tail out of it. */
  lemma SplitOk(q: seq<nat>, size: Field, brk: nat, i: nat, n: nat)
    requires Ordered(q, size, brk) && i < |q| && 0 < n < size[q[i]]
    ensures Ordered(q, SplitSize(q, size, i, n), brk)
    ensures Cover(q, size) == Cover(q, SplitSize(q, size, i, n)) + Range(TailOf(q, size, i, n), n)
    ensures Cover(q, SplitSize(q, size, i, n)) !! Range(TailOf(q, size, i, n), n)
  {
    TailNotInList(q, size, brk, i, n);
    SpacedDistinct(q, size, brk, 0, 0);
    SplitOrdered(q, size, brk, i, n);
    SplitCover(q, size, i, n);
    SplitApart(q, size, brk, i, n);
  }

  lemma SplitOrdered(q: seq<nat>, size: Field, brk: nat, i: nat, n: nat)
    requires Ordered(q, size, brk) && i < |q| && 0 < n < size[q[i]] && Distinct(q) && TailOf(q, size, i, n) !in q
    ensures Ordered(q, SplitSize(q, size, i, n), brk)
  {
    var size' := SplitSize(q, size, i, n);
    forall a, b | 0 <= a < b < |q|
      ensures Pair(q, size', 0, 0, a, b)
    {
      assert Pair(q, size, 0, 0, a, b);
    }
  }

  lemma SplitApart(q: seq<nat>, size: Field, brk: nat, i: nat, n: nat)
    requires Ordered(q, size, brk) && i < |q| && 0 < n < size[q[i]] && Distinct(q) && TailOf(q, size, i, n) !in q
    ensures Cover(q, SplitSize(q, size, i, n)) !! Range(TailOf(q, size, i, n), n)
  {
    var size' := SplitSize(q, size, i, n);
    forall x | x in Cover(q, size')
      ensures x !in Range(TailOf(q, size, i, n), n)
    {
      var j := CoverBlock(q, size', x);
      if j < i { assert Pair(q, size, 0, 0, j, i); }
      if i < j { assert Pair(q, size, 0, 0, i, j); }
    }
  }

  lemma SplitCover(q: seq<nat>, size: Field, i: nat, n: nat)
    requires (forall j :: 0 <= j < |q| ==> q[j] in size) && Distinct(q) && i < |q| && 0 < n < size[q[i]]
    requires TailOf(q, size, i, n) !in q
    ensures Cover(q, size) == Cover(q, SplitSize(q, size, i, n)) + Range(TailOf(q, size, i, n), n)
  {
    hide Cover, Range;
    var size' := SplitSize(q, size, i, n);
    CoverSplit(q, size, i);
    CoverSplit(q, size', i);
    CoverSame(q[..i], size, size');
    CoverSame(q[i + 1..], size, size');
    RangeJoin(q[i], size[q[i]] - n, n);
  }
}
