/** The buffer cache: NBUF buffers on a circular doubly linked list, most recently used
    first, with a sentinel head.  Pointers are indices and the sentinel has index NBUF. */
module BufferCache {
  import opened Basics
  import opened LogDisk

  const NBUF: nat := MAXOPBLOCKS * 3
  const HEAD: nat := NBUF

  datatype Key = Key(dev: nat, blockno: nat)

  /** The element after position i, going round. */
  function After(q: seq<nat>, i: nat): nat
    requires i < |q|
  {
    if i + 1 < |q| then q[i + 1] else q[0]
  }

  /** next and prev walk the sequence q in a circle, forwards and backwards. */
  ghost predicate Linked(next: seq<nat>, prev: seq<nat>, q: seq<nat>) {
    && |next| == |prev| == NBUF + 1 && Distinct(q) && q != []
    && (forall i :: 0 <= i < |q| ==> q[i] <= NBUF)
    && (forall i {:trigger next[q[i]]} {:trigger After(q, i)} :: 0 <= i < |q| ==> next[q[i]] == After(q, i))
    && (forall i {:trigger After(q, i)} :: 0 <= i < |q| ==> After(q, i) <= NBUF && prev[After(q, i)] == q[i])
  }

  function Without(q: seq<nat>, k: nat): (r: seq<nat>)
    requires k < |q|
    ensures |r| == |q| - 1
    ensures forall i :: 0 <= i < |r| ==> r[i] == if i < k then q[i] else q[i + 1]
  {
    q[..k] + q[k + 1..]
  }

  lemma LinkedUnique(next: seq<nat>, prev: seq<nat>, q: seq<nat>, i: nat, j: nat)
    requires Linked(next, prev, q) && i < |q| && j < |q|
    requires q[i] == q[j] || After(q, i) == After(q, j)
    ensures i == j
  {
    assert prev[After(q, i)] == q[i] && prev[After(q, j)] == q[j];
  }

  lemma UnlinkAt(next: seq<nat>, prev: seq<nat>, q: seq<nat>, k: nat, i: nat)
    requires Linked(next, prev, q) && 0 < k < |q| && i < |q| - 1
    requires prev[q[k]] == q[k - 1] && next[q[k]] == After(q, k)
    ensures var r := Without(q, k);
            && next[q[k - 1] := After(q, k)][r[i]] == After(r, i)
            && After(r, i) <= NBUF
            && prev[After(q, k) := q[k - 1]][After(r, i)] == r[i]
  {
    var r := Without(q, k);
    var i0 := if i < k then i else i + 1;
    if i0 == k - 1 {
      assert After(r, i) == After(q, k);
    } else {
      assert After(r, i) == After(q, i0);
      assert prev[After(q, i0)] == q[i0];
      if After(q, k) == After(q, i0) { LinkedUnique(next, prev, q, k, i0); }
    }
  }

  /** Unlinking: the neighbours of q[k] point to each other. */
  lemma UnlinkLinked(next: seq<nat>, prev: seq<nat>, q: seq<nat>, k: nat)
    requires Linked(next, prev, q) && 0 < k < |q|
    ensures next[q[k]] <= NBUF && prev[q[k]] <= NBUF
    ensures Linked(next[prev[q[k]] := next[q[k]]], prev[next[q[k]] := prev[q[k]]], Without(q, k))
  {
    assert After(q, k - 1) == q[k];
    assert prev[q[k]] == q[k - 1] && next[q[k]] == After(q, k);
    var r := Without(q, k);
    var next', prev' := next[q[k - 1] := After(q, k)], prev[After(q, k) := q[k - 1]];
    forall i | 0 <= i < |r|
      ensures next'[r[i]] == After(r, i) && After(r, i) <= NBUF && prev'[After(r, i)] == r[i]
    {
      UnlinkAt(next, prev, q, k, i);
    }
  }

  /** Pushing b right after the head. */
  lemma PushLinked(next: seq<nat>, prev: seq<nat>, q: seq<nat>, b: nat)
    requires Linked(next, prev, q) && b <= NBUF && b !in q
    ensures next[q[0]] <= NBUF
    ensures Linked(next[b := next[q[0]]][q[0] := b], prev[b := q[0]][next[q[0]] := b], [q[0], b] + q[1..])
  {
    var h := q[0];
    var r := [h, b] + q[1..];
    var f := next[h];
    var next', prev' := next[b := f][h := b], prev[b := h][f := b];
    assert f == After(q, 0);
    forall i | 0 <= i < |r|
      ensures next'[r[i]] == After(r, i) && After(r, i) <= NBUF && prev'[After(r, i)] == r[i]
    {
      if i >= 2 {
        assert r[i] == q[i - 1];
        assert After(r, i) == After(q, i - 1);
        assert prev[After(q, i - 1)] == q[i - 1];
        assert prev[After(q, 0)] == q[0];
        assert q[i - 1] != q[0];
      }
    }
  }

  // ----- the cache

  datatype Buf = Buf(dev: nat, blockno: nat, valid: bool, refcnt: nat, data: Block) {
    /** The block the buffer is for. */
    function At(): Key { Key(dev, blockno) }
  }

  /** A block on a real device is in at most one buffer. */
  ghost predicate UniqueKeys(bs: seq<Buf>) {
    forall i, j :: 0 <= i < |bs| && 0 <= j < |bs| && i != j && bs[i].dev != 0 ==> bs[i].At() != bs[j].At()
  }

  /** No buffer changed since its last bwrite is for block k. */
  ghost predicate CleanAt(bs: seq<Buf>, dirty: set<nat>, k: Key) {
    forall i :: 0 <= i < |bs| && i in dirty ==> bs[i].At() != k
  }

  /** Buffers and disk together hold the flat array mem. */
  ghost predicate Faithful(bs: seq<Buf>, disk: map<Key, Block>, mem: map<Key, Block>, dirty: set<nat>) {
    && disk.Keys == mem.Keys
    && (forall i :: 0 <= i < |bs| && bs[i].valid && bs[i].dev != 0 ==>
          bs[i].At() in mem && bs[i].data == mem[bs[i].At()])
    && (forall i :: 0 <= i < |bs| && i in dirty ==> bs[i].dev != 0 && bs[i].valid && bs[i].refcnt > 0)
    && (forall k :: k in mem && CleanAt(bs, dirty, k) ==> disk[k] == mem[k])
  }

  /** Changing a reference count keeps the cache faithful while dirty buffers keep one. */
  lemma RefcntFaithful(bs: seq<Buf>, disk: map<Key, Block>, mem: map<Key, Block>, dirty: set<nat>, b: nat, n: nat)
    requires b < |bs| && UniqueKeys(bs) && Faithful(bs, disk, mem, dirty) && (b in dirty ==> n > 0)
    ensures UniqueKeys(bs[b := bs[b].(refcnt := n)]) && Faithful(bs[b := bs[b].(refcnt := n)], disk, mem, dirty)
  {
    var cs := bs[b := bs[b].(refcnt := n)];
    assert forall i :: 0 <= i < |bs| ==> cs[i].At() == bs[i].At();
    assert forall k :: CleanAt(cs, dirty, k) ==> CleanAt(bs, dirty, k);
  }

  /** Giving an unreferenced buffer to a block that no buffer is for. */
  lemma RecycleFaithful(bs: seq<Buf>, disk: map<Key, Block>, mem: map<Key, Block>, dirty: set<nat>, b: nat, key: Key)
    requires b < |bs| && UniqueKeys(bs) && Faithful(bs, disk, mem, dirty) && bs[b].refcnt == 0
    requires forall i :: 0 <= i < |bs| ==> bs[i].At() != key
    ensures var c := bs[b].(dev := key.dev, blockno := key.blockno, valid := false, refcnt := 1);
            UniqueKeys(bs[b := c]) && Faithful(bs[b := c], disk, mem, dirty) && b !in dirty
  {
    var cs := bs[b := bs[b].(dev := key.dev, blockno := key.blockno, valid := false, refcnt := 1)];
    assert b !in dirty;
    assert forall k :: CleanAt(cs, dirty, k) ==> CleanAt(bs, dirty, k) by {
      forall k, i | CleanAt(cs, dirty, k) && 0 <= i < |bs| && i in dirty
        ensures bs[i].At() != k
      {
        assert cs[i].At() != k;
      }
    }
  }

  /** Reading a block in from disk. */
  lemma LoadFaithful(bs: seq<Buf>, disk: map<Key, Block>, mem: map<Key, Block>, dirty: set<nat>, b: nat)
    requires b < |bs| && UniqueKeys(bs) && Faithful(bs, disk, mem, dirty)
    requires bs[b].dev != 0 && !bs[b].valid && bs[b].At() in mem
    ensures var c := bs[b].(data := disk[bs[b].At()], valid := true);
            && UniqueKeys(bs[b := c]) && Faithful(bs[b := c], disk, mem, dirty)
            && c.data == mem[bs[b].At()]
  {
    var cs := bs[b := bs[b].(data := disk[bs[b].At()], valid := true)];
    assert CleanAt(bs, dirty, bs[b].At());
    assert forall i :: 0 <= i < |bs| ==> cs[i].At() == bs[i].At();
    assert forall k :: CleanAt(cs, dirty, k) ==> CleanAt(bs, dirty, k);
  }

  /** Changing the data of a referenced buffer changes the flat array at its block. */
  lemma StoreFaithful(bs: seq<Buf>, disk: map<Key, Block>, mem: map<Key, Block>, dirty: set<nat>, b: nat, v: Block)
    requires b < |bs| && UniqueKeys(bs) && Faithful(bs, disk, mem, dirty)
    requires bs[b].dev != 0 && bs[b].valid && bs[b].refcnt > 0
    ensures UniqueKeys(bs[b := bs[b].(data := v)])
    ensures Faithful(bs[b := bs[b].(data := v)], disk, mem[bs[b].At() := v], dirty + {b})
  {
    var cs := bs[b := bs[b].(data := v)];
    assert forall i :: 0 <= i < |bs| ==> cs[i].At() == bs[i].At();
    assert forall k :: CleanAt(cs, dirty + {b}, k) ==> k != bs[b].At() && CleanAt(bs, dirty, k);
  }

  /** Writing a buffer to disk. */
  lemma WriteFaithful(bs: seq<Buf>, disk: map<Key, Block>, mem: map<Key, Block>, dirty: set<nat>, b: nat)
    requires b < |bs| && UniqueKeys(bs) && Faithful(bs, disk, mem, dirty) && bs[b].dev != 0 && bs[b].valid
    ensures Faithful(bs, disk[bs[b].At() := bs[b].data], mem, dirty - {b})
  {
    assert forall k :: k != bs[b].At() && CleanAt(bs, dirty - {b}, k) ==> CleanAt(bs, dirty, k);
  }

  /** Every buffer used less recently than b has references. */
  ghost predicate LeastRecent(bs: seq<Buf>, order: seq<nat>, b: nat) {
    exists k :: 0 <= k < |order| && order[k] == b
                && forall j :: k < j < |order| ==> order[j] < |bs| && bs[order[j]].refcnt > 0
  }

  /** What bget does to the buffers.  A buffer is given to another block only if no buffer is
      for that block and nobody refers to it; it is then the least recently used such buffer.
      None is the panic "no buffers". */
  ghost predicate Got(bs: seq<Buf>, cs: seq<Buf>, order: seq<nat>, key: Key, r: Option<nat>) {
    match r
    case None => cs == bs && forall i :: 0 <= i < |bs| ==> bs[i].At() != key && bs[i].refcnt > 0
    case Some(b) =>
      b < |bs| && if bs[b].At() == key then cs == bs[b := bs[b].(refcnt := bs[b].refcnt + 1)]
                  else && (forall i :: 0 <= i < |bs| ==> bs[i].At() != key)
                       && bs[b].refcnt == 0 && LeastRecent(bs, order, b)
                       && cs == bs[b := Buf(key.dev, key.blockno, false, 1, bs[b].data)]
  }

  class Cache {
    const next: array<nat>
    const prev: array<nat>
    const buf: array<Buf>
    var disk: map<Key, Block>
    ghost var order: seq<nat>       // the list without the head, most recently used first
    ghost var mem: map<Key, Block>  // the flat array the cache stands for
    ghost var dirty: set<nat>       // buffers changed since their last bwrite

    /** The list holds every buffer exactly once. */
    ghost predicate ValidList()
      reads this, next, prev
    {
      && next.Length == NBUF + 1 && prev.Length == NBUF + 1 && next != prev
      && |order| == NBUF && Linked(next[..], prev[..], [HEAD] + order)
      && (forall i :: 0 <= i < |order| ==> order[i] < NBUF)
      && forall i :: 0 <= i < NBUF ==> i in order
    }

    ghost predicate Valid()
      reads this, next, prev, buf
    {
      && ValidList() && buf.Length == NBUF
      && UniqueKeys(buf[..]) && Faithful(buf[..], disk, mem, dirty)
      && forall i :: i in dirty ==> i < NBUF
    }

    /** binit: insert the buffers at the head one by one. */
    constructor (disk: map<Key, Block>, zero: Block)
      ensures Valid() && this.disk == disk && mem == disk && dirty == {}
      ensures fresh(next) && fresh(prev) && fresh(buf)
      ensures forall i :: 0 <= i < NBUF ==> buf[i] == Buf(0, 0, false, 0, zero)
    {
      next := new nat[NBUF + 1](_ => 0);
      prev := new nat[NBUF + 1](_ => 0);
      buf := new Buf[NBUF](_ => Buf(0, 0, false, 0, zero));
      this.disk := disk;
      mem := disk;
      dirty := {};
      order := [];
      new;
      prev[HEAD] := HEAD;
      next[HEAD] := HEAD;
      var b := 0;
      while b < NBUF
        invariant 0 <= b <= NBUF && |order| == b
        invariant Linked(next[..], prev[..], [HEAD] + order)
        invariant forall i :: 0 <= i < NBUF ==> (i in order <==> i < b)
        invariant forall i :: 0 <= i < |order| ==> order[i] < NBUF
        invariant forall i :: 0 <= i < NBUF ==> buf[i] == Buf(0, 0, false, 0, zero)
        invariant this.disk == disk == mem && dirty == {}
        modifies next, prev, this`order
      {
        Push(b);
        b := b + 1;
      }
    }

    /** Link b in right after the head. */
    method Push(b: nat)
      requires next != prev && next.Length == NBUF + 1 && prev.Length == NBUF + 1
      requires Linked(next[..], prev[..], [HEAD] + order) && b < NBUF && b !in order
      modifies next, prev, this`order
      ensures order == [b] + old(order) && Linked(next[..], prev[..], [HEAD] + order)
    {
      PushLinked(next[..], prev[..], [HEAD] + order, b);
      ghost var n: seq<nat>, p: seq<nat>, f := next[..], prev[..], next[HEAD];
      next[b] := next[HEAD];
      prev[b] := HEAD;
      prev[next[HEAD]] := b;
      next[HEAD] := b;
      assert next[..] == n[b := f][HEAD := b];
      assert prev[..] == p[b := HEAD][f := b];
      assert [HEAD, b] + ([HEAD] + order)[1..] == [HEAD] + ([b] + order);
      order := [b] + order;
    }

    /** Take b out of the list. */
    method Unlink(b: nat, ghost k: nat)
      requires next != prev && next.Length == NBUF + 1 && prev.Length == NBUF + 1
      requires Linked(next[..], prev[..], [HEAD] + order) && k < |order| && order[k] == b
      modifies next, prev, this`order
      ensures order == Without(old(order), k) && Linked(next[..], prev[..], [HEAD] + order)
    {
      ghost var q := [HEAD] + order;
      UnlinkLinked(next[..], prev[..], q, k + 1);
      ghost var n, p, nb, pb := next[..], prev[..], next[b], prev[b];
      assert q[k + 1] == b;
      prev[next[b]] := prev[b];
      assert prev[b] == pb by {
        assert After(q, k) == b;
        assert next[q[k]] == b;
      }
      next[prev[b]] := next[b];
      assert next[..] == n[pb := nb];
      assert prev[..] == p[nb := pb];
      assert Without(q, k + 1) == [HEAD] + Without(order, k);
      order := Without(order, k);
    }
  
    /** The first loop of bget: the buffer for a block, or the head. */
    method FindCached(dev: nat, blockno: nat) returns (b: nat)
      requires Valid()
      ensures b <= NBUF
      ensures b < NBUF ==> buf[b].At() == Key(dev, blockno)
      ensures b == HEAD ==> forall i :: 0 <= i < NBUF ==> buf[i].At() != Key(dev, blockno)
    {
      ghost var q := [HEAD] + order;
      ghost var i := 0;
      assert After(q, 0) == order[0];
      b := next[HEAD];
      while b != HEAD
        invariant 0 <= i < |q| && b == After(q, i) && b <= NBUF
        invariant forall j :: 0 <= j < i ==> buf[order[j]].At() != Key(dev, blockno)
        decreases |q| - i
      {
        assert b == order[i];
        if buf[b].dev == dev && buf[b].blockno == blockno {
          return;
        }
        i := i + 1;
        b := next[b];
      }
      assert i == NBUF;
      forall x | 0 <= x < NBUF
        ensures buf[x].At() != Key(dev, blockno)
      {
        assert x in order;
      }
    }

    /** The second loop of bget: the least recently used buffer with no references. */
    method FindFree() returns (b: nat, ghost k: nat)
      requires Valid()
      ensures b <= NBUF
      ensures b < NBUF ==> k < NBUF && order[k] == b && buf[b].refcnt == 0
      ensures b < NBUF ==> forall j :: k < j < NBUF ==> buf[order[j]].refcnt > 0
      ensures b == HEAD ==> forall i :: 0 <= i < NBUF ==> buf[i].refcnt > 0
    {
      ghost var q := [HEAD] + order;
      assert After(q, NBUF) == HEAD;
      b := prev[HEAD];
      k := NBUF;
      while b != HEAD
        invariant 0 <= k <= NBUF && b == q[k] && b <= NBUF
        invariant forall j :: k <= j < NBUF ==> buf[order[j]].refcnt > 0
        decreases k
      {
        assert k > 0 && order[k - 1] == b;
        if buf[b].refcnt == 0 {
          k := k - 1;
          return;
        }
        assert After(q, k - 1) == b;
        b := prev[b];
        k := k - 1;
      }
      assert k == 0;
      forall x | 0 <= x < NBUF
        ensures buf[x].refcnt > 0
      {
        assert x in order;
      }
    }

    /** bget: the buffer for a block, with one more reference. */
    method Bget(dev: nat, blockno: nat) returns (r: Option<nat>)
      requires Valid()
      modifies buf
      ensures Valid() && Got(old(buf[..]), buf[..], order, Key(dev, blockno), r)
    {
      var b := FindCached(dev, blockno);
      ghost var bs := buf[..];
      if b != HEAD {
        RefcntFaithful(bs, disk, mem, dirty, b, buf[b].refcnt + 1);
        buf[b] := buf[b].(refcnt := buf[b].refcnt + 1);
        assert buf[..] == bs[b := buf[b]];
        return Some(b);
      }
      ghost var k;
      b, k := FindFree();
      if b == HEAD {
        return None;
      }
      RecycleFaithful(bs, disk, mem, dirty, b, Key(dev, blockno));
      buf[b] := buf[b].(dev := dev, blockno := blockno, valid := false, refcnt := 1);
      assert buf[..] == bs[b := buf[b]];
      assert LeastRecent(bs, order, b) by {
        assert order[k] == b;
      }
      r := Some(b);
    }

    /** bread: a buffer that holds the last value written to the block. */
    method Bread(dev: nat, blockno: nat) returns (r: Option<nat>)
      requires Valid() && dev != 0 && Key(dev, blockno) in mem
      modifies buf
      ensures Valid()
      ensures r.Some? ==> && r.value < NBUF && buf[r.value].At() == Key(dev, blockno)
                          && buf[r.value].valid && buf[r.value].data == mem[Key(dev, blockno)]
                          && buf[r.value].refcnt > 0
      ensures r.None? <==> forall i :: 0 <= i < NBUF ==> old(buf[i]).At() != Key(dev, blockno) && old(buf[i]).refcnt > 0
      ensures forall i :: 0 <= i < NBUF && r != Some(i) ==> buf[i] == old(buf[i])
    {
      r := Bget(dev, blockno);
      if r.Some? && !buf[r.value].valid {
        var b := r.value;
        ghost var bs := buf[..];
        LoadFaithful(bs, disk, mem, dirty, b);
        buf[b] := buf[b].(data := disk[Key(dev, blockno)], valid := true);
        assert buf[..] == bs[b := buf[b]];
      }
    }

    /** The holder of a buffer changes its data: the flat array changes there. */
    method Store(b: nat, v: Block)
      requires Valid() && b < NBUF && buf[b].dev != 0 && buf[b].valid && buf[b].refcnt > 0
      modifies buf, this`mem, this`dirty
      ensures Valid() && mem == old(mem)[buf[b].At() := v] && dirty == old(dirty) + {b}
      ensures buf[b] == old(buf[b]).(data := v)
      ensures forall i :: 0 <= i < NBUF && i != b ==> buf[i] == old(buf[i])
    {
      ghost var bs := buf[..];
      StoreFaithful(bs, disk, mem, dirty, b, v);
      buf[b] := buf[b].(data := v);
      assert buf[..] == bs[b := buf[b]];
      mem := mem[buf[b].At() := v];
      dirty := dirty + {b};
    }

    /** bwrite: the disk catches up with the buffer. */
    method Bwrite(b: nat)
      requires Valid() && b < NBUF && buf[b].dev != 0 && buf[b].valid
      modifies this`disk, this`dirty
      ensures Valid() && disk == old(disk)[buf[b].At() := buf[b].data] && dirty == old(dirty) - {b}
    {
      WriteFaithful(buf[..], disk, mem, dirty, b);
      disk := disk[buf[b].At() := buf[b].data];
      dirty := dirty - {b};
    }

    /** brelse: with the last reference gone the buffer becomes the most recently used. */
    method Brelse(b: nat)
      requires Valid() && b < NBUF && buf[b].refcnt > 0
      requires b in dirty ==> buf[b].refcnt > 1
      modifies buf, next, prev, this`order
      ensures Valid()
      ensures buf[b] == old(buf[b]).(refcnt := old(buf[b]).refcnt - 1)
      ensures forall i :: 0 <= i < NBUF && i != b ==> buf[i] == old(buf[i])
      ensures buf[b].refcnt > 0 ==> order == old(order)
      ensures buf[b].refcnt == 0 ==>
                exists k :: 0 <= k < NBUF && old(order)[k] == b && order == [b] + Without(old(order), k)
    {
      ghost var bs := buf[..];
      RefcntFaithful(bs, disk, mem, dirty, b, buf[b].refcnt - 1);
      buf[b] := buf[b].(refcnt := buf[b].refcnt - 1);
      assert buf[..] == bs[b := buf[b]];
      if buf[b].refcnt == 0 {
        assert b in order;
        ghost var k :| 0 <= k < |order| && order[k] == b;
        MoveToFront(b, k);
      }
    }

    method MoveToFront(b: nat, ghost k: nat)
      requires ValidList() && k < |order| && order[k] == b && b < NBUF
      modifies next, prev, this`order
      ensures ValidList() && order == [b] + Without(old(order), k)
    {
      ghost var was := order;
      assert Distinct([HEAD] + was);
      assert forall i, j :: 0 <= i < j < |was| ==> was[i] != was[j] by {
        assert forall i :: 0 <= i < |was| ==> was[i] == ([HEAD] + was)[i + 1];
      }
      Unlink(b, k);
      Push(b);
      forall i | 0 <= i < NBUF
        ensures i in order
      {
        assert i in was;
        var j :| 0 <= j < |was| && was[j] == i;
        if j < k {
          assert order[j + 1] == i;
        } else if j > k {
          assert order[j] == i;
        }
      }
    }

    /** bpin, called by log_write. */
    method Bpin(b: nat)
      requires Valid() && b < NBUF
      modifies buf
      ensures Valid() && buf[b] == old(buf[b]).(refcnt := old(buf[b]).refcnt + 1)
      ensures forall i :: 0 <= i < NBUF && i != b ==> buf[i] == old(buf[i])
    {
      ghost var bs := buf[..];
      RefcntFaithful(bs, disk, mem, dirty, b, buf[b].refcnt + 1);
      buf[b] := buf[b].(refcnt := buf[b].refcnt + 1);
      assert buf[..] == bs[b := buf[b]];
    }

    method Bunpin(b: nat)
      requires Valid() && b < NBUF && buf[b].refcnt > 0
      requires b in dirty ==> buf[b].refcnt > 1
      modifies buf
      ensures Valid() && buf[b] == old(buf[b]).(refcnt := old(buf[b]).refcnt - 1)
      ensures forall i :: 0 <= i < NBUF && i != b ==> buf[i] == old(buf[i])
    {
      ghost var bs := buf[..];
      RefcntFaithful(bs, disk, mem, dirty, b, buf[b].refcnt - 1);
      buf[b] := buf[b].(refcnt := buf[b].refcnt - 1);
      assert buf[..] == bs[b := buf[b]];
    }
  }
}
