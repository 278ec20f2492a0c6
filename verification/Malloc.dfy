/** The storage allocator: free, morecore and malloc on a circular, address-ordered free list.
    Addresses and sizes are in header units; address 0 is the null pointer. */
module Malloc {
  import opened Basics
  import opened MallocSpec

  const MINUNITS := 4096

  /** The units of all live blocks. */
  ghost function Spread(live: Field): set<nat> {
    set a, x | a in live && x in Range(a, live[a]) :: x
  }

  /** Live blocks: sound headers behind the static one, inside the break, and disjoint. */
  ghost predicate LiveOk(live: Field, size: Field, base: nat, brk: nat) {
    && (forall a :: a in live ==> a in size && size[a] == live[a] > 0 && base < a && a + live[a] <= brk)
    && (forall a, b :: a in live && b in live && a < b ==> a + live[a] <= b)
  }

  /** The free blocks in address order, and every unit ever obtained in exactly one block, free
      or live. */
  ghost predicate Sound(base: nat, q: seq<nat>, size: Field, brk: nat, live: Field, heap: set<nat>) {
    && Ordered(q, size, brk) && q[0] == base && LiveOk(live, size, base, brk)
    && Cover(q, size) !! Spread(live) && heap == Cover(q, size) + Spread(live)
  }

  class Allocator {
    const base: nat
    var ptr: Field
    var size: Field
    var freep: nat
    var brk: nat              // first unit past the memory obtained from sbrk
    ghost var list: seq<nat>  // the free list from the static header on
    ghost var live: Field     // blocks handed out and not freed, with their sizes
    ghost var heap: set<nat>  // every unit the headers record as obtained from sbrk
    ghost var owned: set<nat> // the units it did hand over

    /** ptr leads round the list, and freep is on it. */
    ghost predicate Linked()
      reads this
    {
      Ring(list, ptr) && freep in list
    }

    /** Before the first malloc freep is null; from then on the blocks are sound. */
    ghost predicate Valid()
      reads this
    {
      && 0 < base < brk && (forall x :: x in owned ==> x < brk)
      && (if freep == 0 then live == map[] && heap == {} else Linked() && Sound(base, list, size, brk, live, heap))
    }

    /** What the headers record lies in the memory obtained. */
    ghost predicate Backed()
      reads this
    {
      heap <= owned
    }

    constructor (base: nat, brk: nat)
      requires 0 < base < brk
      ensures Valid() && Backed() && owned == {} && this.base == base && this.brk == brk && freep == 0
    {
      this.base, this.brk := base, brk;
      ptr, size, freep := map[], map[], 0;
      list, live, heap, owned := [], map[], {}, {};
    }

    /** The search of free: the block after which address b belongs. */
    method FindPlace(b: nat) returns (p: nat, ghost k: nat)
      requires Linked() && Ordered(list, size, brk) && list[0] < b && b !in list
      ensures PlaceOf(list, b, k) && p == list[k]
    {
      hide Spaced, Ring, PlaceOf;
      ghost var want := PlaceOfAddress(list, size, brk, b);
      p := freep;
      k :| 0 <= k < |list| && list[k] == p;
      StopsAt(list, ptr, size, brk, b, k, want);
      while !(b > p && b < ptr[p])
        invariant 0 <= k < |list| && p == list[k] && p in ptr
        invariant k == want <==> Between(b, p, ptr[p])
        decreases if k <= want then want - k else |list| - k + want
      {
        if p >= ptr[p] && (b > p || b < ptr[p]) {
          break;
        }
        StopsAt(list, ptr, size, brk, b, k, want);
        k := if k + 1 < |list| then k + 1 else 0;
        p := ptr[p];
        StopsAt(list, ptr, size, brk, b, k, want);
      }
    }

    /** First half of free: b leads on to what follows p, absorbing the next block if it touches. */
    method LinkUp(b: nat, p: nat, ghost k: nat) returns (ghost q2: seq<nat>)
      requires Ring(list, ptr) && GoesBehind(list, size, b, k) && p == list[k]
      modifies this`ptr, this`size
      ensures var q1 := InsertAt(list, k + 1, b);
              && q2 == JoinedList(q1, old(size), k + 1) && size == JoinedSize(q1, old(size), k + 1)
              && k + 1 < |q2| && q2[k] == p && q2[k + 1] == b && Distinct(q2)
      ensures b in ptr && Ring(q2, ptr[p := b])
    {
      ghost var q1 := InsertAt(list, k + 1, b);
      q2 := JoinedList(q1, size, k + 1);
      assert ptr[p] == After(list, k);
      if b + size[b] == ptr[p] {
        LinkUpMerge(list, ptr, b, k);
        DistinctRemove(q1, k + 2);
        size := size[b := size[b] + size[ptr[p]]];
        ptr := ptr[b := ptr[ptr[p]]];
      } else {
        RingInsert(list, ptr, k, b);
        ptr := ptr[b := ptr[p]];
      }
    }

    /** Second half of free: p leads to b, or absorbs it if they touch. */
    method LinkDown(b: nat, p: nat, ghost k: nat, ghost q2: seq<nat>)
      requires k + 1 < |q2| && q2[k] == p && q2[k + 1] == b && Distinct(q2)
      requires b in ptr && Ring(q2, ptr[p := b]) && p in size && b in size
      modifies this`ptr, this`size, this`freep, this`list
      ensures list == JoinedList(q2, old(size), k) && size == JoinedSize(q2, old(size), k) && Ring(list, ptr)
      ensures freep == p && (size[p] >= old(size)[b] || (ptr[p] == b && size[b] == old(size)[b]))
    {
      MallocSpec.LinkDown(q2, size, ptr, b, k);
      list := JoinedList(q2, size, k);
      if p + size[p] == b {
        size := size[p := size[p] + size[b]];
        ptr := ptr[p := ptr[b]];
      } else {
        ptr := ptr[p := b];
      }
      freep := p;
    }

    /** free on a block in a gap of the list: link it in, merge it with its neighbours. */
    method FreeBlock(b: nat)
      requires Linked() && Ordered(list, size, brk) && list[0] < b && b in size && size[b] > 0 && b + size[b] <= brk
      requires Range(b, size[b]) !! Cover(list, size)
      modifies this`ptr, this`size, this`freep, this`list
      ensures Linked() && Returned(old(list), old(size), brk, list, size, b)
      ensures size[freep] >= old(size)[b] || (ptr[freep] == b && b in size && size[b] >= old(size)[b])
    {
      GapNotInList(list, size, brk, b);
      var p;
      ghost var k;
      p, k := FindPlace(b);
      GapFits(list, size, brk, b, k);
      FreedOk(list, size, brk, b, size[b], k);
      UpTouch(list, size, brk, b, k);
      ghost var q2 := LinkUp(b, p, k);
      LinkDown(b, p, k, q2);
    }

    /** free.  The block goes back to the free list; nothing is lost and nothing else changes. */
    method Free(ap: nat)
      requires Valid() && ap > 0 && ap - 1 in live
      modifies this`ptr, this`size, this`freep, this`list, this`live
      ensures Valid() && freep != 0 && live == old(live) - {ap - 1}
      ensures Cover(list, size) == old(Cover(list, size)) + Range(ap - 1, old(live)[ap - 1])
    {
      var b := ap - 1;
      LiveApart(live, size, base, brk, list, b);
      FreeBlock(b);
      FreeSound(base, old(list), old(size), brk, live, heap, list, size, b);
      NotNull(list, size, brk, freep);
      live := live - {b};
    }

    /** morecore, with sbrk's answer: the old break, or None when there is no more memory. */
    method Morecore(nu: nat, sbrk: Option<nat>) returns (p: nat)
      requires Valid() && freep != 0 && (sbrk.Some? ==> sbrk.value >= brk)
      modifies this
      ensures Valid() && freep != 0 && live == old(live)
      ensures sbrk.None? ==> p == 0 && heap == old(heap) && list == old(list) && size == old(size) && owned == old(owned)
      ensures sbrk.Some? ==> owned == Obtained(old(owned), sbrk.value, SbrkArgument(nu))
      ensures sbrk.Some? ==> p == freep && heap == old(heap) + Range(sbrk.value, if nu < 4096 then 4096 else nu)
      ensures sbrk.Some? ==> RoomAt(list, size, nu)
    {
      hide Sound, Range;
      if sbrk.None? {
        return 0;
      }
      Extend(sbrk.value, Units(nu));
      ObtainedBelow(owned, sbrk.value, nu);
      owned := Obtained(owned, sbrk.value, SbrkArgument(nu));
      p := freep;
    }

    /** The new block gets a header and is freed. */
    method Extend(hp: nat, n: nat)
      requires Valid() && freep != 0 && hp >= brk && n > 0
      modifies this
      ensures Valid() && freep != 0 && live == old(live) && heap == old(heap) + Range(hp, n)
      ensures brk == hp + n && owned == old(owned)
      ensures forall m: nat :: m <= n ==> RoomAt(list, size, m)
    {
      hide Sound, Spaced, Ring, Returned, LiveOk, Spread, Range, Cover;
      Fresh(base, list, size, brk, live, heap, hp, n);
      size := size[hp := n];
      brk := hp + n;
      FreeBlock(hp);
      MoreSound(base, old(list), old(size), old(brk), old(live), old(heap), list, size, hp, n);
      NotNull(list, size, brk, freep);
      Roomy(list, ptr, size, brk, freep, n);
      heap := heap + Range(hp, n);
    }

    /** The search of malloc: from the block after freep once round the ring, for one of n units. */
    method Search(n: nat) returns (found: bool, prevp: nat, p: nat, ghost j: nat)
      requires Linked() && Ordered(list, size, brk)
      ensures j < |list| && prevp == list[j] && p == After(list, j)
      ensures found <==> RoomAt(list, size, n)
      ensures found ==> size[p] >= n
    {
      hide Spaced, Visited;
      SpacedDistinct(list, size, brk, 0, 0);
      prevp := freep;
      p := ptr[prevp];
      ghost var f: nat :| f < |list| && list[f] == freep;
      j := f;
      VisitedNone(list, size, n, f);
      assert ptr[list[j]] == After(list, j);
      while size[p] < n
        invariant j < |list| && prevp == list[j] && p == After(list, j) && Visited(list, size, n, f, j)
        decreases Steps(|list|, j, f)
      {
        if p == freep {
          VisitedAll(list, size, n, f, j);
          return false, prevp, p, j;
        }
        VisitedNext(list, size, n, f, j);
        j := if j + 1 < |list| then j + 1 else 0;
        assert ptr[list[j]] == After(list, j);
        prevp := p;
        p := ptr[p];
      }
      found := true;
      assert size[list[if j + 1 < |list| then j + 1 else 0]] >= n;
    }

    /** malloc on an exact fit: unlink the block. */
    method TakeWhole(prevp: nat, p: nat, ghost j: nat)
      requires Valid() && freep != 0 && j + 1 < |list| && prevp == list[j] && p == list[j + 1]
      modifies this`ptr, this`freep, this`list, this`live
      ensures Valid() && freep == prevp > 0 && p > 0 && p !in old(live) && live == old(live)[p := size[p]]
    {
      hide Sound, Ring;
      UnlinkSound(base, list, size, brk, live, heap, j + 1);
      InRing(base, list, ptr, size, brk, live, heap, j);
      RingRemove(list, ptr, j);
      assert RemoveAt(list, j + 1)[j] == prevp;
      ptr := ptr[prevp := ptr[p]];
      list := RemoveAt(list, j + 1);
      freep := prevp;
      live := live[p := size[p]];
    }

    /** malloc on a larger block: split off the tail. */
    method TakeTail(n: nat, prevp: nat, p: nat, ghost j: nat) returns (b: nat)
      requires Valid() && freep != 0 && j + 1 < |list| && prevp == list[j] && p == list[j + 1] && 0 < n < size[p]
      modifies this`size, this`freep, this`live
      ensures Valid() && freep == prevp > 0 && b > 0 && b !in old(live) && live == old(live)[b := n]
    {
      hide Sound, Ring;
      SplitSound(base, list, size, brk, live, heap, j + 1, n);
      InRing(base, list, ptr, size, brk, live, heap, j);
      ghost var split := SplitSize(list, size, j + 1, n);
      size := size[p := size[p] - n];
      b := p + size[p];
      size := size[b := n];
      assert size == split;
      freep := prevp;
      live := live[b := n];
    }

    method Take(n: nat, prevp: nat, p: nat, ghost j: nat) returns (b: nat)
      requires Valid() && freep != 0 && 0 < n && j < |list| && prevp == list[j] && p == After(list, j) && size[p] >= n
      modifies this`ptr, this`size, this`freep, this`list, this`live
      ensures Valid() && freep != 0 && b > 0 && b !in old(live) && live == old(live)[b := n]
    {
      Positive(list, size, brk, j);
      if size[p] == n {
        TakeWhole(prevp, p, j);
        b := p;
      } else {
        b := TakeTail(n, prevp, p, j);
      }
    }

    /** malloc, with the answer sbrk would give.  The source writes both searches as one loop that
        goes round again after morecore; the second one cannot fail.  The result is the address
        past the header, or null.  When memory has to be obtained, the headers go on recording no
        more than there is exactly if the request is honest. */
    method Alloc(nbytes: nat, sbrk: Option<nat>) returns (ap: nat)
      requires Valid() && nbytes < 0x1_0000_0000 && (sbrk.Some? ==> sbrk.value >= brk)
      modifies this
      ensures Valid() && freep != 0
      ensures ap == 0 <==> sbrk.None? && !old(HasRoom(Nunits(nbytes)))
      ensures ap == 0 ==> live == old(live)
      ensures ap != 0 ==> ap - 1 !in old(live) && live == old(live)[ap - 1 := Nunits(nbytes)]
      ensures heap == old(heap) + if old(HasRoom(Nunits(nbytes))) || sbrk.None? then {} else Range(sbrk.value, Units(Nunits(nbytes)))
      ensures old(Backed()) ==> (Backed() <==> old(HasRoom(Nunits(nbytes))) || sbrk.None? || Honest(nbytes))
    {
      hide LiveOk, Spread, Cover, Range, Obtained;
      var nunits := Nunits(nbytes);
      if freep == 0 {
        StaticOnly(base, size, brk);
        ptr, size, freep := ptr[base := base], size[base := 0], base;
        list := [base];
      }
      assert HasRoom(nunits) == old(HasRoom(nunits));
      var found, prevp, p;
      ghost var j;
      found, prevp, p, j := Search(nunits);
      if !found {
        p := Morecore(nunits, sbrk);
        if p == 0 {
          return 0;
        }
        Backing(old(heap), old(owned), sbrk.value, nbytes);
        found, prevp, p, j := Search(nunits);
      }
      p := Take(nunits, prevp, p, j);
      ap := p + 1;
    }

    /** Some free block has n units. */
    ghost predicate HasRoom(n: nat)
      reads this
      requires Valid()
    {
      freep != 0 && RoomAt(list, size, n)
    }
  }

  /** The units malloc needs for a request, header included, and those morecore asks sbrk for. */
  function Nunits(nbytes: nat): (n: nat)
    ensures 16 * (n - 2) < nbytes <= 16 * (n - 1) || (nbytes == 0 && n == 1)
  {
    (nbytes + 15) / 16 + 1
  }

  function Units(nu: nat): nat {
    if nu < MINUNITS then MINUNITS else nu
  }

  /** The number of bytes that reaches sbrk, whose parameter is a 32-bit int. */
  function SbrkArgument(nu: nat): int {
    var low := Units(nu) * 16 % 0x1_0000_0000;
    if low < 0x8000_0000 then low else low - 0x1_0000_0000
  }

  /** The request, a 32-bit unsigned number, is one for which sbrk is asked for what is needed. */
  predicate Honest(nbytes: nat) {
    nbytes <= 0x8000_0000 - 32
  }

  /** Only those: from there on the argument is negative, or too small. */
  lemma SbrkAsked(nbytes: nat)
    requires nbytes < 0x1_0000_0000
    ensures SbrkArgument(Nunits(nbytes)) == 16 * Units(Nunits(nbytes)) <==> Honest(nbytes)
  {
  }

  /** The units there are after an sbrk with this argument, the old break being hp. */
  ghost function Obtained(owned: set<nat>, hp: nat, argument: int): set<nat> {
    if argument >= 0 then owned + Range(hp, argument / 16)
    else set x | x in owned && 16 * x < 16 * hp + argument
  }

  lemma ObtainedBelow(owned: set<nat>, hp: nat, nu: nat)
    requires forall x :: x in owned ==> x < hp + Units(nu)
    ensures forall x :: x in Obtained(owned, hp, SbrkArgument(nu)) ==> x < hp + Units(nu)
    ensures SbrkArgument(nu) < 0 ==>
              forall x :: x in Obtained(owned, hp, SbrkArgument(nu)) <==> x in owned && x < hp + SbrkArgument(nu) / 16
  {
    assert SbrkArgument(nu) <= 16 * Units(nu) && SbrkArgument(nu) % 16 == 0;
  }

  lemma Backing(heap: set<nat>, owned: set<nat>, hp: nat, nbytes: nat)
    requires nbytes < 0x1_0000_0000 && forall x :: x in owned ==> x < hp
    ensures heap <= owned ==>
              (heap + Range(hp, Units(Nunits(nbytes))) <= Obtained(owned, hp, SbrkArgument(Nunits(nbytes))) <==> Honest(nbytes))
  {
    var n, argument := Units(Nunits(nbytes)), SbrkArgument(Nunits(nbytes));
    SbrkAsked(nbytes);
    assert argument <= 16 * n;
    if !Honest(nbytes) {
      assert hp + n - 1 in Range(hp, n);
      assert hp + n - 1 !in Obtained(owned, hp, argument);
    }
  }

  /** The largest request: 2 to the 28 plus one units are recorded, 16 bytes are obtained. */
  lemma LargestRequest()
    ensures SbrkArgument(Nunits(0xFFFF_FFFF)) == 16 && Nunits(0xFFFF_FFFF) == 0x1000_0001
  {
  }

  /** The steps from position j forward to position f, at least one. */
  function Steps(n: nat, j: nat, f: nat): (d: nat)
    requires j < n && f < n
    ensures 1 <= d <= n
  {
    if j < f then f - j else f - j + n
  }

  /** Round the ring from behind f to j, no block has n units. */
  ghost predicate Visited(q: seq<nat>, size: Field, n: nat, f: nat, j: nat) {
    && f < |q| && j < |q| && (forall i :: 0 <= i < |q| ==> q[i] in size)
    && forall i :: 0 <= i < |q| && i != f && Steps(|q|, i, f) >= Steps(|q|, j, f) ==> size[q[i]] < n
  }

  lemma VisitedNone(q: seq<nat>, size: Field, n: nat, f: nat)
    requires f < |q| && forall i :: 0 <= i < |q| ==> q[i] in size
    ensures Visited(q, size, n, f, f)
  {
  }

  lemma VisitedNext(q: seq<nat>, size: Field, n: nat, f: nat, j: nat)
    requires Visited(q, size, n, f, j) && Distinct(q) && After(q, j) != q[f] && size[After(q, j)] < n
    ensures var j' := if j + 1 < |q| then j + 1 else 0;
            Visited(q, size, n, f, j') && Steps(|q|, j', f) < Steps(|q|, j, f)
  {
  }

  lemma VisitedAll(q: seq<nat>, size: Field, n: nat, f: nat, j: nat)
    requires Visited(q, size, n, f, j) && Distinct(q) && After(q, j) == q[f] && size[q[f]] < n
    ensures !RoomAt(q, size, n)
  {
  }

  /** Some block of the list has n units. */
  ghost predicate RoomAt(q: seq<nat>, size: Field, n: nat)
    requires forall i :: 0 <= i < |q| ==> q[i] in size
  {
    exists i :: 0 <= i < |q| && size[q[i]] >= n
  }

  lemma Roomy(q: seq<nat>, ptr: Field, size: Field, brk: nat, freep: nat, n: nat)
    requires Ring(q, ptr) && freep in q && Ordered(q, size, brk)
    requires size[freep] >= n || (ptr[freep] in size && size[ptr[freep]] >= n)
    ensures forall m: nat :: m <= n ==> RoomAt(q, size, m)
  {
    var i :| 0 <= i < |q| && q[i] == freep;
    assert ptr[q[i]] == After(q, i);
    var i' := if i + 1 < |q| then i + 1 else 0;
    assert size[q[i]] >= n || size[q[i']] >= n;
  }

  /** Every unit obtained from sbrk is in exactly one block, free or live. */
  lemma ExactlyOneBlock(base: nat, q: seq<nat>, size: Field, brk: nat, live: Field, heap: set<nat>, x: nat)
    requires Sound(base, q, size, brk, live, heap) && x in heap
    ensures (exists i :: 0 <= i < |q| && Inside(q[i], size[q[i]], x)) <==> !exists a :: a in live && Inside(a, live[a], x)
    ensures forall i, j :: 0 <= i < |q| && 0 <= j < |q| && Inside(q[i], size[q[i]], x) && Inside(q[j], size[q[j]], x) ==> i == j
    ensures forall a, b :: a in live && b in live && Inside(a, live[a], x) && Inside(b, live[b], x) ==> a == b
  {
    forall i, j | 0 <= i < j < |q|
      ensures !(Inside(q[i], size[q[i]], x) && Inside(q[j], size[q[j]], x))
    {
      assert Pair(q, size, 0, 0, i, j);
    }
    forall a | a in live
      ensures Inside(a, live[a], x) ==> x in Spread(live)
    {
      InSpread(live, a);
    }
    if i :| 0 <= i < |q| && Inside(q[i], size[q[i]], x) {
      CoverMember(q, size, i, x);
    } else {
      NotCovered(q, size, x);
    }
  }

  lemma NotCovered(q: seq<nat>, size: Field, x: nat)
    requires (forall i :: 0 <= i < |q| ==> q[i] in size) && forall i :: 0 <= i < |q| ==> !Inside(q[i], size[q[i]], x)
    ensures x !in Cover(q, size)
  {
    if x in Cover(q, size) {
      var i := CoverBlock(q, size, x);
      assert false;
    }
  }

  /** The first list is the static header alone. */
  lemma StaticOnly(base: nat, size: Field, brk: nat)
    requires base < brk
    ensures Sound(base, [base], size[base := 0], brk, map[], {})
  {
    assert Cover([base][1..], size[base := 0]) == {};
  }

  lemma NotNull(q: seq<nat>, size: Field, brk: nat, p: nat)
    requires Ordered(q, size, brk) && p in q
    ensures p >= q[0]
  {
    var i :| 0 <= i < |q| && q[i] == p;
    if i > 0 {
      assert Pair(q, size, 0, 0, 0, i);
    }
  }

  lemma InRing(base: nat, q: seq<nat>, ptr: Field, size: Field, brk: nat, live: Field, heap: set<nat>, j: nat)
    requires Sound(base, q, size, brk, live, heap) && Ring(q, ptr) && j + 1 < |q|
    ensures q[j] in ptr && q[j + 1] in ptr && q[j] in size && q[j + 1] in size && q[j] >= base && Distinct(q)
  {
    NotNull(q, size, brk, q[j]);
    SpacedDistinct(q, size, brk, 0, 0);
  }

  /** A block big enough is not the static header, so it follows its predecessor in the list. */
  lemma Positive(q: seq<nat>, size: Field, brk: nat, j: nat)
    requires Ordered(q, size, brk) && j < |q| && size[After(q, j)] > 0
    ensures j + 1 < |q|
  {
  }

  /** What free leaves: b's units joined to the free ones, other headers as they were. */
  ghost predicate Returned(q: seq<nat>, size: Field, brk: nat, q': seq<nat>, size': Field, b: nat)
    requires b in size && forall i :: 0 <= i < |q| ==> q[i] in size
  {
    && q != [] && Ordered(q', size', brk) && q'[0] == q[0]
    && Cover(q', size') == Cover(q, size) + Range(b, size[b])
    && forall a :: a in size && a !in q && a != b ==> a in size' && size'[a] == size[a]
  }

  lemma InSpread(live: Field, a: nat)
    requires a in live
    ensures Range(a, live[a]) <= Spread(live)
  {
    forall x | x in Range(a, live[a])
      ensures x in Spread(live)
    {
    }
  }

  /** A live block overlaps no free block. */
  lemma LiveApart(live: Field, size: Field, base: nat, brk: nat, q: seq<nat>, b: nat)
    requires LiveOk(live, size, base, brk) && b in live
    requires (forall i :: 0 <= i < |q| ==> q[i] in size) && Cover(q, size) !! Spread(live)
    ensures Range(b, size[b]) !! Cover(q, size)
  {
    InSpread(live, b);
  }

  lemma SpreadRemove(live: Field, size: Field, base: nat, brk: nat, b: nat)
    requires LiveOk(live, size, base, brk) && b in live
    ensures Spread(live - {b}) == Spread(live) - Range(b, live[b])
    ensures Range(b, live[b]) <= Spread(live)
  {
    InSpread(live, b);
    var less := live - {b};
    forall x | x in Spread(live) && x !in Range(b, live[b])
      ensures x in Spread(less)
    {
      var a :| a in live && x in Range(a, live[a]);
      InSpread(less, a);
    }
    forall x | x in Spread(less)
      ensures x in Spread(live) && x !in Range(b, live[b])
    {
      var a :| a in less && x in Range(a, less[a]);
      InSpread(live, a);
    }
  }

  /** Units moving from the live to the free ones, and back, and new units joining. */
  lemma Moved(heap: set<nat>, free: set<nat>, used: set<nat>, r: set<nat>)
    requires free !! used && heap == free + used && r <= used
    ensures free + r !! used - r && heap == (free + r) + (used - r)
  {
  }

  lemma Grown(heap: set<nat>, free: set<nat>, used: set<nat>, r: set<nat>)
    requires free !! used && heap == free + used && r !! used
    ensures free + r !! used && heap + r == (free + r) + used
  {
  }

  lemma Taken(heap: set<nat>, free: set<nat>, free': set<nat>, used: set<nat>, r: set<nat>)
    requires free !! used && heap == free + used && free == free' + r && free' !! r
    ensures free' !! used + r && heap == free' + (used + r)
  {
  }

  /** Live headers survive changes to the free blocks and to b. */
  lemma LiveKept(live: Field, size: Field, size': Field, base: nat, brk: nat, q: seq<nat>, b: nat)
    requires LiveOk(live, size, base, brk) && (forall i :: 0 <= i < |q| ==> q[i] in size) && Cover(q, size) !! Spread(live)
    requires forall a :: a in size && a !in q && a != b ==> a in size' && size'[a] == size[a]
    requires q != [] && q[0] == base
    ensures LiveOk(live - {b}, size', base, brk)
  {
    forall a | a in live
      ensures a !in q
    {
      LiveApart(live, size, base, brk, q, a);
      forall i | 0 <= i < |q|
        ensures q[i] != a
      {
        if q[i] == a {
          CoverMember(q, size, i, a);
        }
      }
    }
  }

  lemma FreeSound(base: nat, q: seq<nat>, size: Field, brk: nat, live: Field, heap: set<nat>, q': seq<nat>, size': Field, b: nat)
    requires Sound(base, q, size, brk, live, heap) && b in live && Returned(q, size, brk, q', size', b)
    ensures Sound(base, q', size', brk, live - {b}, heap)
  {
    SpreadRemove(live, size, base, brk, b);
    LiveKept(live, size, size', base, brk, q, b);
    Moved(heap, Cover(q, size), Spread(live), Range(b, live[b]));
  }

  lemma MoreSound(base: nat, q: seq<nat>, size: Field, brk: nat, live: Field, heap: set<nat>, q': seq<nat>, size': Field, b: nat, n: nat)
    requires Sound(base, q, size, brk, live, heap) && b >= brk > base && n > 0 && Returned(q, size[b := n], b + n, q', size', b)
    ensures Sound(base, q', size', b + n, live, heap + Range(b, n)) && Ordered(q', size', b + n) && q'[0] == base
  {
    hide Spread, Range;
    Fresh(base, q, size, brk, live, heap, b, n);
    assert live - {b} == live;
    LiveKept(live, size[b := n], size', base, b + n, q, b);
    Grown(heap, Cover(q, size[b := n]), Spread(live), Range(b, n));
  }

  lemma UnlinkSound(base: nat, q: seq<nat>, size: Field, brk: nat, live: Field, heap: set<nat>, i: nat)
    requires Sound(base, q, size, brk, live, heap) && 0 < i < |q|
    ensures q[i] > 0 && q[i] !in live
    ensures Sound(base, RemoveAt(q, i), size, brk, live[q[i] := size[q[i]]], heap)
  {
    var b, n := q[i], size[q[i]];
    UnlinkOk(q, size, brk, i);
    CoverBelow(q, size, brk);
    assert Inside(b, n, b);
    LiveAdded(live, size, size, base, brk, Cover(q, size), b, n, b);
    Taken(heap, Cover(q, size), Cover(RemoveAt(q, i), size), Spread(live), Range(b, n));
  }

  lemma SplitSound(base: nat, q: seq<nat>, size: Field, brk: nat, live: Field, heap: set<nat>, i: nat, n: nat)
    requires Sound(base, q, size, brk, live, heap) && 0 < i < |q| && 0 < n < size[q[i]]
    ensures TailOf(q, size, i, n) > 0 && TailOf(q, size, i, n) !in live
    ensures Sound(base, q, SplitSize(q, size, i, n), brk, live[TailOf(q, size, i, n) := n], heap)
  {
    var b, size' := TailOf(q, size, i, n), SplitSize(q, size, i, n);
    SplitOk(q, size, brk, i, n);
    CoverBelow(q, size, brk);
    CoverMember(q, size, i, q[i]);
    LiveAdded(live, size, size', base, brk, Cover(q, size), b, n, q[i]);
    Taken(heap, Cover(q, size), Cover(q, size'), Spread(live), Range(b, n));
  }

  /** A block beyond the old break overlaps nothing. */
  lemma Fresh(base: nat, q: seq<nat>, size: Field, brk: nat, live: Field, heap: set<nat>, hp: nat, n: nat)
    requires Sound(base, q, size, brk, live, heap) && hp >= brk > base && n > 0
    ensures Sound(base, q, size[hp := n], hp + n, live, heap) && hp !in live && Ordered(q, size[hp := n], hp + n) && q[0] == base
    ensures Range(hp, n) !! Cover(q, size[hp := n]) && Range(hp, n) !! Spread(live)
  {
    CoverBelow(q, size, brk);
    FreshOrdered(q, size, brk, hp, n);
    CoverSame(q, size, size[hp := n]);
  }

  lemma FreshOrdered(q: seq<nat>, size: Field, brk: nat, hp: nat, n: nat)
    requires Ordered(q, size, brk) && hp >= brk > q[0]
    ensures hp !in q && Ordered(q, size[hp := n], hp + n)
  {
    var size' := size[hp := n];
    forall i | 0 <= i < |q|
      ensures q[i] < brk
    {
    }
    forall i, j | 0 <= i < j < |q|
      ensures Pair(q, size', 0, 0, i, j)
    {
      assert Pair(q, size, 0, 0, i, j);
    }
  }

  /** Handing out a block cut from the free units. */
  lemma LiveAdded(live: Field, size: Field, size': Field, base: nat, brk: nat, cover: set<nat>, b: nat, n: nat, p: nat)
    requires LiveOk(live, size, base, brk) && cover !! Spread(live)
    requires n > 0 && Range(b, n) <= cover && p in cover && forall x :: x in cover ==> base < x < brk
    requires b in size' && size'[b] == n
    requires forall a :: a in size && a != p && a != b ==> a in size' && size'[a] == size[a]
    ensures b !in live && LiveOk(live[b := n], size', base, brk)
    ensures Spread(live[b := n]) == Spread(live) + Range(b, n)
  {
    assert b in Range(b, n) && b + n - 1 in Range(b, n);
    forall a | a in live
      ensures a != b && a != p && (a + live[a] <= b || b + n <= a)
    {
      InSpread(live, a);
      Overlap(a, live[a], b, n);
      assert a in Range(a, live[a]);
    }
    SpreadAdd(live, b, n);
  }

  lemma Overlap(a: nat, m: nat, b: nat, n: nat)
    requires Range(a, m) !! Range(b, n) && m > 0 && n > 0
    ensures a + m <= b || b + n <= a
  {
    assert a in Range(a, m) && b in Range(b, n);
  }

  lemma SpreadAdd(live: Field, b: nat, n: nat)
    requires b !in live
    ensures Spread(live[b := n]) == Spread(live) + Range(b, n)
  {
    var live' := live[b := n];
    forall x | x in Spread(live) + Range(b, n)
      ensures x in Spread(live')
    {
      if x in Range(b, n) {
        assert b in live';
      } else {
        var a :| a in live && x in Range(a, live[a]);
        assert a in live' && x in Range(a, live'[a]);
      }
    }
  }

  /** A block that overlaps no free block is not itself on the list. */
  lemma GapNotInList(q: seq<nat>, size: Field, brk: nat, b: nat)
    requires Ordered(q, size, brk) && b in size && size[b] > 0 && Range(b, size[b]) !! Cover(q, size) && q[0] != b
    ensures b !in q
  {
    forall i | 0 <= i < |q|
      ensures q[i] != b
    {
      if q[i] == b {
        CoverMember(q, size, i, b);
      }
    }
  }

  lemma GapFits(q: seq<nat>, size: Field, brk: nat, b: nat, k: nat)
    requires Ordered(q, size, brk) && PlaceOf(q, b, k) && b in size && size[b] > 0 && b + size[b] <= brk
    requires Range(b, size[b]) !! Cover(q, size)
    ensures FitsAt(q, size, brk, b, size[b], k)
  {
    if q[k] + size[q[k]] > b {
      CoverMember(q, size, k, b);
    }
    if k + 1 < |q| && b + size[b] > q[k + 1] {
      CoverMember(q, size, k + 1, q[k + 1]);
    }
  }

  /** Where the search of free stops: b lies between p and its successor q, or beyond the last block. */
  predicate Between(b: nat, p: nat, q: nat) {
    p < b < q || (p >= q && (b > p || b < q))
  }

  /** It stops at the place of b and nowhere else. */
  lemma StopsAt(q: seq<nat>, ptr: Field, size: Field, brk: nat, b: nat, k: nat, want: nat)
    requires Ring(q, ptr) && Ordered(q, size, brk) && k < |q| && PlaceOf(q, b, want) && q[0] < b && b !in q
    ensures q[k] in ptr && ptr[q[k]] == q[if k + 1 < |q| then k + 1 else 0] && want < |q|
    ensures k == want <==> Between(b, q[k], ptr[q[k]])
  {
    SpacedDistinct(q, size, brk, 0, 0);
    assert ptr[q[k]] == After(q, k);
  }

  lemma PlaceOfAddress(q: seq<nat>, size: Field, brk: nat, b: nat) returns (want: nat)
    requires Ordered(q, size, brk) && q[0] < b && b !in q
    ensures PlaceOf(q, b, want)
  {
    SpacedDistinct(q, size, brk, 0, 0);
    want := Place(q, b);
  }

  /** The place of an address behind the first block exists. */
  ghost function Place(q: seq<nat>, b: nat): (k: nat)
    requires q != [] && q[0] < b && b !in q && forall i, j :: 0 <= i < j < |q| ==> q[i] < q[j]
    ensures PlaceOf(q, b, k)
  {
    if q[|q| - 1] < b then |q| - 1 else Place(q[..|q| - 1], b)
  }
}
