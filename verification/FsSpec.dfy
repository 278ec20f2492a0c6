/** What the file system's blocks mean: which inode slot owns which block, and which bytes
    a file holds. */
module FsSpec {
  import opened Basics
  import opened FsLayout

  datatype Super = Super(size: nat, ninodes: nat, inodestart: nat, bmapstart: nat, datastart: nat) {
    ghost predicate Wf() {
      0 < datastart <= size < UINT
    }
    ghost predicate IsData(b: nat) {
      datastart <= b < size
    }
    function BitmapBlock(b: nat): nat { b / BPB + bmapstart }
    function InodeBlock(i: nat): nat { i / IPB + inodestart }
  }

  datatype Inode = Inode(typ: nat, nlink: int, size: nat, addrs: seq<nat>)

  /** Free map, blocks and inodes. */
  datatype View = View(used: set<nat>, blocks: seq<Data>, inodes: seq<Inode>)

  ghost predicate Wf(v: View, sb: Super) {
    && sb.Wf() && |v.blocks| == sb.size && |v.inodes| == sb.ninodes
    && forall i :: 0 <= i < |v.inodes| ==> |v.inodes[i].addrs| == NDIRECT + 1
  }

  // ----- who owns a block

  /** A place that can name a block. */
  datatype Slot =
    | Direct(i: nat, k: nat)
    | Pointer(i: nat)          // the indirect block itself
    | Entry(i: nat, j: nat)    // word j of the indirect block

  ghost predicate IsSlot(v: View, s: Slot) {
    && s.i < |v.inodes| && |v.inodes[s.i].addrs| == NDIRECT + 1
    && (s.Direct? ==> s.k < NDIRECT) && (s.Entry? ==> s.j < NINDIRECT)
  }

  ghost function BlockAt(v: View, a: nat): Data {
    if a < |v.blocks| then v.blocks[a] else Zeros()
  }

  /** The block a slot names, or 0. */
  ghost function Val(v: View, s: Slot): nat
    requires IsSlot(v, s)
  {
    match s
    case Direct(i, k) => v.inodes[i].addrs[k]
    case Pointer(i) => v.inodes[i].addrs[NDIRECT]
    case Entry(i, j) =>
      var a := v.inodes[i].addrs[NDIRECT];
      if a == 0 then 0 else WordAt(BlockAt(v, a), j)
  }

  /** The owner map lists the used data blocks and is the inverse of the slots.  `pending`
      are blocks marked used that no slot names yet; the first gj entries of inode gi may
      still name blocks that were freed. */
  ghost predicate Owned(v: View, sb: Super, owner: map<nat, Slot>, pending: set<nat>, gi: nat, gj: nat) {
    && Wf(v, sb)
    && (forall s :: IsSlot(v, s) && Val(v, s) != 0 && !(s.Entry? && s.i == gi && s.j < gj) ==>
          Val(v, s) in owner && owner[Val(v, s)] == s)
    && (forall b :: b in owner ==> sb.IsData(b) && IsSlot(v, owner[b]) && Val(v, owner[b]) == b)
    && (forall b :: b in pending ==> sb.IsData(b) && b !in owner)
    && (forall b: nat :: b in v.used <==> b < sb.datastart || b in owner || b in pending)
  }

  /** Between operations nothing is pending. */
  ghost predicate Tidy(v: View, sb: Super, owner: map<nat, Slot>) {
    Owned(v, sb, owner, {}, 0, 0)
  }

  /** Block ownership as the bitmap states it: a data block is marked used exactly when one
      slot names it, and no two slots name the same block. */
  lemma UsedExactlyOnce(v: View, sb: Super, owner: map<nat, Slot>, b: nat)
    requires Tidy(v, sb, owner) && sb.IsData(b)
    ensures b in v.used <==> exists s :: IsSlot(v, s) && Val(v, s) == b
    ensures forall s, t :: IsSlot(v, s) && IsSlot(v, t) && Val(v, s) == b && Val(v, t) == b ==> s == t
  {
    if b in v.used {
      assert IsSlot(v, owner[b]) && Val(v, owner[b]) == b;
    }
  }

  /** A slot names a block only in the data area, so never a block of the metadata. */
  lemma SlotsNameData(v: View, sb: Super, owner: map<nat, Slot>, s: Slot)
    requires Tidy(v, sb, owner) && IsSlot(v, s) && Val(v, s) != 0
    ensures sb.IsData(Val(v, s)) && Val(v, s) in v.used
  {
  }

  // ----- how changes act on slots

  /** Marking a free block used and zeroing it changes no slot. */
  lemma AllocKeeps(v: View, sb: Super, owner: map<nat, Slot>, pending: set<nat>, b: nat)
    requires Owned(v, sb, owner, pending, 0, 0) && b < sb.size && b !in v.used
    ensures sb.IsData(b) && b !in owner && b !in pending
    ensures var w := v.(used := v.used + {b}, blocks := v.blocks[b := Zeros()]);
            && Owned(w, sb, owner, pending + {b}, 0, 0)
            && forall s :: IsSlot(v, s) ==> IsSlot(w, s) && Val(w, s) == Val(v, s)
  {
    var w := v.(used := v.used + {b}, blocks := v.blocks[b := Zeros()]);
    forall s | IsSlot(v, s)
      ensures IsSlot(w, s) && Val(w, s) == Val(v, s)
    {
      if s.Entry? {
        assert IsSlot(v, Pointer(s.i));
        assert Val(v, Pointer(s.i)) != b;
      }
    }
  }

  /** A slot that named nothing now names a pending block. */
  lemma LinkKeeps(v: View, w: View, sb: Super, owner: map<nat, Slot>, pending: set<nat>, x: Slot, b: nat)
    requires Owned(v, sb, owner, pending, 0, 0) && Wf(w, sb) && w.used == v.used
    requires IsSlot(v, x) && Val(v, x) == 0 && Val(w, x) == b && b in pending
    requires forall s :: IsSlot(v, s) && s != x ==> Val(w, s) == Val(v, s)
    ensures Owned(w, sb, owner[b := x], pending - {b}, 0, 0)
  {
    hide Val;
    assert forall s :: IsSlot(w, s) <==> IsSlot(v, s);
    forall c | c in owner
      ensures Val(w, owner[c]) == c
    {
      assert owner[c] != x by { assert c != 0; }
    }
  }

  /** Overwriting a block that a file owns as data changes no slot. */
  lemma DataWriteKeeps(v: View, sb: Super, owner: map<nat, Slot>, pending: set<nat>, a: nat, d: Data)
    requires Owned(v, sb, owner, pending, 0, 0) && a in owner && !owner[a].Pointer?
    ensures var w := v.(blocks := v.blocks[a := d]);
            && Owned(w, sb, owner, pending, 0, 0)
            && forall s :: IsSlot(v, s) ==> IsSlot(w, s) && Val(w, s) == Val(v, s)
  {
    var w := v.(blocks := v.blocks[a := d]);
    forall s | IsSlot(v, s)
      ensures IsSlot(w, s) && Val(w, s) == Val(v, s)
    {
      if s.Entry? {
        assert IsSlot(v, Pointer(s.i));
        assert Val(v, Pointer(s.i)) != a;
      }
    }
  }

  // ----- the bytes of a file

  function SlotOf(i: nat, bn: nat): Slot {
    if bn < NDIRECT then Direct(i, bn) else Entry(i, bn - NDIRECT)
  }

  /** The disk block that holds block bn of file i, or 0. */
  ghost function Addr(v: View, i: nat, bn: nat): nat
    requires IsSlot(v, SlotOf(i, bn))
  {
    Val(v, SlotOf(i, bn))
  }

  ghost function ByteAt(v: View, i: nat, k: nat): Byte
    requires IsSlot(v, SlotOf(i, k / BSIZE))
  {
    BlockAt(v, Addr(v, i, k / BSIZE))[k % BSIZE]
  }

  /** No block below the size is unmapped. */
  ghost predicate NoHoles(v: View, i: nat) {
    && i < |v.inodes| && |v.inodes[i].addrs| == NDIRECT + 1
    && v.inodes[i].size <= MAXFILE * BSIZE
    && forall bn {:trigger SlotOf(i, bn)} :: 0 <= bn < MAXFILE && bn * BSIZE < v.inodes[i].size ==> Addr(v, i, bn) != 0
  }

  /** The first |c| bytes of file i are mapped and are c. */
  ghost predicate Has(v: View, i: nat, c: seq<Byte>) {
    && i < |v.inodes| && |v.inodes[i].addrs| == NDIRECT + 1 && |c| <= MAXFILE * BSIZE
    && forall k {:trigger HasByte(v, i, k, c[k])} :: 0 <= k < |c| ==> HasByte(v, i, k, c[k])
  }

  /** Byte k of file i is mapped and is x. */
  ghost predicate HasByte(v: View, i: nat, k: nat, x: Byte)
    requires i < |v.inodes| && |v.inodes[i].addrs| == NDIRECT + 1 && k < MAXFILE * BSIZE
  {
    Addr(v, i, k / BSIZE) != 0 && ByteAt(v, i, k) == x
  }

  lemma HasAt(v: View, i: nat, c: seq<Byte>, k: nat)
    requires Has(v, i, c) && k < |c|
    ensures IsSlot(v, SlotOf(i, k / BSIZE))
    ensures Val(v, SlotOf(i, k / BSIZE)) != 0 && ByteAt(v, i, k) == c[k]
  {
    assert HasByte(v, i, k, c[k]);
  }

  /** The file as a byte sequence. */
  ghost function Content(v: View, i: nat): (c: seq<Byte>)
    requires NoHoles(v, i)
    ensures |c| == v.inodes[i].size && Has(v, i, c)
  {
    var c: seq<Byte> := seq(v.inodes[i].size, k requires 0 <= k < v.inodes[i].size => ByteAt(v, i, k));
    assert Has(v, i, c) by {
      forall k | 0 <= k < |c|
        ensures HasByte(v, i, k, c[k])
      {
        var bn := k / BSIZE;
        assert SlotOf(i, bn).i == i;
      }
    }
    c
  }

  lemma ContentIs(v: View, i: nat, c: seq<Byte>)
    requires Has(v, i, c) && |c| == v.inodes[i].size
    ensures NoHoles(v, i) && Content(v, i) == c
  {
    forall bn | 0 <= bn < MAXFILE && bn * BSIZE < v.inodes[i].size
      ensures Addr(v, i, bn) != 0
    {
      HasAt(v, i, c, bn * BSIZE);
      assert bn * BSIZE / BSIZE == bn;
    }
    var d := Content(v, i);
    forall k | 0 <= k < |c|
      ensures c[k] == d[k]
    {
      HasAt(v, i, c, k);
      HasAt(v, i, d, k);
    }
  }

  /** A free inode owns nothing. */
  ghost predicate FreeIsEmpty(ip: Inode) {
    ip.typ == 0 ==> ip.size == 0 && forall k :: 0 <= k < |ip.addrs| ==> ip.addrs[k] == 0
  }

  /** From v to w, file i may have gained blocks, and nothing that was mapped moved or
      changed. */
  ghost predicate Gains(v: View, w: View, i: nat) {
    && |w.inodes| == |v.inodes| && |w.blocks| == |v.blocks| && v.used <= w.used
    && i < |v.inodes| && |w.inodes[i].addrs| == NDIRECT + 1
    && w.inodes == v.inodes[i := v.inodes[i].(addrs := w.inodes[i].addrs)]
    && (forall s :: IsSlot(v, s) && Val(v, s) != 0 ==> IsSlot(w, s) && Val(w, s) == Val(v, s))
    && (forall s :: IsSlot(v, s) && !s.Pointer? && Val(v, s) != 0 ==> BlockAt(w, Val(v, s)) == BlockAt(v, Val(v, s)))
  }

  lemma GainsTransitive(u: View, v: View, w: View, i: nat)
    requires Gains(u, v, i) && Gains(v, w, i)
    ensures Gains(u, w, i)
  {
  }

  lemma GainsHas(v: View, w: View, i: nat, j: nat, c: seq<Byte>)
    requires Gains(v, w, i) && Has(v, j, c)
    ensures Has(w, j, c)
  {
    forall k | 0 <= k < |c|
      ensures HasByte(w, j, k, c[k])
    {
      HasAt(v, j, c, k);
    }
  }

  /** c with d written over it at off, growing if it must. */
  function Overwrite(c: seq<Byte>, off: nat, d: seq<Byte>): (r: seq<Byte>)
    requires off <= |c|
    ensures |r| == if off + |d| <= |c| then |c| else off + |d|
    ensures forall k :: 0 <= k < |r| ==> r[k] == if off <= k < off + |d| then d[k - off] else c[k]
  {
    if off + |d| <= |c| then c[..off] + d + c[off + |d|..] else c[..off] + d
  }

  lemma OverwriteNothing(c: seq<Byte>, off: nat)
    requires off <= |c|
    ensures Overwrite(c, off, []) == c
  {
  }

  function Splice(b: Data, lo: nat, d: seq<Byte>): (r: Data)
    requires lo + |d| <= BSIZE
    ensures forall k :: 0 <= k < BSIZE ==> r[k] == if lo <= k < lo + |d| then d[k - lo] else b[k]
  {
    b[..lo] + d + b[lo + |d|..]
  }

  /** Writing inside one mapped block of a file writes those bytes of the file and no others. */
  lemma PieceWritten(v: View, sb: Super, owner: map<nat, Slot>, i: nat, o: nat, d: seq<Byte>)
    requires Tidy(v, sb, owner) && i < |v.inodes| && o / BSIZE < MAXFILE && o % BSIZE + |d| <= BSIZE
    requires Addr(v, i, o / BSIZE) != 0
    ensures var a := Addr(v, i, o / BSIZE);
            && a < |v.blocks|
            && var w := v.(blocks := v.blocks[a := Splice(v.blocks[a], o % BSIZE, d)]);
               Tidy(w, sb, owner) && WrittenAt(v, w, i, o, d) && OthersKeep(v, w, i)
  {
    var bn := o / BSIZE;
    var x := SlotOf(i, bn);
    var a := Addr(v, i, bn);
    assert IsSlot(v, x) && Val(v, x) == a;
    var w := v.(blocks := v.blocks[a := Splice(v.blocks[a], o % BSIZE, d)]);
    DataWriteKeeps(v, sb, owner, {}, a, w.blocks[a]);
    forall c | Has(v, i, c) && o <= |c|
      ensures Has(w, i, Overwrite(c, o, d))
    {
      PieceHas(v, w, sb, owner, i, o, d, c);
    }
    forall j, c | Has(v, j, c) && j != i
      ensures Has(w, j, c)
    {
      PieceElsewhere(v, w, sb, owner, i, o, d, j, c);
    }
  }

  /** The view after writing d at offset o of file i, inside one mapped block. */
  ghost predicate PieceOf(v: View, w: View, sb: Super, owner: map<nat, Slot>, i: nat, o: nat, d: seq<Byte>) {
    && Tidy(v, sb, owner) && i < |v.inodes| && o / BSIZE < MAXFILE && o % BSIZE + |d| <= BSIZE
    && var a := Addr(v, i, o / BSIZE);
       && a != 0 && a < |v.blocks| && w == v.(blocks := v.blocks[a := Splice(v.blocks[a], o % BSIZE, d)])
       && forall s :: IsSlot(v, s) ==> Val(w, s) == Val(v, s)
  }

  /** A data slot other than the one written still names a block with the same bytes. */
  lemma OtherSlot(v: View, w: View, sb: Super, owner: map<nat, Slot>, i: nat, o: nat, d: seq<Byte>, s: Slot)
    requires PieceOf(v, w, sb, owner, i, o, d) && IsSlot(v, s) && Val(v, s) != 0 && s != SlotOf(i, o / BSIZE)
    ensures Val(w, s) == Val(v, s) && BlockAt(w, Val(w, s)) == BlockAt(v, Val(v, s))
  {
    var x := SlotOf(i, o / BSIZE);
    assert IsSlot(v, x);
    assert owner[Val(v, x)] == x && owner[Val(v, s)] == s;
  }

  lemma PieceElsewhere(v: View, w: View, sb: Super, owner: map<nat, Slot>, i: nat, o: nat, d: seq<Byte>, j: nat, c: seq<Byte>)
    requires PieceOf(v, w, sb, owner, i, o, d) && Has(v, j, c) && j != i
    ensures Has(w, j, c)
  {
    forall k | 0 <= k < |c|
      ensures HasByte(w, j, k, c[k])
    {
      HasAt(v, j, c, k);
      OtherSlot(v, w, sb, owner, i, o, d, SlotOf(j, k / BSIZE));
    }
  }

  lemma PieceByte(v: View, w: View, sb: Super, owner: map<nat, Slot>, i: nat, o: nat, d: seq<Byte>, k: nat, x: Byte)
    requires PieceOf(v, w, sb, owner, i, o, d) && k < MAXFILE * BSIZE
    requires if o <= k < o + |d| then x == d[k - o] else HasByte(v, i, k, x)
    ensures HasByte(w, i, k, x)
  {
    var bn := o / BSIZE;
    if k / BSIZE == bn {
      assert IsSlot(v, SlotOf(i, bn));
      assert o <= k < o + |d| <==> o % BSIZE <= k % BSIZE < o % BSIZE + |d|;
    } else {
      assert !(o <= k < o + |d|);
      OtherSlot(v, w, sb, owner, i, o, d, SlotOf(i, k / BSIZE));
    }
  }

  lemma PieceHas(v: View, w: View, sb: Super, owner: map<nat, Slot>, i: nat, o: nat, d: seq<Byte>, c: seq<Byte>)
    requires PieceOf(v, w, sb, owner, i, o, d) && Has(v, i, c) && o <= |c|
    ensures Has(w, i, Overwrite(c, o, d))
  {
    var e := Overwrite(c, o, d);
    assert o + |d| <= MAXFILE * BSIZE;
    forall k | 0 <= k < |e|
      ensures HasByte(w, i, k, e[k])
    {
      if !(o <= k < o + |d|) {
        HasAt(v, i, c, k);
      }
      PieceByte(v, w, sb, owner, i, o, d, k, e[k]);
    }
  }

  lemma AllocGains(v: View, sb: Super, owner: map<nat, Slot>, b: nat, i: nat)
    requires Tidy(v, sb, owner) && b < sb.size && b !in v.used && i < |v.inodes|
    ensures Gains(v, v.(used := v.used + {b}, blocks := v.blocks[b := Zeros()]), i)
  {
    AllocKeeps(v, sb, owner, {}, b);
  }

  function AddrSlot(i: nat, k: nat): Slot {
    if k < NDIRECT then Direct(i, k) else Pointer(i)
  }

  /** An address of the inode itself, direct or indirect, gets a zeroed pending block. */
  lemma LinkAddr(v: View, sb: Super, owner: map<nat, Slot>, i: nat, k: nat, b: nat)
    requires Owned(v, sb, owner, {b}, 0, 0) && i < |v.inodes| && k <= NDIRECT
    requires v.inodes[i].addrs[k] == 0 && BlockAt(v, b) == Zeros()
    ensures var w := v.(inodes := v.inodes[i := v.inodes[i].(addrs := v.inodes[i].addrs[k := b])]);
            && Tidy(w, sb, owner[b := AddrSlot(i, k)]) && Gains(v, w, i)
            && forall s :: IsSlot(v, s) && s != AddrSlot(i, k) ==> IsSlot(w, s) && Val(w, s) == Val(v, s)
  {
    hide IsSlot, Val, Gains;
    var w := v.(inodes := v.inodes[i := v.inodes[i].(addrs := v.inodes[i].addrs[k := b])]);
    AddrPut(v, sb, i, k, b);
    LinkKeeps(v, w, sb, owner, {b}, AddrSlot(i, k), b);
    assert {b} - {b} == {};
  }

  lemma AddrPut(v: View, sb: Super, i: nat, k: nat, b: nat)
    requires Wf(v, sb) && i < |v.inodes| && k <= NDIRECT && v.inodes[i].addrs[k] == 0 && BlockAt(v, b) == Zeros()
    ensures var w, x := v.(inodes := v.inodes[i := v.inodes[i].(addrs := v.inodes[i].addrs[k := b])]), AddrSlot(i, k);
            && Wf(w, sb) && IsSlot(v, x) && IsSlot(w, x) && Val(v, x) == 0 && Val(w, x) == b && Gains(v, w, i)
            && forall s :: IsSlot(v, s) && s != x ==> IsSlot(w, s) && Val(w, s) == Val(v, s)
  {
    WordsOfZeros();
  }

  lemma HasAddrs(v: View, sb: Super, owner: map<nat, Slot>, i: nat)
    requires Tidy(v, sb, owner) && i < |v.inodes|
    ensures |v.inodes[i].addrs| == NDIRECT + 1
  {
  }

  lemma EntryFacts(v: View, sb: Super, owner: map<nat, Slot>, i: nat, j: nat)
    requires Tidy(v, sb, owner) && i < |v.inodes| && j < NINDIRECT
    ensures |v.inodes[i].addrs| == NDIRECT + 1 && |v.blocks| == sb.size && 0 in v.used && Gains(v, v, i)
    ensures v.inodes[i].addrs[NDIRECT] != 0 ==>
              var a := v.inodes[i].addrs[NDIRECT];
              a < |v.blocks| && IsSlot(v, Entry(i, j)) && Val(v, Entry(i, j)) == WordAt(v.blocks[a], j)
  {
    if v.inodes[i].addrs[NDIRECT] != 0 {
      assert IsSlot(v, Pointer(i)) && Val(v, Pointer(i)) == v.inodes[i].addrs[NDIRECT];
    }
  }

  /** A word of the indirect block gets a pending block. */
  lemma LinkEntry(v: View, sb: Super, owner: map<nat, Slot>, i: nat, j: nat, b: nat)
    requires Owned(v, sb, owner, {b}, 0, 0) && i < |v.inodes| && j < NINDIRECT
    requires v.inodes[i].addrs[NDIRECT] != 0 && Val(v, Entry(i, j)) == 0
    ensures var a := v.inodes[i].addrs[NDIRECT];
            && a in owner && owner[a] == Pointer(i) && a < |v.blocks| && b < UINT
            && var w := v.(blocks := v.blocks[a := PutWord(v.blocks[a], j, b)]);
               && Tidy(w, sb, owner[b := Entry(i, j)]) && Gains(v, w, i)
               && forall s :: IsSlot(v, s) && s != Entry(i, j) ==> IsSlot(w, s) && Val(w, s) == Val(v, s)
  {
    var a := v.inodes[i].addrs[NDIRECT];
    assert IsSlot(v, Pointer(i)) && Val(v, Pointer(i)) == a;
    var w := v.(blocks := v.blocks[a := PutWord(v.blocks[a], j, b)]);
    WordPut(v.blocks[a], j, b);
    EntryPut(v, w, sb, owner, i, j, b);
    LinkKeeps(v, w, sb, owner, {b}, Entry(i, j), b);
    assert {b} - {b} == {};
    hide Val, Owned;
    forall s | IsSlot(v, s) && !s.Pointer? && Val(v, s) != 0
      ensures BlockAt(w, Val(v, s)) == BlockAt(v, Val(v, s))
    {
      NotPointer(v, sb, owner, {b}, s, i);
    }
  }

  /** A block that a data slot names is no file's indirect block. */
  lemma NotPointer(v: View, sb: Super, owner: map<nat, Slot>, pending: set<nat>, s: Slot, i: nat)
    requires Owned(v, sb, owner, pending, 0, 0) && IsSlot(v, s) && s != Pointer(i) && Val(v, s) != 0 && i < |v.inodes|
    ensures Val(v, s) != v.inodes[i].addrs[NDIRECT]
  {
    assert IsSlot(v, Pointer(i));
    assert Val(v, Pointer(i)) == v.inodes[i].addrs[NDIRECT];
  }

  /** Word j of the indirect block is b now, and no other slot has changed. */
  lemma EntryPut(v: View, w: View, sb: Super, owner: map<nat, Slot>, i: nat, j: nat, b: nat)
    requires Owned(v, sb, owner, {b}, 0, 0) && i < |v.inodes| && j < NINDIRECT
    requires var a := v.inodes[i].addrs[NDIRECT];
             && a != 0 && a < |v.blocks| && b < UINT
             && w == v.(blocks := v.blocks[a := PutWord(v.blocks[a], j, b)])
    ensures Val(w, Entry(i, j)) == b
    ensures forall s :: IsSlot(v, s) && s != Entry(i, j) ==> IsSlot(w, s) && Val(w, s) == Val(v, s)
  {
    WordPut(v.blocks[v.inodes[i].addrs[NDIRECT]], j, b);
    forall s | IsSlot(v, s) && s != Entry(i, j)
      ensures IsSlot(w, s) && Val(w, s) == Val(v, s)
    {
      if s.Entry? && s.i != i && v.inodes[s.i].addrs[NDIRECT] != 0 {
        NotPointer(v, sb, owner, {b}, Pointer(s.i), i);
      }
    }
  }

  /** What the files other than i hold, w holds too. */
  ghost predicate OthersKeep(v: View, w: View, i: nat) {
    forall j, c {:trigger Has(v, j, c)} :: Has(v, j, c) && j != i ==> Has(w, j, c)
  }

  /** File i holds what it held, with d written at o. */
  ghost predicate WrittenAt(v: View, w: View, i: nat, o: nat, d: seq<Byte>) {
    forall c {:trigger Has(v, i, c)} :: Has(v, i, c) && o <= |c| ==> Has(w, i, Overwrite(c, o, d))
  }

  /** Gaining blocks writes nothing. */
  lemma GainsWritesNothing(v: View, w: View, i: nat, o: nat)
    requires Gains(v, w, i)
    ensures OthersKeep(v, w, i) && WrittenAt(v, w, i, o, [])
  {
    forall j, c | Has(v, j, c)
      ensures Has(w, j, c)
    {
      GainsHas(v, w, i, j, c);
    }
    assert forall c :: Has(v, i, c) && o <= |c| ==> Overwrite(c, o, []) == c;
  }

  /** Gaining blocks and then writing into one of them. */
  lemma GainsThenPiece(v: View, u: View, sb: Super, owner: map<nat, Slot>, i: nat, o: nat, d: seq<Byte>)
    requires Gains(v, u, i) && Tidy(u, sb, owner) && o / BSIZE < MAXFILE && o % BSIZE + |d| <= BSIZE
    requires Addr(u, i, o / BSIZE) != 0
    ensures var a := Addr(u, i, o / BSIZE);
            && a < |u.blocks|
            && var w := u.(blocks := u.blocks[a := Splice(u.blocks[a], o % BSIZE, d)]);
               Tidy(w, sb, owner) && WrittenAt(v, w, i, o, d) && OthersKeep(v, w, i)
  {
    PieceWritten(u, sb, owner, i, o, d);
    forall j, c | Has(v, j, c)
      ensures Has(u, j, c)
    {
      GainsHas(v, u, i, j, c);
    }
  }

  lemma OverwriteTwice(c: seq<Byte>, off: nat, d: seq<Byte>, e: seq<Byte>)
    requires off <= |c|
    ensures Overwrite(Overwrite(c, off, d), off + |d|, e) == Overwrite(c, off, d + e)
  {
  }

  lemma WrittenTwice(v: View, u: View, w: View, i: nat, off: nat, d: seq<Byte>, e: seq<Byte>)
    requires WrittenAt(v, u, i, off, d) && WrittenAt(u, w, i, off + |d|, e)
    ensures WrittenAt(v, w, i, off, d + e)
  {
    forall c | Has(v, i, c) && off <= |c|
      ensures Has(w, i, Overwrite(c, off, d + e))
    {
      OverwriteTwice(c, off, d, e);
      assert Has(u, i, Overwrite(c, off, d));
    }
  }

  lemma OthersKeepTwice(v: View, u: View, w: View, i: nat)
    requires OthersKeep(v, u, i) && OthersKeep(u, w, i)
    ensures OthersKeep(v, w, i)
  {
    forall j, c | Has(v, j, c) && j != i
      ensures Has(w, j, c)
    {
      assert Has(u, j, c);
    }
  }

  /** Two views with the same blocks, free map and addresses have the same slots and bytes. */
  lemma SameAddrs(v: View, w: View, sb: Super, owner: map<nat, Slot>, pending: set<nat>, gi: nat, gj: nat)
    requires w.used == v.used && w.blocks == v.blocks && |w.inodes| == |v.inodes|
    requires forall i :: 0 <= i < |v.inodes| ==> w.inodes[i].addrs == v.inodes[i].addrs
    ensures forall s :: IsSlot(w, s) <==> IsSlot(v, s)
    ensures forall s :: IsSlot(v, s) ==> Val(w, s) == Val(v, s)
    ensures Owned(v, sb, owner, pending, gi, gj) ==> Owned(w, sb, owner, pending, gi, gj)
    ensures forall i, c {:trigger Has(w, i, c)} {:trigger Has(v, i, c)} :: Has(v, i, c) ==> Has(w, i, c)
  {
    forall i, c | Has(v, i, c)
      ensures Has(w, i, c)
    {
      forall k | 0 <= k < |c|
        ensures HasByte(w, i, k, c[k])
      {
        HasAt(v, i, c, k);
      }
    }
  }

  // ----- giving blocks back

  function NoAddrs(): (a: seq<nat>)
    ensures |a| == NDIRECT + 1 && forall k :: 0 <= k < |a| ==> a[k] == 0
  {
    seq(NDIRECT + 1, i => 0)
  }

  ghost function Metadata(sb: Super): set<nat> {
    set b: nat | b < sb.datastart && !sb.IsData(b)
  }

  function Blank(n: nat): seq<Inode> {
    seq(n, _ => Inode(0, 0, 0, NoAddrs()))
  }

  lemma BlankOk(sb: Super, blocks: seq<Data>)
    requires sb.Wf() && |blocks| == sb.size
    ensures Tidy(View(Metadata(sb), blocks, Blank(sb.ninodes)), sb, map[])
    ensures forall i :: 0 <= i < sb.ninodes ==> NoHoles(View(Metadata(sb), blocks, Blank(sb.ninodes)), i) && FreeIsEmpty(Blank(sb.ninodes)[i])
  {
  }

  /** From owner map o to q, only file i has lost blocks. */
  ghost predicate LostBy(q: map<nat, Slot>, o: map<nat, Slot>, i: nat) {
    && (forall b :: b in q ==> b in o && q[b] == o[b])
    && (forall b :: b in o && o[b].i != i ==> b in q)
  }

  lemma LostByTwice(q: map<nat, Slot>, p: map<nat, Slot>, o: map<nat, Slot>, i: nat)
    requires LostBy(q, p, i) && LostBy(p, o, i)
    ensures LostBy(q, o, i)
  {
  }

  lemma TruncStart(v: View, sb: Super, owner: map<nat, Slot>, i: nat)
    requires Tidy(v, sb, owner) && i < |v.inodes|
    ensures OthersKeep(v, v, i) && LostBy(owner, owner, i) && |v.inodes[i].addrs| == NDIRECT + 1
  {
    GainsWritesNothing(v, v, i, 0);
  }

  /** Freeing a direct block and clearing its address. */
  lemma FreeDirect(v: View, sb: Super, owner: map<nat, Slot>, i: nat, k: nat)
    requires Tidy(v, sb, owner) && i < |v.inodes| && k < NDIRECT && v.inodes[i].addrs[k] != 0
    ensures var b := v.inodes[i].addrs[k];
            && b in v.used && b < sb.size && b in owner
            && var w := v.(used := v.used - {b}, inodes := v.inodes[i := v.inodes[i].(addrs := v.inodes[i].addrs[k := 0])]);
               Tidy(w, sb, owner - {b}) && OthersKeep(v, w, i) && LostBy(owner - {b}, owner, i)
  {
    var b := v.inodes[i].addrs[k];
    assert IsSlot(v, Direct(i, k)) && Val(v, Direct(i, k)) == b;
    var w := v.(used := v.used - {b}, inodes := v.inodes[i := v.inodes[i].(addrs := v.inodes[i].addrs[k := 0])]);
    DirectCleared(v, w, i, k);
    SlotsKeepBytes(v, w, i);
    SlotFreed(v, w, sb, owner, Direct(i, k), b);
  }

  lemma DirectCleared(v: View, w: View, i: nat, k: nat)
    requires i < |v.inodes| && |v.inodes[i].addrs| == NDIRECT + 1 && k < NDIRECT && w.blocks == v.blocks
    requires w.inodes == v.inodes[i := v.inodes[i].(addrs := v.inodes[i].addrs[k := 0])]
    ensures forall s :: IsSlot(v, s) <==> IsSlot(w, s)
    ensures forall s :: IsSlot(w, s) ==> Val(w, s) == if s == Direct(i, k) then 0 else Val(v, s)
  {
  }

  /** Slot x was cleared and the block b it named marked free. */
  lemma SlotFreed(v: View, w: View, sb: Super, owner: map<nat, Slot>, x: Slot, b: nat)
    requires Tidy(v, sb, owner) && Wf(w, sb) && IsSlot(v, x) && Val(v, x) == b != 0 && w.used == v.used - {b}
    requires forall s :: IsSlot(v, s) <==> IsSlot(w, s)
    requires forall s :: IsSlot(w, s) ==> Val(w, s) == if s == x then 0 else Val(v, s)
    ensures b in v.used && b < sb.size && b in owner
    ensures Tidy(w, sb, owner - {b}) && LostBy(owner - {b}, owner, x.i)
  {
    hide Val, IsSlot, Wf;
  }

  /** A change that touches only slots of file i keeps the bytes of the others. */
  lemma SlotsKeepBytes(v: View, w: View, i: nat)
    requires w.blocks == v.blocks && |w.inodes| == |v.inodes|
    requires forall s :: IsSlot(v, s) && s.i != i ==> IsSlot(w, s) && Val(w, s) == Val(v, s)
    ensures OthersKeep(v, w, i)
  {
    forall j, c | Has(v, j, c) && j != i
      ensures Has(w, j, c)
    {
      assert IsSlot(v, Pointer(j));
      forall k | 0 <= k < |c|
        ensures HasByte(w, j, k, c[k])
      {
        HasAt(v, j, c, k);
      }
    }
  }

  /** Freeing the block that entry j of the indirect block names; the word stays. */
  lemma FreeEntry(v: View, sb: Super, owner: map<nat, Slot>, i: nat, j: nat)
    requires Owned(v, sb, owner, {}, i, j) && i < |v.inodes| && j < NINDIRECT && Val(v, Entry(i, j)) != 0
    requires EntriesGone(owner, i, j)
    ensures var b := Val(v, Entry(i, j));
            && b in v.used && b < sb.size && b in owner && owner[b] == Entry(i, j)
            && Owned(v.(used := v.used - {b}), sb, owner - {b}, {}, i, j + 1)
            && LostBy(owner - {b}, owner, i) && EntriesGone(owner - {b}, i, j + 1)
  {
    hide Val;
    var b := Val(v, Entry(i, j));
    var w := v.(used := v.used - {b});
    SameVals(v, w);
  }

  lemma SameVals(v: View, w: View)
    requires w.blocks == v.blocks && w.inodes == v.inodes
    ensures forall s :: IsSlot(v, s) <==> IsSlot(w, s)
    ensures forall s :: IsSlot(v, s) ==> Val(w, s) == Val(v, s)
  {
  }

  lemma SkipEntry(v: View, sb: Super, owner: map<nat, Slot>, i: nat, j: nat)
    requires Owned(v, sb, owner, {}, i, j) && i < |v.inodes| && j < NINDIRECT && Val(v, Entry(i, j)) == 0
    requires EntriesGone(owner, i, j)
    ensures Owned(v, sb, owner, {}, i, j + 1) && EntriesGone(owner, i, j + 1)
  {
  }

  /** Freeing the indirect block once its entries are gone. */
  lemma FreePointer(v: View, sb: Super, owner: map<nat, Slot>, i: nat)
    requires Owned(v, sb, owner, {}, i, NINDIRECT) && i < |v.inodes| && v.inodes[i].addrs[NDIRECT] != 0
    requires forall b :: b in owner && owner[b].i == i ==> owner[b].Pointer?
    ensures var a := v.inodes[i].addrs[NDIRECT];
            && a in v.used && a < sb.size && a in owner
            && var w := v.(used := v.used - {a}, inodes := v.inodes[i := v.inodes[i].(addrs := v.inodes[i].addrs[NDIRECT := 0])]);
               Tidy(w, sb, owner - {a}) && OthersKeep(v, w, i) && LostBy(owner - {a}, owner, i)
  {
    var a := v.inodes[i].addrs[NDIRECT];
    assert IsSlot(v, Pointer(i)) && Val(v, Pointer(i)) == a;
    var w := v.(used := v.used - {a}, inodes := v.inodes[i := v.inodes[i].(addrs := v.inodes[i].addrs[NDIRECT := 0])]);
    PointerCleared(v, w, i);
    SlotsKeepBytes(v, w, i);
    PointerFreed(v, w, sb, owner, i);
  }

  lemma PointerCleared(v: View, w: View, i: nat)
    requires i < |v.inodes| && |v.inodes[i].addrs| == NDIRECT + 1 && w.blocks == v.blocks
    requires w.inodes == v.inodes[i := v.inodes[i].(addrs := v.inodes[i].addrs[NDIRECT := 0])]
    ensures forall s :: IsSlot(v, s) <==> IsSlot(w, s)
    ensures forall s :: IsSlot(w, s) ==> Val(w, s) == if s.i == i && !s.Direct? then 0 else Val(v, s)
  {
  }

  lemma PointerFreed(v: View, w: View, sb: Super, owner: map<nat, Slot>, i: nat)
    requires Owned(v, sb, owner, {}, i, NINDIRECT) && i < |v.inodes| && v.inodes[i].addrs[NDIRECT] != 0
    requires forall b :: b in owner && owner[b].i == i ==> owner[b].Pointer?
    requires w == v.(used := v.used - {v.inodes[i].addrs[NDIRECT]},
                     inodes := v.inodes[i := v.inodes[i].(addrs := v.inodes[i].addrs[NDIRECT := 0])])
    requires forall s :: IsSlot(v, s) <==> IsSlot(w, s)
    requires forall s :: IsSlot(w, s) ==> Val(w, s) == if s.i == i && !s.Direct? then 0 else Val(v, s)
    ensures Tidy(w, sb, owner - {v.inodes[i].addrs[NDIRECT]}) && LostBy(owner - {v.inodes[i].addrs[NDIRECT]}, owner, i)
  {
    assert IsSlot(v, Pointer(i)) && Val(v, Pointer(i)) == v.inodes[i].addrs[NDIRECT];
  }

  /** From v to w, d was written at off of file i, whose addresses may have grown. */
  ghost predicate Wrote(v: View, w: View, i: nat, off: nat, d: seq<Byte>) {
    && i < |v.inodes| && |w.inodes| == |v.inodes|
    && w.inodes == v.inodes[i := v.inodes[i].(addrs := w.inodes[i].addrs)]
    && OthersKeep(v, w, i) && WrittenAt(v, w, i, off, d)
  }

  lemma GainsWrote(v: View, w: View, i: nat, o: nat)
    requires Gains(v, w, i)
    ensures Wrote(v, w, i, o, [])
    ensures v.inodes[i].addrs != [] && |v.inodes[i].addrs| == NDIRECT + 1 && v.inodes[i].addrs[NDIRECT] != 0 ==>
              |w.inodes[i].addrs| == NDIRECT + 1 && w.inodes[i].addrs[NDIRECT] == v.inodes[i].addrs[NDIRECT]
  {
    GainsWritesNothing(v, w, i, o);
    assert IsSlot(v, Pointer(i)) ==> Val(v, Pointer(i)) == v.inodes[i].addrs[NDIRECT];
  }

  lemma WroteNothing(v: View, i: nat, off: nat)
    requires i < |v.inodes| && |v.inodes[i].addrs| == NDIRECT + 1
    ensures Wrote(v, v, i, off, [])
  {
    GainsWritesNothing(v, v, i, off);
  }

  lemma WroteNoMore(v: View, u: View, w: View, i: nat, off: nat, d: seq<Byte>)
    requires Wrote(v, u, i, off, d) && Wrote(u, w, i, off + |d|, [])
    ensures Wrote(v, w, i, off, d)
  {
    WroteTwice(v, u, w, i, off, d, []);
    assert d + [] == d;
  }

  lemma WroteTwice(v: View, u: View, w: View, i: nat, off: nat, d: seq<Byte>, e: seq<Byte>)
    requires Wrote(v, u, i, off, d) && Wrote(u, w, i, off + |d|, e)
    ensures Wrote(v, w, i, off, d + e)
  {
    WrittenTwice(v, u, w, i, off, d, e);
    OthersKeepTwice(v, u, w, i);
  }

  lemma NextPrefix(src: seq<Byte>, tot: nat, m: nat)
    requires tot + m <= |src|
    ensures src[..tot] + src[tot..tot + m] == src[..tot + m]
  {
  }

  /** A write that starts inside a block starts inside the file, where the block is mapped. */
  lemma FirstPieceMapped(v: View, i: nat, off: nat)
    requires NoHoles(v, i) && off <= v.inodes[i].size
    ensures off % BSIZE != 0 ==> Addr(v, i, off / BSIZE) != 0
  {
    assert SlotOf(i, off / BSIZE).i == i;
  }

  /** The first j entries of inode i own nothing any more. */
  ghost predicate EntriesGone(owner: map<nat, Slot>, i: nat, j: nat) {
    forall b :: b in owner && owner[b].Entry? && owner[b].i == i ==> owner[b].j >= j
  }

  lemma NoEntriesGone(v: View, sb: Super, owner: map<nat, Slot>, i: nat)
    requires Tidy(v, sb, owner)
    ensures Owned(v, sb, owner, {}, i, 0) && EntriesGone(owner, i, 0) && LostBy(owner, owner, i)
  {
  }

  lemma PieceRead(v: View, i: nat, o: nat, m: nat)
    requires NoHoles(v, i) && m > 0 && o + m <= v.inodes[i].size && o % BSIZE + m <= BSIZE
    ensures Content(v, i)[o..o + m] == BlockAt(v, Addr(v, i, o / BSIZE))[o % BSIZE..o % BSIZE + m]
  {
    hide Content, Has, Val;
    var c, d := Content(v, i), BlockAt(v, Addr(v, i, o / BSIZE));
    var x, y := c[o..o + m], d[o % BSIZE..o % BSIZE + m];
    forall k | 0 <= k < m
      ensures x[k] == y[k]
    {
      HasAt(v, i, c, o + k);
      SameBlock(o, k);
    }
    assert x == y;
  }

  lemma SameBlock(o: nat, k: nat)
    requires o % BSIZE + k < BSIZE
    ensures (o + k) / BSIZE == o / BSIZE && (o + k) % BSIZE == o % BSIZE + k
  {
  }

  lemma JoinSlices(c: seq<Byte>, i: nat, j: nat, k: nat)
    requires i <= j <= k <= |c|
    ensures c[i..j] + c[j..k] == c[i..k]
  {
  }

  lemma OnlyPointer(v: View, sb: Super, owner: map<nat, Slot>, i: nat)
    requires Owned(v, sb, owner, {}, i, NINDIRECT) && i < |v.inodes|
    requires forall k :: 0 <= k < NDIRECT ==> v.inodes[i].addrs[k] == 0
    requires EntriesGone(owner, i, NINDIRECT)
    ensures forall b :: b in owner && owner[b].i == i ==> owner[b].Pointer?
  {
    forall b | b in owner && owner[b].i == i
      ensures owner[b].Pointer?
    {
      assert IsSlot(v, owner[b]) && Val(v, owner[b]) == b;
    }
  }

  lemma NoSlotsLeft(v: View, sb: Super, owner: map<nat, Slot>, i: nat)
    requires Tidy(v, sb, owner) && i < |v.inodes| && v.inodes[i].addrs == NoAddrs()
    ensures forall b :: b in owner ==> owner[b].i != i
  {
  }

  /** No block is free. */
  ghost predicate Full(v: View, sb: Super) {
    forall b :: 0 <= b < sb.size ==> b in v.used
  }

  /** The disk is full and file block bn has no disk block. */
  ghost predicate Stuck(v: View, sb: Super, i: nat, bn: nat) {
    Full(v, sb) && IsSlot(v, SlotOf(i, bn)) && Addr(v, i, bn) == 0
  }

  /** Below the size nothing gets stuck. */
  lemma NotStuck(v: View, sb: Super, i: nat, off: nat)
    requires NoHoles(v, i) && off < v.inodes[i].size
    ensures !Stuck(v, sb, i, off / BSIZE)
  {
    assert SlotOf(i, off / BSIZE).i == i;
  }

  lemma StillStuck(v: View, w: View, sb: Super, i: nat, bn: nat)
    requires Stuck(v, sb, i, bn) && w.used == v.used && w.blocks == v.blocks
    requires i < |w.inodes| && i < |v.inodes| && w.inodes[i].addrs == v.inodes[i].addrs
    ensures Stuck(w, sb, i, bn)
  {
  }

  ghost predicate AllMapped(v: View) {
    forall i :: 0 <= i < |v.inodes| ==> NoHoles(v, i)
  }

  /** From v to w, file i had d written at off, if off was inside it, and nothing else
      changed. */
  ghost predicate Appended(v: View, w: View, i: nat, off: nat, d: seq<Byte>) {
    && AllMapped(v) && AllMapped(w) && i < |v.inodes| && |w.inodes| == |v.inodes|
    && (off <= v.inodes[i].size ==> Content(w, i) == Overwrite(Content(v, i), off, d))
    && (off > v.inodes[i].size ==> d == [] && Content(w, i) == Content(v, i))
    && forall j :: 0 <= j < |v.inodes| && j != i ==> w.inodes[j] == v.inodes[j] && Content(w, j) == Content(v, j)
  }

  lemma AppendedNothing(v: View, i: nat, off: nat)
    requires AllMapped(v) && i < |v.inodes|
    ensures Appended(v, v, i, off, [])
  {
  }

  lemma AppendedTwice(v: View, u: View, w: View, i: nat, off: nat, d: seq<Byte>, e: seq<Byte>)
    requires Appended(v, u, i, off, d) && Appended(u, w, i, off + |d|, e)
    ensures Appended(v, w, i, off, d + e)
  {
    if off <= v.inodes[i].size {
      OverwriteTwice(Content(v, i), off, d, e);
    } else {
      assert d + e == [];
    }
  }

  // ----- what a transaction logs

  /** What is on disk: data and indirect blocks, the free map, the inodes. */
  datatype Image = Image(blocks: seq<Data>, used: set<nat>, dinodes: seq<Inode>)

  /** Every block that differs between the two images was passed to log_write: the block itself, the
      block of the free map its bit is in, the block its inode is in. */
  ghost predicate Covered(sb: Super, a: Image, b: Image, logged: set<nat>) {
    && |b.blocks| == |a.blocks| && |b.dinodes| == |a.dinodes|
    && (forall k :: 0 <= k < |a.blocks| && b.blocks[k] != a.blocks[k] ==> k in logged)
    && (forall k :: k in a.used && k !in b.used ==> sb.BitmapBlock(k) in logged)
    && (forall k :: k in b.used && k !in a.used ==> sb.BitmapBlock(k) in logged)
    && forall i :: 0 <= i < |a.dinodes| && b.dinodes[i] != a.dinodes[i] ==> sb.InodeBlock(i) in logged
  }

  lemma CoveredThen(sb: Super, a: Image, b: Image, c: Image, l: set<nat>, m: set<nat>)
    requires Covered(sb, a, b, l) && Covered(sb, b, c, m) && l <= m
    ensures Covered(sb, a, c, m)
  {
  }

  lemma CoveredSame(sb: Super, a: Image, l: set<nat>)
    ensures Covered(sb, a, a, l)
  {
  }

  /** One transaction of filewrite: the image it leaves, and the blocks it logged. */
  datatype Transaction = Transaction(after: Image, logged: set<nat>)

  /** ts lead from image a to image b; each logged all it changed, within the budget of one
      operation. */
  ghost predicate Transactions(sb: Super, a: Image, ts: seq<Transaction>, b: Image)
    decreases |ts|
  {
    if ts == [] then a == b else
      var n := |ts| - 1;
      var m := if n == 0 then a else ts[n - 1].after;
      && ts[n].after == b && |ts[n].logged| <= MAXOPBLOCKS && Covered(sb, m, b, ts[n].logged)
      && Transactions(sb, a, ts[..n], m)
  }

  lemma OneMore(sb: Super, a: Image, ts: seq<Transaction>, b: Image, c: Image, logged: set<nat>)
    requires Transactions(sb, a, ts, b) && Covered(sb, b, c, logged) && |logged| <= MAXOPBLOCKS
    ensures Transactions(sb, a, ts + [Transaction(c, logged)], c)
  {
    hide Covered;
    var ts' := ts + [Transaction(c, logged)];
    assert ts'[..|ts|] == ts;
  }
}
