/** The block layer and the inode content code of the file system. */
module FsCode {
  import opened Basics
  import opened FsLayout
  import opened FsSpec
  import opened FsBudget

  class FileSystem {
    const sb: Super
    var bits: seq<Bits>        // the free map, block by block
    var blocks: seq<Data>
    var inodes: seq<Inode>     // the in-memory copies
    var dinodes: seq<Inode>    // the inodes on disk
    var logged: set<nat>       // blocks passed to log_write in this transaction
    ghost var used: set<nat>   // the blocks whose bit is set
    ghost var owner: map<nat, Slot>

    /** A blank image: no files, and a free map that marks the blocks before the data area. */
    constructor (sb: Super, bits: seq<Bits>, blocks: seq<Data>)
      requires sb.Wf() && |blocks| == sb.size && MapsTo(bits, sb.size, Metadata(sb))
      ensures Valid() && this.sb == sb && logged == {} && forall i :: 0 <= i < |inodes| ==> inodes[i].typ == 0
    {
      this.sb, this.bits, this.blocks := sb, bits, blocks;
      inodes, dinodes := Blank(sb.ninodes), Blank(sb.ninodes);
      logged, used, owner := {}, Metadata(sb), map[];
      new;
      BlankOk(sb, blocks);
    }

    ghost function Im(): Image
      reads this
    {
      Image(blocks, used, dinodes)
    }

    ghost function V(): View
      reads this
    {
      View(used, blocks, inodes)
    }

    /** The free map on disk says which blocks are used. */
    ghost predicate BitsOk()
      reads this
    {
      MapsTo(bits, sb.size, used)
    }

    ghost predicate Base()
      reads this
    {
      BitsOk() && Tidy(V(), sb, owner)
    }

    /** balloc: the lowest free block, marked and zeroed, or 0 if there is none. */
    method Balloc() returns (r: nat)
      requires BitsOk() && |blocks| == sb.size && 0 in used
      modifies this`bits, this`blocks, this`logged, this`used
      ensures r == 0 ==> (Full(V(), sb)) && unchanged(this)
      ensures r != 0 ==>
                && r < sb.size && r !in old(used) && (forall b :: 0 <= b < r ==> b in old(used))
                && BitsOk() && used == old(used) + {r} && blocks == old(blocks)[r := Zeros()]
                && logged == old(logged) + {sb.BitmapBlock(r), r}
      ensures old(logged) <= logged && Covered(sb, old(Im()), Im(), logged)
    {
      r := FindFree();
      if r == 0 {
        return;
      }
      SetUsed(r);
      logged := logged + {sb.BitmapBlock(r)};
      Bzero(r);
    }

    /** The nested search of balloc, one block of the free map after the other. */
    method FindFree() returns (r: nat)
      requires BitsOk() && 0 in used
      ensures r == 0 ==> Full(V(), sb)
      ensures r != 0 ==> r < sb.size && r !in used && forall b :: 0 <= b < r ==> b in used
    {
      var b := 0;
      while b < sb.size
        invariant b % BPB == 0
        invariant forall x :: 0 <= x < b && x < sb.size ==> x in used
      {
        var bi := 0;
        while bi < BPB && b + bi < sb.size
          invariant 0 <= bi <= BPB
          invariant forall x :: 0 <= x < b + bi && x < sb.size ==> x in used
        {
          assert (b + bi) / BPB == b / BPB && (b + bi) % BPB == bi;
          var free := TestFree(b, bi);
          if free {
            return b + bi;
          }
          bi := bi + 1;
        }
        b := b + BPB;
      }
      r := 0;
    }

    method TestFree(b: nat, bi: nat) returns (free: bool)
      requires BitsOk() && b + bi < sb.size && bi < BPB
      requires (b + bi) / BPB == b / BPB && (b + bi) % BPB == bi
      ensures free <==> b + bi !in used
    {
      free := bits[b / BPB][bi / 8] & Mask(bi % 8) == 0;
      assert free <==> !Marked(bits, b + bi);
    }

    method Bzero(b: nat)
      requires b < |blocks|
      modifies this`blocks, this`logged
      ensures blocks == old(blocks)[b := Zeros()] && logged == old(logged) + {b}
      ensures old(logged) <= logged && Covered(sb, old(Im()), Im(), logged)
    {
      blocks := blocks[b := Zeros()];
      logged := logged + {b};
    }

    method SetUsed(b: nat)
      requires BitsOk() && b < sb.size
      modifies this`bits, this`used
      ensures BitsOk() && used == old(used) + {b}
    {
      ghost var was := bits;
      bits := bits[b / BPB := SetBit(bits[b / BPB], b % BPB)];
      used := used + {b};
      forall x | 0 <= x < sb.size
        ensures x in used <==> Marked(bits, x)
      {
        assert x in old(used) <==> Marked(was, x);
        assert x == b <==> x / BPB == b / BPB && x % BPB == b % BPB;
        if x / BPB == b / BPB {
          SetBitAt(was[b / BPB], b % BPB, x % BPB);
        }
      }
    }

    method ClearUsed(b: nat)
      requires BitsOk() && b < sb.size
      modifies this`bits, this`used
      ensures BitsOk() && used == old(used) - {b}
    {
      ghost var was := bits;
      bits := bits[b / BPB := ClearBit(bits[b / BPB], b % BPB)];
      used := used - {b};
      forall x | 0 <= x < sb.size
        ensures x in used <==> Marked(bits, x)
      {
        assert x in old(used) <==> Marked(was, x);
        assert x == b <==> x / BPB == b / BPB && x % BPB == b % BPB;
        if x / BPB == b / BPB {
          ClearBitAt(was[b / BPB], b % BPB, x % BPB);
        }
      }
    }

    /** bfree: clears the bit; true is the panic "freeing free block". */
    method Bfree(b: nat) returns (panics: bool)
      requires BitsOk() && b < sb.size
      modifies this`bits, this`logged, this`used
      ensures panics <==> b !in old(used)
      ensures panics ==> unchanged(this)
      ensures !panics ==> BitsOk() && used == old(used) - {b} && logged == old(logged) + {sb.BitmapBlock(b)}
      ensures old(logged) <= logged && Covered(sb, old(Im()), Im(), logged)
    {
      assert b == b - b % BPB + b % BPB && (b - b % BPB) / BPB == b / BPB;
      var free := TestFree(b - b % BPB, b % BPB);
      if free {
        return true;
      }
      ClearUsed(b);
      logged := logged + {sb.BitmapBlock(b)};
      panics := false;
    }
  
    /** "addr = balloc(); if(addr == 0) return 0; ip->addrs[k] = addr", for a direct address or
        the indirect one. */
    method AllocAddr(inum: nat, k: nat) returns (r: nat)
      requires Base() && inum < |inodes| && k <= NDIRECT && inodes[inum].addrs[k] == 0
      modifies this`bits, this`blocks, this`inodes, this`logged, this`used, this`owner
      ensures Base() && Gains(old(V()), V(), inum)
      ensures r == 0 ==> unchanged(this) && Full(V(), sb)
      ensures r != 0 ==>
                && inodes == old(inodes)[inum := old(inodes)[inum].(addrs := old(inodes)[inum].addrs[k := r])]
                && logged == old(logged) + {sb.BitmapBlock(r), r}
                && (forall s :: IsSlot(old(V()), s) && s != AddrSlot(inum, k) ==>
                      IsSlot(V(), s) && Val(V(), s) == Val(old(V()), s))
      ensures old(logged) <= logged && Covered(sb, old(Im()), Im(), logged)
    {
      ghost var v := V();
      r := Balloc();
      if r == 0 {
        return;
      }
      AllocKeeps(v, sb, owner, {}, r);
      AllocGains(v, sb, owner, r, inum);
      ghost var u := V();
      assert {} + {r} == {r};
      LinkAddr(u, sb, owner, inum, k, r);
      inodes := inodes[inum := inodes[inum].(addrs := inodes[inum].addrs[k := r])];
      owner := owner[r := AddrSlot(inum, k)];
      GainsTransitive(v, u, V(), inum);
    }

    /** The last part of bmap: word j of the indirect block, allocated if it is 0. */
    method AllocEntry(inum: nat, j: nat) returns (addr: nat)
      requires Base() && inum < |inodes| && j < NINDIRECT && inodes[inum].addrs[NDIRECT] != 0
      modifies this`bits, this`blocks, this`logged, this`used, this`owner
      ensures Base() && Gains(old(V()), V(), inum)
      ensures addr == Val(V(), Entry(inum, j))
      ensures addr == 0 ==> unchanged(this) && Full(V(), sb)
      ensures addr == old(Val(V(), Entry(inum, j))) ==> unchanged(this)
      ensures addr != old(Val(V(), Entry(inum, j))) ==>
                logged == old(logged) + {sb.BitmapBlock(addr), addr, inodes[inum].addrs[NDIRECT]}
      ensures old(logged) <= logged && Covered(sb, old(Im()), Im(), logged)
    {
      hide Owned, Gains;
      ghost var v := V();
      EntryFacts(v, sb, owner, inum, j);
      var a := inodes[inum].addrs[NDIRECT];
      addr := WordAt(blocks[a], j);
      if addr == 0 {
        addr := Balloc();
        if addr != 0 {
          AllocKeeps(v, sb, owner, {}, addr);
          AllocGains(v, sb, owner, addr, inum);
          ghost var u := V();
          assert {} + {addr} == {addr};
          LinkEntry(u, sb, owner, inum, j, addr);
          WordPut(blocks[a], j, addr);
          blocks := blocks[a := PutWord(blocks[a], j, addr)];
          logged := logged + {a};
          owner := owner[addr := Entry(inum, j)];
          GainsTransitive(v, u, V(), inum);
        }
      }
    }
  
    /** bmap: the disk block of file block bn, allocated if need be; 0 if the disk is full.
        `bm` are the blocks of the free map it logged. */
    method Bmap(inum: nat, bn: nat) returns (addr: nat, ghost bm: set<nat>)
      requires Base() && inum < |inodes| && bn < MAXFILE
      modifies this`bits, this`blocks, this`inodes, this`logged, this`used, this`owner
      ensures Base() && Gains(old(V()), V(), inum)
      ensures addr == Addr(V(), inum, bn)
      ensures addr == 0 ==> Full(V(), sb)
      ensures old(Addr(V(), inum, bn)) != 0 ==> unchanged(this) && bm == {}
      ensures bn < NDIRECT ==> inodes[inum].addrs[NDIRECT] == old(inodes)[inum].addrs[NDIRECT]
      ensures |bm| <= (if addr != 0 && old(Addr(V(), inum, bn)) == 0 then 1 else 0)
                    + (if inodes[inum].addrs[NDIRECT] != old(inodes)[inum].addrs[NDIRECT] then 1 else 0)
      ensures logged <= old(logged) + bm + Unless0(addr) + Unless0(inodes[inum].addrs[NDIRECT])
      ensures old(logged) <= logged && Covered(sb, old(Im()), Im(), logged)
    {
      bm := {};
      if bn < NDIRECT {
        addr := inodes[inum].addrs[bn];
        assert IsSlot(V(), Direct(inum, bn));
        if addr == 0 {
          addr := AllocAddr(inum, bn);
          bm := if addr == 0 then {} else {sb.BitmapBlock(addr)};
        }
        return;
      }
      addr, bm := BmapIndirect(inum, bn - NDIRECT);
    }

    /** bmap through the indirect block, which is allocated first if there is none; it stays
        allocated when the data block cannot be. */
    method BmapIndirect(inum: nat, j: nat) returns (addr: nat, ghost bm: set<nat>)
      requires Base() && inum < |inodes| && j < NINDIRECT
      modifies this`bits, this`blocks, this`inodes, this`logged, this`used, this`owner
      ensures Base() && Gains(old(V()), V(), inum)
      ensures addr == Val(V(), Entry(inum, j))
      ensures addr == 0 ==> Full(V(), sb)
      ensures old(Val(V(), Entry(inum, j))) != 0 ==> unchanged(this) && bm == {}
      ensures |bm| <= (if addr != 0 && old(Val(V(), Entry(inum, j))) == 0 then 1 else 0)
                    + (if inodes[inum].addrs[NDIRECT] != old(inodes)[inum].addrs[NDIRECT] then 1 else 0)
      ensures logged <= old(logged) + bm + Unless0(addr) + Unless0(inodes[inum].addrs[NDIRECT])
      ensures old(logged) <= logged && Covered(sb, old(Im()), Im(), logged)
    {
      ghost var v := V();
      bm := {};
      assert IsSlot(v, Pointer(inum)) && IsSlot(v, Entry(inum, j));
      addr := inodes[inum].addrs[NDIRECT];
      if addr == 0 {
        addr := AllocAddr(inum, NDIRECT);
        if addr == 0 {
          return;
        }
        bm := {sb.BitmapBlock(addr)};
      }
      ghost var u := V();
      addr := AllocEntry(inum, j);
      GainsTransitive(v, u, V(), inum);
      if addr != 0 && Val(v, Entry(inum, j)) == 0 {
        bm := bm + {sb.BitmapBlock(addr)};
      }
    }

    /** One round of writei's loop: map the block, copy the bytes in, log it.  A failed copy
        leaves the bytes alone. */
    method WritePiece(inum: nat, o: nat, d: seq<Byte>, fault: bool) returns (ok: bool, addr: nat, ghost bm: set<nat>)
      requires Base() && inum < |inodes| && o / BSIZE < MAXFILE && o % BSIZE + |d| <= BSIZE
      modifies this`bits, this`blocks, this`inodes, this`logged, this`used, this`owner
      ensures Base() && (ok ==> Wrote(old(V()), V(), inum, o, d)) && (!ok ==> Wrote(old(V()), V(), inum, o, []))
      ensures ok <==> addr != 0 && !fault
      ensures addr == 0 ==> Stuck(V(), sb, inum, o / BSIZE)
      ensures old(Addr(V(), inum, o / BSIZE)) != 0 ==> bm == {} && addr != 0
      ensures |bm| <= (if addr != 0 then 1 else 0)
                    + (if inodes[inum].addrs[NDIRECT] != old(inodes)[inum].addrs[NDIRECT] then 1 else 0)
      ensures old(inodes)[inum].addrs[NDIRECT] != 0 ==> inodes[inum].addrs[NDIRECT] == old(inodes)[inum].addrs[NDIRECT]
      ensures logged <= old(logged) + bm + Unless0(addr) + Unless0(inodes[inum].addrs[NDIRECT])
      ensures old(logged) <= logged && Covered(sb, old(Im()), Im(), logged)
    {
      hide Owned, Gains, MapsTo, OthersKeep, WrittenAt, Full;
      ghost var v := V();
      HasAddrs(v, sb, owner, inum);
      addr, bm := Bmap(inum, o / BSIZE);
      GainsWrote(v, V(), inum, o);
      ok := addr != 0 && !fault;
      if ok {
        CopyIn(v, inum, o, d, addr);
      }
    }

    /** either_copyin into the block, then log_write. */
    method CopyIn(ghost v: View, inum: nat, o: nat, d: seq<Byte>, addr: nat)
      requires Base() && Gains(v, V(), inum) && o / BSIZE < MAXFILE && o % BSIZE + |d| <= BSIZE
      requires addr != 0 && addr == Addr(V(), inum, o / BSIZE)
      modifies this`blocks, this`logged
      ensures Base() && WrittenAt(v, V(), inum, o, d) && OthersKeep(v, V(), inum)
      ensures logged == old(logged) + {addr}
      ensures old(logged) <= logged && Covered(sb, old(Im()), Im(), logged)
    {
      GainsThenPiece(v, V(), sb, owner, inum, o, d);
      blocks := blocks[addr := Splice(blocks[addr], o % BSIZE, d)];
      logged := logged + {addr};
    }

    /** Between operations: the free map, the slots, the sizes and the inodes on disk agree. */
    ghost predicate Valid()
      reads this
    {
      && Base() && dinodes == inodes
      && forall i :: 0 <= i < |inodes| ==> NoHoles(V(), i) && FreeIsEmpty(inodes[i])
    }

    /** How far writei's loop has come since view v: `done` is written, out of n bytes, and
        `acc` accounts for what is logged. */
    ghost predicate Progress(v: View, inum: nat, off: nat, done: seq<Byte>, n: nat, acc: Account)
      reads this
    {
      && Base() && inum < |inodes| && |inodes[inum].addrs| == NDIRECT + 1 && Wrote(v, V(), inum, off, done)
      && InAccount(off, n, acc, inodes[inum].addrs[NDIRECT], logged)
    }

    /** One round of writei's loop, for the next piece e. */
    method WriteRound(inum: nat, off: nat, e: seq<Byte>, fault: bool,
                      ghost v: View, ghost done: seq<Byte>, n: nat, tot: nat, ghost acc: Account)
      returns (ok: bool, ghost acc': Account)
      requires Progress(v, inum, off, done, n, acc) && AtBoundary(off, n, tot, acc.rounds)
      requires |done| == tot < n && |e| == PieceLen(off, n, tot) && off + n <= MAXFILE * BSIZE
      requires acc.rounds == 0 && off % BSIZE != 0 ==> Addr(V(), inum, off / BSIZE) != 0
      modifies this`bits, this`blocks, this`inodes, this`logged, this`used, this`owner
      ensures acc'.pointer == acc.pointer && acc'.before == acc.before
      ensures !ok ==> fault || Stuck(V(), sb, inum, (off + tot) / BSIZE)
      ensures ok ==> !fault && acc'.rounds > 0 && AtBoundary(off, n, tot + |e|, acc'.rounds)
      ensures ok ==> Progress(v, inum, off, done + e, n, acc')
      ensures !ok ==> Progress(v, inum, off, done, n, acc')
      ensures old(logged) <= logged && Covered(sb, old(Im()), Im(), logged)
    {
      hide Owned, OthersKeep, WrittenAt, MapsTo, Stuck;
      ghost var u, p, l := V(), inodes[inum].addrs[NDIRECT], logged;
      var addr;
      ghost var more;
      ok, addr, more := WritePiece(inum, off + tot, e, fault);
      HasAddrs(V(), sb, owner, inum);
      acc' := AccountRound(off, n, tot, acc, addr, more, p, inodes[inum].addrs[NDIRECT], l, logged);
      if ok {
        WroteTwice(v, u, V(), inum, off, done, e);
      } else {
        WroteNoMore(v, u, V(), inum, off, done);
      }
    }

    /** The loop of writei.  `faults` are the positions at which copying from the user fails. */
    method WriteLoop(inum: nat, src: seq<Byte>, off: nat, faults: set<nat>) returns (tot: nat, ghost acc: Account)
      requires Base() && inum < |inodes| && NoHoles(V(), inum)
      requires off <= inodes[inum].size && off + |src| <= MAXFILE * BSIZE
      modifies this`bits, this`blocks, this`inodes, this`logged, this`used, this`owner
      ensures tot <= |src| && Progress(old(V()), inum, off, src[..tot], |src|, acc) && acc.before == old(logged)
      ensures tot < |src| ==> tot in faults || Stuck(V(), sb, inum, (off + tot) / BSIZE)
      ensures Whole(off, |src|, tot) && Clear(faults, off, tot)
      ensures old(logged) <= logged && Covered(sb, old(Im()), Im(), logged)
    {
      hide Owned, Tidy, Wrote, InAccount, AtBoundary, Whole, Stuck, Clear, MapsTo, Covered;
      ghost var v, done := V(), [];
      LoopStarts(off, |src|, faults, inodes[inum].addrs[NDIRECT], logged);
      tot, acc := 0, Account(0, {}, {}, inodes[inum].addrs[NDIRECT], logged);
      WroteNothing(v, inum, off);
      CoveredSame(sb, Im(), logged);
      FirstPieceMapped(v, inum, off);
      while tot < |src|
        invariant tot <= |src| && done == src[..tot]
        invariant Progress(v, inum, off, done, |src|, acc) && acc.before == old(logged)
        invariant AtBoundary(off, |src|, tot, acc.rounds) && Whole(off, |src|, tot) && Clear(faults, off, tot)
        invariant old(logged) <= logged && Covered(sb, old(Im()), Im(), logged)
        invariant acc.rounds == 0 && off % BSIZE != 0 ==> Addr(V(), inum, off / BSIZE) != 0
        decreases |src| - tot
      {
        var m := PieceLen(off, |src|, tot);
        var ok;
        ghost var im, l := Im(), logged;
        ok, acc := WriteRound(inum, off, src[tot..tot + m], tot in faults, v, done, |src|, tot, acc);
        CoveredThen(sb, old(Im()), im, Im(), l, logged);
        if !ok {
          break;
        }
        NextPrefix(src, tot, m);
        PieceEnds(off, |src|, tot);
        PieceClear(faults, off, |src|, tot);
        done := done + src[tot..tot + m];
        tot := tot + m;
      }
    }

    /** iupdate: the in-memory inode to disk. */
    method Iupdate(inum: nat)
      requires inum < |inodes| == |dinodes|
      modifies this`dinodes, this`logged
      ensures dinodes == old(dinodes)[inum := inodes[inum]] && logged == old(logged) + {sb.InodeBlock(inum)}
      ensures old(logged) <= logged && Covered(sb, old(Im()), Im(), logged)
    {
      dinodes := dinodes[inum := inodes[inum]];
      logged := logged + {sb.InodeBlock(inum)};
    }

    /** The arguments for which writei refuses to write. */
    ghost predicate Refuses(inum: nat, off: nat, n: nat)
      reads this
      requires inum < |inodes|
    {
      off > inodes[inum].size || off + n >= UINT || off + n > MAXFILE * BSIZE
    }

    /** writei: r bytes of src replace bytes off..off+r of the file, which grows if need be, and
        no other file changes.  It stops early only at a failed copy, or where the next block of the
        file has yet to be allocated and the disk is full. */
    method Writei(inum: nat, src: seq<Byte>, off: nat, faults: set<nat>) returns (r: int)
      requires Valid() && inum < |inodes| && inodes[inum].typ != 0 && off < UINT && |src| < UINT
      modifies this
      ensures Valid() && |inodes| == |old(inodes)|
      ensures old(Refuses(inum, off, |src|)) <==> r == -1
      ensures r == -1 ==> unchanged(this)
      ensures r != -1 ==>
                && 0 <= r <= |src|
                && Content(V(), inum) == Overwrite(old(Content(V(), inum)), off, src[..r])
                && inodes[inum] == old(inodes)[inum].(size := inodes[inum].size, addrs := inodes[inum].addrs)
                && (r < |src| ==> r in faults || Stuck(V(), sb, inum, (off + r) / BSIZE))
                && Clear(faults, off, r) && Whole(off, |src|, r)
      ensures forall j :: 0 <= j < |inodes| && j != inum ==>
                inodes[j] == old(inodes)[j] && Content(V(), j) == old(Content(V(), j))
      ensures |src| <= 3 * BSIZE ==> |logged - old(logged)| <= MAXOPBLOCKS
      ensures old(logged) <= logged && Covered(sb, old(Im()), Im(), logged)
    {
      hide Owned, Content, Stuck, Overwrite, MapsTo;
      var n := |src|;
      if off > inodes[inum].size || (off + n) % UINT < off {
        return -1;
      }
      if (off + n) % UINT > MAXFILE * BSIZE {
        return -1;
      }
      ghost var v := V();
      var tot;
      ghost var acc;
      tot, acc := WriteLoop(inum, src, off, faults);
      ghost var u := V();
      FinishWrite(inum, off, tot, src[..tot], v, n, acc);
      if tot < n && tot !in faults {
        StillStuck(u, V(), sb, inum, (off + tot) / BSIZE);
      }
      r := tot;
    }

    /** The writei of dirlink and sys_unlink: a directory entry does not cross a block boundary, so it
        is written as a whole or not at all.  Inside the file it is written. */
    method WriteEntry(inum: nat, e: seq<Byte>, off: nat, fault: bool) returns (ok: bool)
      requires Valid() && inum < |inodes| && inodes[inum].typ != 0 && off < UINT && |e| == 16 && off % 16 == 0
      modifies this
      ensures Valid() && |inodes| == |old(inodes)|
      ensures ok ==> off <= |old(Content(V(), inum))| && Content(V(), inum) == Overwrite(old(Content(V(), inum)), off, e)
      ensures !ok ==> Content(V(), inum) == old(Content(V(), inum))
      ensures ok <==> !old(Refuses(inum, off, 16)) && !fault && !Stuck(V(), sb, inum, off / BSIZE)
      ensures off + 16 <= |old(Content(V(), inum))| && !fault ==> ok
      ensures inodes[inum].typ == old(inodes)[inum].typ
      ensures forall j :: 0 <= j < |inodes| && j != inum ==> inodes[j] == old(inodes)[j] && Content(V(), j) == old(Content(V(), j))
      ensures old(logged) <= logged && Covered(sb, old(Im()), Im(), logged)
    {
      hide Owned, Tidy, Content, Stuck, NoHoles, Overwrite, MapsTo;
      ghost var c := Content(V(), inum);
      var r := Writei(inum, e, off, if fault then {0} else {});
      ok := r == 16;
      EntryWhole(off, r);
      if r == 0 {
        OverwriteNothing(c, off);
        assert e[..0] == [];
      }
      assert e[..16] == e;
      if off < inodes[inum].size {
        NotStuck(V(), sb, inum, off);
      }
    }

    /** The end of writei: the new size, then the inode to disk. */
    method FinishWrite(inum: nat, off: nat, tot: nat, ghost d: seq<Byte>, ghost v: View, ghost n: nat, ghost acc: Account)
      requires Progress(v, inum, off, d, n, acc) && |d| == tot && |dinodes| == |inodes|
      requires dinodes == v.inodes && v.inodes[inum].typ != 0 && off <= v.inodes[inum].size
      requires forall i :: 0 <= i < |v.inodes| ==> NoHoles(v, i) && FreeIsEmpty(v.inodes[i])
      modifies this`inodes, this`dinodes, this`logged
      ensures Valid() && |inodes| == |v.inodes| && inodes[inum].addrs == old(inodes)[inum].addrs
      ensures Content(V(), inum) == Overwrite(Content(v, inum), off, d)
      ensures inodes[inum] == v.inodes[inum].(size := inodes[inum].size, addrs := inodes[inum].addrs)
      ensures forall j :: 0 <= j < |inodes| && j != inum ==>
                inodes[j] == v.inodes[j] && Content(V(), j) == Content(v, j)
      ensures n <= 3 * BSIZE ==> |logged - acc.before| <= MAXOPBLOCKS
      ensures old(logged) <= logged && Covered(sb, old(Im()), Im(), logged)
    {
      hide Owned, MapsTo, Overwrite, Content, HasByte;
      ghost var w := V();
      if off + tot > inodes[inum].size {
        inodes := inodes[inum := inodes[inum].(size := off + tot)];
      }
      SameAddrs(w, V(), sb, owner, {}, 0, 0);
      WithinBudget(off, n, acc, inodes[inum].addrs[NDIRECT], sb.InodeBlock(inum), logged);
      Iupdate(inum);
      ghost var c := Content(v, inum);
      ContentIs(V(), inum, Overwrite(c, off, d));
      forall j | 0 <= j < |inodes| && j != inum
        ensures NoHoles(V(), j) && Content(V(), j) == Content(v, j)
      {
        ContentIs(V(), j, Content(v, j));
      }
    }

    // ----- reading

    /** One round of readi's loop: the block is mapped, so bmap allocates nothing. */
    method ReadPiece(inum: nat, o: nat, m: nat) returns (d: seq<Byte>)
      requires Base() && inum < |inodes| && NoHoles(V(), inum)
      requires m > 0 && o + m <= inodes[inum].size && o % BSIZE + m <= BSIZE
      modifies this
      ensures unchanged(this) && d == Content(V(), inum)[o..o + m]
    {
      ghost var s := SlotOf(inum, o / BSIZE);
      assert s.i == inum && Addr(V(), inum, o / BSIZE) != 0;
      SlotsNameData(V(), sb, owner, s);
      PieceRead(V(), inum, o, m);
      var addr;
      ghost var bm;
      addr, bm := Bmap(inum, o / BSIZE);
      d := blocks[addr][o % BSIZE..o % BSIZE + m];
    }

    /** readi: the bytes off..off+n of the file, cut at its size; -1 if copying out fails.  Below
        the size every block is mapped, so reading allocates nothing and changes nothing. */
    method Readi(inum: nat, off: nat, n: nat, faults: set<nat>) returns (r: int, dst: seq<Byte>)
      requires Valid() && inum < |inodes| && off < UINT && n < UINT
      modifies this
      ensures unchanged(this)
      ensures off > inodes[inum].size || off + n >= UINT ==> r == 0 && dst == []
      ensures off <= inodes[inum].size && off + n < UINT ==>
                var m := if off + n > inodes[inum].size then inodes[inum].size - off else n;
                && |dst| <= m && dst == Content(V(), inum)[off..off + |dst|]
                && (r != -1 ==> r == m == |dst|) && (r == -1 ==> |dst| < m && |dst| in faults)
                && Clear(faults, off, |dst|)
    {
      dst := [];
      if off > inodes[inum].size || (off + n) % UINT < off {
        return 0, [];
      }
      var n := if off + n > inodes[inum].size then inodes[inum].size - off else n;
      r, dst := ReadLoop(inum, off, n, faults);
    }

    method ReadLoop(inum: nat, off: nat, n: nat, faults: set<nat>) returns (r: int, dst: seq<Byte>)
      requires Base() && inum < |inodes| && NoHoles(V(), inum) && off + n <= inodes[inum].size
      modifies this
      ensures unchanged(this)
      ensures |dst| <= n && dst == Content(V(), inum)[off..off + |dst|]
      ensures (r != -1 ==> r == n == |dst|) && (r == -1 ==> |dst| < n && |dst| in faults) && Clear(faults, off, |dst|)
    {
      hide Owned, Content;
      dst := [];
      var tot := 0;
      ghost var c := Content(V(), inum);
      while tot < n
        invariant 0 <= tot <= n && |dst| == tot
        invariant unchanged(this)
        invariant dst == c[off..off + tot] && Clear(faults, off, tot)
      {
        var m := PieceLen(off, n, tot);
        if tot in faults {
          return -1, dst;
        }
        var d := ReadPiece(inum, off + tot, m);
        JoinSlices(c, off, off + tot, off + tot + m);
        PieceClear(faults, off, n, tot);
        dst := dst + d;
        tot := tot + m;
      }
      r := tot;
    }

    /** What writei reports as written is what readi then returns. */
    method WriteThenRead(inum: nat, src: seq<Byte>, off: nat, faults: set<nat>) returns (r: int, got: int, dst: seq<Byte>)
      requires Valid() && inum < |inodes| && inodes[inum].typ != 0 && off < UINT && |src| < UINT
      modifies this
      ensures Valid() && (r >= 0 ==> r <= |src| && got == r && dst == src[..r])
    {
      r := Writei(inum, src, off, faults);
      if r < 0 {
        return r, 0, [];
      }
      got, dst := Readi(inum, off, r, {});
    }

    // ----- truncating and freeing

    /** One round of itrunc's first loop: free a direct block, clear its address. */
    method FreeDirectAt(inum: nat, k: nat) returns (panics: bool)
      requires Base() && inum < |inodes| && k < NDIRECT
      modifies this`bits, this`inodes, this`logged, this`used, this`owner
      ensures !panics && Base() && LostBy(owner, old(owner), inum) && OthersKeep(old(V()), V(), inum)
      ensures inodes == old(inodes)[inum := old(inodes)[inum].(addrs := old(inodes)[inum].addrs[k := 0])]
      ensures old(logged) <= logged && Covered(sb, old(Im()), Im(), logged)
    {
      hide MapsTo, OthersKeep;
      panics := false;
      var b := inodes[inum].addrs[k];
      if b != 0 {
        FreeDirect(V(), sb, owner, inum, k);
        panics := Bfree(b);
        inodes := inodes[inum := inodes[inum].(addrs := inodes[inum].addrs[k := 0])];
        owner := owner - {b};
      } else {
        assert inodes[inum].addrs[k := 0] == inodes[inum].addrs;
        GainsWritesNothing(V(), V(), inum, 0);
      }
    }

    /** The first loop of itrunc. */
    method TruncDirect(inum: nat) returns (panics: bool)
      requires Base() && inum < |inodes|
      modifies this`bits, this`inodes, this`logged, this`used, this`owner
      ensures !panics && Base() && LostBy(owner, old(owner), inum) && OthersKeep(old(V()), V(), inum)
      ensures |inodes| == |old(inodes)| && |inodes[inum].addrs| == NDIRECT + 1
      ensures inodes == old(inodes)[inum := old(inodes)[inum].(addrs := inodes[inum].addrs)]
      ensures forall k :: 0 <= k < NDIRECT ==> inodes[inum].addrs[k] == 0
      ensures old(logged) <= logged && Covered(sb, old(Im()), Im(), logged)
    {
      hide Owned, Tidy, OthersKeep, LostBy, Covered;
      CoveredSame(sb, Im(), logged);
      ghost var v := V();
      TruncStart(v, sb, owner, inum);
      panics := false;
      var i := 0;
      while i < NDIRECT
        invariant 0 <= i <= NDIRECT && Base() && LostBy(owner, old(owner), inum) && OthersKeep(v, V(), inum) && !panics
        invariant |inodes| == |old(inodes)| && |inodes[inum].addrs| == NDIRECT + 1
        invariant inodes == old(inodes)[inum := old(inodes)[inum].(addrs := inodes[inum].addrs)]
        invariant forall k :: 0 <= k < i ==> inodes[inum].addrs[k] == 0
        invariant old(logged) <= logged && Covered(sb, old(Im()), Im(), logged)
      {
        ghost var u, before, im, l := V(), owner, Im(), logged;
        panics := FreeDirectAt(inum, i);
        CoveredThen(sb, old(Im()), im, Im(), l, logged);
        OthersKeepTwice(v, u, V(), inum);
        LostByTwice(owner, before, old(owner), inum);
        i := i + 1;
      }
    }

    /** One round of itrunc's second loop. */
    method FreeEntryAt(inum: nat, j: nat) returns (panics: bool)
      requires BitsOk() && Owned(V(), sb, owner, {}, inum, j) && EntriesGone(owner, inum, j)
      requires inum < |inodes| && j < NINDIRECT
      requires 0 != inodes[inum].addrs[NDIRECT] < sb.size
      modifies this`bits, this`logged, this`used, this`owner
      ensures !panics && BitsOk() && Owned(V(), sb, owner, {}, inum, j + 1) && LostBy(owner, old(owner), inum)
      ensures EntriesGone(owner, inum, j + 1)
      ensures old(logged) <= logged && Covered(sb, old(Im()), Im(), logged)
    {
      panics := false;
      assert IsSlot(V(), Entry(inum, j));
      var b := WordAt(blocks[inodes[inum].addrs[NDIRECT]], j);
      if b != 0 {
        FreeEntry(V(), sb, owner, inum, j);
        panics := Bfree(b);
        owner := owner - {b};
      } else {
        SkipEntry(V(), sb, owner, inum, j);
      }
    }

    /** The second loop of itrunc: free what the indirect block names. */
    method TruncEntries(inum: nat) returns (panics: bool)
      requires Base() && inum < |inodes| && inodes[inum].addrs[NDIRECT] != 0
      modifies this`bits, this`logged, this`used, this`owner
      ensures !panics && BitsOk() && Owned(V(), sb, owner, {}, inum, NINDIRECT) && LostBy(owner, old(owner), inum)
      ensures EntriesGone(owner, inum, NINDIRECT)
      ensures old(logged) <= logged && Covered(sb, old(Im()), Im(), logged)
    {
      hide MapsTo, Covered, Owned, EntriesGone, LostBy;
      CoveredSame(sb, Im(), logged);
      panics := false;
      HasAddrs(V(), sb, owner, inum);
      SlotsNameData(V(), sb, owner, Pointer(inum));
      NoEntriesGone(V(), sb, owner, inum);
      var j := 0;
      while j < NINDIRECT
        invariant 0 <= j <= NINDIRECT && BitsOk() && Owned(V(), sb, owner, {}, inum, j) && !panics
        invariant LostBy(owner, old(owner), inum) && EntriesGone(owner, inum, j)
        invariant old(logged) <= logged && Covered(sb, old(Im()), Im(), logged)
      {
        ghost var im, l, before := Im(), logged, owner;
        panics := FreeEntryAt(inum, j);
        CoveredThen(sb, old(Im()), im, Im(), l, logged);
        LostByTwice(owner, before, old(owner), inum);
        j := j + 1;
      }
    }

    /** The last part of itrunc's work on the indirect block. */
    method TruncIndirect(inum: nat) returns (panics: bool)
      requires Base() && inum < |inodes| && forall k :: 0 <= k < NDIRECT ==> inodes[inum].addrs[k] == 0
      modifies this`bits, this`inodes, this`logged, this`used, this`owner
      ensures !panics && Base() && LostBy(owner, old(owner), inum) && OthersKeep(old(V()), V(), inum)
      ensures inodes == old(inodes)[inum := old(inodes)[inum].(addrs := NoAddrs())]
      ensures old(logged) <= logged && Covered(sb, old(Im()), Im(), logged)
    {
      ghost var v := V();
      panics := false;
      if inodes[inum].addrs[NDIRECT] != 0 {
        panics := TruncEntries(inum);
        ghost var u := V();
        SlotsKeepBytes(v, u, inum);
        panics := FreePointerAt(inum);
        OthersKeepTwice(v, u, V(), inum);
      } else {
        GainsWritesNothing(v, v, inum, 0);
      }
      assert inodes[inum].addrs == NoAddrs();
    }

    /** "bfree(ip->addrs[NDIRECT]); ip->addrs[NDIRECT] = 0" */
    method FreePointerAt(inum: nat) returns (panics: bool)
      requires BitsOk() && Owned(V(), sb, owner, {}, inum, NINDIRECT) && EntriesGone(owner, inum, NINDIRECT)
      requires inum < |inodes| && inodes[inum].addrs[NDIRECT] != 0
      requires forall k :: 0 <= k < NDIRECT ==> inodes[inum].addrs[k] == 0
      modifies this`bits, this`inodes, this`logged, this`used, this`owner
      ensures !panics && Base() && LostBy(owner, old(owner), inum) && OthersKeep(old(V()), V(), inum)
      ensures inodes == old(inodes)[inum := old(inodes)[inum].(addrs := old(inodes)[inum].addrs[NDIRECT := 0])]
      ensures old(logged) <= logged && Covered(sb, old(Im()), Im(), logged)
    {
      OnlyPointer(V(), sb, owner, inum);
      FreePointer(V(), sb, owner, inum);
      var a := inodes[inum].addrs[NDIRECT];
      panics := Bfree(a);
      inodes := inodes[inum := inodes[inum].(addrs := inodes[inum].addrs[NDIRECT := 0])];
      owner := owner - {a};
    }

    /** itrunc: gives back every block of the file.  "freeing free block" cannot happen. */
    method Itrunc(inum: nat) returns (panics: bool)
      requires Valid() && inum < |inodes|
      modifies this
      ensures !panics && Valid()
      ensures inodes == old(inodes)[inum := old(inodes)[inum].(size := 0, addrs := NoAddrs())]
      ensures forall j :: 0 <= j < |inodes| && j != inum ==> Content(V(), j) == old(Content(V(), j))
      ensures LostBy(owner, old(owner), inum) && forall b :: b in owner ==> owner[b].i != inum
      ensures forall b :: b in used <==> b in old(used) && !(b in old(owner) && old(owner)[b].i == inum)
      ensures old(logged) <= logged && Covered(sb, old(Im()), Im(), logged)
    {
      ghost var v := V();
      panics := TruncDirect(inum);
      ghost var u := V();
      panics := TruncIndirect(inum);
      OthersKeepTwice(v, u, V(), inum);
      FinishTrunc(inum, v);
      NoSlotsLeft(V(), sb, owner, inum);
    }

    /** The end of itrunc: size 0, then the inode to disk. */
    method FinishTrunc(inum: nat, ghost v: View)
      requires Base() && inum < |v.inodes| && dinodes == v.inodes && OthersKeep(v, V(), inum)
      requires inodes == v.inodes[inum := v.inodes[inum].(addrs := NoAddrs())]
      requires forall i :: 0 <= i < |v.inodes| ==> NoHoles(v, i) && FreeIsEmpty(v.inodes[i])
      modifies this`inodes, this`dinodes, this`logged
      ensures Valid()
      ensures inodes == v.inodes[inum := v.inodes[inum].(size := 0, addrs := NoAddrs())]
      ensures forall j :: 0 <= j < |inodes| && j != inum ==> Content(V(), j) == Content(v, j)
      ensures old(logged) <= logged && Covered(sb, old(Im()), Im(), logged)
    {
      ghost var w := V();
      inodes := inodes[inum := inodes[inum].(size := 0)];
      SameAddrs(w, V(), sb, owner, {}, 0, 0);
      Iupdate(inum);
      forall j | 0 <= j < |inodes| && j != inum
        ensures NoHoles(V(), j) && Content(V(), j) == Content(v, j)
      {
        ContentIs(V(), j, Content(v, j));
      }
    }

    // ----- inodes

    /** ialloc: the lowest free inode on disk, emptied and given a type; 0 if there is none. */
    method Ialloc(typ: nat) returns (inum: nat)
      requires Valid() && typ != 0
      modifies this`inodes, this`dinodes, this`logged
      ensures Valid()
      ensures inum == 0 ==> unchanged(this) && forall i :: 1 <= i < |inodes| ==> inodes[i].typ != 0
      ensures inum != 0 ==>
                && inum < |old(inodes)| && old(inodes)[inum].typ == 0
                && (forall i :: 1 <= i < inum ==> old(inodes)[i].typ != 0)
                && inodes == old(inodes)[inum := Inode(typ, 0, 0, NoAddrs())]
                && logged == old(logged) + {sb.InodeBlock(inum)}
                && forall j :: 0 <= j < |inodes| ==> Content(V(), j) == old(Content(V(), j))
      ensures old(logged) <= logged && Covered(sb, old(Im()), Im(), logged)
    {
      inum := 1;
      while inum < |dinodes| && dinodes[inum].typ != 0
        invariant 1 <= inum && forall i :: 1 <= i < inum && i < |dinodes| ==> dinodes[i].typ != 0
        decreases |dinodes| - inum
      {
        inum := inum + 1;
      }
      if inum >= |dinodes| {
        return 0;
      }
      assert inodes[inum].addrs == NoAddrs();
      ghost var v := V();
      dinodes := dinodes[inum := Inode(typ, 0, 0, NoAddrs())];
      logged := logged + {sb.InodeBlock(inum)};
      // ilock reads the inode in
      inodes := inodes[inum := dinodes[inum]];
      SameAddrs(v, V(), sb, owner, {}, 0, 0);
      forall j | 0 <= j < |inodes|
        ensures NoHoles(V(), j) && Content(V(), j) == Content(v, j)
      {
        ContentIs(V(), j, Content(v, j));
      }
    }

    /** iput: the last reference to an inode without links gives back its blocks and the inode. */
    method Iput(inum: nat, last: bool) returns (panics: bool)
      requires Valid() && inum < |inodes|
      modifies this
      ensures !panics && Valid()
      ensures !(last && old(inodes)[inum].nlink == 0) ==> unchanged(this)
      ensures last && old(inodes)[inum].nlink == 0 ==>
                && inodes == old(inodes)[inum := Inode(0, 0, 0, NoAddrs())]
                && (forall j :: 0 <= j < |inodes| && j != inum ==> Content(V(), j) == old(Content(V(), j)))
                && (forall b :: b in used <==> b in old(used) && !(b in old(owner) && old(owner)[b].i == inum))
      ensures old(logged) <= logged && Covered(sb, old(Im()), Im(), logged)
    {
      panics := false;
      if last && inodes[inum].nlink == 0 {
        panics := Itrunc(inum);
        ghost var v := V();
        inodes := inodes[inum := inodes[inum].(typ := 0)];
        SameAddrs(v, V(), sb, owner, {}, 0, 0);
        Iupdate(inum);
        forall j | 0 <= j < |inodes|
          ensures NoHoles(V(), j) && Content(V(), j) == Content(v, j)
        {
          ContentIs(V(), j, Content(v, j));
        }
      }
    }

    /** filewrite since view v: d is in the file at off, and the file offset follows it. */
    ghost predicate Writing(v: View, inum: nat, off: nat, src: seq<Byte>, d: seq<Byte>, cur: nat)
      reads this
    {
      && Valid() && inum < |inodes| && inodes[inum].typ != 0
      && d <= src && cur == off + |d| < UINT && Appended(v, V(), inum, off, d)
    }

    /** Why no more than k bytes, of n from off on, get into the file: the next one cannot be copied
        in, it needs a block and the disk is full, or writei does not take it. */
    ghost predicate Stopped(inum: nat, off: nat, k: nat, n: nat, fault: bool)
      reads this
      requires inum < |inodes|
    {
      fault || Stuck(V(), sb, inum, (off + k) / BSIZE) || (k == 0 && Refuses(inum, off, n))
    }

    /** One transaction: begin_op, writei, end_op.  Whatever it changes it logs. */
    method WriteChunk(inum: nat, e: seq<Byte>, off: nat, faults: set<nat>) returns (r: int, ghost d: seq<Byte>)
      requires Valid() && inum < |inodes| && inodes[inum].typ != 0 && off < UINT && |e| <= 3 * BSIZE
      modifies this
      ensures Valid() && inum < |inodes| && inodes[inum].typ != 0 && |logged| <= MAXOPBLOCKS
      ensures r <= |e| && d <= e && |d| == (if r > 0 then r else 0) && off + |d| < UINT
      ensures Appended(old(V()), V(), inum, off, d) && Covered(sb, old(Im()), Im(), logged)
      ensures r < |e| ==> Stopped(inum, off, |d|, |e|, |d| in faults)
    {
      hide Covered, Stuck;
      logged := {};
      r := Writei(inum, e, off, faults);
      d := if r > 0 then e[..r] else [];
      assert logged - {} == logged;
      if r == -1 {
        AppendedNothing(V(), inum, off);
      }
    }

    /** One round of filewrite's loop, for the next n1 bytes. */
    method FilewriteRound(inum: nat, src: seq<Byte>, i: nat, n1: nat, cur: nat, faults: set<nat>,
                          ghost v: View, ghost off: nat, ghost d: seq<Byte>)
      returns (r: int, cur': nat, ghost d': seq<Byte>)
      requires Writing(v, inum, off, src, d, cur) && |d| == i && i + n1 <= |src| && n1 <= 3 * BSIZE
      modifies this
      ensures Writing(v, inum, off, src, d', cur') && |logged| <= MAXOPBLOCKS
      ensures r <= n1 && |d'| == i + if r > 0 then r else 0
      ensures r < n1 ==> Stopped(inum, cur, |d'| - i, n1, |d'| in faults)
      ensures Covered(sb, old(Im()), Im(), logged)
    {
      hide Appended, Content, Tidy, Owned, AllMapped, Covered, Stuck;
      ghost var u, e;
      u := V();
      r, e := WriteChunk(inum, src[i..i + n1], cur, Shifted(faults, i));
      AppendedTwice(v, u, V(), inum, off, d, e);
      ExtendPrefix(src, d, n1, e);
      d' := d + e;
      cur' := if r > 0 then cur + r else cur;
    }

    /** filewrite on an inode, for the n bytes of src: chunks of at most three blocks, a transaction
        each.  No chunk logs more than MAXOPBLOCKS blocks; `d` reaches the file, and the result is n
        exactly if that is all, else -1, as for a negative n or a file not open for writing. */
    method Filewrite(inum: nat, writable: bool, src: seq<Byte>, n: int, off: nat, faults: set<nat>)
      returns (ret: int, cur: nat, ghost d: seq<Byte>, ghost chunks: seq<Transaction>)
      requires Valid() && inum < |inodes| && inodes[inum].typ != 0 && off < UINT
      requires |src| == (if n > 0 then n else 0) && n < UINT / 2
      modifies this
      ensures Writing(old(V()), inum, off, src, d, cur) && Transactions(sb, old(Im()), chunks, Im())
      ensures ret == if writable && |d| == n then n else -1
      ensures !writable ==> unchanged(this) && d == []
      ensures writable && |d| < n ==>
                || |d| in faults || Stuck(V(), sb, inum, (off + |d|) / BSIZE)
                || Refuses(inum, off + |d|, if n - |d| > 3 * BSIZE then 3 * BSIZE else n - |d|)
    {
      hide Appended, Content, Tidy, Owned, AllMapped, Stuck, MapsTo, NoHoles, Covered;
      if !writable {
        AppendedNothing(V(), inum, off);
        return -1, off, [], [];
      }
      var max := (MAXOPBLOCKS - 1 - 1 - 2) / 2 * BSIZE;
      var i := 0;
      ghost var v := V();
      cur, d, chunks := off, [], [];
      AppendedNothing(v, inum, off);
      while i < n
        invariant Writing(v, inum, off, src, d, cur) && |d| == i <= |src|
        invariant Transactions(sb, old(Im()), chunks, Im())
        decreases n - i
      {
        var n1 := if n - i > max then max else n - i;
        var r;
        ghost var im := Im();
        r, cur, d := FilewriteRound(inum, src, i, n1, cur, faults, v, off, d);
        OneMore(sb, old(Im()), chunks, im, Im(), logged);
        chunks := chunks + [Transaction(Im(), logged)];
        if r != n1 {
          break;
        }
        i := i + r;
      }
      ret := if i == n then n else -1;
    }
  }

  /** The copy faults of a chunk that starts at i. */
  function Shifted(faults: set<nat>, i: nat): set<nat> {
    set x | x in faults && x >= i :: x - i
  }

  lemma ExtendPrefix(src: seq<Byte>, d: seq<Byte>, m: nat, e: seq<Byte>)
    requires d <= src && |d| + m <= |src| && e <= src[|d|..|d| + m]
    ensures d + e <= src
  {
  }
}
