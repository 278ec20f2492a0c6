/** The on-disk format of the file system: bytes, the 32-bit words of an indirect block and
    the bits of the free map. */
module FsLayout {

  const BSIZE := 1024
  const NDIRECT := 12
  const NINDIRECT := 256
  const MAXFILE := NDIRECT + NINDIRECT
  const BPB := BSIZE * 8
  const IPB := 16
  const UINT := 0x1_0000_0000

  type Byte = b: int | 0 <= b < 256

  type Data = d: seq<Byte> | |d| == BSIZE witness seq(BSIZE, i => 0)

  function Zeros(): (d: Data)
    ensures forall i :: 0 <= i < BSIZE ==> d[i] == 0
  {
    seq(BSIZE, i => 0)
  }

  // ----- words

  function WordAt(d: Data, j: nat): nat
    requires j < NINDIRECT
  {
    var b0: int, b1: int, b2: int, b3: int := d[4 * j], d[4 * j + 1], d[4 * j + 2], d[4 * j + 3];
    b0 + 0x100 * b1 + 0x1_0000 * b2 + 0x100_0000 * b3
  }

  function PutWord(d: Data, j: nat, w: nat): (r: Data)
    requires j < NINDIRECT && w < UINT
  {
    d[4 * j := w % 0x100][4 * j + 1 := w / 0x100 % 0x100]
     [4 * j + 2 := w / 0x1_0000 % 0x100][4 * j + 3 := w / 0x100_0000]
  }

  lemma WordPut(d: Data, j: nat, w: nat)
    requires j < NINDIRECT && w < UINT
    ensures forall i :: 0 <= i < NINDIRECT ==>
              WordAt(PutWord(d, j, w), i) == if i == j then w else WordAt(d, i)
  {
    Bytes(w);
    var r := PutWord(d, j, w);
    assert r[4 * j] == w % 0x100 && r[4 * j + 1] == w / 0x100 % 0x100;
    assert r[4 * j + 2] == w / 0x1_0000 % 0x100 && r[4 * j + 3] == w / 0x100_0000;
  }

  lemma Bytes(w: nat)
    requires w < UINT
    ensures w == w % 0x100 + 0x100 * (w / 0x100 % 0x100) + 0x1_0000 * (w / 0x1_0000 % 0x100)
                 + 0x100_0000 * (w / 0x100_0000)
  {
    assert w / 0x1_0000 == w / 0x100 / 0x100;
    assert w / 0x100_0000 == w / 0x1_0000 / 0x100;
  }

  lemma WordsOfZeros()
    ensures forall j :: 0 <= j < NINDIRECT ==> WordAt(Zeros(), j) == 0
  {
  }

  // ----- bits

  /** One block of the free map. */
  type Bits = d: seq<bv8> | |d| == BSIZE witness seq(BSIZE, i => 0)

  /** 1 << k */
  function Mask(k: nat): bv8
    requires k < 8
  {
    if k == 0 then 1 else if k == 1 then 2 else if k == 2 then 4 else if k == 3 then 8
    else if k == 4 then 16 else if k == 5 then 32 else if k == 6 then 64 else 128
  }

  lemma MaskShifts(k: nat)
    requires k < 8
    ensures Mask(k) == (1 as bv8) << k
  {
    assert k == 0 || k == 1 || k == 2 || k == 3 || k == 4 || k == 5 || k == 6 || k == 7;
  }

  lemma MaskBits(x: bv8, k: nat, i: nat)
    requires k < 8 && i < 8
    ensures ((x | Mask(k)) & Mask(i) != 0) <==> (i == k || x & Mask(i) != 0)
    ensures ((x & !Mask(k)) & Mask(i) != 0) <==> (i != k && x & Mask(i) != 0)
  {
  }

  /** Bit bi of a block of the free map. */
  predicate BitAt(d: Bits, bi: nat)
    requires bi < BPB
  {
    d[bi / 8] & Mask(bi % 8) != 0
  }

  function SetBit(d: Bits, bi: nat): Bits
    requires bi < BPB
  {
    d[bi / 8 := d[bi / 8] | Mask(bi % 8)]
  }

  function ClearBit(d: Bits, bi: nat): Bits
    requires bi < BPB
  {
    d[bi / 8 := d[bi / 8] & !Mask(bi % 8)]
  }

  lemma SameBit(bi: nat, i: nat)
    ensures i == bi <==> i / 8 == bi / 8 && i % 8 == bi % 8
  {
  }

  lemma BitAtUpdate(d: Bits, q: nat, y: bv8, i: nat)
    requires q < BSIZE && i < BPB
    ensures BitAt(d[q := y], i) <==> if i / 8 == q then y & Mask(i % 8) != 0 else BitAt(d, i)
    ensures i / 8 == q ==> (BitAt(d, i) <==> d[q] & Mask(i % 8) != 0)
  {
    hide Mask;
  }

  lemma SetBitAt(d: Bits, bi: nat, i: nat)
    requires bi < BPB && i < BPB
    ensures BitAt(SetBit(d, bi), i) <==> i == bi || BitAt(d, i)
  {
    hide Mask, BitAt;
    SameBit(bi, i);
    BitAtUpdate(d, bi / 8, d[bi / 8] | Mask(bi % 8), i);
    MaskBits(d[bi / 8], bi % 8, i % 8);
  }

  lemma ClearBitAt(d: Bits, bi: nat, i: nat)
    requires bi < BPB && i < BPB
    ensures BitAt(ClearBit(d, bi), i) <==> i != bi && BitAt(d, i)
  {
    hide Mask, BitAt;
    SameBit(bi, i);
    BitAtUpdate(d, bi / 8, d[bi / 8] & !Mask(bi % 8), i);
    MaskBits(d[bi / 8], bi % 8, i % 8);
  }

  /** The bit of block b in the free map. */
  ghost predicate Marked(bits: seq<Bits>, b: nat) {
    b / BPB < |bits| && BitAt(bits[b / BPB], b % BPB)
  }

  /** The free map marks exactly the blocks in `used`. */
  ghost predicate MapsTo(bits: seq<Bits>, size: nat, used: set<nat>) {
    && |bits| == size / BPB + 1
    && forall b {:trigger Marked(bits, b)} :: 0 <= b < size ==> (b in used <==> Marked(bits, b))
  }
}
