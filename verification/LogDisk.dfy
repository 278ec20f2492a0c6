/** The disk as the redo log sees it: blocks, the log header kept in one block, and
    what recovery makes of a disk.  A block write is atomic, so a crash leaves one of
    the disks between two writes. */
module LogDisk {
  import opened Basics

  const LOGSIZE := MAXOPBLOCKS * 3
  const WORDS := 256 // 32-bit words in a block of BSIZE bytes

  /** A block, read as the words it holds. */
  type Block = b: seq<nat> | |b| == WORDS witness seq(WORDS, i => 0)

  type Disk = seq<Block>

  /** The log's place on disk: the header at `start`, log blocks up to `start + size`. */
  datatype Layout = Layout(start: nat, size: nat, nblocks: nat) {
    predicate Wf() {
      1 <= size && start + size <= nblocks
    }
    predicate InLog(b: nat) {
      start <= b < start + size
    }
    /** A block outside the log, where file-system data lives. */
    predicate Home(b: nat) {
      b < nblocks && !InLog(b)
    }
    function Slot(i: nat): nat {
      start + 1 + i
    }
    /** A header that names home blocks and has a log slot for each. */
    predicate WfHead(hdr: seq<nat>) {
      |hdr| <= LOGSIZE && |hdr| < size && forall i :: 0 <= i < |hdr| ==> Home(hdr[i])
    }
  }

  // ----- the header block

  /** The count a header block claims fits the array behind it; read_head trusts it. */
  predicate WfHeadBlock(b: Block) {
    b[0] <= LOGSIZE
  }

  function Head(b: Block): (hdr: seq<nat>)
    requires WfHeadBlock(b)
  {
    b[1..1 + b[0]]
  }

  /** Writing a header changes the count and the first entries; the rest stays stale. */
  function PutHead(b: Block, hdr: seq<nat>): (r: Block)
    requires |hdr| <= LOGSIZE
    ensures WfHeadBlock(r) && Head(r) == hdr
  {
    [|hdr|] + hdr + b[1 + |hdr|..]
  }

  predicate WfDisk(d: Disk, l: Layout) {
    && l.Wf()
    && |d| == l.nblocks
    && WfHeadBlock(d[l.start])
    && l.WfHead(Head(d[l.start]))
  }

  // ----- recovery as a function of the disk

  /** The disk once the first k logged blocks are copied home. */
  function Installed(d: Disk, l: Layout, hdr: seq<nat>, k: nat): (r: Disk)
    requires l.Wf() && |d| == l.nblocks && l.WfHead(hdr) && k <= |hdr|
    ensures |r| == |d|
    decreases k
  {
    if k == 0 then d else
      var p := Installed(d, l, hdr, k - 1);
      p[hdr[k - 1] := p[l.Slot(k - 1)]]
  }

  function Cleared(d: Disk, l: Layout): (r: Disk)
    requires l.Wf() && |d| == l.nblocks
    ensures |r| == |d|
  {
    d[l.start := PutHead(d[l.start], [])]
  }

  /** What a recovery that runs to completion leaves. */
  function Recovered(d: Disk, l: Layout): (r: Disk)
    requires WfDisk(d, l)
    ensures |r| == |d|
  {
    var hdr := Head(d[l.start]);
    Cleared(Installed(d, l, hdr, |hdr|), l)
  }

  /** The entry that names b last among the first k, or -1. */
  function LastEntry(hdr: seq<nat>, k: nat, b: nat): (i: int)
    requires k <= |hdr|
    ensures -1 <= i < k
    ensures i >= 0 ==> hdr[i] == b
    ensures i == -1 <==> b !in hdr[..k]
    decreases k
  {
    if k == 0 then -1 else if hdr[k - 1] == b then k - 1 else LastEntry(hdr, k - 1, b)
  }

  lemma {:induction false} LastEntryMonotone(hdr: seq<nat>, j: nat, k: nat, b: nat)
    requires j <= k <= |hdr|
    ensures LastEntry(hdr, j, b) >= 0 ==> LastEntry(hdr, k, b) >= 0
    decreases k
  {
    if j < k {
      LastEntryMonotone(hdr, j, k - 1, b);
    }
  }

  /** Installing is simultaneous: every block ends with the copy its last entry names. */
  lemma {:induction false} InstalledAt(d: Disk, l: Layout, hdr: seq<nat>, k: nat, b: nat)
    requires l.Wf() && |d| == l.nblocks && l.WfHead(hdr) && k <= |hdr| && b < |d|
    ensures Installed(d, l, hdr, k)[b] ==
            if LastEntry(hdr, k, b) < 0 then d[b] else d[l.Slot(LastEntry(hdr, k, b))]
    ensures l.InLog(b) ==> Installed(d, l, hdr, k)[b] == d[b]
    decreases k
  {
    if k > 0 {
      InstalledAt(d, l, hdr, k - 1, b);
      InstalledAt(d, l, hdr, k - 1, l.Slot(k - 1));
    }
  }

  /** Two disks agree outside the log. */
  predicate SameHome(d: Disk, e: Disk, l: Layout)
    requires l.Wf() && |d| == l.nblocks && |e| == l.nblocks
  {
    forall b :: 0 <= b < l.nblocks && l.Home(b) ==> d[b] == e[b]
  }

  /** Two disks hold the same log. */
  predicate SameLog(d: Disk, e: Disk, l: Layout)
    requires l.Wf() && |d| == l.nblocks && |e| == l.nblocks
  {
    forall b :: 0 <= b < l.nblocks && l.InLog(b) ==> d[b] == e[b]
  }

  /** A header that names no block recovers to the disk itself. */
  lemma RecoveredEmpty(d: Disk, l: Layout)
    requires WfDisk(d, l) && Head(d[l.start]) == []
    ensures SameHome(Recovered(d, l), d, l)
  {
  }

  lemma RecoveredAt(d: Disk, l: Layout, b: nat)
    requires WfDisk(d, l) && l.Home(b)
    ensures var hdr := Head(d[l.start]);
            Recovered(d, l)[b] == if LastEntry(hdr, |hdr|, b) < 0 then d[b]
                                  else d[l.Slot(LastEntry(hdr, |hdr|, b))]
  {
    var hdr := Head(d[l.start]);
    InstalledAt(d, l, hdr, |hdr|, b);
  }

  /** Redo is repeatable: a disk on which any home block already holds its logged copy
      recovers to the same home blocks. */
  lemma RecoveredReplay(d: Disk, e: Disk, l: Layout, k: nat)
    requires WfDisk(d, l) && |e| == |d| && SameLog(d, e, l)
    requires k <= |Head(d[l.start])|
    requires SameHome(e, Installed(d, l, Head(d[l.start]), k), l)
    ensures WfDisk(e, l)
    ensures SameHome(Recovered(e, l), Recovered(d, l), l)
  {
    assert e[l.start] == d[l.start];
    var hdr := Head(d[l.start]);
    forall b | 0 <= b < l.nblocks && l.Home(b)
      ensures Recovered(e, l)[b] == Recovered(d, l)[b]
    {
      RecoveredAt(e, l, b);
      RecoveredAt(d, l, b);
      InstalledAt(d, l, hdr, k, b);
      LastEntryMonotone(hdr, k, |hdr|, b);
    }
  }
}
