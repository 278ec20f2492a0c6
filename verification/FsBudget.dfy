/** How many distinct blocks one writei logs. */
module FsBudget {
  import opened Basics
  import opened FsLayout

  function Unless0(a: nat): (s: set<nat>)
    ensures |s| <= 1
  {
    if a == 0 then {} else {a}
  }

  /** The blocks logged by writei so far: file blocks and blocks of the free map, next to what
      was logged before and the indirect block. */
  datatype Account = Account(rounds: nat, data: set<nat>, bm: set<nat>, pointer: nat, before: set<nat>)

  /** Counting the blocks that writei logs while it writes n bytes from off: `data` and `bm`
      after so many rounds of its loop, `moved` if the indirect block was allocated. */
  ghost predicate Counted(off: nat, n: nat, rounds: nat, data: set<nat>, bm: set<nat>, moved: bool) {
    && |data| <= rounds
    && |bm| <= (if off % BSIZE == 0 || rounds == 0 then rounds else rounds - 1) + (if moved then 1 else 0)
    && (n <= 3 * BSIZE ==> rounds <= if off % BSIZE == 0 then 3 else 4)
  }

  /** After the first round the loop sits at a block boundary until it is done. */
  ghost predicate AtBoundary(off: nat, n: nat, tot: nat, rounds: nat) {
    && (rounds == 0 ==> tot == 0)
    && (0 < rounds && tot < n ==> off + tot == (off / BSIZE + rounds) * BSIZE)
  }

  function PieceLen(off: nat, n: nat, tot: nat): (m: nat)
    requires tot < n
    ensures 0 < m <= n - tot && (off + tot) % BSIZE + m <= BSIZE
  {
    if n - tot < BSIZE - (off + tot) % BSIZE then n - tot else BSIZE - (off + tot) % BSIZE
  }

  /** writei stops before the end only between blocks. */
  predicate Whole(off: nat, n: nat, tot: int) {
    tot == 0 || tot == n || (off + tot) % BSIZE == 0
  }

  lemma LoopStarts(off: nat, n: nat, faults: set<nat>, p: nat, logged: set<nat>)
    ensures AtBoundary(off, n, 0, 0) && Whole(off, n, 0) && Clear(faults, off, 0)
    ensures InAccount(off, n, Account(0, {}, {}, p, logged), p, logged)
  {
  }

  lemma PieceEnds(off: nat, n: nat, tot: nat)
    requires tot < n
    ensures Whole(off, n, tot + PieceLen(off, n, tot))
  {
  }

  /** None of the first tot bytes starts a piece whose copy fails. */
  predicate Clear(faults: set<nat>, off: nat, tot: nat) {
    forall t :: t in faults && t < tot ==> t != 0 && (off + t) % BSIZE != 0
  }

  lemma PieceClear(faults: set<nat>, off: nat, n: nat, tot: nat)
    requires tot < n && Clear(faults, off, tot) && tot !in faults
    ensures Clear(faults, off, tot + PieceLen(off, n, tot))
  {
    forall t | t in faults && tot < t < tot + PieceLen(off, n, tot)
      ensures (off + t) % BSIZE != 0
    {
      WithinBlock(off + tot, t - tot);
    }
  }

  lemma WithinBlock(a: nat, d: nat)
    requires 0 < d && a % BSIZE + d < BSIZE
    ensures (a + d) % BSIZE != 0
  {
    assert a + d == a / BSIZE * BSIZE + (a % BSIZE + d);
  }

  lemma EntryWhole(off: nat, r: int)
    requires off % 16 == 0 && -1 <= r <= 16 && (r >= 0 ==> Whole(off, 16, r))
    ensures r == -1 || r == 0 || r == 16
  {
  }

  lemma CountRound(off: nat, n: nat, tot: nat, rounds: nat, data: set<nat>, bm: set<nat>, moved: bool,
                   addr: nat, more: set<nat>, moved': bool)
    requires Counted(off, n, rounds, data, bm, moved) && AtBoundary(off, n, tot, rounds) && tot < n
    requires moved ==> moved'
    requires |more| <= (if rounds == 0 && off % BSIZE != 0 then 0 else 1) + (if moved != moved' then 1 else 0)
    ensures Counted(off, n, rounds + 1, data + {addr}, bm + more, moved')
    ensures AtBoundary(off, n, tot + PieceLen(off, n, tot), rounds + 1)
  {
    if rounds > 0 {
      RoundsLeft(off, n, tot, rounds);
    }
    assert |bm + more| <= |bm| + |more|;
  }

  /** One round in the account: p and q are the indirect block before and after, l and k the
      blocks logged before and after. */
  lemma AccountRound(off: nat, n: nat, tot: nat, acc: Account, addr: nat, more: set<nat>,
                     p: nat, q: nat, l: set<nat>, k: set<nat>) returns (acc': Account)
    requires Counted(off, n, acc.rounds, acc.data, acc.bm, p != acc.pointer)
    requires AtBoundary(off, n, tot, acc.rounds) && tot < n
    requires (acc.pointer != 0 ==> p == acc.pointer) && (p != 0 ==> q == p)
    requires |more| <= (if addr != 0 && !(acc.rounds == 0 && off % BSIZE != 0) then 1 else 0) + (if q != p then 1 else 0)
    requires l <= acc.before + acc.data + acc.bm + Unless0(p)
    requires k <= l + more + Unless0(addr) + Unless0(q)
    ensures acc'.pointer == acc.pointer && acc'.before == acc.before
    ensures Counted(off, n, acc'.rounds, acc'.data, acc'.bm, q != acc.pointer)
    ensures k <= acc'.before + acc'.data + acc'.bm + Unless0(q)
    ensures addr != 0 ==> acc'.rounds > 0 && AtBoundary(off, n, tot + PieceLen(off, n, tot), acc'.rounds)
  {
    acc' := acc.(bm := acc.bm + more);
    if addr != 0 {
      CountRound(off, n, tot, acc.rounds, acc.data, acc.bm, p != acc.pointer, addr, more, q != acc.pointer);
      acc' := acc'.(data := acc.data + {addr}, rounds := acc.rounds + 1);
    }
  }

  /** A chunk of at most three blocks stays within the budget of one operation: data, blocks of
      the free map, the indirect block p and the inode block ib. */
  lemma WithinBudget(off: nat, n: nat, acc: Account, p: nat, ib: nat, logged: set<nat>)
    requires Counted(off, n, acc.rounds, acc.data, acc.bm, p != acc.pointer)
    requires logged <= acc.before + acc.data + acc.bm + Unless0(p)
    ensures n <= 3 * BSIZE ==> |logged + {ib} - acc.before| <= MAXOPBLOCKS
  {
    var all := acc.data + acc.bm + Unless0(p) + {ib};
    assert |all| <= |acc.data| + |acc.bm| + |Unless0(p)| + 1;
    SubsetSize(logged + {ib} - acc.before, all);
  }

  lemma SubsetSize(a: set<nat>, b: set<nat>)
    requires a <= b
    ensures |a| <= |b|
  {
    assert b == a + (b - a);
  }

  lemma RoundsLeft(off: nat, n: nat, tot: nat, rounds: nat)
    requires 0 < rounds && tot < n && off + tot == (off / BSIZE + rounds) * BSIZE
    ensures n <= 3 * BSIZE ==> rounds <= if off % BSIZE == 0 then 2 else 3
  {
  }

  /** The account covers what is logged; p is the indirect block now. */
  ghost predicate InAccount(off: nat, n: nat, acc: Account, p: nat, logged: set<nat>) {
    && Counted(off, n, acc.rounds, acc.data, acc.bm, p != acc.pointer)
    && (acc.pointer != 0 ==> p == acc.pointer)
    && logged <= acc.before + acc.data + acc.bm + Unless0(p)
  }
}
