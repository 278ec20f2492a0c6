/** begin_op reserves room in the log: if every operation adds at most MAXOPBLOCKS blocks,
    the log never runs out of entries.  Whether log_write can still panic depends on the
    size of the log on disk. */
module LogReservation {
  import opened Basics
  import opened LogDisk
  import opened LogProtocol

  /** The caller's side of the bargain. */
  ghost predicate Budgeted(s: State) {
    forall p :: p in s.ops ==> s.ops[p].added <= MAXOPBLOCKS
  }

  ghost predicate AllBudgeted(ss: seq<State>) {
    forall i :: 0 <= i < |ss| ==> Budgeted(ss[i])
  }

  /** Blocks that the operations in progress may still add. */
  ghost function Unused(ops: map<nat, Op>): int
    decreases |ops|
  {
    if ops == map[] then 0 else
      var p :| p in ops;
      MAXOPBLOCKS - ops[p].added + Unused(ops - {p})
  }

  lemma {:induction false} UnusedSplit(ops: map<nat, Op>, p: nat)
    requires p in ops
    ensures Unused(ops) == MAXOPBLOCKS - ops[p].added + Unused(ops - {p})
    decreases |ops|
  {
    var q :| q in ops && Unused(ops) == MAXOPBLOCKS - ops[q].added + Unused(ops - {q});
    if p != q {
      UnusedSplit(ops - {q}, p);
      UnusedSplit(ops - {p}, q);
      assert ops - {q} - {p} == ops - {p} - {q};
    }
  }

  lemma {:induction false} UnusedAtMost(ops: map<nat, Op>)
    ensures Unused(ops) <= MAXOPBLOCKS * |ops|
    decreases |ops|
  {
    if ops != map[] {
      var q :| q in ops;
      UnusedSplit(ops, q);
      UnusedAtMost(ops - {q});
      assert |ops - {q}| == |ops| - 1;
    }
  }

  lemma {:induction false} UnusedAtLeast(ops: map<nat, Op>)
    requires forall p :: p in ops ==> ops[p].added <= MAXOPBLOCKS
    ensures Unused(ops) >= 0
    decreases |ops|
  {
    if ops != map[] {
      var q :| q in ops;
      UnusedSplit(ops, q);
      UnusedAtLeast(ops - {q});
    }
  }

  ghost predicate Reserved(s: State) {
    |s.lh| + Unused(s.ops) <= LOGSIZE
  }

  lemma BeginOpReserves(s: State, t: State, l: Layout, p: nat)
    requires InvShape(s, l) && BeginOp(s, t, p)
    ensures Reserved(t)
  {
    UnusedSplit(t.ops, p);
    assert t.ops - {p} == s.ops;
    UnusedAtMost(s.ops);
  }

  lemma LogWriteReserves(s: State, t: State, l: Layout, p: nat, b: nat)
    requires Reserved(s) && LogWrite(s, t, l, p, b)
    ensures Reserved(t)
  {
    UnusedSplit(s.ops, p);
    UnusedSplit(t.ops, p);
    assert t.ops - {p} == s.ops - {p};
  }

  lemma EndOpReserves(s: State, t: State, p: nat)
    requires Reserved(s) && Budgeted(s) && EndOp(s, t, p)
    ensures Reserved(t)
  {
    UnusedSplit(s.ops, p);
  }

  lemma StepReserves(s: State, t: State, l: Layout, a: Label)
    requires InvShape(s, l) && InvShape(t, l) && Step(s, t, l, a)
    requires Budgeted(s) && Reserved(s)
    ensures Reserved(t)
  {
    match a
    case BeginOpL(p) => BeginOpReserves(s, t, l, p);
    case LogWriteL(p, b) => LogWriteReserves(s, t, l, p, b);
    case EndOpL(p) => EndOpReserves(s, t, p);
    case ReadHeadL => assert t.ops == map[];
    case _ =>
  }

  /** Entries plus what the operations in progress may still add never exceed LOGSIZE, and
      no block is logged twice. */
  lemma {:induction false} RunReserves(ss: seq<State>, ls: seq<Label>, d: Disk, l: Layout)
    requires Run(ss, ls, d, l) && AllBudgeted(ss)
    ensures Reserved(ss[|ls|])
    ensures !Recovering(ss[|ls|].phase) ==> Distinct(ss[|ls|].lh)
    decreases |ls|
  {
    RunKeeps(ss, ls, d, l);
    if ls != [] {
      var n := |ls| - 1;
      RunPrefix(ss, ls, d, l);
      RunReserves(ss[..n + 1], ls[..n], d, l);
      RunKeeps(ss[..n + 1], ls[..n], d, l);
      StepReserves(ss[n], ss[n + 1], l, ls[n]);
    }
  }

  // ----- when log_write panics

  /** An operation with budget left can always append. */
  ghost predicate AppendSafe(l: Layout) {
    forall ss: seq<State>, ls: seq<Label>, d: Disk, p: nat ::
      Run(ss, ls, d, l) && AllBudgeted(ss) && p in ss[|ls|].ops && ss[|ls|].ops[p].added < MAXOPBLOCKS
      ==> !LogWritePanics(ss[|ls|], l)
  }

  lemma AppendNeverPanics(ss: seq<State>, ls: seq<Label>, d: Disk, l: Layout, p: nat)
    requires Run(ss, ls, d, l) && AllBudgeted(ss)
    requires p in ss[|ls|].ops && ss[|ls|].ops[p].added < MAXOPBLOCKS
    requires l.size > LOGSIZE
    ensures !LogWritePanics(ss[|ls|], l)
  {
    var s := ss[|ls|];
    RunReserves(ss, ls, d, l);
    RunKeeps(ss, ls, d, l);
    UnusedSplit(s.ops, p);
    assert Budgeted(s);
    UnusedAtLeast(s.ops - {p});
    assert |s.ops| >= 1;
  }

  lemma {:induction false} UnusedNone(ops: map<nat, Op>, p: nat)
    requires forall q :: q in ops ==> ops[q].added <= MAXOPBLOCKS
    requires Unused(ops) <= 0 && p in ops
    ensures ops[p].added == MAXOPBLOCKS
  {
    UnusedSplit(ops, p);
    UnusedAtLeast(ops - {p});
  }

  /** Exactly when a log_write of an operation in progress panics, absorbed or not: with all
      LOGSIZE entries in use, which takes a full budget from every operation in progress. */
  lemma LogWritePanicsExactly(ss: seq<State>, ls: seq<Label>, d: Disk, l: Layout, p: nat)
    requires Run(ss, ls, d, l) && AllBudgeted(ss) && p in ss[|ls|].ops && l.size > LOGSIZE
    ensures LogWritePanics(ss[|ls|], l) <==> |ss[|ls|].lh| == LOGSIZE
    ensures LogWritePanics(ss[|ls|], l) ==>
              forall q :: q in ss[|ls|].ops ==> ss[|ls|].ops[q].added == MAXOPBLOCKS
  {
    var s := ss[|ls|];
    RunReserves(ss, ls, d, l);
    RunKeeps(ss, ls, d, l);
    assert Budgeted(s);
    UnusedAtLeast(s.ops);
    assert |s.ops| >= 1;
    if LogWritePanics(s, l) {
      forall q | q in s.ops
        ensures s.ops[q].added == MAXOPBLOCKS
      {
        UnusedNone(s.ops, q);
      }
    }
  }

  /** The layout leaves enough home blocks after the log to fill it. */
  ghost predicate Roomy(l: Layout) {
    l.Wf() && l.start + l.size + LOGSIZE < l.nblocks
  }

  /** Blocks the q-th of three operations has added once k blocks are logged in turn. */
  function Share(k: nat, q: nat): (n: nat)
    ensures n <= MAXOPBLOCKS
  {
    if k <= q * MAXOPBLOCKS then 0 else if k >= (q + 1) * MAXOPBLOCKS then MAXOPBLOCKS else k - q * MAXOPBLOCKS
  }

  /** Which of the three logs the next block. */
  function Turn(k: nat): (q: nat)
    ensures k < LOGSIZE ==> q < 3 && Share(k, q) < MAXOPBLOCKS
    ensures k < LOGSIZE ==> forall r: nat :: r < 3 ==> Share(k + 1, r) == Share(k, r) + if r == q then 1 else 0
  {
    if k < MAXOPBLOCKS then 0 else if k < 2 * MAXOPBLOCKS then 1 else 2
  }

  /** The first k blocks after the log. */
  ghost function Filled(l: Layout, k: nat): (q: seq<nat>)
    ensures |q| == k
    ensures forall i :: 0 <= i < k ==> q[i] == l.start + l.size + i
  {
    if k == 0 then [] else Filled(l, k - 1) + [l.start + l.size + k - 1]
  }

  /** Three operations in progress have together logged k distinct blocks. */
  ghost predicate ThreeBusy(s: State, l: Layout, k: nat) {
    && s.phase.Running? && !s.committing && s.outstanding == 3
    && |s.disk| == l.nblocks && s.held == map[] && s.lh == Filled(l, k)
    && (forall b :: b in s.cache ==> b == l.start || l.start + l.size <= b < l.start + l.size + k)
    && s.ops.Keys == {0, 1, 2}
    && forall q :: q in s.ops ==> s.ops[q].added == Share(k, q)
  }

  lemma Extend(ss: seq<State>, ls: seq<Label>, d: Disk, l: Layout, t: State, a: Label)
    requires Run(ss, ls, d, l) && AllBudgeted(ss) && Step(ss[|ls|], t, l, a) && Budgeted(t)
    ensures Run(ss + [t], ls + [a], d, l) && AllBudgeted(ss + [t])
    ensures (ss + [t])[|ls + [a]|] == t
  {
    RunExtend(ss, ls, d, l, t, a);
  }

  ghost function EmptyDisk(l: Layout): (d: Disk)
    requires l.Wf()
    ensures WfDisk(d, l) && Head(d[l.start]) == []
  {
    seq(l.nblocks, i => seq(WORDS, j => 0))
  }

  /** The state a run of recovery with an empty log ends in. */
  ghost function Booted(l: Layout): (s: State)
    requires l.Wf()
    ensures |s.disk| == l.nblocks
  {
    var d := EmptyDisk(l);
    var h := PutHead(d[l.start], []);
    State(d[l.start := h], map[l.start := h], {}, map[], [], 0, false, map[], Running, 0, 0, [], 0)
  }

  lemma Boots(l: Layout) returns (ss: seq<State>, ls: seq<Label>)
    requires l.Wf()
    ensures Run(ss, ls, EmptyDisk(l), l) && AllBudgeted(ss) && ss[|ls|] == Booted(l)
  {
    var d := EmptyDisk(l);
    var s0 := State(d, map[], {}, map[], [], 0, false, map[], Booting, 0, 0, [], 0);
    var s1 := s0.(phase := Erasing);
    ss, ls := [s0], [];
    Extend(ss, ls, d, l, s1, ReadHeadL);
    ss, ls := ss + [s1], ls + [ReadHeadL];
    Extend(ss, ls, d, l, Booted(l), EraseHeadL);
    ss, ls := ss + [Booted(l)], ls + [EraseHeadL];
  }

  /** Operations 0 to k - 1 have begun and done nothing. */
  ghost function Begun(l: Layout, k: nat): (s: State)
    requires l.Wf()
    ensures s == Booted(l).(outstanding := s.outstanding, ops := s.ops, nextOp := s.nextOp)
    ensures s.outstanding == k == s.nextOp
    ensures forall p: nat :: p in s.ops <==> p < k
    ensures forall p :: p in s.ops ==> s.ops[p].added == 0
  {
    if k == 0 then Booted(l) else
      var s := Begun(l, k - 1);
      s.(outstanding := k, ops := s.ops[k - 1 := Op(k - 1, 0)], nextOp := k)
  }

  lemma {:induction false} Begins(l: Layout, k: nat) returns (ss: seq<State>, ls: seq<Label>)
    requires l.Wf() && k <= 3
    ensures Run(ss, ls, EmptyDisk(l), l) && AllBudgeted(ss) && ss[|ls|] == Begun(l, k)
    decreases k
  {
    if k == 0 {
      ss, ls := Boots(l);
    } else {
      ss, ls := Begins(l, k - 1);
      Extend(ss, ls, EmptyDisk(l), l, Begun(l, k), BeginOpL(k - 1));
      ss, ls := ss + [Begun(l, k)], ls + [BeginOpL(k - 1)];
    }
  }

  /** Boot, then start three operations. */
  lemma ThreeBegin(l: Layout) returns (ss: seq<State>, ls: seq<Label>)
    requires l.Wf()
    ensures Run(ss, ls, EmptyDisk(l), l) && AllBudgeted(ss) && ThreeBusy(ss[|ls|], l, 0)
  {
    ss, ls := Begins(l, 3);
  }

  /** One more block: read it in, lock it, log it, release it. */
  lemma OneMoreSteps(s: State, l: Layout, k: nat)
    returns (b: nat, p: nat, s1: State, s2: State, s3: State, s4: State)
    requires Roomy(l) && k < LOGSIZE && k + 1 < l.size && ThreeBusy(s, l, k)
    ensures Fill(s, s1, b) && Lock(s1, s2, p, b) && LogWrite(s2, s3, l, p, b) && Release(s3, s4, p, b)
    ensures Budgeted(s1) && Budgeted(s2) && Budgeted(s3) && Budgeted(s4)
    ensures ThreeBusy(s4, l, k + 1)
  {
    hide Filled, Share, Turn;
    b := l.start + l.size + k;
    p := Turn(k);
    s1 := s.(cache := s.cache[b := s.disk[b]]);
    s2 := s1.(held := s.held[b := Hold(p, false)]);
    s3 := Logged(s2, b, p);
    s4 := s3.(held := s3.held - {b});
    OneMoreBusy(s, s4, l, k);
  }

  ghost function Logged(s: State, b: nat, p: nat): State
    requires p in s.ops
  {
    s.(held := s.held[b := Hold(p, false)], lh := s.lh + [b], pinned := s.pinned + {b},
       ops := s.ops[p := s.ops[p].(added := s.ops[p].added + 1)])
  }

  lemma OneMoreBusy(s: State, t: State, l: Layout, k: nat)
    requires k < LOGSIZE && ThreeBusy(s, l, k)
    requires var b, p := l.start + l.size + k, Turn(k);
             && b < |s.disk|
             && t == Logged(s.(cache := s.cache[b := s.disk[b]]), b, p).(held := s.held[b := Hold(p, false)] - {b})
    ensures ThreeBusy(t, l, k + 1) && Budgeted(t)
  {
    hide Filled, Share;
    assert t.held == map[];
    assert t.lh == Filled(l, k + 1);
    forall q | q in t.ops
      ensures t.ops[q].added == Share(k + 1, q) <= MAXOPBLOCKS
    {
      assert q < 3 by {
        assert q in t.ops.Keys;
      }
    }
  }

  lemma LogOneMore(ss: seq<State>, ls: seq<Label>, d: Disk, l: Layout, k: nat) returns (ss': seq<State>, ls': seq<Label>)
    requires Roomy(l) && k < LOGSIZE && k + 1 < l.size
    requires Run(ss, ls, d, l) && AllBudgeted(ss) && ThreeBusy(ss[|ls|], l, k)
    ensures Run(ss', ls', d, l) && AllBudgeted(ss') && ThreeBusy(ss'[|ls'|], l, k + 1)
  {
    hide AllBudgeted, ThreeBusy, Fill, Lock, LogWrite, Release, Budgeted;
    var b, p, s1, s2, s3, s4 := OneMoreSteps(ss[|ls|], l, k);
    Extend(ss, ls, d, l, s1, FillL(b));
    ss', ls' := ss + [s1], ls + [FillL(b)];
    Extend(ss', ls', d, l, s2, LockL(p, b));
    ss', ls' := ss' + [s2], ls' + [LockL(p, b)];
    Extend(ss', ls', d, l, s3, LogWriteL(p, b));
    ss', ls' := ss' + [s3], ls' + [LogWriteL(p, b)];
    Extend(ss', ls', d, l, s4, ReleaseL(p, b));
    ss', ls' := ss' + [s4], ls' + [ReleaseL(p, b)];
  }

  lemma FillLog(l: Layout, k: nat) returns (ss: seq<State>, ls: seq<Label>)
    requires Roomy(l) && k <= LOGSIZE && k < l.size
    ensures Run(ss, ls, EmptyDisk(l), l) && AllBudgeted(ss) && ThreeBusy(ss[|ls|], l, k)
    decreases k
  {
    if k == 0 {
      ss, ls := ThreeBegin(l);
    } else {
      ss, ls := FillLog(l, k - 1);
      ss, ls := LogOneMore(ss, ls, EmptyDisk(l), l, k - 1);
    }
  }

  /** Exactly when a log_write that appends is safe: the log needs one block more than
      LOGSIZE, and mkfs gives it LOGSIZE. */
  lemma AppendSafeExactly(l: Layout)
    requires Roomy(l)
    ensures AppendSafe(l) <==> l.size > LOGSIZE
  {
    if l.size > LOGSIZE {
      forall ss: seq<State>, ls: seq<Label>, d: Disk, p: nat |
        Run(ss, ls, d, l) && AllBudgeted(ss) && p in ss[|ls|].ops && ss[|ls|].ops[p].added < MAXOPBLOCKS
        ensures !LogWritePanics(ss[|ls|], l)
      {
        AppendNeverPanics(ss, ls, d, l, p);
      }
    } else {
      var k := l.size - 1;
      var ss, ls := FillLog(l, k);
      var p := Turn(k);
      assert p in ss[|ls|].ops && ss[|ls|].ops[p].added < MAXOPBLOCKS;
      assert LogWritePanics(ss[|ls|], l);
    }
  }

  /** A log_write that would be absorbed can still panic, whatever the size on disk: with
      the log full, the size test comes before the search for the block. */
  lemma AbsorbedWriteCanPanic(l: Layout) returns (ss: seq<State>, ls: seq<Label>, p: nat, b: nat)
    requires Roomy(l) && l.size > LOGSIZE
    ensures Run(ss, ls, EmptyDisk(l), l) && AllBudgeted(ss)
    ensures p in ss[|ls|].ops && b in ss[|ls|].lh && LogWritePanics(ss[|ls|], l)
  {
    ss, ls := FillLog(l, LOGSIZE);
    p, b := 0, l.start + l.size;
    assert ss[|ls|].lh[0] == b;
  }
}
