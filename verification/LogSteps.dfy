/** Sequences of protocol steps, and the ones that the loops of the log code amount to: the
    code changes a disk and a cache round by round, and every round is one step. */
module LogSteps {
  import opened Basics
  import opened LogDisk
  import opened LogProtocol

  /** The steps `ls` lead from s to t. */
  ghost predicate Leads(s: State, t: State, l: Layout, ls: seq<Label>)
    decreases |ls|
  {
    if ls == [] then s == t else
      var n := |ls| - 1;
      exists m :: Leads(s, m, l, ls[..n]) && Step(m, t, l, ls[n])
  }

  /** Some run from power-on with disk d ends in s. */
  ghost predicate Reachable(s: State, d: Disk, l: Layout) {
    exists ss, ls :: Run(ss, ls, d, l) && ss[|ls|] == s
  }

  lemma LeadsOne(s: State, t: State, l: Layout, a: Label)
    requires Step(s, t, l, a)
    ensures Leads(s, t, l, [a])
  {
    assert Leads(s, s, l, [a][..0]);
  }

  lemma LeadsNext(s: State, t: State, u: State, l: Layout, ls: seq<Label>, a: Label)
    requires Leads(s, t, l, ls) && Step(t, u, l, a)
    ensures Leads(s, u, l, ls + [a])
  {
    hide Step;
    assert (ls + [a])[..|ls|] == ls;
  }

  lemma {:induction false} LeadsThen(s: State, t: State, u: State, l: Layout, ls: seq<Label>, ms: seq<Label>)
    requires Leads(s, t, l, ls) && Leads(t, u, l, ms)
    ensures Leads(s, u, l, ls + ms)
    decreases |ms|
  {
    hide Step;
    if ms == [] {
      assert ls + ms == ls;
    } else {
      var n := |ms| - 1;
      var m :| Leads(t, m, l, ms[..n]) && Step(m, u, l, ms[n]);
      LeadsThen(s, t, m, l, ls, ms[..n]);
      LeadsNext(s, m, u, l, ls + ms[..n], ms[n]);
      assert ls + ms == ls + ms[..n] + [ms[n]];
    }
  }

  lemma {:induction false} LeadsReachable(s: State, t: State, d: Disk, l: Layout, ls: seq<Label>)
    requires Reachable(s, d, l) && Leads(s, t, l, ls)
    ensures Reachable(t, d, l)
    decreases |ls|
  {
    hide Step, Run;
    if ls != [] {
      var n := |ls| - 1;
      var m :| Leads(s, m, l, ls[..n]) && Step(m, t, l, ls[n]);
      LeadsReachable(s, m, d, l, ls[..n]);
      ReachableStep(m, t, d, l, ls[n]);
    }
  }

  lemma ReachableStep(s: State, t: State, d: Disk, l: Layout, a: Label)
    requires Reachable(s, d, l) && Step(s, t, l, a)
    ensures Reachable(t, d, l)
  {
    hide Step;
    var ss, ls :| Run(ss, ls, d, l) && ss[|ls|] == s;
    RunExtend(ss, ls, d, l, t, a);
  }

  lemma ReachableKeeps(s: State, d: Disk, l: Layout)
    requires Reachable(s, d, l)
    ensures WfDisk(d, l) && Inv(s, Recovered(d, l), l)
  {
    hide Inv;
    var ss, ls :| Run(ss, ls, d, l) && ss[|ls|] == s;
    RunKeeps(ss, ls, d, l);
  }

  lemma ReachableQuiet(s: State, d: Disk, l: Layout)
    requires Reachable(s, d, l) && s.phase.Running? && s.outstanding == 0
    ensures s.boundary == |s.writes|
  {
    var ss, ls :| Run(ss, ls, d, l) && ss[|ls|] == s;
    QuietMeansDurable(ss, ls, d, l);
  }

  // ----- the rounds of the loops

  /** Disk and cache together; Read is what bread returns. */
  datatype Store = Store(disk: Disk, cache: map<nat, Block>) {
    function Read(b: nat): Block
      requires b < |disk|
    {
      if b in cache then cache[b] else disk[b]
    }
  }

  ghost function StoreOf(s: State): Store {
    Store(s.disk, s.cache)
  }

  ghost predicate Fits(m: Store, l: Layout, hdr: seq<nat>) {
    l.Wf() && |m.disk| == l.nblocks && l.WfHead(hdr)
  }

  /** One round of write_log. */
  ghost function LogRound(m: Store, l: Layout, hdr: seq<nat>, i: nat): (r: Store)
    requires Fits(m, l, hdr) && i < |hdr|
    ensures Fits(r, l, hdr)
  {
    var v := m.Read(hdr[i]);
    Store(m.disk[l.Slot(i) := v], m.cache[hdr[i] := v][l.Slot(i) := v])
  }

  ghost function LogRounds(m: Store, l: Layout, hdr: seq<nat>, k: nat): (r: Store)
    requires Fits(m, l, hdr) && k <= |hdr|
    ensures Fits(r, l, hdr)
    decreases k
  {
    if k == 0 then m else LogRound(LogRounds(m, l, hdr, k - 1), l, hdr, k - 1)
  }

  /** One round of install_trans. */
  ghost function InstallRound(m: Store, l: Layout, hdr: seq<nat>, i: nat): (r: Store)
    requires Fits(m, l, hdr) && i < |hdr|
    ensures Fits(r, l, hdr)
  {
    var v := m.Read(l.Slot(i));
    Store(m.disk[hdr[i] := v], m.cache[l.Slot(i) := v][hdr[i] := v])
  }

  ghost function InstallRounds(m: Store, l: Layout, hdr: seq<nat>, k: nat): (r: Store)
    requires Fits(m, l, hdr) && k <= |hdr|
    ensures Fits(r, l, hdr)
    decreases k
  {
    if k == 0 then m else InstallRound(InstallRounds(m, l, hdr, k - 1), l, hdr, k - 1)
  }

  /** write_head. */
  ghost function HeadRound(m: Store, l: Layout, hdr: seq<nat>): (r: Store)
    requires Fits(m, l, hdr)
    ensures Fits(r, l, hdr)
  {
    var h := PutHead(m.Read(l.start), hdr);
    Store(m.disk[l.start := h], m.cache[l.start := h])
  }

  /** commit. */
  ghost function CommitRounds(m: Store, l: Layout, hdr: seq<nat>): (r: Store)
    requires Fits(m, l, hdr)
    ensures Fits(r, l, hdr) && (hdr == [] ==> r == m)
  {
    if hdr == [] then m else
      var logged := HeadRound(LogRounds(m, l, hdr, |hdr|), l, hdr);
      HeadRound(InstallRounds(logged, l, hdr, |hdr|), l, [])
  }

  /** recover_from_log: read_head leaves the header block in the cache. */
  ghost function RecoverRounds(m: Store, l: Layout, hdr: seq<nat>): (r: Store)
    requires Fits(m, l, hdr)
  {
    var read := m.(cache := m.cache[l.start := m.Read(l.start)]);
    HeadRound(InstallRounds(read, l, hdr, |hdr|), l, [])
  }

  // ----- every round is a step

  ghost function Times(a: Label, k: nat): (ls: seq<Label>)
    ensures |ls| == k
  {
    if k == 0 then [] else Times(a, k - 1) + [a]
  }

  ghost function At(s: State, m: Store, pinned: set<nat>, ph: Phase): State {
    s.(disk := m.disk, cache := m.cache, pinned := pinned, phase := ph)
  }

  /** The blocks of the first k entries. */
  ghost function Named(hdr: seq<nat>, k: nat): (r: set<nat>)
    requires k <= |hdr|
  {
    set b | b in hdr[..k]
  }

  /** No bread of the commit has to wait for a locked buffer. */
  ghost predicate Unlocked(s: State, l: Layout) {
    forall b :: b in s.held ==> l.Home(b) && b !in s.lh
  }

  ghost predicate AllCached(m: Store, hdr: seq<nat>) {
    forall i :: 0 <= i < |hdr| ==> hdr[i] in m.cache
  }

  lemma {:induction false} LogRoundsCached(m: Store, l: Layout, hdr: seq<nat>, k: nat)
    requires Fits(m, l, hdr) && k <= |hdr| && AllCached(m, hdr)
    ensures AllCached(LogRounds(m, l, hdr, k), hdr)
    decreases k
  {
    if k > 0 {
      LogRoundsCached(m, l, hdr, k - 1);
    }
  }

  /** The first k rounds of write_log are k steps. */
  lemma {:induction false} WriteLogSteps(s: State, l: Layout, k: nat)
    requires Fits(StoreOf(s), l, s.lh) && k <= |s.lh| && s.lh != [] && s.phase == WritingLog(0)
    requires Unlocked(s, l) && AllCached(StoreOf(s), s.lh)
    ensures Leads(s, At(s, LogRounds(StoreOf(s), l, s.lh, k), s.pinned, if k < |s.lh| then WritingLog(k) else WritingHead),
                  l, Times(WriteLogBlockL, k))
    decreases k
  {
    if k > 0 {
      WriteLogSteps(s, l, k - 1);
      var m := LogRounds(StoreOf(s), l, s.lh, k - 1);
      LogRoundsCached(StoreOf(s), l, s.lh, k - 1);
      var t := At(s, m, s.pinned, WritingLog(k - 1));
      var u := At(s, LogRound(m, l, s.lh, k - 1), s.pinned, if k < |s.lh| then WritingLog(k) else WritingHead);
      WriteLogStep(t, u, l);
      LeadsNext(s, t, u, l, Times(WriteLogBlockL, k - 1), WriteLogBlockL);
    }
  }

  lemma WriteLogStep(s: State, t: State, l: Layout)
    requires s.phase.WritingLog? && s.phase.t < |s.lh| && Fits(StoreOf(s), l, s.lh)
    requires Unlocked(s, l) && AllCached(StoreOf(s), s.lh)
    requires t == At(s, LogRound(StoreOf(s), l, s.lh, s.phase.t), s.pinned,
                     if s.phase.t + 1 < |s.lh| then WritingLog(s.phase.t + 1) else WritingHead)
    ensures Step(s, t, l, WriteLogBlockL)
  {
    var b := s.lh[s.phase.t];
    assert s.cache[b := s.cache[b]] == s.cache;
  }

  /** The first k rounds of install_trans are k steps. */
  lemma {:induction false} InstallSteps(s: State, l: Layout, k: nat)
    requires Fits(StoreOf(s), l, s.lh) && k <= |s.lh| && s.lh != [] && s.phase == Installing(0) && Unlocked(s, l)
    ensures Leads(s, At(s, InstallRounds(StoreOf(s), l, s.lh, k), s.pinned - Named(s.lh, k),
                        if k < |s.lh| then Installing(k) else Clearing),
                  l, Times(InstallBlockL, k))
    decreases k
  {
    if k == 0 {
      assert s.pinned - Named(s.lh, 0) == s.pinned;
    } else {
      InstallSteps(s, l, k - 1);
      var m := InstallRounds(StoreOf(s), l, s.lh, k - 1);
      var t := At(s, m, s.pinned - Named(s.lh, k - 1), Installing(k - 1));
      var u := At(s, InstallRound(m, l, s.lh, k - 1), s.pinned - Named(s.lh, k),
                  if k < |s.lh| then Installing(k) else Clearing);
      NamedNext(s.lh, k);
      assert s.pinned - Named(s.lh, k) == t.pinned - {s.lh[k - 1]};
      assert Step(t, u, l, InstallBlockL);
      LeadsNext(s, t, u, l, Times(InstallBlockL, k - 1), InstallBlockL);
    }
  }

  lemma NamedNext(hdr: seq<nat>, k: nat)
    requires 0 < k <= |hdr|
    ensures Named(hdr, k) == Named(hdr, k - 1) + {hdr[k - 1]}
  {
    assert hdr[..k] == hdr[..k - 1] + [hdr[k - 1]];
  }

  lemma {:induction false} ReplaySteps(s: State, l: Layout, k: nat)
    requires Fits(StoreOf(s), l, s.lh) && k <= |s.lh| && s.lh != [] && s.phase == Replaying(0)
    ensures Leads(s, At(s, InstallRounds(StoreOf(s), l, s.lh, k), s.pinned,
                        if k < |s.lh| then Replaying(k) else Erasing),
                  l, Times(ReplayBlockL, k))
    decreases k
  {
    if k > 0 {
      ReplaySteps(s, l, k - 1);
      var m := InstallRounds(StoreOf(s), l, s.lh, k - 1);
      var t := At(s, m, s.pinned, Replaying(k - 1));
      var u := At(s, InstallRound(m, l, s.lh, k - 1), s.pinned, if k < |s.lh| then Replaying(k) else Erasing);
      assert Step(t, u, l, ReplayBlockL);
      LeadsNext(s, t, u, l, Times(ReplayBlockL, k - 1), ReplayBlockL);
    }
  }

  // ----- commit, end_op and recovery as sequences of steps

  ghost function CommitLabels(k: nat): seq<Label> {
    Times(WriteLogBlockL, k) + [WriteHeadL] + Times(InstallBlockL, k) + [ClearHeadL]
  }

  /** The state commit ends in. */
  ghost function AfterCommit(s: State, l: Layout): State
    requires Fits(StoreOf(s), l, s.lh)
  {
    At(s, CommitRounds(StoreOf(s), l, s.lh), s.pinned - Named(s.lh, |s.lh|), Finishing)
      .(lh := [], boundary := |s.writes|, groupOp := s.nextOp)
  }

  /** write_head over the log, then over the installed entries. */
  lemma HeadSteps(s: State, l: Layout)
    requires Fits(StoreOf(s), l, s.lh) && l.start !in s.held
    ensures s.phase.WritingHead? ==>
              Step(s, At(s, HeadRound(StoreOf(s), l, s.lh), s.pinned, Installing(0)).(boundary := |s.writes|, groupOp := s.nextOp),
                   l, WriteHeadL)
    ensures s.phase.Clearing? ==>
              Step(s, At(s, HeadRound(StoreOf(s), l, []), s.pinned, Finishing).(lh := []), l, ClearHeadL)
    ensures s.phase.Erasing? ==>
              Step(s, At(s, HeadRound(StoreOf(s), l, []), s.pinned, Running).(lh := []), l, EraseHeadL)
  {
  }

  lemma CommitSteps(s: State, l: Layout)
    requires Fits(StoreOf(s), l, s.lh) && s.lh != [] && s.phase == WritingLog(0)
    requires Unlocked(s, l) && AllCached(StoreOf(s), s.lh)
    ensures Leads(s, AfterCommit(s, l), l, CommitLabels(|s.lh|))
  {
    hide Leads, LogRounds, InstallRounds, Times, Step, HeadRound;
    var k, m := |s.lh|, StoreOf(s);
    var m1 := LogRounds(m, l, s.lh, k);
    var s1 := At(s, m1, s.pinned, WritingHead);
    WriteLogSteps(s, l, k);
    var s2 := At(s1, HeadRound(m1, l, s.lh), s.pinned, Installing(0)).(boundary := |s.writes|, groupOp := s.nextOp);
    HeadSteps(s1, l);
    LeadsNext(s, s1, s2, l, Times(WriteLogBlockL, k), WriteHeadL);
    var m3 := InstallRounds(StoreOf(s2), l, s.lh, k);
    var s3 := At(s2, m3, s.pinned - Named(s.lh, k), Clearing);
    InstallSteps(s2, l, k);
    LeadsThen(s, s2, s3, l, Times(WriteLogBlockL, k) + [WriteHeadL], Times(InstallBlockL, k));
    HeadSteps(s3, l);
    assert AfterCommit(s, l) == At(s3, HeadRound(m3, l, []), s3.pinned, Finishing).(lh := []);
    LeadsNext(s, s3, AfterCommit(s, l), l, Times(WriteLogBlockL, k) + [WriteHeadL] + Times(InstallBlockL, k), ClearHeadL);
  }

  /** end_op with the commit it may have to make. */
  ghost function EndLabels(s: State, p: nat): seq<Label> {
    if s.outstanding > 1 then [EndOpL(p)]
    else if s.lh == [] then [EndOpL(p), FinishCommitL]
    else [EndOpL(p)] + CommitLabels(|s.lh|) + [FinishCommitL]
  }

  /** The state end_op ends in. */
  ghost function AfterEnd(s: State, l: Layout, p: nat): State
    requires Fits(StoreOf(s), l, s.lh) && s.outstanding > 0
  {
    var s1 := s.(outstanding := s.outstanding - 1, ops := s.ops - {p});
    if s.outstanding > 1 || s.lh == [] then s1 else AfterCommit(s1, l).(phase := Running)
  }

  lemma InvAllCached(s: State, l: Layout)
    requires InvShape(s, l) && InvCache(s, l) && s.phase == WritingLog(0)
    ensures Fits(StoreOf(s), l, s.lh) && AllCached(StoreOf(s), s.lh)
  {
    assert s.lh[Done(s)..] == s.lh;
    forall i | 0 <= i < |s.lh|
      ensures s.lh[i] in s.cache
    {
      assert s.lh[i] in s.lh[Done(s)..];
    }
  }

  lemma EndSteps(s: State, l: Layout, base: Disk, p: nat)
    requires Inv(s, base, l) && p in s.ops && !HoldsDirty(s, p)
    requires s.outstanding == 1 ==> Unlocked(s, l)
    ensures s.outstanding > 0 && !EndOpPanics(s)
    ensures Leads(s, AfterEnd(s, l, p), l, EndLabels(s, p))
  {
    hide InvLog, InvValue, InvOps, InvCache, HoldsDirty;
    assert |s.ops| > 0;
    var s1 := s.(outstanding := s.outstanding - 1, ops := s.ops - {p});
    assert s.phase.Running?;
    if s.outstanding > 1 {
      LeadsOne(s, s1, l, EndOpL(p));
    } else if s.lh == [] {
      EmptyEndSteps(s, s1, l, p);
    } else {
      var s2 := s1.(committing := true, phase := WritingLog(0));
      assert Step(s, s2, l, EndOpL(p));
      StepKeeps(s, s2, base, l, EndOpL(p));
      InvAllCached(s2, l);
      FullEndSteps(s, s2, l, p);
    }
  }

  lemma EmptyEndSteps(s: State, t: State, l: Layout, p: nat)
    requires t == s.(outstanding := 0, ops := s.ops - {p}) && s.phase.Running? && !s.committing
    requires s.lh == [] && p in s.ops && s.outstanding == 1 && !HoldsDirty(s, p)
    ensures Leads(s, t, l, [EndOpL(p), FinishCommitL])
  {
    hide HoldsDirty;
    var m := t.(committing := true, phase := Finishing);
    LeadsOne(s, m, l, EndOpL(p));
    LeadsNext(s, m, t, l, [EndOpL(p)], FinishCommitL);
    assert [EndOpL(p)] + [FinishCommitL] == [EndOpL(p), FinishCommitL];
  }

  lemma FullEndSteps(s: State, t: State, l: Layout, p: nat)
    requires s.outstanding == 1 && s.lh != [] && s.phase.Running? && !s.committing
    requires Step(s, t, l, EndOpL(p)) && Unlocked(s, l)
    requires t == s.(outstanding := 0, ops := s.ops - {p}, committing := true, phase := WritingLog(0))
    requires Fits(StoreOf(t), l, t.lh) && AllCached(StoreOf(t), t.lh)
    ensures Leads(s, AfterEnd(s, l, p), l, EndLabels(s, p))
  {
    hide EndOp, Leads, CommitLabels, CommitRounds;
    LeadsOne(s, t, l, EndOpL(p));
    CommitSteps(t, l);
    var u := AfterCommit(t, l);
    LeadsThen(s, t, u, l, [EndOpL(p)], CommitLabels(|s.lh|));
    assert AfterEnd(s, l, p) == u.(committing := false, phase := Running);
    assert Step(u, AfterEnd(s, l, p), l, FinishCommitL);
    LeadsNext(s, u, AfterEnd(s, l, p), l, [EndOpL(p)] + CommitLabels(|s.lh|), FinishCommitL);
  }

  ghost function ReadLabels(s: State, b: nat): seq<Label> {
    if b in s.cache then [] else [FillL(b)]
  }

  ghost function RecoverLabels(s: State, l: Layout, k: nat): seq<Label> {
    ReadLabels(s, l.start) + [ReadHeadL] + Times(ReplayBlockL, k) + [EraseHeadL]
  }

  /** The state recover_from_log ends in. */
  ghost function AfterRecover(s: State, l: Layout, hdr: seq<nat>): State
    requires Fits(StoreOf(s), l, hdr)
  {
    At(s, RecoverRounds(StoreOf(s), l, hdr), s.pinned, Running).(lh := [])
  }

  /** bread of a block: a step if it is not cached. */
  lemma ReadSteps(s: State, l: Layout, b: nat)
    requires b < |s.disk|
    ensures Leads(s, s.(cache := s.cache[b := Logical(s, b)]), l, ReadLabels(s, b))
  {
    var t := s.(cache := s.cache[b := Logical(s, b)]);
    if b in s.cache {
      assert t.cache == s.cache;
    } else {
      LeadsOne(s, t, l, FillL(b));
    }
  }

  lemma ReadHeadStep(s: State, t: State, l: Layout, hdr: seq<nat>)
    requires s.phase.Booting? && l.start < |s.disk| && WfHeadBlock(Logical(s, l.start))
    requires hdr == Head(Logical(s, l.start))
    requires t == s.(lh := hdr, phase := if hdr == [] then Erasing else Replaying(0))
    ensures Step(s, t, l, ReadHeadL)
  {
  }

  lemma RecoverSteps(s: State, l: Layout, hdr: seq<nat>)
    requires InvShape(s, l) && InvCache(s, l) && s.phase.Booting? && hdr == Head(s.disk[l.start])
    ensures Leads(s, AfterRecover(s, l, hdr), l, RecoverLabels(s, l, |hdr|))
  {
    hide Leads, InstallRounds, Times, Step, HeadRound, InvCache;
    LogReads(s, l);
    ReadSteps(s, l, l.start);
    var s1 := s.(cache := s.cache[l.start := Logical(s, l.start)]);
    var ls := ReadLabels(s, l.start);
    var s2 := s1.(lh := hdr, phase := if hdr == [] then Erasing else Replaying(0));
    ReadHeadStep(s1, s2, l, hdr);
    LeadsNext(s, s1, s2, l, ls, ReadHeadL);
    var s3 := At(s2, InstallRounds(StoreOf(s2), l, hdr, |hdr|), s.pinned, Erasing);
    ReplayAll(s2, s3, l);
    LeadsThen(s, s2, s3, l, ls + [ReadHeadL], Times(ReplayBlockL, |hdr|));
    HeadSteps(s3, l);
    assert AfterRecover(s, l, hdr) == At(s3, HeadRound(StoreOf(s3), l, []), s3.pinned, Running).(lh := []);
    LeadsNext(s, s3, AfterRecover(s, l, hdr), l, ls + [ReadHeadL] + Times(ReplayBlockL, |hdr|), EraseHeadL);
  }

  lemma ReplayAll(s: State, t: State, l: Layout)
    requires Fits(StoreOf(s), l, s.lh)
    requires s.phase == if s.lh == [] then Erasing else Replaying(0)
    requires t == At(s, InstallRounds(StoreOf(s), l, s.lh, |s.lh|), s.pinned, Erasing)
    ensures Leads(s, t, l, Times(ReplayBlockL, |s.lh|))
  {
    if s.lh != [] {
      ReplaySteps(s, l, |s.lh|);
    }
  }
}
