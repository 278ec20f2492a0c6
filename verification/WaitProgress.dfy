/** What gets done in fork, exit and wait: when wait sleeps and when it returns, how a fork ends, who
    wakes a sleeping parent, and that the locks never leave everybody waiting. */
module WaitProgress {
  import opened Basics
  import opened ExitWait

  // ----- two more invariants

  /** The lock of entry q is held by its own process, where the code says so, or by the one that is
      forking it. */
  predicate LockOf(s: State, q: nat)
    requires q < |s.procs|
  {
    s.procs[q].plock.Some? ==>
      var x := s.procs[q].plock.value;
      || (x == q && HasOwn(s.procs[q].pc))
      || (x < |s.procs| && s.procs[q].pc == Embryo(x) && HoldsChild(s.procs[x].pc) && s.procs[x].pc.np == q)
  }

  /** A scan of wait that has met a child has one. */
  ghost predicate KidsOf(s: State, p: nat)
    requires p < |s.procs|
  {
    s.procs[p].pc.Look? && s.procs[p].pc.haveKids ==> HasChild(s, p)
  }

  ghost predicate HasChild(s: State, p: nat) {
    exists c :: 0 <= c < |s.procs| && s.procs[c].parent == Some(p)
  }

  ghost predicate More(s: State) {
    forall q :: 0 <= q < |s.procs| ==> LockOf(s, q) && KidsOf(s, q)
  }

  /** What a step at another entry does to the lock of that entry, and to the own one. */
  lemma VisitLocks(me: Proc, you: Proc, p: nat, i: nat, ok: bool, me': Proc, you': Proc)
    requires Visit(me, you, p, i, ok) == Some((me', you')) && Aims(me.pc, i) && StateOk(me, p) && StateOk(you, i)
    requires Forks(me.pc) ==> ChildOk(me.pc, you, p)
    ensures HoldsChild(you.pc) ==> you'.pc == you.pc
    ensures me'.plock == me.plock && (HasOwn(me'.pc) <==> HasOwn(me.pc)) && !me.pc.Embryo? && !me'.pc.Embryo?
    ensures HoldsChild(me'.pc) ==> me'.pc.np == i && you'.plock == Some(p)
    ensures you'.plock.None? || (you'.plock == Some(p) && HoldsChild(me'.pc) && you'.pc == Embryo(p)) ||
            (you'.plock == you.plock && you'.pc == you.pc && !HoldsChild(me.pc))
  {
  }

  lemma LocalLocks(wl: Option<nat>, me: Proc, p: nat, n: nat, wl': Option<nat>, me': Proc)
    requires Local(wl, me, p, n) == Some((wl', me')) && StateOk(me, p)
    ensures !HoldsChild(me.pc) && !HoldsChild(me'.pc) && !me.pc.Embryo?
    ensures me'.plock == (if HasOwn(me'.pc) then Some(p) else if HasOwn(me.pc) then None else me.plock)
  {
  }

  lemma LocksKept(s: State, l: Label, s': State, q: nat)
    requires Inv(s) && More(s) && Step(s, l, s') && q < |s'.procs|
    ensures LockOf(s', q)
  {
    hide Local, Visit;
    assert LockOf(s, q) && SelfOk(s.procs[q], q);
    match l
    case Own(p) => {
      assert SelfOk(s.procs[p], p);
      LocalLocks(s.waitLock, s.procs[p], p, |s.procs|, s'.waitLock, s'.procs[p]);
    }
    case At(p, i, ok) => {
      assert SelfOk(s.procs[p], p) && SelfOk(s.procs[i], i);
      VisitLocks(s.procs[p], s.procs[i], p, i, ok, s'.procs[p], s'.procs[i]);
    }
    case _ =>
  }

  /** While p scans under wait_lock, nobody else takes its children away. */
  lemma KidsKept(s: State, l: Label, s': State, p: nat)
    requires Inv(s) && More(s) && Step(s, l, s') && p < |s'.procs|
    ensures KidsOf(s', p)
  {
    assert KidsOf(s, p);
    if s'.procs[p].pc.Look? && s'.procs[p].pc.haveKids {
      ScanStep(s, l, s', p);
      if s.procs[p].pc.haveKids {
        var c :| 0 <= c < |s.procs| && s.procs[c].parent == Some(p);
        ChildStays(s, l, s', p, c);
      }
    }
  }

  lemma LocalScan(wl: Option<nat>, me: Proc, p: nat, n: nat, wl': Option<nat>, me': Proc)
    requires Local(wl, me, p, n) == Some((wl', me')) && me'.pc.Look? && me'.pc.haveKids
    ensures me.pc.Look? && (me.pc.haveKids || (me.parent == Some(p) && me'.parent == me.parent))
  {
  }

  lemma VisitScan(me: Proc, you: Proc, p: nat, i: nat, ok: bool, me': Proc, you': Proc)
    requires Visit(me, you, p, i, ok) == Some((me', you'))
    ensures me'.pc.Look? && me'.pc.haveKids ==> me.pc.Look? && (me.pc.haveKids || (you.parent == Some(p) && you' == you))
    ensures you'.pc.Look? ==> you'.pc == you.pc
  {
  }

  /** A process in a scan was in it before, and what it has met by this step is a child. */
  lemma ScanStep(s: State, l: Label, s': State, p: nat)
    requires Inv(s) && Step(s, l, s') && p < |s'.procs| && s'.procs[p].pc.Look? && s'.procs[p].pc.haveKids
    ensures s.procs[p].pc.Look? && s.waitLock == Some(p)
    ensures !s.procs[p].pc.haveKids ==> HasChild(s', p)
  {
    hide Local, Visit, SelvesOk, ForkOk, FamiliesOk;
    assert HasWl(s.procs[p].pc) <==> s.waitLock == Some(p);
    match l
    case Own(q) => {
      if q == p {
        LocalScan(s.waitLock, s.procs[p], p, |s.procs|, s'.waitLock, s'.procs[p]);
        assert s'.procs[p].parent == Some(p) ==> HasChild(s', p);
      }
    }
    case At(q, i, ok) => {
      VisitScan(s.procs[q], s.procs[i], q, i, ok, s'.procs[q], s'.procs[i]);
      assert s'.procs[i].parent == Some(p) ==> HasChild(s', p);
    }
    case _ =>
  }

  lemma VisitParents(me: Proc, you: Proc, p: nat, i: nat, ok: bool, me': Proc, you': Proc)
    requires Visit(me, you, p, i, ok) == Some((me', you'))
    ensures me'.parent == me.parent && (you'.parent == you.parent || me.pc.Forking? || me.pc.Adopt? || me.pc.Sweep? || me.pc.Look?)
    ensures me.pc.Look? && you'.parent != you.parent ==> me'.pc.Return?
  {
  }

  lemma ChildStays(s: State, l: Label, s': State, p: nat, c: nat)
    requires Inv(s) && Step(s, l, s') && p < |s'.procs| && c < |s.procs| && s.procs[c].parent == Some(p)
    requires s.procs[p].pc.Look? && s'.procs[p].pc.Look? && s.waitLock == Some(p)
    ensures c < |s'.procs| && s'.procs[c].parent == Some(p)
  {
    hide Local, Visit, Family;
    assert SelfOk(s.procs[c], c) && ParentOf(s, c);
    match l
    case Own(q) => {
      assert SelfOk(s.procs[q], q) && ParentOf(s, q);
      NotOwnParent(s, q);
      LocalMe(s.waitLock, s.procs[q], q, |s.procs|, s'.waitLock, s'.procs[q]);
    }
    case At(q, i, ok) => {
      assert HasWl(s.procs[q].pc) <==> s.waitLock == Some(q);
      VisitParents(s.procs[q], s.procs[i], q, i, ok, s'.procs[q], s'.procs[i]);
      if s.procs[q].pc.Forking? {
        assert ChildOk(s.procs[q].pc, s.procs[i], q);
      }
    }
    case _ =>
  }

  lemma NotOwnParent(s: State, q: nat)
    requires q < |s.procs| && ParentOf(s, q)
    ensures s.procs[q].parent != Some(q)
  {
  }

  lemma MoreKept(s: State, l: Label, s': State)
    requires Inv(s) && More(s) && Step(s, l, s')
    ensures More(s')
  {
    hide Inv, Step, LockOf, KidsOf;
    forall q | 0 <= q < |s'.procs|
      ensures LockOf(s', q) && KidsOf(s', q)
    {
      LocksKept(s, l, s', q);
      KidsKept(s, l, s', q);
    }
  }

  lemma {:induction false} RunMore(ss: seq<State>, ls: seq<Label>, k: nat)
    requires Run(ss, ls) && k < |ss|
    ensures Inv(ss[k]) && More(ss[k])
  {
    hide Inv, Step;
    RunKeeps(ss, ls, k);
    if k > 0 {
      RunMore(ss, ls, k - 1);
      MoreKept(ss[k - 1], ls[k - 1], ss[k]);
    }
  }

  // ----- wait

  /** At the end of a scan: wait returns exactly if the process is killed or has no children, and
      otherwise goes to sleep, and then it has children and none of them is a zombie. */
  lemma WaitSleeps(ss: seq<State>, ls: seq<Label>, k: nat, p: nat)
    requires Run(ss, ls) && k < |ls| && ls[k] == Own(p) && p < |ss[k].procs| && p < |ss[k + 1].procs|
    requires ss[k].procs[p].pc.Look? && ss[k].procs[p].pc.i >= |ss[k].procs|
    ensures ss[k + 1].procs[p].pc.Return? <==> ss[k].procs[p].killed || !HasChild(ss[k], p)
    ensures !ss[k + 1].procs[p].pc.Return? ==> ss[k + 1].procs[p].pc.Doze?
    ensures ss[k + 1].procs[p].pc.Doze? ==>
              forall c :: 0 <= c < |ss[k].procs| && ss[k].procs[c].parent == Some(p) ==> !ss[k].procs[c].state.Zombie?
  {
    RunMore(ss, ls, k);
    assert Step(ss[k], ls[k], ss[k + 1]) && KidsOf(ss[k], p);
    forall c | 0 <= c < |ss[k].procs| && ss[k].procs[c].parent == Some(p)
      ensures ss[k].procs[p].pc.haveKids && !ss[k].procs[c].state.Zombie?
    {
      assert ParentOf(ss[k], c);
    }
  }

  /** A scan that comes to a zombie child, and can copy its status out, reaps it. */
  lemma WaitReaps(ss: seq<State>, ls: seq<Label>, k: nat, p: nat, i: nat)
    requires Run(ss, ls) && k < |ls| && ls[k] == At(p, i, true) && p < |ss[k].procs| && i < |ss[k].procs|
    requires ss[k].procs[p].pc.Look? && ss[k].procs[i].parent == Some(p) && ss[k].procs[i].state.Zombie?
    ensures |ss[k + 1].procs| == |ss[k].procs| && ss[k + 1].procs[p].pc.Return?
    ensures ss[k + 1].procs[i] == Proc(Free, Unused, None, None, false, None)
  {
    assert Step(ss[k], ls[k], ss[k + 1]);
  }

  /** Where a copy to the user fails at a child, wait returns and leaves the child alone. */
  lemma WaitFails(ss: seq<State>, ls: seq<Label>, k: nat, p: nat, i: nat)
    requires Run(ss, ls) && k < |ls| && ls[k] == At(p, i, false) && p < |ss[k].procs| && i < |ss[k].procs|
    requires ss[k].procs[p].pc.Look? && ss[k].procs[i].parent == Some(p)
    ensures |ss[k + 1].procs| == |ss[k].procs| && ss[k + 1].procs[p].pc.Return? && ss[k + 1].procs[i] == ss[k].procs[i]
  {
    assert Step(ss[k], ls[k], ss[k + 1]);
  }

  lemma OthersSelf(s: State, p: nat, i: nat)
    requires Inv(s) && p < |s.procs| && i < |s.procs| && Aims(s.procs[p].pc, i)
    ensures StateOk(s.procs[i], i) && (Forks(s.procs[p].pc) ==> ChildOk(s.procs[p].pc, s.procs[i], p))
  {
    assert SelfOk(s.procs[i], i);
  }

  /** Nobody else moves a process that is asleep in wait. */
  lemma VisitAsleep(me: Proc, you: Proc, p: nat, i: nat, ok: bool, me': Proc, you': Proc)
    requires Visit(me, you, p, i, ok) == Some((me', you')) && StateOk(you, i) && (Forks(me.pc) ==> you.pc.Embryo?)
    ensures you.pc.Asleep? ==> you'.pc.Asleep?
    ensures !me.pc.Asleep?
  {
  }

  /** A process asleep in wait stays there until it has been made runnable, and then runs, with its
      lock held, and looks again. */
  lemma SleepsUntilWoken(ss: seq<State>, ls: seq<Label>, k: nat, p: nat)
    requires Run(ss, ls) && k < |ls| && p < |ss[k].procs| && p < |ss[k + 1].procs|
    requires ss[k].procs[p].pc.Asleep? && !ss[k + 1].procs[p].pc.Asleep?
    ensures ls[k] == Own(p) && ss[k].procs[p].state.Runnable?
    ensures ss[k + 1].procs[p].pc.Woken? && ss[k + 1].procs[p].state.Running? && ss[k + 1].procs[p].plock == Some(p)
  {
    hide Visit, Inv;
    RunKeeps(ss, ls, k);
    assert Step(ss[k], ls[k], ss[k + 1]);
    match ls[k]
    case At(q, i, ok) =>
      OthersSelf(ss[k], q, i);
      VisitAsleep(ss[k].procs[q], ss[k].procs[i], q, i, ok, ss[k + 1].procs[q], ss[k + 1].procs[i]);
    case _ =>
  }

  // ----- fork, and wakeup

  /** What others do to an embryo: only its maker lets it go. */
  lemma VisitEmbryo(me: Proc, you: Proc, p: nat, i: nat, ok: bool, me': Proc, you': Proc)
    requires Visit(me, you, p, i, ok) == Some((me', you')) && StateOk(you, i) && (Forks(me.pc) ==> ChildOk(me.pc, you, p))
    ensures !me.pc.Embryo?
    ensures you.pc.Embryo? ==>
              || you'.pc == you.pc
              || (you.pc.maker == p && you' == Proc(Free, Unused, None, None, false, None) && you.parent.None? && !ok)
              || (you.pc.maker == p && you'.pc.User? && you'.state.Runnable? && you'.plock.None? && you'.parent == Some(p))
  {
  }

  /** How a fork ends for the new entry: it is free again, never having had a parent, or it is a
      runnable process, its lock free, whose parent is the forker. */
  lemma ForkEnds(ss: seq<State>, ls: seq<Label>, k: nat, i: nat)
    requires Run(ss, ls) && k < |ls| && i < |ss[k].procs| && i < |ss[k + 1].procs|
    requires ss[k].procs[i].pc.Embryo? && !ss[k + 1].procs[i].pc.Embryo?
    ensures var maker := ss[k].procs[i].pc.maker;
            || (ss[k + 1].procs[i] == Proc(Free, Unused, None, None, false, None) && ss[k].procs[i].parent.None?
                && ls[k] == At(maker, i, false))
            || (ss[k + 1].procs[i].pc.User? && ss[k + 1].procs[i].state.Runnable? && ss[k + 1].procs[i].plock.None?
                && ss[k + 1].procs[i].parent == Some(maker))
  {
    hide Visit, Inv;
    RunKeeps(ss, ls, k);
    assert Step(ss[k], ls[k], ss[k + 1]);
    match ls[k]
    case At(q, j, ok) =>
      OthersSelf(ss[k], q, j);
      VisitEmbryo(ss[k].procs[q], ss[k].procs[j], q, j, ok, ss[k + 1].procs[q], ss[k + 1].procs[j]);
    case _ =>
  }

  /** fork goes on exactly if the memory could be copied. */
  lemma ForkCopies(ss: seq<State>, ls: seq<Label>, k: nat, p: nat, i: nat, ok: bool)
    requires Run(ss, ls) && k < |ls| && ls[k] == At(p, i, ok) && p < |ss[k].procs| && ss[k].procs[p].pc.Forking?
    ensures |ss[k + 1].procs| == |ss[k].procs| && i < |ss[k].procs|
    ensures if ok then ss[k + 1].procs[p].pc == Forked(i) && ss[k + 1].procs[i] == ss[k].procs[i].(plock := None)
            else ss[k + 1].procs[p].pc.User? && ss[k + 1].procs[i].state.Unused?
  {
    assert Step(ss[k], ls[k], ss[k + 1]);
  }

  /** A process asleep in wait is woken by kill, by a child on its way out, or, as initproc, by a
      process handing its children over. */
  lemma WokenFor(ss: seq<State>, ls: seq<Label>, k: nat, i: nat)
    requires Run(ss, ls) && k < |ls| && i < |ss[k].procs| && i < |ss[k + 1].procs|
    requires ss[k].procs[i].pc.Asleep? && ss[k].procs[i].state.Sleeping? && ss[k + 1].procs[i].state.Runnable?
    ensures match ls[k]
            case Outside(q) => q == i && ss[k + 1].procs[i].killed
            case At(q, j, ok) =>
              && j == i && q < |ss[k].procs| && ss[k].procs[q].pc.Rouse?
              && (ss[k].procs[q].parent == Some(i) || (i == INIT && ss[k].procs[q].pc.sweep.Some?))
            case _ => false
  {
    RunKeeps(ss, ls, k);
    assert Step(ss[k], ls[k], ss[k + 1]) && SelfOk(ss[k].procs[i], i);
    if ls[k].At? {
      assert SelfOk(ss[k].procs[ls[k].p], ls[k].p);
    }
  }

  /** kill reaches every process whose lock is free, and leaves none of them asleep. */
  lemma KillWorks(s: State, p: nat) returns (s': State)
    requires p < |s.procs| && s.procs[p].plock.None?
    ensures Step(s, Outside(p), s') && |s'.procs| == |s.procs| && s'.waitLock == s.waitLock
    ensures s'.procs[p].killed && !s'.procs[p].state.Sleeping? && s'.procs[p].pc == s.procs[p].pc
    ensures forall q :: 0 <= q < |s.procs| && q != p ==> s'.procs[q] == s.procs[q]
  {
    var me := s.procs[p];
    s' := s.(procs := s.procs[p := me.(killed := true, state := if me.state.Sleeping? then Runnable else me.state)]);
  }

  /** Outside these calls a process sleeps, waits and runs as it likes. */
  lemma OtherBusiness(s: State, p: nat, state: ProcState) returns (s': State)
    requires p < |s.procs| && s.procs[p].pc.User? && s.procs[p].plock.None?
    requires state.Sleeping? || state.Runnable? || state.Running?
    ensures Step(s, Outside(p), s') && s' == s.(procs := s.procs[p := s.procs[p].(state := state)])
  {
    s' := s.(procs := s.procs[p := s.procs[p].(state := state)]);
  }

  /** A process in user mode can call wait, and exit unless it is the first one. */
  lemma CallsOpen(s: State, p: nat, pc: Pc) returns (s': State)
    requires p < |s.procs| && s.procs[p].pc.User? && (pc == Waiting || (pc == Exiting && p != INIT))
    ensures Step(s, Call(p, pc), s') && s' == s.(procs := s.procs[p := s.procs[p].(pc := pc)])
  {
    s' := s.(procs := s.procs[p := s.procs[p].(pc := pc)]);
  }

  /** fork can take any unused entry. */
  lemma ForkOpen(s: State, p: nat, i: nat) returns (s': State)
    requires Inv(s) && p < |s.procs| && i < |s.procs| && i != p && s.procs[p].pc.User?
    requires s.procs[i].state.Unused? && s.procs[i].plock.None?
    ensures Step(s, At(p, i, true), s') && s'.procs[p].pc == Forking(i) && s'.procs[i].pc == Embryo(p)
    ensures s'.procs[i].state.Used? && s'.procs[i].plock == Some(p)
  {
    var (me, you) := Visit(s.procs[p], s.procs[i], p, i, true).value;
    s' := s.(procs := s.procs[p := me][i := you]);
  }

  // ----- nobody waits for ever on a lock

  /** Inside fork, exit or wait. */
  predicate Busy(pc: Pc) {
    !pc.User? && !pc.Free? && !pc.Dead? && !pc.Embryo?
  }

  /** What p waits for: wait_lock, the lock of an entry, or to be woken. */
  predicate Blocked(s: State, p: nat)
    requires p < |s.procs|
  {
    var me := s.procs[p];
    match me.pc
    case Forked(_) => s.waitLock.Some?
    case Exiting => s.waitLock.Some?
    case Waiting => s.waitLock.Some?
    case Rewait => s.waitLock.Some?
    case Bury => me.plock.Some?
    case Doze => me.plock.Some?
    case Inherit(_) => me.plock.Some?
    case Asleep => me.plock.Some? || me.state.Sleeping?
    case Publish(np) => np < |s.procs| && s.procs[np].plock.Some?
    case Rouse(_, j, _) => j < |s.procs| && j != p && s.procs[j].plock.Some?
    case Look(i, haveKids) =>
      if i < |s.procs| then i != p && s.procs[i].parent == Some(p) && s.procs[i].plock.Some?
      else haveKids && me.plock.Some?
    case _ => false
  }

  /** Whoever is inside a call can make a step of its own, unless it has to wait. */
  lemma Moves(s: State, p: nat) returns (l: Label, s': State)
    requires Inv(s) && p < |s.procs| && Busy(s.procs[p].pc) && !Blocked(s, p)
    ensures l.p == p && (l.Own? || (l.At? && l.ok)) && Step(s, l, s') && s'.procs[p].pc != s.procs[p].pc
  {
    assert SelfOk(s.procs[p], p);
    var n := |s.procs|;
    var i := Target(s.procs[p].pc);
    if i < n && i != p && Aims(s.procs[p].pc, i) {
      VisitMoves(s, p, i);
      var (me, you) := Visit(s.procs[p], s.procs[i], p, i, true).value;
      l, s' := At(p, i, true), s.(procs := s.procs[p := me][i := you]);
    } else {
      LocalMoves(s, p);
      var (wl, me) := Local(s.waitLock, s.procs[p], p, n).value;
      l, s' := Own(p), State(wl, s.procs[p := me]);
    }
  }

  /** The entry a call is working on. */
  function Target(pc: Pc): nat {
    match pc
    case Forking(np) => np
    case Adopt(np) => np
    case Publish(np) => np
    case Inherit(np) => np
    case Launch(np) => np
    case Sweep(i) => i
    case Rouse(_, j, _) => j
    case Look(i, _) => i
    case _ => 0
  }

  lemma VisitMoves(s: State, p: nat, i: nat)
    requires Inv(s) && p < |s.procs| && Busy(s.procs[p].pc) && !Blocked(s, p)
    requires i == Target(s.procs[p].pc) && i < |s.procs| && i != p && Aims(s.procs[p].pc, i)
    ensures var v := Visit(s.procs[p], s.procs[i], p, i, true);
            v.Some? && v.value.0.pc != s.procs[p].pc
  {
    if Forks(s.procs[p].pc) {
      assert ChildOk(s.procs[p].pc, s.procs[i], p);
    }
  }

  lemma LocalMoves(s: State, p: nat)
    requires Inv(s) && p < |s.procs| && Busy(s.procs[p].pc) && !Blocked(s, p)
    requires var i := Target(s.procs[p].pc); i >= |s.procs| || i == p || !Aims(s.procs[p].pc, i)
    ensures var v := Local(s.waitLock, s.procs[p], p, |s.procs|);
            v.Some? && v.value.1.pc != s.procs[p].pc
  {
    assert SelfOk(s.procs[p], p);
    if Forks(s.procs[p].pc) {
      assert s.procs[p].pc.np < |s.procs| && s.procs[p].pc.np != p;
    }
  }

  /** The holder of an entry's lock can move. */
  lemma LockHolder(s: State, j: nat) returns (q: nat)
    requires Inv(s) && More(s) && j < |s.procs| && s.procs[j].plock.Some?
    ensures q < |s.procs| && Busy(s.procs[q].pc) && !Blocked(s, q)
  {
    assert LockOf(s, j);
    q := s.procs[j].plock.value;
    assert LockOf(s, q) && SelfOk(s.procs[q], q);
  }

  /** Whoever waits for a lock, somebody who can move holds it or another one in its way. */
  lemma SomebodyMoves(s: State, p: nat) returns (q: nat)
    requires Inv(s) && More(s) && p < |s.procs| && Busy(s.procs[p].pc)
    requires !(s.procs[p].pc.Asleep? && s.procs[p].state.Sleeping?)
    ensures q < |s.procs| && Busy(s.procs[q].pc) && !Blocked(s, q)
  {
    q := p;
    if Blocked(s, p) && s.waitLock.Some? {
      q := s.waitLock.value;
      assert HasWl(s.procs[q].pc);
    }
    if Blocked(s, q) {
      var me := s.procs[q];
      if me.plock.Some? {
        q := LockHolder(s, q);
      } else {
        q := LockHolder(s, Target(me.pc));
      }
    }
  }

  /** As long as somebody is inside fork, exit or wait and not asleep there, somebody inside can
      move: the order in which wait_lock and the processes' locks are taken admits no deadlock. */
  lemma NoDeadlock(ss: seq<State>, ls: seq<Label>, k: nat, p: nat) returns (l: Label, s': State)
    requires Run(ss, ls) && k < |ss| && p < |ss[k].procs| && Busy(ss[k].procs[p].pc)
    requires !(ss[k].procs[p].pc.Asleep? && ss[k].procs[p].state.Sleeping?)
    ensures l.p < |ss[k].procs| && Busy(ss[k].procs[l.p].pc) && (l.Own? || l.At?)
    ensures Step(ss[k], l, s') && |s'.procs| == |ss[k].procs| && s'.procs[l.p].pc != ss[k].procs[l.p].pc
  {
    RunMore(ss, ls, k);
    var q := SomebodyMoves(ss[k], p);
    l, s' := Moves(ss[k], q);
  }

  // ----- calls end

  /** A bound on the steps a call at pc still takes among n entries, short of going to sleep. */
  function Rank(pc: Pc, n: nat): nat {
    match pc
    case Forking(_) => 7
    case Forked(_) => 6
    case Adopt(_) => 5
    case Adopted(_) => 4
    case Publish(_) => 3
    case Inherit(_) => 2
    case Launch(_) => 1
    case Exiting => 8 + n + Rounds(n, 0)
    case Sweep(i) => 7 + n + Rounds(n, i)
    case Rouse(_, j, sweep) =>
      (if sweep.Some? then 8 + n + Rounds(n, sweep.value) else 5) + if j < n then n - j else 0
    case Notify => 6 + n
    case Bury => 4
    case Dying => 3
    case Gone => 2
    case Leaving => 1
    case Waiting => 9 + n
    case Look(i, _) => 8 + if i < n then n - i else 0
    case Doze => 7
    case Handoff => 6
    case Fall => 5
    case Asleep => 4
    case Woken => 3
    case Rewait => 2
    case Return => 1
    case _ => 0
  }

  /** What is left of reparent's loop from entry i on: a whole wakeup for each. */
  function Rounds(n: nat, i: nat): nat {
    if i >= n then 0 else (n - i) * (n + 2)
  }

  lemma RoundsNext(n: nat, i: nat)
    ensures i < n ==> Rounds(n, i) == Rounds(n, i + 1) + n + 2
  {
    if i < n {
      assert (n - i) * (n + 2) == (n - i - 1) * (n + 2) + (n + 2);
    }
  }

  lemma ExitRanks(wl: Option<nat>, me: Proc, p: nat, n: nat, wl': Option<nat>, me': Proc)
    requires Local(wl, me, p, n) == Some((wl', me')) && p < n && Exits(me.pc)
    ensures Rank(me'.pc, n) < Rank(me.pc, n)
  {
    hide Rounds;
    match me.pc
    case Sweep(i) => RoundsNext(n, i);
    case _ =>
  }

  lemma LocalRanks(wl: Option<nat>, me: Proc, p: nat, n: nat, wl': Option<nat>, me': Proc)
    requires Local(wl, me, p, n) == Some((wl', me')) && p < n
    ensures Rank(me'.pc, n) < Rank(me.pc, n) || me.pc.Rewait?
  {
    hide Rounds;
    if Exits(me.pc) {
      hide Local;
      ExitRanks(wl, me, p, n, wl', me');
    }
  }

  lemma VisitRanks(me: Proc, you: Proc, p: nat, i: nat, ok: bool, me': Proc, you': Proc, n: nat)
    requires Visit(me, you, p, i, ok) == Some((me', you')) && Aims(me.pc, i) && i < n
    ensures Rank(me'.pc, n) < Rank(me.pc, n) || me.pc.User?
  {
    hide Rounds;
    RoundsNext(n, if me.pc.Sweep? then me.pc.i else 0);
  }

  /** Others do not move a process that is inside a call. */
  lemma VisitInside(me: Proc, you: Proc, p: nat, i: nat, ok: bool, me': Proc, you': Proc)
    requires Visit(me, you, p, i, ok) == Some((me', you')) && StateOk(you, i) && (Forks(me.pc) ==> ChildOk(me.pc, you, p))
    requires Busy(you.pc)
    ensures you'.pc == you.pc
  {
  }

  /** A step at which p itself moves on. */
  predicate Turn(l: Label, p: nat) {
    (l.Own? || l.At?) && l.p == p
  }

  /** Every turn of a process inside a call brings it nearer to the end of the call, except the one
      by which wait looks again after it has slept; and nobody else's step moves it. */
  lemma TurnsCount(s: State, l: Label, s': State, p: nat)
    requires Inv(s) && Step(s, l, s') && p < |s.procs| && Busy(s.procs[p].pc)
    ensures |s'.procs| == |s.procs|
    ensures if Turn(l, p) then s.procs[p].pc.Rewait? || Rank(s'.procs[p].pc, |s.procs|) < Rank(s.procs[p].pc, |s.procs|)
            else s'.procs[p].pc == s.procs[p].pc
  {
    hide Rank, Local, Visit, Inv;
    var n := |s.procs|;
    match l
    case Own(q) => LocalRanks(s.waitLock, s.procs[q], q, n, s'.waitLock, s'.procs[q]);
    case At(q, i, ok) =>
      VisitRanks(s.procs[q], s.procs[i], q, i, ok, s'.procs[q], s'.procs[i], n);
      if i == p {
        OthersSelf(s, q, i);
        VisitInside(s.procs[q], s.procs[i], q, i, ok, s'.procs[q], s'.procs[i]);
      }
    case _ =>
  }

  function Turns(ls: seq<Label>, p: nat): nat {
    if ls == [] then 0 else Turns(ls[..|ls| - 1], p) + if Turn(ls[|ls| - 1], p) then 1 else 0
  }

  /** No call goes round for ever: from any point inside one, the caller has only Rank turns before
      it is out of the call or, in wait, back from sleep. */
  lemma {:induction false} CallsEnd(ss: seq<State>, ls: seq<Label>, j: nat, k: nat, p: nat)
    requires Run(ss, ls) && j <= k <= |ls| && p < |ss[j].procs|
    requires forall m :: j <= m < k ==> p < |ss[m].procs| && Busy(ss[m].procs[p].pc) && !ss[m].procs[p].pc.Rewait?
    ensures |ss[k].procs| == |ss[j].procs|
    ensures Turns(ls[j..k], p) + Rank(ss[k].procs[p].pc, |ss[j].procs|) <= Rank(ss[j].procs[p].pc, |ss[j].procs|)
  {
    hide Rank, Inv, Step, Init;
    if k > j {
      CallsEnd(ss, ls, j, k - 1, p);
      RunKeeps(ss, ls, k - 1);
      TurnsCount(ss[k - 1], ls[k - 1], ss[k], p);
      assert ls[j..k][..k - j - 1] == ls[j..k - 1];
    }
  }
}
