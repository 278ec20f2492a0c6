/** acquiresleep and releasesleep over sleep and wakeup, as a transition system: any number of
    processes, one step per access to a spinlock, to the sleep lock or to a process entry. */
module SleepLock {
  import opened Basics

  /** p->state, as far as sleep and wakeup look at it. */
  datatype RunState = Sleeping | Runnable | Running

  /** Where a process is.  Enter waits for the inner spinlock; Test..Unlock are the body of
      acquiresleep; Commit..Return are sleep; Drop..Leave are releasesleep, with wakeup's scan in
      Scan, Look and Pass. */
  datatype Pc =
    | Elsewhere
    | Enter | Test | Set | SetPid | Unlock
    | Commit | Hand | SetChan | SetState | Switch | Asleep | Woken | Tidy | Return
    | Holding
    | Drop | Clear | ClearPid | Scan(i: nat) | Look(i: nat) | Pass(i: nat) | Leave

  datatype Proc = Proc(pc: Pc, state: RunState, onLock: bool, plock: Option<nat>)

  /** The sleep lock: the holder of its spinlock, locked, pid (None for 0), and who last set locked
      and has not cleared it. */
  datatype Lock = Lock(lk: Option<nat>, locked: bool, pid: Option<nat>, owner: Option<nat>)

  datatype State = State(g: Lock, procs: seq<Proc>)

  /** A step of process p on the lock and on its own entry; None while it waits for a lock or to be
      scheduled.  Switch is sched, after which the scheduler releases the process's lock; leaving
      Asleep is the scheduler taking it and switching back. */
  function Local(g: Lock, me: Proc, p: nat): Option<(Lock, Proc)> {
    match me.pc
    case Elsewhere => Some((g, me.(pc := Enter)))
    case Enter => if g.lk.None? then Some((g.(lk := Some(p)), me.(pc := Test))) else None
    case Test => Some((g, me.(pc := if g.locked then Commit else Set)))
    case Set => Some((g.(locked := true, owner := Some(p)), me.(pc := SetPid)))
    case SetPid => Some((g.(pid := Some(p)), me.(pc := Unlock)))
    case Unlock => Some((g.(lk := None), me.(pc := Holding)))
    case Commit => if me.plock.None? then Some((g, me.(pc := Hand, plock := Some(p)))) else None
    case Hand => Some((g.(lk := None), me.(pc := SetChan)))
    case SetChan => Some((g, me.(pc := SetState, onLock := true)))
    case SetState => Some((g, me.(pc := Switch, state := Sleeping)))
    case Switch => Some((g, me.(pc := Asleep, plock := None)))
    case Asleep =>
      if me.plock.None? && me.state.Runnable? then Some((g, me.(pc := Woken, state := Running, plock := Some(p)))) else None
    case Woken => Some((g, me.(pc := Tidy, onLock := false)))
    case Tidy => Some((g, me.(pc := Return, plock := None)))
    case Return => if g.lk.None? then Some((g.(lk := Some(p)), me.(pc := Test))) else None
    case Holding => Some((g, me.(pc := Drop)))
    case Drop => if g.lk.None? then Some((g.(lk := Some(p)), me.(pc := Clear))) else None
    case Clear => Some((g.(locked := false, owner := None), me.(pc := ClearPid)))
    case ClearPid => Some((g.(pid := None), me.(pc := Scan(0))))
    case Leave => Some((g.(lk := None), me.(pc := Elsewhere)))
    case _ => None
  }

  /** A step of wakeup by process p at another entry. */
  function Visit(me: Proc, you: Proc, p: nat): Option<(Proc, Proc)> {
    match me.pc
    case Scan(i) => if you.plock.None? then Some((me.(pc := Look(i)), you.(plock := Some(p)))) else None
    case Look(i) => Some((me.(pc := Pass(i)), if you.state.Sleeping? && you.onLock then you.(state := Runnable) else you))
    case Pass(i) => Some((me.(pc := Scan(i + 1)), you.(plock := None)))
    case _ => None
  }

  ghost predicate LocalStep(s: State, p: nat, s': State) {
    p < |s.procs| && |s'.procs| == |s.procs| && Local(s.g, s.procs[p], p) == Some((s'.g, s'.procs[p]))
    && forall q :: 0 <= q < |s.procs| && q != p ==> s'.procs[q] == s.procs[q]
  }

  ghost predicate VisitStep(s: State, p: nat, i: nat, s': State) {
    p < |s.procs| && i < |s.procs| && i != p && |s'.procs| == |s.procs| && s'.g == s.g
    && (s.procs[p].pc == Scan(i) || s.procs[p].pc == Look(i) || s.procs[p].pc == Pass(i))
    && Visit(s.procs[p], s.procs[i], p) == Some((s'.procs[p], s'.procs[i]))
    && forall q :: 0 <= q < |s.procs| && q != p && q != i ==> s'.procs[q] == s.procs[q]
  }

  /** The scan passes over the process itself, and ends. */
  ghost predicate SkipStep(s: State, p: nat, s': State) {
    p < |s.procs| && s.procs[p].pc.Scan? && (s.procs[p].pc.i == p || s.procs[p].pc.i >= |s.procs|)
    && s' == s.(procs := s.procs[p := s.procs[p].(pc := if s.procs[p].pc.i == p then Scan(p + 1) else Leave)])
  }

  /** kill, which wakes any sleeper; or a process with other business, which may sleep and wake on
      other channels. */
  ghost predicate OutsideStep(s: State, p: nat, s': State) {
    && p < |s.procs| && |s'.procs| == |s.procs| && s'.g == s.g && s.procs[p].plock.None?
    && (forall q :: 0 <= q < |s.procs| && q != p ==> s'.procs[q] == s.procs[q])
    && s'.procs[p] == s.procs[p].(state := s'.procs[p].state)
    && (s'.procs[p].state == s.procs[p].state || s.procs[p].pc.Elsewhere? || (s.procs[p].state.Sleeping? && s'.procs[p].state.Runnable?))
  }

  datatype Label = Own(p: nat) | Wake(p: nat, i: nat) | Skip(p: nat) | Outside(p: nat)

  ghost predicate Step(s: State, l: Label, s': State) {
    match l
    case Own(p) => LocalStep(s, p, s')
    case Wake(p, i) => VisitStep(s, p, i, s')
    case Skip(p) => SkipStep(s, p, s')
    case Outside(p) => OutsideStep(s, p, s')
  }

  ghost predicate Init(s: State) {
    s.g == Lock(None, false, None, None) && forall p :: 0 <= p < |s.procs| ==> Start(s.procs[p])
  }

  predicate Start(me: Proc) {
    me.pc.Elsewhere? && !me.onLock && me.plock.None?
  }

  /** Runs, one label per step. */
  ghost predicate Run(ss: seq<State>, ls: seq<Label>) {
    |ss| == |ls| + 1 && Init(ss[0]) && forall k :: 0 <= k < |ls| ==> Step(ss[k], ls[k], ss[k + 1])
  }

  // ----- the invariant

  /** The steps that hold the inner spinlock. */
  predicate HasLk(pc: Pc) {
    pc.Test? || pc.Set? || pc.SetPid? || pc.Unlock? || pc.Commit? || pc.Hand?
    || pc.Clear? || pc.ClearPid? || pc.Scan? || pc.Look? || pc.Pass? || pc.Leave?
  }

  /** The steps that hold the process's own lock. */
  predicate HasOwn(pc: Pc) {
    pc.Hand? || pc.SetChan? || pc.SetState? || pc.Switch? || pc.Woken? || pc.Tidy?
  }

  predicate HasOther(pc: Pc, i: nat) {
    pc == Look(i) || pc == Pass(i)
  }

  /** The steps between setting locked and clearing it. */
  predicate Owns(pc: Pc) {
    pc.SetPid? || pc.Unlock? || pc.Holding? || pc.Drop? || pc.Clear?
  }

  /** Asleep on the lock, or past the point of no return on the way there. */
  predicate Committed(me: Proc) {
    me.pc.SetChan? || me.pc.SetState? || me.pc.Switch? || (me.pc.Asleep? && me.state.Sleeping?)
  }

  /** A releaser that has cleared locked and will still look at process q. */
  predicate WillLook(pc: Pc, q: nat) {
    pc.ClearPid? || (pc.Scan? && pc.i <= q) || (pc.Look? && pc.i <= q) || (pc.Pass? && pc.i < q)
  }

  ghost predicate LkOk(s: State) {
    && (s.g.lk.Some? ==> s.g.lk.value < |s.procs|)
    && (forall p :: 0 <= p < |s.procs| ==> (HasLk(s.procs[p].pc) <==> s.g.lk == Some(p)))
    && (forall p :: 0 <= p < |s.procs| && (s.procs[p].pc.Look? || s.procs[p].pc.Pass?) ==> p != s.procs[p].pc.i < |s.procs|)
  }

  /** wakeup has the lock of process q. */
  ghost predicate Scanned(s: State, q: nat) {
    s.g.lk.Some? && s.g.lk.value < |s.procs| && HasOther(s.procs[s.g.lk.value].pc, q)
  }

  ghost predicate PlockOf(s: State, me: Proc, q: nat) {
    && me.plock == (if HasOwn(me.pc) then Some(q) else if Scanned(s, q) then s.g.lk else None)
    && (Scanned(s, q) ==> !HasOwn(me.pc) && s.g.lk != Some(q))
    && (me.onLock <==> me.pc.SetState? || me.pc.Switch? || me.pc.Asleep? || me.pc.Woken?)
    && (me.pc.Switch? ==> me.state.Sleeping?) && (me.pc.Asleep? ==> !me.state.Running?)
  }

  /** Process locks are held as the steps say: by the process itself, or by the scanner. */
  ghost predicate PlockOk(s: State) {
    forall q :: 0 <= q < |s.procs| ==> PlockOf(s, s.procs[q], q)
  }

  predicate Released(pc: Pc) {
    pc.ClearPid? || pc.Scan? || pc.Look? || pc.Pass? || pc.Leave?
  }

  predicate OwnerOf(g: Lock, pc: Pc, p: nat) {
    && (Owns(pc) <==> g.owner == Some(p))
    && (pc.Set? || Released(pc) ==> !g.locked) && (pc.Commit? || pc.Hand? ==> g.locked)
  }

  ghost predicate OwnerOk(s: State) {
    && (s.g.locked <==> s.g.owner.Some?) && (s.g.owner.Some? ==> s.g.owner.value < |s.procs|)
    && (forall p :: 0 <= p < |s.procs| ==> OwnerOf(s.g, s.procs[p].pc, p))
  }

  /** The steps during which pid names the process. */
  predicate Tagged(pc: Pc) {
    pc.Unlock? || pc.Holding? || pc.Drop? || pc.Clear? || pc.ClearPid?
  }

  ghost predicate PidOk(s: State) {
    forall p :: 0 <= p < |s.procs| ==> (Tagged(s.procs[p].pc) <==> s.g.pid == Some(p))
  }

  /** While unlocked, whoever is committed to sleeping will be looked at by the releaser. */
  ghost predicate WakeOk(s: State) {
    !s.g.locked ==> forall q :: 0 <= q < |s.procs| && Committed(s.procs[q]) ==>
      s.g.lk.Some? && s.g.lk.value < |s.procs| && WillLook(s.procs[s.g.lk.value].pc, q)
  }

  ghost predicate Inv(s: State) {
    LkOk(s) && PlockOk(s) && OwnerOk(s) && PidOk(s) && WakeOk(s)
  }

  lemma LocalLk(s: State, p: nat, s': State)
    requires LkOk(s) && LocalStep(s, p, s')
    ensures LkOk(s')
  {
    assert HasLk(s.procs[p].pc) <==> s.g.lk == Some(p);
    assert HasLk(s'.procs[p].pc) <==> s'.g.lk == Some(p);
    assert !s'.procs[p].pc.Look? && !s'.procs[p].pc.Pass?;
    assert forall q :: 0 <= q < |s.procs| && q != p ==> (s'.g.lk == Some(q) <==> s.g.lk == Some(q));
  }

  lemma LkKept(s: State, l: Label, s': State)
    requires LkOk(s) && Step(s, l, s')
    ensures LkOk(s')
  {
    if l.Own? {
      LocalLk(s, l.p, s');
    }
  }

  lemma LocalOwner(s: State, p: nat, s': State)
    requires LkOk(s) && OwnerOk(s) && LocalStep(s, p, s')
    ensures OwnerOk(s')
  {
    forall q | 0 <= q < |s.procs|
      ensures OwnerOf(s'.g, s'.procs[q].pc, q)
    {
      assert OwnerOf(s.g, s.procs[q].pc, q) && OwnerOf(s.g, s.procs[p].pc, p);
    }
  }

  lemma OwnerKept(s: State, l: Label, s': State)
    requires LkOk(s) && OwnerOk(s) && Step(s, l, s')
    ensures OwnerOk(s')
  {
    if l.Own? {
      LocalOwner(s, l.p, s');
    }
  }

  lemma LocalPlock(s: State, p: nat, s': State)
    requires LkOk(s) && PlockOk(s) && LocalStep(s, p, s')
    ensures PlockOk(s')
  {
    forall q | 0 <= q < |s.procs|
      ensures PlockOf(s', s'.procs[q], q)
    {
      LocalPlockAt(s, p, s', q);
    }
  }

  lemma LocalPlockAt(s: State, p: nat, s': State, q: nat)
    requires LkOk(s) && PlockOk(s) && LocalStep(s, p, s') && q < |s.procs|
    ensures PlockOf(s', s'.procs[q], q)
  {
    assert PlockOf(s, s.procs[q], q) && PlockOf(s, s.procs[p], p);
    assert Scanned(s', q) == Scanned(s, q);
  }

  lemma VisitPlock(s: State, p: nat, i: nat, s': State)
    requires LkOk(s) && PlockOk(s) && VisitStep(s, p, i, s')
    ensures PlockOk(s')
  {
    forall q | 0 <= q < |s.procs|
      ensures PlockOf(s', s'.procs[q], q)
    {
      assert s.g.lk == Some(p);
      assert PlockOf(s, s.procs[q], q);
    }
  }

  lemma SkipPlock(s: State, p: nat, s': State)
    requires LkOk(s) && PlockOk(s) && SkipStep(s, p, s')
    ensures PlockOk(s')
  {
    forall q | 0 <= q < |s.procs|
      ensures PlockOf(s', s'.procs[q], q)
    {
      assert PlockOf(s, s.procs[q], q);
    }
  }

  lemma OutsidePlock(s: State, p: nat, s': State)
    requires PlockOk(s) && OutsideStep(s, p, s')
    ensures PlockOk(s')
  {
    forall q | 0 <= q < |s.procs|
      ensures PlockOf(s', s'.procs[q], q)
    {
      assert PlockOf(s, s.procs[q], q);
    }
  }

  lemma PlockKept(s: State, l: Label, s': State)
    requires LkOk(s) && PlockOk(s) && Step(s, l, s')
    ensures PlockOk(s')
  {
    match l
    case Own(p) => LocalPlock(s, p, s');
    case Wake(p, i) => VisitPlock(s, p, i, s');
    case Skip(p) => SkipPlock(s, p, s');
    case Outside(p) => OutsidePlock(s, p, s');
  }

  /** Two processes never both need pid. */
  lemma PidApart(s: State, p: nat, q: nat)
    requires LkOk(s) && OwnerOk(s) && p < |s.procs| && q < |s.procs| && p != q
    requires s.procs[p].pc.SetPid? || s.procs[p].pc.ClearPid?
    ensures !Tagged(s.procs[q].pc)
  {
    assert OwnerOf(s.g, s.procs[p].pc, p) && OwnerOf(s.g, s.procs[q].pc, q);
  }

  lemma LocalPid(s: State, p: nat, s': State)
    requires LkOk(s) && OwnerOk(s) && PidOk(s) && LocalStep(s, p, s')
    ensures PidOk(s')
  {
    forall q | 0 <= q < |s.procs|
      ensures Tagged(s'.procs[q].pc) <==> s'.g.pid == Some(q)
    {
      if q != p && (s.procs[p].pc.SetPid? || s.procs[p].pc.ClearPid?) {
        PidApart(s, p, q);
      }
    }
  }

  lemma PidKept(s: State, l: Label, s': State)
    requires LkOk(s) && OwnerOk(s) && PidOk(s) && Step(s, l, s')
    ensures PidOk(s')
  {
    if l.Own? {
      LocalPid(s, l.p, s');
    }
  }

  lemma LocalWake(s: State, p: nat, s': State)
    requires LkOk(s) && OwnerOk(s) && WakeOk(s) && LocalStep(s, p, s')
    ensures WakeOk(s')
  {
  }

  lemma VisitWake(s: State, p: nat, i: nat, s': State)
    requires LkOk(s) && PlockOk(s) && WakeOk(s) && VisitStep(s, p, i, s')
    ensures WakeOk(s')
  {
  }

  lemma WakeKept(s: State, l: Label, s': State)
    requires LkOk(s) && PlockOk(s) && OwnerOk(s) && WakeOk(s) && Step(s, l, s')
    ensures WakeOk(s')
  {
    match l
    case Own(p) => LocalWake(s, p, s');
    case Wake(p, i) => VisitWake(s, p, i, s');
    case Skip(p) =>
    case Outside(p) =>
  }

  lemma StepKeeps(s: State, l: Label, s': State)
    requires Inv(s) && Step(s, l, s')
    ensures Inv(s')
  {
    LkKept(s, l, s');
    PlockKept(s, l, s');
    OwnerKept(s, l, s');
    PidKept(s, l, s');
    WakeKept(s, l, s');
  }

  /** Every state of every run is sound. */
  lemma {:induction false} RunKeeps(ss: seq<State>, ls: seq<Label>, k: nat)
    requires Run(ss, ls) && k < |ss|
    ensures Inv(ss[k])
  {
    if k > 0 {
      RunKeeps(ss, ls, k - 1);
      StepKeeps(ss[k - 1], ls[k - 1], ss[k]);
    }
  }

  // ----- what the lock promises

  /** At most one process is between setting locked and clearing it, and locked says whether there
      is one. */
  lemma MutualExclusion(ss: seq<State>, ls: seq<Label>, k: nat)
    requires Run(ss, ls) && k < |ss|
    ensures forall p, q :: 0 <= p < |ss[k].procs| && 0 <= q < |ss[k].procs| && Owns(ss[k].procs[p].pc) && Owns(ss[k].procs[q].pc) ==> p == q
    ensures ss[k].g.locked <==> exists p :: 0 <= p < |ss[k].procs| && Owns(ss[k].procs[p].pc)
  {
    RunKeeps(ss, ls, k);
    var s := ss[k];
    forall p | 0 <= p < |s.procs|
      ensures Owns(s.procs[p].pc) <==> s.g.owner == Some(p)
    {
      assert OwnerOf(s.g, s.procs[p].pc, p);
    }
    if s.g.locked {
      assert Owns(s.procs[s.g.owner.value].pc);
    }
  }

  /** Asleep on the lock, or inside sleep before the switch, still able to miss a wakeup. */
  predicate GoingToSleep(me: Proc) {
    me.pc.Commit? || me.pc.Hand? || Committed(me)
  }

  /** No lost wakeup: with the lock and its spinlock free, nobody is asleep on it or on the way. */
  lemma NoLostWakeup(ss: seq<State>, ls: seq<Label>, k: nat, q: nat)
    requires Run(ss, ls) && k < |ss| && q < |ss[k].procs|
    requires !ss[k].g.locked && ss[k].g.lk.None?
    ensures !GoingToSleep(ss[k].procs[q])
  {
    RunKeeps(ss, ls, k);
    assert OwnerOf(ss[k].g, ss[k].procs[q].pc, q);
  }

  /** holdingsleep, whose test is made under the spinlock and outside the two calls. */
  lemma HoldingSleep(ss: seq<State>, ls: seq<Label>, k: nat, p: nat)
    requires Run(ss, ls) && k < |ss| && p < |ss[k].procs| && ss[k].g.lk.None?
    ensures ss[k].g.locked && ss[k].g.pid == Some(p) <==> ss[k].procs[p].pc.Holding? || ss[k].procs[p].pc.Drop?
  {
    RunKeeps(ss, ls, k);
    assert OwnerOf(ss[k].g, ss[k].procs[p].pc, p);
  }

  // ----- no deadlock

  /** A process inside acquiresleep or releasesleep. */
  predicate Busy(pc: Pc) {
    !pc.Elsewhere? && !pc.Holding?
  }

  predicate CanMove(s: State, p: nat)
    requires p < |s.procs|
  {
    var me := s.procs[p];
    if me.pc.Scan? && (me.pc.i == p || me.pc.i >= |s.procs|) then true
    else if me.pc.Scan? || me.pc.Look? || me.pc.Pass? then me.pc.i < |s.procs| && me.pc.i != p && Visit(me, s.procs[me.pc.i], p).Some?
    else Local(s.g, me, p).Some?
  }

  lemma Moves(s: State, p: nat) returns (l: Label, s': State)
    requires p < |s.procs| && CanMove(s, p)
    ensures l.p == p && !l.Outside? && Step(s, l, s') && s'.procs[p].pc != s.procs[p].pc
  {
    var me := s.procs[p];
    if me.pc.Scan? && (me.pc.i == p || me.pc.i >= |s.procs|) {
      l, s' := Skip(p), s.(procs := s.procs[p := me.(pc := if me.pc.i == p then Scan(p + 1) else Leave)]);
    } else if me.pc.Scan? || me.pc.Look? || me.pc.Pass? {
      var r := Visit(me, s.procs[me.pc.i], p).value;
      l, s' := Wake(p, me.pc.i), s.(procs := s.procs[me.pc.i := r.1][p := r.0]);
    } else {
      var r := Local(s.g, me, p).value;
      l, s' := Own(p), State(r.0, s.procs[p := r.1]);
    }
  }

  /** The one who keeps the spinlock busy can go on, or waits for one who can. */
  lemma SpinlockMoves(s: State, r: nat) returns (p: nat)
    requires Inv(s) && s.g.lk == Some(r)
    ensures p < |s.procs| && Busy(s.procs[p].pc) && CanMove(s, p)
  {
    p := r;
    var me := s.procs[r];
    assert HasLk(me.pc) && PlockOf(s, me, r);
    if me.pc.Look? || me.pc.Pass? {
      assert Scanned(s, me.pc.i);
    } else if me.pc.Scan? && me.pc.i < |s.procs| && me.pc.i != r {
      assert PlockOf(s, s.procs[me.pc.i], me.pc.i);
      if HasOwn(s.procs[me.pc.i].pc) {
        p := me.pc.i;
      }
    }
  }

  /** As long as somebody is inside a call and nobody holds the lock, somebody inside gets on. */
  lemma NoDeadlock(ss: seq<State>, ls: seq<Label>, k: nat, q: nat) returns (l: Label, s': State)
    requires Run(ss, ls) && k < |ss| && q < |ss[k].procs| && Busy(ss[k].procs[q].pc)
    requires forall h :: 0 <= h < |ss[k].procs| ==> !ss[k].procs[h].pc.Holding?
    ensures l.p < |ss[k].procs| && Busy(ss[k].procs[l.p].pc) && !l.Outside? && Step(ss[k], l, s')
    ensures |s'.procs| == |ss[k].procs| && s'.procs[l.p].pc != ss[k].procs[l.p].pc
  {
    var p;
    RunKeeps(ss, ls, k);
    var s := ss[k];
    if s.g.lk.Some? {
      p := SpinlockMoves(s, s.g.lk.value);
    } else if s.g.locked {
      p := s.g.owner.value;
      assert OwnerOf(s.g, s.procs[p].pc, p);
    } else {
      p := q;
      assert PlockOf(s, s.procs[q], q) && !Committed(s.procs[q]);
    }
    l, s' := Moves(s, p);
  }

  /** wakeup wakes those asleep on the lock, and no others. */
  lemma WakesOnly(ss: seq<State>, ls: seq<Label>, k: nat, q: nat)
    requires Run(ss, ls) && k < |ls| && q < |ss[k].procs| && q < |ss[k + 1].procs| && !ls[k].Outside?
    requires ss[k].procs[q].state.Sleeping? && !ss[k + 1].procs[q].state.Sleeping?
    ensures ss[k].procs[q].pc.Asleep? && ss[k].procs[q].onLock && ss[k + 1].procs[q] == ss[k].procs[q].(state := Runnable)
    ensures ls[k].Wake? && ls[k].i == q && ss[k].procs[ls[k].p].pc == Look(q)
  {
    RunKeeps(ss, ls, k);
    assert Step(ss[k], ls[k], ss[k + 1]) && PlockOf(ss[k], ss[k].procs[q], q);
  }

  /** A process asleep on the lock stays there until it has been made runnable, and then runs, with
      its own lock held. */
  lemma SleepsUntilWoken(ss: seq<State>, ls: seq<Label>, k: nat, q: nat)
    requires Run(ss, ls) && k < |ls| && q < |ss[k].procs| && q < |ss[k + 1].procs|
    requires ss[k].procs[q].pc.Asleep? && !ss[k + 1].procs[q].pc.Asleep?
    ensures ls[k] == Own(q) && ss[k].procs[q].state.Runnable?
    ensures ss[k + 1].procs[q].pc.Woken? && ss[k + 1].procs[q].state.Running? && ss[k + 1].procs[q].plock == Some(q)
  {
    assert Step(ss[k], ls[k], ss[k + 1]);
  }

  // ----- calls end

  /** A bound on the steps a call at pc still takes among n processes, short of going to sleep. */
  function Rank(pc: Pc, n: nat): nat {
    match pc
    case Enter => 12
    case Test => 11
    case Commit => 10
    case Hand => 9
    case SetChan => 8
    case SetState => 7
    case Switch => 6
    case Asleep => 5
    case Woken => 4
    case Tidy => 3
    case Return => 2
    case Set => 3
    case SetPid => 2
    case Unlock => 1
    case Drop => 3 * n + 5
    case Clear => 3 * n + 4
    case ClearPid => 3 * n + 3
    case Scan(i) => if i < n then 3 * (n - i) + 2 else 2
    case Look(i) => if i < n then 3 * (n - i) + 1 else 2
    case Pass(i) => if i < n then 3 * (n - i) else 2
    case Leave => 1
    case _ => 0
  }

  /** A step at which p itself moves on. */
  predicate Turn(l: Label, p: nat) {
    !l.Outside? && l.p == p
  }

  lemma LocalRanks(g: Lock, me: Proc, p: nat, n: nat, g': Lock, me': Proc)
    requires Local(g, me, p) == Some((g', me'))
    ensures Rank(me'.pc, n) < Rank(me.pc, n) || me.pc.Elsewhere? || me.pc.Holding? || me.pc.Return?
  {
  }

  lemma VisitRanks(me: Proc, you: Proc, p: nat, n: nat, me': Proc, you': Proc)
    requires (me.pc.Scan? || me.pc.Look? || me.pc.Pass?) && me.pc.i < n && Visit(me, you, p) == Some((me', you'))
    ensures Rank(me'.pc, n) < Rank(me.pc, n) && you'.pc == you.pc
  {
  }

  lemma SkipRanks(i: nat, n: nat)
    ensures Rank(Leave, n) < Rank(Scan(i), n) && (i < n ==> Rank(Scan(i + 1), n) < Rank(Scan(i), n))
  {
  }

  /** Every turn of a process inside a call brings it nearer to the end of the call, except the one
      by which acquiresleep tests again after it has slept; and nobody else's step moves it. */
  lemma TurnsCount(s: State, l: Label, s': State, p: nat)
    requires Step(s, l, s') && p < |s.procs| && Busy(s.procs[p].pc)
    ensures |s'.procs| == |s.procs|
    ensures if Turn(l, p) then s.procs[p].pc.Return? || Rank(s'.procs[p].pc, |s.procs|) < Rank(s.procs[p].pc, |s.procs|)
            else s'.procs[p].pc == s.procs[p].pc
  {
    hide Rank, Local, Visit;
    match l
    case Own(q) => LocalRanks(s.g, s.procs[q], q, |s.procs|, s'.g, s'.procs[q]);
    case Wake(q, i) => VisitRanks(s.procs[q], s.procs[i], q, |s.procs|, s'.procs[q], s'.procs[i]);
    case Skip(q) => SkipRanks(s.procs[q].pc.i, |s.procs|);
    case _ =>
  }

  function Turns(ls: seq<Label>, p: nat): nat {
    if ls == [] then 0 else Turns(ls[..|ls| - 1], p) + if Turn(ls[|ls| - 1], p) then 1 else 0
  }

  /** No call goes round for ever: from any point inside one, the caller has only Rank turns before
      it is out of the call or, in acquiresleep, back from sleep. */
  lemma {:induction false} CallsEnd(ss: seq<State>, ls: seq<Label>, j: nat, k: nat, p: nat)
    requires Run(ss, ls) && j <= k <= |ls| && p < |ss[j].procs|
    requires forall m :: j <= m < k ==> p < |ss[m].procs| && Busy(ss[m].procs[p].pc) && !ss[m].procs[p].pc.Return?
    ensures |ss[k].procs| == |ss[j].procs|
    ensures Turns(ls[j..k], p) + Rank(ss[k].procs[p].pc, |ss[j].procs|) <= Rank(ss[j].procs[p].pc, |ss[j].procs|)
  {
    hide Rank, Step, Init;
    if k > j {
      CallsEnd(ss, ls, j, k - 1, p);
      TurnsCount(ss[k - 1], ls[k - 1], ss[k], p);
      assert ls[j..k][..k - j - 1] == ls[j..k - 1];
    }
  }
}
