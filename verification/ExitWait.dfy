/** fork, exit and wait over sleep, wakeup and kill, as a transition system.  A section of code
    under one process's lock that touches nothing else is one step; so is an access to wait_lock. */
module ExitWait {
  import opened Basics

  datatype ProcState = Unused | Used | Sleeping | Runnable | Running | Zombie

  /** Where a process is.  Slots without a thread are Free, Dead after exit, or Embryo(maker) while
      process maker is inside fork for them. */
  datatype Pc =
    | Free | Dead | Embryo(maker: nat) | User
    // fork: np's lock held; released; wait_lock held, parent unset; set; wait_lock released; np's
    // lock held again; and the parent's priority copied
    | Forking(np: nat) | Forked(np: nat) | Adopt(np: nat) | Adopted(np: nat) | Publish(np: nat) | Inherit(np: nat) | Launch(np: nat)
    // exit: Sweep is reparent at entry i; Rouse is wakeup(chan) at entry j, to go on with the sweep
    // at a given entry or, after wakeup(p->parent), with the end of exit
    | Exiting | Sweep(i: nat) | Rouse(chan: Option<nat>, j: nat, sweep: Option<nat>) | Notify
    | Bury | Dying | Gone | Leaving
    // wait: Look is the scan at entry i; Doze..Rewait are sleep(p, &wait_lock)
    | Waiting | Look(i: nat, haveKids: bool) | Return
    | Doze | Handoff | Fall | Asleep | Woken | Rewait

  /** chan is the process slept on, None for 0 and for all other channels. */
  datatype Proc = Proc(pc: Pc, state: ProcState, parent: Option<nat>, chan: Option<nat>, killed: bool, plock: Option<nat>)

  datatype State = State(waitLock: Option<nat>, procs: seq<Proc>)

  /** initproc */
  const INIT := 0

  /** freeproc, and the release after it. */
  function Freed(): Proc {
    Proc(Free, Unused, None, None, false, None)
  }

  /** A step of process p on wait_lock and on its own entry, among n entries; None while it waits. */
  function Local(wl: Option<nat>, me: Proc, p: nat, n: nat): Option<(Option<nat>, Proc)> {
    match me.pc
    case Forked(np) => if wl.None? then Some((Some(p), me.(pc := Adopt(np)))) else None
    case Adopted(np) => Some((None, me.(pc := Publish(np))))
    case Exiting => if wl.None? then Some((Some(p), me.(pc := Sweep(0)))) else None
    case Sweep(i) =>
      if i >= n then Some((wl, me.(pc := Notify)))
      else if i != p then None
      else if me.parent == Some(p) then Some((wl, me.(parent := Some(INIT), pc := Rouse(Some(INIT), 0, Some(i + 1)))))
      else Some((wl, me.(pc := Sweep(i + 1))))
    case Rouse(chan, j, sweep) =>
      if j >= n then Some((wl, me.(pc := if sweep.Some? then Sweep(sweep.value) else Bury)))
      else if j == p then Some((wl, me.(pc := Rouse(chan, j + 1, sweep))))
      else None
    case Notify => Some((wl, me.(pc := Rouse(me.parent, 0, None))))
    case Bury => if me.plock.None? then Some((wl, me.(pc := Dying, plock := Some(p)))) else None
    case Dying => Some((wl, me.(pc := Gone, state := Zombie)))
    case Gone => Some((None, me.(pc := Leaving)))
    case Leaving => Some((wl, me.(pc := Dead, plock := None)))
    case Waiting => if wl.None? then Some((Some(p), me.(pc := Look(0, false)))) else None
    case Look(i, haveKids) =>
      if i >= n then
        if !haveKids then Some((wl, me.(pc := Return)))
        else if me.plock.Some? then None
        else Some((wl, me.(pc := if me.killed then Return else Doze)))
      else if i == p then Some((wl, me.(pc := Look(i + 1, haveKids || me.parent == Some(p)))))
      else None
    case Return => Some((None, me.(pc := User)))
    case Doze => if me.plock.None? then Some((wl, me.(pc := Handoff, plock := Some(p)))) else None
    case Handoff => Some((None, me.(pc := Fall)))
    case Fall => Some((wl, me.(pc := Asleep, chan := Some(p), state := Sleeping, plock := None)))
    case Asleep =>
      if me.plock.None? && me.state.Runnable? then Some((wl, me.(pc := Woken, state := Running, plock := Some(p)))) else None
    case Woken => Some((wl, me.(pc := Rewait, chan := None, plock := None)))
    case Rewait => if wl.None? then Some((Some(p), me.(pc := Look(0, false)))) else None
    case _ => None
  }

  /** The entry a step of p works on, other than its own; fork may take any free one. */
  predicate Aims(pc: Pc, i: nat) {
    match pc
    case User => true
    case Forking(np) => np == i
    case Adopt(np) => np == i
    case Publish(np) => np == i
    case Inherit(np) => np == i
    case Launch(np) => np == i
    case Sweep(k) => k == i
    case Rouse(_, j, _) => j == i
    case Look(k, _) => k == i
    case _ => false
  }

  /** A step of process p at entry i != p; ok says whether copying memory or to the user succeeds. */
  function Visit(me: Proc, you: Proc, p: nat, i: nat, ok: bool): Option<(Proc, Proc)> {
    match me.pc
    case User =>
      if you.state.Unused? && you.plock.None? then Some((me.(pc := Forking(i)), you.(pc := Embryo(p), state := Used, plock := Some(p)))) else None
    case Forking(np) => Some(if ok then (me.(pc := Forked(np)), you.(plock := None)) else (me.(pc := User), Freed()))
    case Adopt(np) => Some((me.(pc := Adopted(np)), you.(parent := Some(p))))
    case Publish(np) => if you.plock.None? then Some((me.(pc := Inherit(np)), you.(plock := Some(p)))) else None
    case Inherit(np) => if you.parent == Some(p) && me.plock.None? then Some((me.(pc := Launch(np)), you)) else None
    case Launch(np) => Some((me.(pc := User), you.(pc := User, state := Runnable, plock := None)))
    case Sweep(k) =>
      Some(if you.parent == Some(p) then (me.(pc := Rouse(Some(INIT), 0, Some(k + 1))), you.(parent := Some(INIT)))
           else (me.(pc := Sweep(k + 1)), you))
    case Rouse(chan, j, sweep) =>
      if you.plock.Some? then None
      else Some((me.(pc := Rouse(chan, j + 1, sweep)),
                 if you.state.Sleeping? && chan.Some? && you.chan == chan then you.(state := Runnable) else you))
    case Look(k, haveKids) =>
      if you.parent != Some(p) then Some((me.(pc := Look(k + 1, haveKids)), you))
      else if you.plock.Some? then None
      else if !ok then Some((me.(pc := Return), you))
      else if you.state.Zombie? then Some((me.(pc := Return), Freed()))
      else Some((me.(pc := Look(k + 1, true)), you))
    case _ => None
  }

  ghost predicate SameBut(s: State, s': State, p: nat, i: nat) {
    && |s'.procs| == |s.procs|
    && forall q :: 0 <= q < |s.procs| && q != p && q != i ==> s'.procs[q] == s.procs[q]
  }

  ghost predicate LocalStep(s: State, p: nat, s': State) {
    p < |s.procs| && SameBut(s, s', p, p) && Local(s.waitLock, s.procs[p], p, |s.procs|) == Some((s'.waitLock, s'.procs[p]))
  }

  ghost predicate VisitStep(s: State, p: nat, i: nat, ok: bool, s': State) {
    p < |s.procs| && i < |s.procs| && i != p && SameBut(s, s', p, i) && s'.waitLock == s.waitLock && Aims(s.procs[p].pc, i)
    && Visit(s.procs[p], s.procs[i], p, i, ok) == Some((s'.procs[p], s'.procs[i]))
  }

  /** A call of exit, which panics in initproc, or of wait. */
  ghost predicate CallStep(s: State, p: nat, pc: Pc, s': State) {
    p < |s.procs| && SameBut(s, s', p, p) && s'.waitLock == s.waitLock && s.procs[p].pc.User?
    && s'.procs[p] == s.procs[p].(pc := pc) && ((pc.Exiting? && p != INIT) || pc.Waiting?)
  }

  /** kill; or a process with other business, which may sleep and wake on other channels. */
  ghost predicate OutsideStep(s: State, p: nat, s': State) {
    p < |s.procs| && SameBut(s, s', p, p) && s'.waitLock == s.waitLock && s.procs[p].plock.None?
    && var me, me' := s.procs[p], s'.procs[p];
    || me' == me.(killed := true, state := if me.state.Sleeping? then Runnable else me.state)
    || (me.pc.User? && me' == me.(state := me'.state) && (me'.state.Sleeping? || me'.state.Runnable? || me'.state.Running?))
  }

  datatype Label = Own(p: nat) | At(p: nat, i: nat, ok: bool) | Call(p: nat, pc: Pc) | Outside(p: nat)

  ghost predicate Step(s: State, l: Label, s': State) {
    match l
    case Own(p) => LocalStep(s, p, s')
    case At(p, i, ok) => VisitStep(s, p, i, ok, s')
    case Call(p, pc) => CallStep(s, p, pc, s')
    case Outside(p) => OutsideStep(s, p, s')
  }

  /** After userinit: the first process, and free entries. */
  ghost predicate Init(s: State) {
    && s.waitLock.None? && |s.procs| > INIT && s.procs[INIT] == Proc(User, Runnable, None, None, false, None)
    && forall q :: 0 <= q < |s.procs| && q != INIT ==> s.procs[q] == Freed()
  }

  ghost predicate Run(ss: seq<State>, ls: seq<Label>) {
    |ss| == |ls| + 1 && Init(ss[0]) && forall k :: 0 <= k < |ls| ==> Step(ss[k], ls[k], ss[k + 1])
  }

  // ----- wait_lock

  predicate HasWl(pc: Pc) {
    pc.Adopt? || pc.Adopted? || pc.Sweep? || pc.Rouse? || pc.Notify? || pc.Bury? || pc.Dying? || pc.Gone?
    || pc.Look? || pc.Return? || pc.Doze? || pc.Handoff?
  }

  ghost predicate WlOk(s: State) {
    && (s.waitLock.Some? ==> s.waitLock.value < |s.procs|)
    && forall p :: 0 <= p < |s.procs| ==> (HasWl(s.procs[p].pc) <==> s.waitLock == Some(p))
  }

  // ----- the process locks, and who is being forked

  predicate HasOwn(pc: Pc) {
    pc.Handoff? || pc.Fall? || pc.Woken? || pc.Dying? || pc.Gone? || pc.Leaving?
  }

  /** Inside fork for entry np. */
  predicate Forks(pc: Pc) {
    pc.Forking? || pc.Forked? || pc.Adopt? || pc.Adopted? || pc.Publish? || pc.Inherit? || pc.Launch?
  }

  predicate HoldsChild(pc: Pc) {
    pc.Forking? || pc.Inherit? || pc.Launch?
  }

  /** State, channel and own lock agree with where the process is. */
  predicate StateOk(me: Proc, p: nat) {
    && (me.state.Unused? <==> me.pc.Free?) && (me.state.Used? <==> me.pc.Embryo?)
    && (me.state.Zombie? <==> me.pc.Gone? || me.pc.Leaving? || me.pc.Dead?)
    && (me.pc.Asleep? ==> me.state.Sleeping? || me.state.Runnable?)
    && (me.chan == (if me.pc.Asleep? || me.pc.Woken? then Some(p) else None))
    && (HasOwn(me.pc) ==> me.plock == Some(p))
  }

  /** Whoever runs has a parent, except initproc, which never exits. */
  predicate BondOk(me: Proc, p: nat) {
    && (me.pc.Free? ==> me.parent.None?) && RouseOk(me)
    && (p == INIT ==> me.parent.None? && !Exits(me.pc) && !me.pc.Free? && !me.pc.Embryo?)
    && (p != INIT && !me.pc.Free? && !me.pc.Embryo? ==> me.parent.Some?)
  }

  predicate SelfOk(me: Proc, p: nat) {
    StateOk(me, p) && BondOk(me, p)
  }

  predicate Exits(pc: Pc) {
    pc.Exiting? || pc.Sweep? || pc.Rouse? || pc.Notify? || pc.Bury? || pc.Dying? || pc.Gone? || pc.Leaving? || pc.Dead?
  }

  ghost predicate SelvesOk(s: State) {
    forall p :: 0 <= p < |s.procs| ==> SelfOk(s.procs[p], p)
  }

  /** A forker's child is its embryo, locked by it where the code holds the lock, with the parent
      set exactly after Adopt. */
  predicate ChildOk(pc: Pc, you: Proc, p: nat)
    requires Forks(pc)
  {
    && you.pc == Embryo(p) && (HoldsChild(pc) ==> you.plock == Some(p))
    && (you.parent == if pc.Forking? || pc.Forked? || pc.Adopt? then None else Some(p))
  }

  ghost predicate ForkOk(s: State) {
    forall p :: 0 <= p < |s.procs| && Forks(s.procs[p].pc) ==>
      p != s.procs[p].pc.np < |s.procs| && ChildOk(s.procs[p].pc, s.procs[s.procs[p].pc.np], p)
  }

  // ----- parents and children

  /** wakeup's channel: initproc from reparent, and the parent at the end of exit. */
  predicate RouseOk(me: Proc) {
    me.pc.Rouse? ==> me.pc.chan == if me.pc.sweep.Some? then Some(INIT) else me.parent
  }

  /** Entries below this one have no longer r as parent, once r, at pc, is leaving. */
  function Swept(pc: Pc, n: nat): nat {
    if pc.Sweep? then pc.i
    else if pc.Rouse? && pc.sweep.Some? then pc.sweep.value
    else if (Exits(pc) && !pc.Exiting?) || pc.Free? || pc.Embryo? then n
    else 0
  }

  /** Entries below this one are no zombie children of a process in wait, at pc. */
  function Checked(pc: Pc, n: nat): nat {
    if pc.Look? then pc.i else if pc.Doze? || pc.Handoff? then n else 0
  }

  /** Asleep in wait, or past releasing wait_lock on the way there. */
  predicate Committed(me: Proc) {
    me.pc.Fall? || (me.pc.Asleep? && me.state.Sleeping?)
  }

  /** exit has woken its parent r. */
  predicate Told(pc: Pc, r: nat) {
    pc.Bury? || pc.Dying? || (pc.Rouse? && pc.sweep.None? && pc.j > r)
  }

  /** A child q and the scans of its parent r. */
  predicate Scans(child: Proc, parent: Proc, q: nat, r: nat, n: nat) {
    && q != r && Swept(parent.pc, n) <= q
    && (parent.pc.Look? && !parent.pc.haveKids ==> parent.pc.i <= q)
    && (child.state.Zombie? ==> Checked(parent.pc, n) <= q)
  }

  /** A child and the sleep of its parent r.  rousing: a wakeup(initproc) under wait_lock is still
      to reach initproc. */
  predicate Sleeps(child: Proc, parent: Proc, r: nat, rousing: bool) {
    && (child.state.Zombie? && Committed(parent) ==> r == INIT && rousing)
    && (Told(child.pc, r) ==> !Committed(parent))
  }

  predicate Family(child: Proc, parent: Proc, q: nat, r: nat, n: nat, rousing: bool) {
    Scans(child, parent, q, r, n) && Sleeps(child, parent, r, rousing)
  }

  predicate RousesInit(pc: Pc) {
    pc.Rouse? && pc.chan == Some(INIT) && pc.j <= INIT
  }

  predicate Rousing(s: State) {
    s.waitLock.Some? && s.waitLock.value < |s.procs| && RousesInit(s.procs[s.waitLock.value].pc)
  }

  predicate ParentOf(s: State, q: nat)
    requires q < |s.procs|
  {
    s.procs[q].parent.Some? ==>
      var r := s.procs[q].parent.value;
      r < |s.procs| && Family(s.procs[q], s.procs[r], q, r, |s.procs|, Rousing(s))
  }

  ghost predicate FamiliesOk(s: State) {
    forall q :: 0 <= q < |s.procs| ==> ParentOf(s, q)
  }

  ghost predicate Inv(s: State) {
    |s.procs| > INIT && WlOk(s) && SelvesOk(s) && ForkOk(s) && FamiliesOk(s)
  }

  // ----- steps on the own entry keep it

  lemma LocalWl(s: State, p: nat, s': State)
    requires WlOk(s) && LocalStep(s, p, s')
    ensures WlOk(s')
  {
    assert HasWl(s.procs[p].pc) <==> s.waitLock == Some(p);
    assert HasWl(s'.procs[p].pc) <==> s'.waitLock == Some(p);
    assert forall q :: 0 <= q < |s.procs| && q != p ==> (s'.waitLock == Some(q) <==> s.waitLock == Some(q));
  }

  /** What Local does to the process itself. */
  lemma LocalMe(wl: Option<nat>, me: Proc, p: nat, n: nat, wl': Option<nat>, me': Proc)
    requires Local(wl, me, p, n) == Some((wl', me')) && SelfOk(me, p) && me.parent != Some(p)
    ensures SelfOk(me', p) && me'.parent == me.parent
  {
    hide StateOk, BondOk;
    LocalState(wl, me, p, n, wl', me');
    LocalBond(wl, me, p, n, wl', me');
  }

  lemma LocalState(wl: Option<nat>, me: Proc, p: nat, n: nat, wl': Option<nat>, me': Proc)
    requires Local(wl, me, p, n) == Some((wl', me')) && StateOk(me, p)
    ensures StateOk(me', p)
  {
    if Exits(me.pc) {
      hide Local, StateOk;
      ExitState(wl, me, p, n, wl', me');
    }
  }

  lemma ExitState(wl: Option<nat>, me: Proc, p: nat, n: nat, wl': Option<nat>, me': Proc)
    requires Local(wl, me, p, n) == Some((wl', me')) && StateOk(me, p) && Exits(me.pc)
    ensures StateOk(me', p)
  {
  }

  lemma LocalBond(wl: Option<nat>, me: Proc, p: nat, n: nat, wl': Option<nat>, me': Proc)
    requires Local(wl, me, p, n) == Some((wl', me')) && BondOk(me, p) && me.parent != Some(p)
    ensures BondOk(me', p) && me'.parent == me.parent
  {
  }

  lemma LocalForks(wl: Option<nat>, me: Proc, p: nat, n: nat, wl': Option<nat>, me': Proc)
    requires Local(wl, me, p, n) == Some((wl', me'))
    ensures Forks(me'.pc) ==> Forks(me.pc) && me'.pc.np == me.pc.np && ((me.pc.Forked? && me'.pc.Adopt?) || (me.pc.Adopted? && me'.pc.Publish?))
  {
  }

  lemma LocalSelf(s: State, p: nat, s': State)
    requires SelvesOk(s) && FamiliesOk(s) && LocalStep(s, p, s')
    ensures SelvesOk(s') && s'.procs[p].parent == s.procs[p].parent
  {
    assert SelfOk(s.procs[p], p) && ParentOf(s, p);
    LocalMe(s.waitLock, s.procs[p], p, |s.procs|, s'.waitLock, s'.procs[p]);
  }

  lemma LocalFork(s: State, p: nat, s': State)
    requires ForkOk(s) && LocalStep(s, p, s')
    ensures ForkOk(s')
  {
    LocalForks(s.waitLock, s.procs[p], p, |s.procs|, s'.waitLock, s'.procs[p]);
    assert !s.procs[p].pc.Embryo?;
  }

  lemma LocalChild(wl: Option<nat>, me: Proc, p: nat, n: nat, wl': Option<nat>, me': Proc, parent: Proc, r: nat, rousing: bool)
    requires Local(wl, me, p, n) == Some((wl', me')) && SelfOk(me, p) && r < n
    requires HasWl(me.pc) ==> !HasWl(parent.pc)
    requires Family(me, parent, p, r, n, rousing)
    ensures Family(me', parent, p, r, n, rousing)
  {
  }

  lemma LocalScans(wl: Option<nat>, me: Proc, p: nat, n: nat, wl': Option<nat>, me': Proc, child: Proc, q: nat)
    requires Local(wl, me, p, n) == Some((wl', me')) && q < n && Scans(child, me, q, p, n)
    ensures Scans(child, me', q, p, n)
  {
  }

  lemma LocalSleeps(wl: Option<nat>, me: Proc, p: nat, n: nat, wl': Option<nat>, me': Proc, child: Proc, q: nat, rousing: bool)
    requires Local(wl, me, p, n) == Some((wl', me')) && q < n && SelfOk(me, p)
    requires HasWl(me.pc) ==> !HasWl(child.pc)
    requires Scans(child, me, q, p, n) && Sleeps(child, me, p, rousing)
    ensures Sleeps(child, me', p, rousing)
  {
  }

  /** A wakeup(initproc) that has not reached initproc goes on by a step at initproc. */
  lemma LocalRousing(s: State, p: nat, s': State)
    requires WlOk(s) && SelvesOk(s) && LocalStep(s, p, s') && Rousing(s) && |s.procs| > INIT
    ensures Rousing(s')
  {
    assert SelfOk(s.procs[p], p);
    assert s.waitLock.value != p;
  }

  lemma LocalFamilies(s: State, p: nat, s': State)
    requires Inv(s) && LocalStep(s, p, s')
    ensures FamiliesOk(s')
  {
    LocalSelf(s, p, s');
    var n := |s.procs|;
    assert Rousing(s) ==> Rousing(s') by {
      if Rousing(s) { LocalRousing(s, p, s'); }
    }
    forall q | 0 <= q < n
      ensures ParentOf(s', q)
    {
      assert ParentOf(s, q);
      if s.procs[q].parent.Some? {
        var r := s.procs[q].parent.value;
        if q == p {
          LocalChild(s.waitLock, s.procs[p], p, n, s'.waitLock, s'.procs[p], s.procs[r], r, Rousing(s));
        } else if r == p {
          LocalScans(s.waitLock, s.procs[p], p, n, s'.waitLock, s'.procs[p], s.procs[q], q);
          LocalSleeps(s.waitLock, s.procs[p], p, n, s'.waitLock, s'.procs[p], s.procs[q], q, Rousing(s));
        }
      }
    }
  }

  // ----- steps at another entry keep it

  lemma VisitWl(s: State, p: nat, i: nat, ok: bool, s': State)
    requires WlOk(s) && SelvesOk(s) && ForkOk(s) && VisitStep(s, p, i, ok, s')
    ensures WlOk(s')
  {
    hide Visit;
    assert SelfOk(s.procs[i], i);
    VisitHasWl(s.procs[p], s.procs[i], p, i, ok, s'.procs[p], s'.procs[i]);
  }

  lemma VisitHasWl(me: Proc, you: Proc, p: nat, i: nat, ok: bool, me': Proc, you': Proc)
    requires Visit(me, you, p, i, ok) == Some((me', you')) && SelfOk(you, i) && Aims(me.pc, i) && (Forks(me.pc) ==> ChildOk(me.pc, you, p))
    ensures HasWl(me'.pc) == HasWl(me.pc) && HasWl(you'.pc) == HasWl(you.pc)
  {
  }

  lemma VisitSelf(s: State, p: nat, i: nat, ok: bool, s': State)
    requires WlOk(s) && SelvesOk(s) && ForkOk(s) && VisitStep(s, p, i, ok, s')
    ensures SelvesOk(s')
  {
    VisitMe(s.procs[p], s.procs[i], p, i, ok, s'.procs[p], s'.procs[i]);
    VisitYou(s.procs[p], s.procs[i], p, i, ok, s'.procs[p], s'.procs[i]);
  }

  lemma VisitMe(me: Proc, you: Proc, p: nat, i: nat, ok: bool, me': Proc, you': Proc)
    requires Visit(me, you, p, i, ok) == Some((me', you')) && SelfOk(me, p)
    ensures SelfOk(me', p) && me'.parent == me.parent && me'.state == me.state
  {
    hide StateOk, BondOk;
    VisitMyState(me, you, p, i, ok, me', you');
    VisitMyBond(me, you, p, i, ok, me', you');
  }

  lemma VisitMyState(me: Proc, you: Proc, p: nat, i: nat, ok: bool, me': Proc, you': Proc)
    requires Visit(me, you, p, i, ok) == Some((me', you')) && StateOk(me, p)
    ensures StateOk(me', p) && me'.state == me.state
  {
  }

  lemma VisitMyBond(me: Proc, you: Proc, p: nat, i: nat, ok: bool, me': Proc, you': Proc)
    requires Visit(me, you, p, i, ok) == Some((me', you')) && BondOk(me, p)
    ensures BondOk(me', p) && me'.parent == me.parent
  {
  }

  lemma VisitYou(me: Proc, you: Proc, p: nat, i: nat, ok: bool, me': Proc, you': Proc)
    requires Visit(me, you, p, i, ok) == Some((me', you')) && Aims(me.pc, i) && SelfOk(me, p) && SelfOk(you, i)
    requires (Forks(me.pc) ==> ChildOk(me.pc, you, p)) && (HasWl(me.pc) ==> !HasWl(you.pc))
    ensures SelfOk(you', i)
  {
  }

  /** Nobody touches another process's embryo. */
  lemma VisitEmbryo(me: Proc, you: Proc, p: nat, i: nat, ok: bool, me': Proc, you': Proc, f: nat, pc: Pc)
    requires Visit(me, you, p, i, ok) == Some((me', you')) && SelfOk(you, i)
    requires Forks(pc) && ChildOk(pc, you, f) && f != p && (Forks(me.pc) ==> ChildOk(me.pc, you, p))
    ensures you' == you
  {
  }

  lemma VisitOwnEmbryo(me: Proc, you: Proc, p: nat, i: nat, ok: bool, me': Proc, you': Proc)
    requires Visit(me, you, p, i, ok) == Some((me', you')) && Aims(me.pc, i) && SelfOk(you, i)
    requires Forks(me.pc) ==> ChildOk(me.pc, you, p)
    ensures !me'.pc.Embryo? && (Forks(me'.pc) ==> me'.pc.np == i && ChildOk(me'.pc, you', p))
  {
  }

  lemma VisitFork(s: State, p: nat, i: nat, ok: bool, s': State)
    requires SelvesOk(s) && ForkOk(s) && VisitStep(s, p, i, ok, s')
    ensures ForkOk(s')
  {
    assert SelfOk(s.procs[i], i) && SelfOk(s.procs[p], p);
    assert !s.procs[p].pc.Embryo?;
    assert Forks(s.procs[p].pc) ==> s.procs[p].pc.np == i;
    VisitOwnEmbryo(s.procs[p], s.procs[i], p, i, ok, s'.procs[p], s'.procs[i]);
    forall f | 0 <= f < |s.procs| && Forks(s'.procs[f].pc)
      ensures f != s'.procs[f].pc.np < |s.procs| && ChildOk(s'.procs[f].pc, s'.procs[s'.procs[f].pc.np], f)
    {
      if f != p && f != i && s.procs[f].pc.np == i {
        VisitEmbryo(s.procs[p], s.procs[i], p, i, ok, s'.procs[p], s'.procs[i], f, s.procs[f].pc);
      }
    }
  }

  /** me is the child. */
  lemma VisitAsChild(me: Proc, you: Proc, p: nat, i: nat, ok: bool, me': Proc, you': Proc, parent: Proc, r: nat, n: nat, rousing: bool)
    requires Visit(me, you, p, i, ok) == Some((me', you')) && Aims(me.pc, i) && SelfOk(me, p) && r != i
    requires Family(me, parent, p, r, n, rousing)
    ensures Family(me', parent, p, r, n, rousing)
  {
  }

  /** me is the child of the entry it visits. */
  lemma VisitMyParent(me: Proc, you: Proc, p: nat, i: nat, ok: bool, me': Proc, you': Proc, n: nat, rousing: bool)
    requires Visit(me, you, p, i, ok) == Some((me', you')) && Aims(me.pc, i) && SelfOk(me, p) && SelfOk(you, i) && i < n
    requires me.parent == Some(i) && Family(me, you, p, i, n, rousing)
    requires Forks(me.pc) ==> ChildOk(me.pc, you, p)
    ensures Family(me', you', p, i, n, rousing)
  {
  }

  /** me is the parent of another entry. */
  lemma VisitAsParent(me: Proc, you: Proc, p: nat, i: nat, ok: bool, me': Proc, you': Proc, child: Proc, q: nat, n: nat, rousing: bool)
    requires Visit(me, you, p, i, ok) == Some((me', you')) && Aims(me.pc, i) && q != i
    requires Family(child, me, q, p, n, rousing)
    ensures Family(child, me', q, p, n, rousing)
  {
  }

  /** me is, or becomes, the parent of the entry it visits. */
  lemma VisitMyChild(me: Proc, you: Proc, p: nat, i: nat, ok: bool, me': Proc, you': Proc, n: nat, rousing: bool)
    requires Visit(me, you, p, i, ok) == Some((me', you')) && Aims(me.pc, i) && SelfOk(me, p) && i != p && i < n
    requires Forks(me.pc) ==> ChildOk(me.pc, you, p)
    requires you.parent == Some(p) ==> Family(you, me, i, p, n, rousing)
    requires you'.parent == Some(p)
    ensures Family(you', me', i, p, n, rousing)
  {
  }

  /** The visited entry is a parent. */
  lemma VisitedParent(me: Proc, you: Proc, p: nat, i: nat, ok: bool, me': Proc, you': Proc, child: Proc, q: nat, n: nat, rousing: bool, rousing': bool)
    requires Visit(me, you, p, i, ok) == Some((me', you')) && Aims(me.pc, i) && SelfOk(you, i) && q < n
    requires Forks(me.pc) ==> ChildOk(me.pc, you, p)
    requires Family(child, you, q, i, n, rousing)
    requires rousing ==> rousing' || (i == INIT && RousesInit(me.pc))
    ensures Family(child, you', q, i, n, rousing')
  {
  }

  /** The visited entry is a child of a third one. */
  lemma VisitedChild(me: Proc, you: Proc, p: nat, i: nat, ok: bool, me': Proc, you': Proc, parent: Proc, r: nat, n: nat, rousing: bool)
    requires Visit(me, you, p, i, ok) == Some((me', you')) && SelfOk(you, i) && r != p
    requires (Forks(me.pc) ==> ChildOk(me.pc, you, p)) && you'.parent == Some(r)
    requires you.parent == Some(r) ==> Family(you, parent, i, r, n, rousing)
    requires you.parent != Some(r) ==> r == INIT && SelfOk(parent, INIT) && !HasWl(parent.pc) && !HasWl(you.pc) && i != INIT
    ensures Family(you', parent, i, r, n, rousing || RousesInit(me'.pc))
  {
  }

  /** Where a visited entry can get its parent from. */
  lemma VisitParent(me: Proc, you: Proc, p: nat, i: nat, ok: bool, me': Proc, you': Proc)
    requires Visit(me, you, p, i, ok) == Some((me', you')) && SelfOk(you, i)
    requires Forks(me.pc) ==> ChildOk(me.pc, you, p)
    ensures you'.parent.Some? ==> you'.parent == you.parent || you'.parent == Some(p) || (you'.parent == Some(INIT) && you.parent == Some(p) && me.pc.Sweep?)
    ensures you'.parent.Some? && you'.parent != you.parent && you'.parent != Some(p) ==> RousesInit(me'.pc)
    ensures HasWl(you.pc) ==> you'.pc == you.pc
  {
  }

  lemma VisitRousing(s: State, p: nat, i: nat, ok: bool, s': State)
    requires WlOk(s) && SelvesOk(s) && ForkOk(s) && VisitStep(s, p, i, ok, s') && Rousing(s)
    ensures Rousing(s') || (i == INIT && RousesInit(s.procs[p].pc))
  {
    assert SelfOk(s.procs[i], i);
    VisitParent(s.procs[p], s.procs[i], p, i, ok, s'.procs[p], s'.procs[i]);
    assert HasWl(s.procs[s.waitLock.value].pc);
  }

  lemma VisitPair(s: State, p: nat, i: nat, ok: bool, s': State, q: nat, r: nat)
    requires Inv(s) && VisitStep(s, p, i, ok, s') && q < |s.procs| && s'.procs[q].parent == Some(r) && q != i
    ensures r < |s.procs| && Family(s'.procs[q], s'.procs[r], q, r, |s.procs|, Rousing(s'))
  {
    var n, me, you, me', you' := |s.procs|, s.procs[p], s.procs[i], s'.procs[p], s'.procs[i];
    assert SelfOk(me, p) && SelfOk(you, i) && ParentOf(s, q);
    VisitMe(me, you, p, i, ok, me', you');
    if Rousing(s) { VisitRousing(s, p, i, ok, s'); }
    if q == p {
      if r == i {
        VisitMyParent(me, you, p, i, ok, me', you', n, Rousing(s));
      } else {
        VisitAsChild(me, you, p, i, ok, me', you', s.procs[r], r, n, Rousing(s));
      }
    } else if r == p {
      VisitAsParent(me, you, p, i, ok, me', you', s.procs[q], q, n, Rousing(s));
    } else if r == i {
      VisitedParent(me, you, p, i, ok, me', you', s.procs[q], q, n, Rousing(s), Rousing(s'));
    }
  }

  lemma VisitPairAt(s: State, p: nat, i: nat, ok: bool, s': State, r: nat)
    requires Inv(s) && VisitStep(s, p, i, ok, s') && s'.procs[i].parent == Some(r)
    ensures r < |s.procs| && Family(s'.procs[i], s'.procs[r], i, r, |s.procs|, Rousing(s'))
  {
    var n, me, you, me', you' := |s.procs|, s.procs[p], s.procs[i], s'.procs[p], s'.procs[i];
    assert SelfOk(me, p) && SelfOk(you, i) && SelfOk(s.procs[INIT], INIT) && ParentOf(s, i);
    VisitParent(me, you, p, i, ok, me', you');
    if Rousing(s) { VisitRousing(s, p, i, ok, s'); }
    if r == p {
      VisitMyChild(me, you, p, i, ok, me', you', n, Rousing(s));
    } else {
      VisitedChild(me, you, p, i, ok, me', you', s.procs[r], r, n, Rousing(s));
      assert RousesInit(me'.pc) ==> s.waitLock == Some(p);
    }
  }

  lemma VisitFamilies(s: State, p: nat, i: nat, ok: bool, s': State)
    requires Inv(s) && VisitStep(s, p, i, ok, s')
    ensures FamiliesOk(s')
  {
    forall q | 0 <= q < |s.procs|
      ensures ParentOf(s', q)
    {
      if s'.procs[q].parent.Some? {
        if q == i {
          VisitPairAt(s, p, i, ok, s', s'.procs[i].parent.value);
        } else {
          VisitPair(s, p, i, ok, s', q, s'.procs[q].parent.value);
        }
      }
    }
  }

  // ----- calls, kill and other business

  lemma CallFamilies(s: State, p: nat, pc: Pc, s': State)
    requires WlOk(s) && FamiliesOk(s) && CallStep(s, p, pc, s')
    ensures FamiliesOk(s')
  {
    assert !HasWl(s.procs[p].pc);
    assert Rousing(s') == Rousing(s);
    forall q | 0 <= q < |s.procs|
      ensures ParentOf(s', q)
    {
      assert ParentOf(s, q);
    }
  }

  lemma CallKeeps(s: State, p: nat, pc: Pc, s': State)
    requires Inv(s) && CallStep(s, p, pc, s')
    ensures Inv(s')
  {
    CallFamilies(s, p, pc, s');
    CallFork(s, p, pc, s');
    assert SelfOk(s.procs[p], p);
    assert SelfOk(s'.procs[p], p);
  }

  lemma CallFork(s: State, p: nat, pc: Pc, s': State)
    requires ForkOk(s) && CallStep(s, p, pc, s')
    ensures ForkOk(s')
  {
    assert !Forks(pc) && !s.procs[p].pc.Embryo?;
  }

  lemma OutsideMe(s: State, p: nat, s': State)
    requires SelvesOk(s) && OutsideStep(s, p, s')
    ensures p < |s.procs| && SameBut(s, s', p, p) && s'.waitLock == s.waitLock && SelfOk(s'.procs[p], p)
    ensures s'.procs[p] == s.procs[p].(killed := s'.procs[p].killed, state := s'.procs[p].state)
    ensures s'.procs[p].state.Zombie? == s.procs[p].state.Zombie? && (Committed(s'.procs[p]) ==> Committed(s.procs[p]))
  {
    assert SelfOk(s.procs[p], p);
  }

  lemma OutsideKeeps(s: State, p: nat, s': State)
    requires Inv(s) && OutsideStep(s, p, s')
    ensures Inv(s')
  {
    hide SelfOk, Committed, OutsideStep, Told, Swept, Checked;
    OutsideMe(s, p, s');
    forall q | 0 <= q < |s.procs|
      ensures ParentOf(s', q)
    {
      assert ParentOf(s, q);
    }
  }

  lemma StepKeeps(s: State, l: Label, s': State)
    requires Inv(s) && Step(s, l, s')
    ensures Inv(s')
  {
    match l
    case Own(p) => {
      LocalWl(s, p, s');
      LocalSelf(s, p, s');
      LocalFork(s, p, s');
      LocalFamilies(s, p, s');
    }
    case At(p, i, ok) => {
      VisitWl(s, p, i, ok, s');
      VisitSelf(s, p, i, ok, s');
      VisitFork(s, p, i, ok, s');
      VisitFamilies(s, p, i, ok, s');
    }
    case Call(p, pc) => CallKeeps(s, p, pc, s');
    case Outside(p) => OutsideKeeps(s, p, s');
  }

  lemma InitOk(s: State)
    requires Init(s)
    ensures Inv(s)
  {
    assert forall p :: 0 <= p < |s.procs| ==> SelfOk(s.procs[p], p);
    assert forall q :: 0 <= q < |s.procs| ==> ParentOf(s, q);
  }

  /** Every state of every run is sound. */
  lemma {:induction false} RunKeeps(ss: seq<State>, ls: seq<Label>, k: nat)
    requires Run(ss, ls) && k < |ss|
    ensures Inv(ss[k])
  {
    hide Inv, Step, Init;
    if k == 0 {
      InitOk(ss[0]);
    } else {
      RunKeeps(ss, ls, k - 1);
      StepKeeps(ss[k - 1], ls[k - 1], ss[k]);
    }
  }

  // ----- what the protocol promises

  /** Whenever wait_lock is free, no process asleep in wait, or on its way there, has a zombie
      child; although exit calls wakeup before it sets ZOMBIE. */
  lemma NoZombieForgotten(ss: seq<State>, ls: seq<Label>, k: nat, q: nat, r: nat)
    requires Run(ss, ls) && k < |ss| && q < |ss[k].procs| && r < |ss[k].procs| && ss[k].waitLock.None?
    requires ss[k].procs[q].parent == Some(r) && ss[k].procs[q].state.Zombie?
    ensures !Committed(ss[k].procs[r])
  {
    RunKeeps(ss, ls, k);
    assert ParentOf(ss[k], q);
  }

  /** A parent is always a living process: never an unused entry, an embryo or a zombie.  So a
      zombie has no children, and initproc gets all orphans. */
  lemma ParentsLive(ss: seq<State>, ls: seq<Label>, k: nat, q: nat)
    requires Run(ss, ls) && k < |ss| && q < |ss[k].procs| && ss[k].procs[q].parent.Some?
    ensures ss[k].procs[q].parent.value < |ss[k].procs|
    ensures var parent := ss[k].procs[ss[k].procs[q].parent.value];
            parent.state.Sleeping? || parent.state.Runnable? || parent.state.Running?
  {
    RunKeeps(ss, ls, k);
    assert ParentOf(ss[k], q);
    var r := ss[k].procs[q].parent.value;
    assert SelfOk(ss[k].procs[r], r);
  }

  /** Every process but the first has a parent, from before it first runs until it is reaped; in
      particular where exit wakes p->parent. */
  lemma EveryoneHasAParent(ss: seq<State>, ls: seq<Label>, k: nat, p: nat)
    requires Run(ss, ls) && k < |ss| && p < |ss[k].procs| && p != INIT
    requires !ss[k].procs[p].state.Unused? && !ss[k].procs[p].state.Used?
    ensures ss[k].procs[p].parent.Some? && ss[k].procs[p].parent != Some(p)
  {
    RunKeeps(ss, ls, k);
    assert SelfOk(ss[k].procs[p], p) && ParentOf(ss[k], p);
  }

  /** fork reads the child's parent without wait_lock; it is still the caller. */
  lemma ForkKeepsParent(ss: seq<State>, ls: seq<Label>, k: nat, p: nat)
    requires Run(ss, ls) && k < |ss| && p < |ss[k].procs| && ss[k].procs[p].pc.Inherit?
    ensures ss[k].procs[p].pc.np < |ss[k].procs| && ss[k].procs[ss[k].procs[p].pc.np].parent == Some(p)
  {
    RunKeeps(ss, ls, k);
  }

  /** wait frees an entry only after its thread has left it for good. */
  lemma ReapsOnlyTheDead(ss: seq<State>, ls: seq<Label>, k: nat, p: nat, i: nat, ok: bool)
    requires Run(ss, ls) && k < |ls| && ls[k] == At(p, i, ok) && Step(ss[k], ls[k], ss[k + 1]) && ss[k].procs[p].pc.Look?
    requires ss[k + 1].procs[i] != ss[k].procs[i]
    ensures ss[k].procs[i].pc.Dead? && ss[k].procs[i].parent == Some(p) && ss[k + 1].procs[i] == Freed()
  {
    RunKeeps(ss, ls, k);
    assert SelfOk(ss[k].procs[i], i);
  }

  /** How wait ends: with a zombie child reaped; at a child, with nothing changed, where a copy to
      the user fails; or by itself, if the process is killed or has no children. */
  lemma WaitReturns(ss: seq<State>, ls: seq<Label>, k: nat, p: nat)
    requires Run(ss, ls) && k < |ls| && p < |ss[k].procs| && p < |ss[k + 1].procs|
    requires ss[k].procs[p].pc.Look? && ss[k + 1].procs[p].pc.Return?
    ensures match ls[k]
            case At(q, i, ok) =>
              && q == p && i < |ss[k].procs| == |ss[k + 1].procs| && ss[k].procs[i].parent == Some(p)
              && if ok then ss[k].procs[i].state.Zombie? && ss[k].procs[i].pc.Dead? && ss[k + 1].procs[i] == Freed()
                 else ss[k + 1].procs[i] == ss[k].procs[i]
            case Own(q) =>
              q == p && (ss[k].procs[p].killed || forall c :: 0 <= c < |ss[k].procs| ==> ss[k].procs[c].parent != Some(p))
            case _ => false
  {
    RunKeeps(ss, ls, k);
    assert Step(ss[k], ls[k], ss[k + 1]);
    match ls[k]
    case Own(q) => WaitGivesUp(ss, ls, k, p);
    case At(q, i, ok) => {
      if q == p {
        assert SelfOk(ss[k].procs[i], i);
      }
    }
    case _ =>
  }

  /** wait gives up without copying to the user only if the process is killed or has no children. */
  lemma WaitGivesUp(ss: seq<State>, ls: seq<Label>, k: nat, p: nat)
    requires Run(ss, ls) && k < |ls| && ls[k] == Own(p) && Step(ss[k], ls[k], ss[k + 1]) && ss[k].procs[p].pc.Look? && ss[k + 1].procs[p].pc.Return?
    ensures ss[k].procs[p].killed || forall q :: 0 <= q < |ss[k].procs| ==> ss[k].procs[q].parent != Some(p)
  {
    RunKeeps(ss, ls, k);
    if !ss[k].procs[p].killed {
      forall q | 0 <= q < |ss[k].procs|
        ensures ss[k].procs[q].parent != Some(p)
      {
        assert ParentOf(ss[k], q);
      }
    }
  }
}
