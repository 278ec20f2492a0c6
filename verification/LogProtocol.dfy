/** The logging protocol as a transition system: any number of processes run file-system
    operations between begin_op and end_op, the last one out commits for the whole group,
    buffers come and go in the cache, and the machine may crash between any two steps,
    recovery included.

    `writes` is the history of every change made to a buffer, in order, and `boundary`
    the length of the prefix that the on-disk header has committed.  They are bookkeeping
    for the statements and never guard a step. */
module LogProtocol {
  import opened Basics
  import opened LogDisk

  datatype Write = Write(op: nat, b: nat, v: Block)

  /** An operation in progress: its number and how many blocks it has added to the log. */
  datatype Op = Op(id: nat, added: nat)

  /** A locked buffer: who holds it, and whether it was changed since the last log_write. */
  datatype Hold = Hold(p: nat, dirty: bool)

  datatype Phase =
    | Running
    | WritingLog(t: nat)    // write_log is about to copy entry t
    | WritingHead           // the commit point is next
    | Installing(t: nat)    // install_trans(0) is about to copy entry t
    | Clearing              // the header is about to be erased
    | Finishing             // commit() is done, `committing` still set
    | Booting               // before read_head
    | Replaying(t: nat)     // install_trans(1) is about to copy entry t
    | Erasing               // recovery is about to erase the header

  datatype State = State(
    disk: Disk,
    cache: map<nat, Block>,   // valid buffers
    pinned: set<nat>,         // blocks whose buffer carries a pin from log_write
    held: map<nat, Hold>,     // locked buffers
    lh: seq<nat>,             // the in-memory header
    outstanding: nat,
    committing: bool,
    ops: map<nat, Op>,        // by process
    phase: Phase,
    nextOp: nat,
    groupOp: nat,             // first operation of the group after `boundary`
    writes: seq<Write>,
    boundary: nat)

  ghost predicate Recovering(ph: Phase) {
    ph.Booting? || ph.Replaying? || ph.Erasing?
  }

  // ----- the meaning of a history

  ghost predicate WfWrites(ws: seq<Write>, l: Layout) {
    forall i :: 0 <= i < |ws| ==> l.Home(ws[i].b)
  }

  /** The flat block array after the writes, oldest first. */
  function Apply(d: Disk, l: Layout, ws: seq<Write>): (r: Disk)
    requires l.Wf() && |d| == l.nblocks && WfWrites(ws, l)
    ensures |r| == |d|
    decreases |ws|
  {
    if ws == [] then d else
      var n := |ws| - 1;
      Apply(d, l, ws[..n])[ws[n].b := ws[n].v]
  }

  // ----- steps

  /** begin_op: waits while a commit runs or the log might fill up. */
  ghost predicate BeginOp(s: State, t: State, p: nat) {
    && !Recovering(s.phase) && p !in s.ops
    && !s.committing
    && |s.lh| + (s.outstanding + 1) * MAXOPBLOCKS <= LOGSIZE
    && t == s.(outstanding := s.outstanding + 1,
               ops := s.ops[p := Op(s.nextOp, 0)],
               nextOp := s.nextOp + 1)
  }

  /** bget on a cached block: lock it, if nobody holds it. */
  ghost predicate Lock(s: State, t: State, p: nat, b: nat) {
    && !Recovering(s.phase) && b in s.cache && b !in s.held
    && t == s.(held := s.held[b := Hold(p, false)])
  }

  /** A process inside an operation changes a buffer it holds. */
  ghost predicate Modify(s: State, t: State, l: Layout, p: nat, b: nat, v: Block) {
    && p in s.ops && b in s.cache && b in s.held && s.held[b].p == p && l.Home(b)
    && t == s.(cache := s.cache[b := v],
               held := s.held[b := Hold(p, true)],
               writes := s.writes + [Write(s.ops[p].id, b, v)])
  }

  ghost predicate LogWritePanics(s: State, l: Layout) {
    |s.lh| >= LOGSIZE || |s.lh| >= l.size - 1 || s.outstanding < 1
  }

  /** log_write: absorbed if the block is logged already, else appended and pinned. */
  ghost predicate LogWrite(s: State, t: State, l: Layout, p: nat, b: nat) {
    && p in s.ops && b in s.held && s.held[b].p == p && l.Home(b)
    && !LogWritePanics(s, l)
    && t == if b in s.lh then s.(held := s.held[b := Hold(p, false)])
            else s.(held := s.held[b := Hold(p, false)],
                    lh := s.lh + [b],
                    pinned := s.pinned + {b},
                    ops := s.ops[p := s.ops[p].(added := s.ops[p].added + 1)])
  }

  /** brelse, after the change (if any) went through log_write. */
  ghost predicate Release(s: State, t: State, p: nat, b: nat) {
    && b in s.held && s.held[b] == Hold(p, false)
    && t == s.(held := s.held - {b})
  }

  ghost predicate HoldsDirty(s: State, p: nat) {
    exists b :: b in s.held && s.held[b] == Hold(p, true)
  }

  ghost predicate EndOpPanics(s: State) {
    s.committing
  }

  /** end_op: the last operation out starts the commit of the whole group. */
  ghost predicate EndOp(s: State, t: State, p: nat) {
    && p in s.ops && s.outstanding > 0 && !HoldsDirty(s, p)
    && !EndOpPanics(s)
    && var s1 := s.(outstanding := s.outstanding - 1, ops := s.ops - {p});
       t == if s1.outstanding == 0
            then s1.(committing := true, phase := if s.lh == [] then Finishing else WritingLog(0))
            else s1
  }

  /** bread of a block that is not cached. */
  ghost predicate Fill(s: State, t: State, b: nat) {
    && b < |s.disk| && b !in s.cache
    && t == s.(cache := s.cache[b := s.disk[b]])
  }

  /** bget recycles a buffer whose refcnt is 0: neither pinned nor held. */
  ghost predicate Evict(s: State, t: State, b: nat) {
    && b in s.cache && b !in s.pinned && b !in s.held
    && t == s.(cache := s.cache - {b})
  }

  /** One round of write_log: cache to log block, then bwrite. */
  ghost predicate WriteLogBlock(s: State, t: State, l: Layout) {
    && s.phase.WritingLog? && s.phase.t < |s.lh|
    && var i := s.phase.t;
       var b := s.lh[i];
       && b in s.cache && b !in s.held && l.Slot(i) !in s.held && l.Slot(i) < |s.disk|
       && t == s.(disk := s.disk[l.Slot(i) := s.cache[b]],
                  cache := s.cache[l.Slot(i) := s.cache[b]],
                  phase := if i + 1 < |s.lh| then WritingLog(i + 1) else WritingHead)
  }

  /** write_head: the commit point. */
  ghost predicate WriteHead(s: State, t: State, l: Layout) {
    && s.phase.WritingHead? && l.start < |s.disk| && |s.lh| <= LOGSIZE && l.start !in s.held
    && var h := PutHead(Logical(s, l.start), s.lh);
       t == s.(disk := s.disk[l.start := h], cache := s.cache[l.start := h],
               phase := Installing(0), boundary := |s.writes|, groupOp := s.nextOp)
  }

  /** One round of install_trans(0): log block to home block, bwrite, bunpin. */
  ghost predicate InstallBlock(s: State, t: State, l: Layout) {
    && s.phase.Installing? && s.phase.t < |s.lh|
    && var i := s.phase.t;
       var b := s.lh[i];
       && b < |s.disk| && l.Slot(i) < |s.disk| && b !in s.held
       && var v := Logical(s, l.Slot(i));
          t == s.(disk := s.disk[b := v],
                  cache := s.cache[l.Slot(i) := v][b := v],
                  pinned := s.pinned - {b},
                  phase := if i + 1 < |s.lh| then Installing(i + 1) else Clearing)
  }

  /** The second write_head of commit, with the count at 0. */
  ghost predicate ClearHead(s: State, t: State, l: Layout) {
    && s.phase.Clearing? && l.start < |s.disk| && l.start !in s.held
    && var h := PutHead(Logical(s, l.start), []);
       t == s.(lh := [], disk := s.disk[l.start := h], cache := s.cache[l.start := h],
               phase := Finishing)
  }

  ghost predicate FinishCommit(s: State, t: State) {
    && s.phase.Finishing?
    && t == s.(committing := false, phase := Running)
  }

  /** Everything but the disk is lost. */
  ghost predicate Crash(s: State, t: State) {
    && s.boundary <= |s.writes|
    && t == s.(cache := map[], pinned := {}, held := map[], lh := [], outstanding := 0,
               committing := false, ops := map[], phase := Booting,
               writes := s.writes[..s.boundary], groupOp := s.nextOp)
  }

  ghost predicate ReadHead(s: State, t: State, l: Layout) {
    && s.phase.Booting? && l.start < |s.disk| && WfHeadBlock(Logical(s, l.start))
    && var hdr := Head(Logical(s, l.start));
       t == s.(lh := hdr, phase := if hdr == [] then Erasing else Replaying(0))
  }

  ghost predicate ReplayBlock(s: State, t: State, l: Layout) {
    && s.phase.Replaying? && s.phase.t < |s.lh|
    && var i := s.phase.t;
       var b := s.lh[i];
       && b < |s.disk| && l.Slot(i) < |s.disk|
       && var v := Logical(s, l.Slot(i));
          t == s.(disk := s.disk[b := v],
                  cache := s.cache[l.Slot(i) := v][b := v],
                  phase := if i + 1 < |s.lh| then Replaying(i + 1) else Erasing)
  }

  ghost predicate EraseHead(s: State, t: State, l: Layout) {
    && s.phase.Erasing? && l.start < |s.disk|
    && var h := PutHead(Logical(s, l.start), []);
       t == s.(lh := [], disk := s.disk[l.start := h], cache := s.cache[l.start := h],
               phase := Running)
  }

  datatype Label =
    | BeginOpL(p: nat) | LockL(p: nat, b: nat) | ModifyL(p: nat, b: nat, v: Block)
    | LogWriteL(p: nat, b: nat) | ReleaseL(p: nat, b: nat) | EndOpL(p: nat)
    | FillL(b: nat) | EvictL(b: nat)
    | WriteLogBlockL | WriteHeadL | InstallBlockL | ClearHeadL | FinishCommitL
    | CrashL | ReadHeadL | ReplayBlockL | EraseHeadL

  ghost predicate Step(s: State, t: State, l: Layout, a: Label) {
    match a
    case BeginOpL(p) => BeginOp(s, t, p)
    case LockL(p, b) => Lock(s, t, p, b)
    case ModifyL(p, b, v) => Modify(s, t, l, p, b, v)
    case LogWriteL(p, b) => LogWrite(s, t, l, p, b)
    case ReleaseL(p, b) => Release(s, t, p, b)
    case EndOpL(p) => EndOp(s, t, p)
    case FillL(b) => Fill(s, t, b)
    case EvictL(b) => Evict(s, t, b)
    case WriteLogBlockL => WriteLogBlock(s, t, l)
    case WriteHeadL => WriteHead(s, t, l)
    case InstallBlockL => InstallBlock(s, t, l)
    case ClearHeadL => ClearHead(s, t, l)
    case FinishCommitL => FinishCommit(s, t)
    case CrashL => Crash(s, t)
    case ReadHeadL => ReadHead(s, t, l)
    case ReplayBlockL => ReplayBlock(s, t, l)
    case EraseHeadL => EraseHead(s, t, l)
  }

  /** The machine powers on with some disk and goes through recovery first. */
  ghost predicate Init(s: State, d: Disk, l: Layout) {
    && WfDisk(d, l)
    && s == State(d, map[], {}, map[], [], 0, false, map[], Booting, 0, 0, [], 0)
  }

  /** A run: states and the labels between them. */
  ghost predicate Run(ss: seq<State>, ls: seq<Label>, d: Disk, l: Layout) {
    && |ss| == |ls| + 1 && Init(ss[0], d, l)
    && forall i {:trigger ls[i]} :: 0 <= i < |ls| ==> Step(ss[i], ss[i + 1], l, ls[i])
  }

  // ----- the invariant

  /** The log entries already copied home. */
  ghost function Done(s: State): (k: nat)
    ensures k <= |s.lh|
  {
    match s.phase
    case Installing(t) => if t <= |s.lh| then t else |s.lh|
    case Replaying(t) => if t <= |s.lh| then t else |s.lh|
    case Clearing => |s.lh|
    case Erasing => |s.lh|
    case _ => 0
  }

  /** The value a bread returns. */
  ghost function Logical(s: State, b: nat): Block
    requires b < |s.disk|
  {
    if b in s.cache then s.cache[b] else s.disk[b]
  }

  /** Sizes, flags and phases. */
  ghost predicate InvShape(s: State, l: Layout) {
    && WfDisk(s.disk, l)
    && l.WfHead(s.lh)
    && |s.ops| == s.outstanding
    && (s.committing <==> s.phase.WritingLog? || s.phase.WritingHead? || s.phase.Installing?
                          || s.phase.Clearing? || s.phase.Finishing?)
    && (s.committing || Recovering(s.phase) ==> s.outstanding == 0)
    && (s.phase.WritingLog? || s.phase.Installing? || s.phase.Replaying? ==> s.phase.t < |s.lh|)
    && (s.phase.WritingHead? ==> s.lh != [])
    && (s.phase.Finishing? || s.phase.Booting? ==> s.lh == [])
    && (s.phase.Running? && s.outstanding == 0 ==> s.lh == [])
    && (!Recovering(s.phase) ==> Distinct(s.lh))
    && (Recovering(s.phase) ==> s.held == map[])
  }

  ghost predicate Dirty(s: State, b: nat) {
    b in s.held && s.held[b].dirty
  }

  /** A block whose newest value is still only in the cache and the log. */
  ghost predicate Unsettled(s: State, b: nat) {
    !Recovering(s.phase) && (b in s.lh[Done(s)..] || Dirty(s, b))
  }

  ghost predicate InvCache(s: State, l: Layout) {
    && (forall b :: b in s.cache ==> b < |s.disk|)
    && (forall b :: b in s.cache && !Unsettled(s, b) ==> s.cache[b] == s.disk[b])
    && (forall b :: b in s.held ==> b in s.cache)
    && (forall b :: Dirty(s, b) ==> l.Home(b) && s.held[b].p in s.ops)
    && (!Recovering(s.phase) ==> forall b :: b in s.lh[Done(s)..] ==> b in s.pinned)
    && (forall b :: b in s.pinned ==> b in s.cache)
  }

  /** Home blocks named among the first k entries hold their logged copy. */
  ghost predicate CopiedHome(s: State, l: Layout, k: nat)
    requires InvShape(s, l) && k <= |s.lh|
  {
    forall b :: 0 <= b < l.nblocks && l.Home(b) && LastEntry(s.lh, k, b) >= 0 ==>
      s.disk[b] == s.disk[l.Slot(LastEntry(s.lh, k, b))]
  }

  /** The first k log blocks hold the current values. */
  ghost predicate CopiedToLog(s: State, l: Layout, k: nat)
    requires InvShape(s, l) && k <= |s.lh|
  {
    forall i :: 0 <= i < k ==> s.disk[l.Slot(i)] == Logical(s, s.lh[i])
  }

  /** The header and log blocks, phase by phase. */
  ghost predicate InvLog(s: State, l: Layout)
    requires InvShape(s, l)
  {
    match s.phase
    case Running => Head(s.disk[l.start]) == []
    case Finishing => Head(s.disk[l.start]) == []
    case WritingLog(t) => Head(s.disk[l.start]) == [] && CopiedToLog(s, l, t)
    case WritingHead => Head(s.disk[l.start]) == [] && CopiedToLog(s, l, |s.lh|)
    case Booting => true
    case Installing(t) =>
      Head(s.disk[l.start]) == s.lh && CopiedHome(s, l, t) && CopiedToLog(s, l, |s.lh|)
    case Clearing =>
      Head(s.disk[l.start]) == s.lh && CopiedHome(s, l, |s.lh|) && CopiedToLog(s, l, |s.lh|)
    case Replaying(t) => Head(s.disk[l.start]) == s.lh && CopiedHome(s, l, t)
    case Erasing => Head(s.disk[l.start]) == s.lh && CopiedHome(s, l, |s.lh|)
  }

  /** No operation has writes on both sides of the boundary. */
  ghost predicate InvOps(s: State) {
    && s.boundary <= |s.writes|
    && s.groupOp <= s.nextOp
    && (forall i :: 0 <= i < s.boundary ==> s.writes[i].op < s.groupOp)
    && (forall i :: s.boundary <= i < |s.writes| ==> s.groupOp <= s.writes[i].op < s.nextOp)
    && (forall p :: p in s.ops ==> s.groupOp <= s.ops[p].id < s.nextOp)
    && (forall i :: s.boundary <= i < |s.writes| ==>
          s.writes[i].b in s.lh || Dirty(s, s.writes[i].b))
    && (s.phase.Installing? || s.phase.Clearing? || Recovering(s.phase) ==> s.boundary == |s.writes|)
  }

  /** Cache, log and disk together hold the flat array; a recovery would yield its
      committed prefix. */
  ghost predicate InvValue(s: State, base: Disk, l: Layout)
    requires InvShape(s, l) && InvOps(s)
  {
    && |base| == l.nblocks && WfWrites(s.writes, l)
    && (!Recovering(s.phase) ==> Holds(s, Apply(base, l, s.writes), l))
    && SameHome(Recovered(s.disk, l), Apply(base, l, s.writes[..s.boundary]), l)
  }

  ghost predicate Holds(s: State, d: Disk, l: Layout)
    requires |s.disk| == |d| == l.nblocks
  {
    forall b :: 0 <= b < l.nblocks && l.Home(b) ==> Logical(s, b) == d[b]
  }

  ghost predicate Inv(s: State, base: Disk, l: Layout) {
    && InvShape(s, l) && InvCache(s, l) && InvLog(s, l) && InvOps(s) && InvValue(s, base, l)
  }

  // ----- every step keeps it

  lemma InitKeeps(s: State, d: Disk, l: Layout)
    requires Init(s, d, l)
    ensures Inv(s, Recovered(d, l), l)
  {
    assert s.writes[..s.boundary] == [];
  }

  /** What only concerns locks and operation counts leaves values alone. */
  lemma ValueFrame(s: State, t: State, base: Disk, l: Layout)
    requires InvShape(s, l) && InvOps(s) && InvLog(s, l) && InvValue(s, base, l)
    requires InvShape(t, l) && InvOps(t)
    requires t.disk == s.disk && t.cache == s.cache && t.lh == s.lh && t.phase == s.phase
    requires t.writes == s.writes && t.boundary == s.boundary
    ensures InvLog(t, l) && InvValue(t, base, l)
  {
  }

  lemma BeginOpKeeps(s: State, t: State, base: Disk, l: Layout, p: nat)
    requires Inv(s, base, l) && BeginOp(s, t, p)
    ensures Inv(t, base, l)
  {
    BeginOpCache(s, t, l, p);
    ValueFrame(s, t, base, l);
  }

  lemma BeginOpCache(s: State, t: State, l: Layout, p: nat)
    requires InvShape(s, l) && InvCache(s, l) && InvOps(s) && BeginOp(s, t, p)
    ensures InvShape(t, l) && InvCache(t, l) && InvOps(t)
  {
    hide Unsettled, Dirty, WfDisk;
    SameUnsettled(s, t);
  }

  /** Locks come and go, but not those of changed buffers. */
  ghost predicate LocksOnly(s: State, t: State) {
    && t == s.(held := t.held)
    && (Recovering(s.phase) ==> t.held == map[])
    && (forall x :: x in t.held ==> x in s.cache)
    && (forall x :: Dirty(s, x) <==> Dirty(t, x))
    && forall x :: Dirty(s, x) ==> t.held[x] == s.held[x]
  }

  lemma LockCache(s: State, t: State, l: Layout, p: nat, b: nat)
    requires InvShape(s, l) && InvCache(s, l) && InvOps(s)
    requires Lock(s, t, p, b) || Release(s, t, p, b)
    ensures InvShape(t, l) && InvCache(t, l) && InvOps(t)
  {
    hide InvOps, InvShape, Unsettled, LocksOnly;
    if Lock(s, t, p, b) {
      LockOnly(s, t, p, b);
    } else {
      NoneHeld(s, l);
      ReleaseOnly(s, t, p, b);
    }
    LocksOnlyKeeps(s, t, l);
  }

  lemma NoneHeld(s: State, l: Layout)
    requires InvShape(s, l)
    ensures Recovering(s.phase) ==> s.held == map[]
  {
  }

  lemma LockOnly(s: State, t: State, p: nat, b: nat)
    requires Lock(s, t, p, b) && forall x :: x in s.held ==> x in s.cache
    ensures LocksOnly(s, t)
  {
  }

  lemma ReleaseOnly(s: State, t: State, p: nat, b: nat)
    requires Release(s, t, p, b) && (forall x :: x in s.held ==> x in s.cache) && !Recovering(s.phase)
    ensures LocksOnly(s, t)
  {
  }

  lemma LocksOnlyKeeps(s: State, t: State, l: Layout)
    requires InvShape(s, l) && InvCache(s, l) && InvOps(s) && LocksOnly(s, t)
    ensures InvShape(t, l) && InvCache(t, l) && InvOps(t)
  {
    hide Dirty;
    assert Done(s) == Done(t);
    assert forall x :: Unsettled(s, x) == Unsettled(t, x);
    DirtyHeld(s, t);
  }

  lemma DirtyHeld(s: State, t: State)
    requires LocksOnly(s, t)
    ensures forall x :: Dirty(t, x) ==> x in t.held && x in s.held && t.held[x] == s.held[x]
  {
  }

  lemma LockKeeps(s: State, t: State, base: Disk, l: Layout, p: nat, b: nat)
    requires Inv(s, base, l) && (Lock(s, t, p, b) || Release(s, t, p, b))
    ensures Inv(t, base, l)
  {
    LockCache(s, t, l, p, b);
    ValueFrame(s, t, base, l);
  }

  lemma ModifyCache(s: State, t: State, l: Layout, p: nat, b: nat, v: Block)
    requires InvShape(s, l) && InvCache(s, l) && Modify(s, t, l, p, b, v)
    ensures s.phase.Running? && InvShape(t, l) && InvCache(t, l)
  {
    assert Dirty(t, b);
    assert forall x :: x != b ==> Dirty(s, x) == Dirty(t, x);
    assert forall x :: Unsettled(s, x) ==> Unsettled(t, x);
  }

  lemma ModifyOps(s: State, t: State, l: Layout, p: nat, b: nat, v: Block)
    requires InvShape(s, l) && InvOps(s) && Modify(s, t, l, p, b, v)
    ensures InvOps(t)
  {
    assert Dirty(t, b);
    assert forall x :: x != b ==> Dirty(s, x) == Dirty(t, x);
    assert |s.ops| > 0;
  }

  lemma ModifyValue(s: State, t: State, base: Disk, l: Layout, p: nat, b: nat, v: Block)
    requires InvShape(s, l) && InvOps(s) && InvValue(s, base, l) && s.phase.Running?
    requires InvShape(t, l) && InvOps(t) && Modify(s, t, l, p, b, v)
    ensures InvValue(t, base, l)
  {
    assert t.writes[..|s.writes|] == s.writes;
    assert t.writes[..t.boundary] == s.writes[..s.boundary];
  }

  lemma ModifyKeeps(s: State, t: State, base: Disk, l: Layout, p: nat, b: nat, v: Block)
    requires Inv(s, base, l) && Modify(s, t, l, p, b, v)
    ensures Inv(t, base, l)
  {
    ModifyCache(s, t, l, p, b, v);
    ModifyOps(s, t, l, p, b, v);
    ModifyValue(s, t, base, l, p, b, v);
  }

  lemma LogWriteShape(s: State, t: State, l: Layout, p: nat, b: nat)
    requires InvShape(s, l) && LogWrite(s, t, l, p, b)
    ensures s.phase.Running? && InvShape(t, l) && Done(s) == Done(t) == 0
  {
    hide WfDisk;
    assert |s.ops| > 0;
  }

  lemma LogWriteUnsettled(s: State, t: State, l: Layout, p: nat, b: nat)
    requires LogWrite(s, t, l, p, b) && s.phase.Running?
    ensures forall x :: Dirty(t, x) ==> Dirty(s, x) && t.held[x] == s.held[x]
    ensures forall x :: Unsettled(s, x) ==> Unsettled(t, x)
  {
    assert b in t.lh;
    assert forall x :: x in s.lh ==> x in t.lh;
    assert forall x :: x != b ==> Dirty(s, x) == Dirty(t, x);
    assert t.lh[Done(t)..] == t.lh;
    assert s.lh[Done(s)..] == s.lh;
  }

  lemma LogWriteCache(s: State, t: State, l: Layout, p: nat, b: nat)
    requires InvShape(s, l) && InvCache(s, l) && LogWrite(s, t, l, p, b)
    ensures s.phase.Running? && InvShape(t, l) && InvCache(t, l)
  {
    hide Dirty, Unsettled, WfDisk;
    LogWriteShape(s, t, l, p, b);
    LogWriteUnsettled(s, t, l, p, b);
    assert t.lh[Done(t)..] == t.lh;
    assert s.lh[Done(s)..] == s.lh;
  }

  lemma LogWriteOps(s: State, t: State, l: Layout, p: nat, b: nat)
    requires InvShape(s, l) && InvOps(s) && LogWrite(s, t, l, p, b)
    ensures InvOps(t)
  {
    assert b in t.lh;
    assert forall x :: x in s.lh ==> x in t.lh;
    assert forall x :: x != b ==> Dirty(s, x) == Dirty(t, x);
  }

  lemma LogWriteKeeps(s: State, t: State, base: Disk, l: Layout, p: nat, b: nat)
    requires Inv(s, base, l) && LogWrite(s, t, l, p, b)
    ensures Inv(t, base, l)
  {
    LogWriteCache(s, t, l, p, b);
    LogWriteOps(s, t, l, p, b);
  }

  lemma EndOpShape(s: State, t: State, l: Layout, p: nat)
    requires InvShape(s, l) && EndOp(s, t, p)
    ensures s.phase.Running? && InvShape(t, l) && Done(s) == Done(t) == 0 && t.lh == s.lh
    ensures t.phase.Running? || t.phase.Finishing? || t.phase == WritingLog(0)
  {
    hide WfDisk, HoldsDirty;
    assert |t.ops| == |s.ops| - 1;
  }

  /** Nothing that the process left dirty, and all dirty blocks as before. */
  lemma EndOpDirty(s: State, t: State, p: nat)
    requires EndOp(s, t, p)
    ensures forall x :: Dirty(s, x) <==> Dirty(t, x)
    ensures forall x :: Dirty(s, x) ==> s.held[x].p != p
  {
    assert forall x :: Dirty(s, x) ==> s.held[x] == Hold(s.held[x].p, true);
  }

  lemma EndOpCache(s: State, t: State, l: Layout, p: nat)
    requires InvShape(s, l) && InvCache(s, l) && InvOps(s) && EndOp(s, t, p)
    ensures InvCache(t, l) && InvOps(t)
  {
    hide HoldsDirty, Dirty, Unsettled, WfDisk;
    EndOpShape(s, t, l, p);
    EndOpDirty(s, t, p);
    EndOpUnsettled(s, t);
  }

  lemma EndOpUnsettled(s: State, t: State)
    requires t.lh == s.lh && Done(t) == Done(s) && Recovering(s.phase) == Recovering(t.phase)
    requires forall x :: Dirty(s, x) <==> Dirty(t, x)
    ensures forall x :: Unsettled(s, x) <==> Unsettled(t, x)
  {
  }

  lemma EndOpKeeps(s: State, t: State, base: Disk, l: Layout, p: nat)
    requires Inv(s, base, l) && EndOp(s, t, p)
    ensures Inv(t, base, l)
  {
    EndOpShape(s, t, l, p);
    EndOpCache(s, t, l, p);
  }

  /** Loading a clean block or dropping one does not change what a bread returns. */
  lemma FillKeeps(s: State, t: State, base: Disk, l: Layout, b: nat)
    requires Inv(s, base, l) && (Fill(s, t, b) || Evict(s, t, b))
    ensures Inv(t, base, l)
  {
    if Fill(s, t, b) { FillCache(s, t, l, b); } else { EvictCache(s, t, l, b); }
    FillLog(s, t, l);
    FillValue(s, t, base, l);
  }

  ghost predicate SameReads(s: State, t: State) {
    |s.disk| == |t.disk| && forall x :: 0 <= x < |s.disk| ==> Logical(s, x) == Logical(t, x)
  }

  lemma SameUnsettled(s: State, t: State)
    requires t.held == s.held && t.lh == s.lh && Done(t) == Done(s)
    requires Recovering(s.phase) == Recovering(t.phase)
    ensures forall x :: Dirty(s, x) == Dirty(t, x)
    ensures forall x :: Unsettled(s, x) == Unsettled(t, x)
  {
  }

  lemma FillCache(s: State, t: State, l: Layout, b: nat)
    requires InvShape(s, l) && InvCache(s, l) && InvOps(s) && Fill(s, t, b)
    ensures InvShape(t, l) && InvCache(t, l) && InvOps(t) && SameReads(s, t)
  {
    hide Unsettled, Dirty, WfDisk, InvOps;
    OpsFrame(s, t);
    SameUnsettled(s, t);
  }

  lemma EvictCache(s: State, t: State, l: Layout, b: nat)
    requires InvShape(s, l) && InvCache(s, l) && InvOps(s) && Evict(s, t, b)
    ensures InvShape(t, l) && InvCache(t, l) && InvOps(t) && SameReads(s, t)
  {
    hide Unsettled, Dirty, WfDisk, InvOps;
    EvictedClean(s, l, b);
    SameUnsettled(s, t);
    OpsFrame(s, t);
  }

  lemma OpsFrame(s: State, t: State)
    requires InvOps(s) && t.held == s.held && t.lh == s.lh && t.phase == s.phase && t.ops == s.ops
    requires t.writes == s.writes && t.boundary == s.boundary && t.nextOp == s.nextOp && t.groupOp == s.groupOp
    ensures InvOps(t)
  {
    assert forall x :: Dirty(s, x) == Dirty(t, x);
  }

  lemma EvictedClean(s: State, l: Layout, b: nat)
    requires InvCache(s, l) && b in s.cache && b !in s.pinned && b !in s.held
    ensures s.cache[b] == s.disk[b]
  {
    assert !Unsettled(s, b);
  }

  lemma FillLog(s: State, t: State, l: Layout)
    requires InvShape(s, l) && InvShape(t, l) && InvLog(s, l)
    requires t.disk == s.disk && t.lh == s.lh && t.phase == s.phase
    requires SameReads(s, t)
    ensures InvLog(t, l)
  {
  }

  lemma FillValue(s: State, t: State, base: Disk, l: Layout)
    requires InvShape(s, l) && InvShape(t, l) && InvOps(s) && InvOps(t) && InvValue(s, base, l)
    requires t.disk == s.disk && t.phase == s.phase && t.writes == s.writes && t.boundary == s.boundary
    requires SameReads(s, t)
    ensures InvValue(t, base, l)
  {
  }

  // ----- the commit

  lemma {:induction false} DropMember(q: seq<nat>, k: nat)
    requires k < |q|
    ensures forall x :: x in q[k..] <==> x == q[k] || x in q[k + 1..]
  {
    assert q[k..] == [q[k]] + q[k + 1..];
  }

  lemma WriteLogBlockCache(s: State, t: State, l: Layout)
    requires InvShape(s, l) && InvCache(s, l) && InvOps(s) && WriteLogBlock(s, t, l)
    ensures InvShape(t, l) && InvCache(t, l) && InvOps(t)
    ensures forall x :: 0 <= x < |s.disk| && l.Home(x) ==> Logical(s, x) == Logical(t, x)
  {
    hide Unsettled, Dirty;
    SameUnsettled(s, t);
  }

  lemma WriteLogBlockLog(s: State, t: State, l: Layout)
    requires InvShape(s, l) && InvShape(t, l) && InvLog(s, l) && WriteLogBlock(s, t, l)
    requires forall x :: 0 <= x < |s.disk| && l.Home(x) ==> Logical(s, x) == Logical(t, x)
    ensures InvLog(t, l)
  {
    assert CopiedToLog(t, l, s.phase.t + 1);
  }

  lemma WriteLogBlockValue(s: State, t: State, base: Disk, l: Layout)
    requires InvShape(s, l) && InvShape(t, l) && InvOps(s) && InvOps(t) && InvValue(s, base, l)
    requires WriteLogBlock(s, t, l) && Head(s.disk[l.start]) == [] && Head(t.disk[l.start]) == []
    requires forall x :: 0 <= x < |s.disk| && l.Home(x) ==> Logical(s, x) == Logical(t, x)
    ensures InvValue(t, base, l)
  {
    RecoveredEmpty(s.disk, l);
    RecoveredEmpty(t.disk, l);
  }

  lemma WriteLogBlockKeeps(s: State, t: State, base: Disk, l: Layout)
    requires Inv(s, base, l) && WriteLogBlock(s, t, l)
    ensures Inv(t, base, l)
  {
    WriteLogBlockCache(s, t, l);
    WriteLogBlockLog(s, t, l);
    WriteLogBlockValue(s, t, base, l);
  }

  lemma WriteHeadCache(s: State, t: State, l: Layout)
    requires InvShape(s, l) && InvCache(s, l) && InvOps(s) && WriteHead(s, t, l)
    ensures InvShape(t, l) && InvCache(t, l) && InvOps(t)
    ensures forall x :: 0 <= x < |s.disk| && x != l.start ==> Logical(s, x) == Logical(t, x)
  {
    hide Unsettled, Dirty;
    SameUnsettled(s, t);
  }

  lemma WriteHeadLog(s: State, t: State, l: Layout)
    requires InvShape(s, l) && InvShape(t, l) && InvLog(s, l) && WriteHead(s, t, l)
    requires forall x :: 0 <= x < |s.disk| && x != l.start ==> Logical(s, x) == Logical(t, x)
    ensures InvLog(t, l)
  {
  }

  lemma HeaderCommitsAt(s: State, l: Layout, b: nat)
    requires InvShape(s, l) && InvCache(s, l) && s.phase == Installing(0) && l.Home(b)
    requires Head(s.disk[l.start]) == s.lh && CopiedToLog(s, l, |s.lh|)
    ensures Logical(s, b) == Recovered(s.disk, l)[b]
  {
    hide Recovered, LastEntry;
    RecoveredAt(s.disk, l, b);
    assert s.lh[..|s.lh|] == s.lh && s.lh[Done(s)..] == s.lh;
    NoneDirty(s, l);
  }

  lemma NoneDirty(s: State, l: Layout)
    requires InvShape(s, l) && InvCache(s, l) && s.outstanding == 0
    ensures forall x :: !Dirty(s, x)
  {
    assert s.ops == map[];
  }

  /** Once the header is on disk, recovery yields the current values. */
  lemma HeaderCommits(s: State, l: Layout)
    requires InvShape(s, l) && InvCache(s, l) && s.phase == Installing(0)
    requires Head(s.disk[l.start]) == s.lh && CopiedToLog(s, l, |s.lh|)
    ensures Holds(s, Recovered(s.disk, l), l)
  {
    hide Recovered, InvCache, CopiedToLog, Logical;
    forall b | 0 <= b < l.nblocks && l.Home(b)
      ensures Logical(s, b) == Recovered(s.disk, l)[b]
    {
      HeaderCommitsAt(s, l, b);
    }
  }

  lemma WriteHeadKeeps(s: State, t: State, base: Disk, l: Layout)
    requires Inv(s, base, l) && WriteHead(s, t, l)
    ensures Inv(t, base, l)
  {
    WriteHeadCache(s, t, l);
    WriteHeadLog(s, t, l);
    WriteHeadValue(s, t, base, l);
  }

  lemma WriteHeadValue(s: State, t: State, base: Disk, l: Layout)
    requires InvShape(s, l) && InvOps(s) && InvValue(s, base, l) && WriteHead(s, t, l)
    requires InvShape(t, l) && InvCache(t, l) && InvOps(t) && InvLog(t, l)
    requires forall x :: 0 <= x < |s.disk| && x != l.start ==> Logical(s, x) == Logical(t, x)
    ensures InvValue(t, base, l)
  {
    hide Logical, Apply, Recovered, InvCache, InvOps, CopiedToLog, CopiedHome, PutHead, Head;
    HeaderCommits(t, l);
    assert t.writes[..t.boundary] == s.writes;
    HoldsSame(t, Apply(base, l, s.writes), Recovered(t.disk, l), l);
  }

  lemma HoldsSame(s: State, d: Disk, e: Disk, l: Layout)
    requires l.Wf() && |s.disk| == |d| == |e| == l.nblocks && Holds(s, d, l) && Holds(s, e, l)
    ensures SameHome(e, d, l)
  {
    forall b | 0 <= b < l.nblocks && l.Home(b)
      ensures e[b] == d[b]
    {
      assert Logical(s, b) == d[b] && Logical(s, b) == e[b];
    }
  }

  /** A block that the header names may be overwritten without changing recovery. */
  lemma RecoveredOverwrite(d: Disk, l: Layout, i: nat, v: Block)
    requires WfDisk(d, l) && i < |Head(d[l.start])|
    ensures var e := d[Head(d[l.start])[i] := v];
            WfDisk(e, l) && SameHome(Recovered(e, l), Recovered(d, l), l)
  {
    var hdr := Head(d[l.start]);
    var e := d[hdr[i] := v];
    assert e[l.start] == d[l.start];
    forall b | 0 <= b < l.nblocks && l.Home(b)
      ensures Recovered(e, l)[b] == Recovered(d, l)[b]
    {
      RecoveredAt(e, l, b);
      RecoveredAt(d, l, b);
      assert hdr[..|hdr|] == hdr;
    }
  }

  lemma InstallBlockShape(s: State, t: State, l: Layout)
    requires InvShape(s, l) && InvOps(s) && (InstallBlock(s, t, l) || ReplayBlock(s, t, l))
    requires Head(s.disk[l.start]) == s.lh
    ensures InvShape(t, l) && InvOps(t) && Head(t.disk[l.start]) == t.lh == s.lh
    ensures Done(s) == s.phase.t && Done(t) == Done(s) + 1
  {
    assert t.disk[l.start] == s.disk[l.start];
  }

  lemma InstallBlockReads(s: State, t: State, l: Layout)
    requires InvShape(s, l) && InvCache(s, l) && CopiedToLog(s, l, |s.lh|) && InstallBlock(s, t, l)
    ensures SameReads(s, t)
  {
    hide InvCache, CopiedToLog, WfDisk;
    LogReads(s, l);
    assert s.disk[l.Slot(s.phase.t)] == Logical(s, s.lh[s.phase.t]) by {
      CopiedAt(s, l, s.phase.t);
    }
  }

  lemma CopiedAt(s: State, l: Layout, i: nat)
    requires InvShape(s, l) && CopiedToLog(s, l, |s.lh|) && i < |s.lh|
    ensures s.disk[l.Slot(i)] == Logical(s, s.lh[i])
  {
  }

  lemma InstallBlockUnsettled(s: State, t: State, l: Layout)
    requires InvShape(s, l) && InstallBlock(s, t, l) && InvCache(s, l)
    requires InvShape(t, l) && Done(s) == s.phase.t && Done(t) == Done(s) + 1
    ensures forall x :: !Dirty(s, x) && !Dirty(t, x)
    ensures forall x :: Unsettled(s, x) <==> x == s.lh[s.phase.t] || Unsettled(t, x)
    ensures !Unsettled(t, s.lh[s.phase.t])
  {
    DropMember(s.lh, s.phase.t);
    assert s.ops == map[];
    assert forall x :: !Dirty(s, x);
    assert s.lh[s.phase.t] !in s.lh[s.phase.t + 1..];
  }

  lemma InstallBlockCache(s: State, t: State, l: Layout)
    requires InvShape(s, l) && InvCache(s, l) && CopiedToLog(s, l, |s.lh|) && InstallBlock(s, t, l)
    requires InvShape(t, l) && Done(s) == s.phase.t && Done(t) == Done(s) + 1
    ensures InvCache(t, l)
  {
    InstallBlockUnsettled(s, t, l);
    DropMember(s.lh, s.phase.t);
  }

  /** A cached log block is what the disk has, so reading it through the cache is the same. */
  ghost predicate SlotClean(s: State, l: Layout) {
    s.phase.Installing? || s.phase.Replaying? ==>
      l.Slot(s.phase.t) < |s.disk| && Logical(s, l.Slot(s.phase.t)) == s.disk[l.Slot(s.phase.t)]
  }

  lemma LogReads(s: State, l: Layout)
    requires InvShape(s, l) && InvCache(s, l)
    ensures SlotClean(s, l) && Logical(s, l.start) == s.disk[l.start]
  {
    assert forall b :: l.InLog(b) ==> !Unsettled(s, b);
  }

  lemma InstallBlockLog(s: State, t: State, l: Layout)
    requires InvShape(s, l) && InvShape(t, l) && (InstallBlock(s, t, l) || ReplayBlock(s, t, l))
    requires CopiedHome(s, l, s.phase.t) && SlotClean(s, l)
    ensures CopiedHome(t, l, s.phase.t + 1)
  {
  }

  lemma InstallBlockKeeps(s: State, t: State, base: Disk, l: Layout)
    requires Inv(s, base, l) && InstallBlock(s, t, l)
    ensures Inv(t, base, l)
  {
    LogReads(s, l);
    InstallBlockShape(s, t, l);
    InstallBlockReads(s, t, l);
    InstallBlockCache(s, t, l);
    InstallBlockAll(s, t, l);
    InstallBlockValue(s, t, base, l);
  }

  lemma InstallBlockAll(s: State, t: State, l: Layout)
    requires InvShape(s, l) && InvShape(t, l) && InvLog(s, l) && InstallBlock(s, t, l) && SameReads(s, t)
    requires Head(t.disk[l.start]) == t.lh && SlotClean(s, l)
    ensures InvLog(t, l)
  {
    hide CopiedHome, CopiedToLog, SlotClean, SameReads;
    InstallBlockLog(s, t, l);
    InstallBlockSlots(s, t, l);
  }

  lemma InstallBlockSlots(s: State, t: State, l: Layout)
    requires InvShape(s, l) && InvShape(t, l) && InstallBlock(s, t, l) && SameReads(s, t)
    requires CopiedToLog(s, l, |s.lh|)
    ensures CopiedToLog(t, l, |t.lh|)
  {
    forall i | 0 <= i < |t.lh|
      ensures t.disk[l.Slot(i)] == Logical(t, t.lh[i])
    {
      assert s.disk[l.Slot(i)] == Logical(s, s.lh[i]);
    }
  }

  lemma InstallBlockValue(s: State, t: State, base: Disk, l: Layout)
    requires InvShape(s, l) && InvOps(s) && InvValue(s, base, l) && Head(s.disk[l.start]) == s.lh
    requires (InstallBlock(s, t, l) && SameReads(s, t)) || ReplayBlock(s, t, l)
    requires InvShape(t, l) && InvOps(t) && SlotClean(s, l)
    ensures InvValue(t, base, l)
  {
    RecoveredOverwrite(s.disk, l, s.phase.t, s.disk[l.Slot(s.phase.t)]);
  }

  /** Once every entry is home, recovery would change no home block. */
  lemma RecoveredCopied(s: State, l: Layout)
    requires InvShape(s, l) && Head(s.disk[l.start]) == s.lh && CopiedHome(s, l, |s.lh|)
    ensures SameHome(Recovered(s.disk, l), s.disk, l)
  {
    forall b | 0 <= b < l.nblocks && l.Home(b)
      ensures Recovered(s.disk, l)[b] == s.disk[b]
    {
      RecoveredAt(s.disk, l, b);
    }
  }

  lemma ClearHeadCache(s: State, t: State, l: Layout)
    requires InvShape(s, l) && InvCache(s, l) && InvOps(s) && ClearHead(s, t, l)
    ensures InvShape(t, l) && InvCache(t, l) && InvOps(t)
    ensures forall x :: 0 <= x < |s.disk| && x != l.start ==> Logical(s, x) == Logical(t, x)
  {
    assert s.ops == map[];
    assert forall x :: !Dirty(s, x) && !Dirty(t, x);
    assert forall x :: !Unsettled(s, x) && !Unsettled(t, x);
  }

  lemma ClearHeadKeeps(s: State, t: State, base: Disk, l: Layout)
    requires Inv(s, base, l) && ClearHead(s, t, l)
    ensures Inv(t, base, l)
  {
    hide InvCache, InvOps, Apply, Recovered, Logical;
    ClearHeadCache(s, t, l);
    RecoveredCopied(s, l);
    RecoveredEmpty(t.disk, l);
  }

  lemma FinishCommitKeeps(s: State, t: State, base: Disk, l: Layout)
    requires Inv(s, base, l) && FinishCommit(s, t)
    ensures Inv(t, base, l)
  {
    hide Apply, Recovered, Logical;
    FinishCommitCache(s, t, l);
    hide InvCache, InvOps;
    assert Holds(t, Apply(base, l, t.writes), l) by {
      HoldsFrame(s, t, Apply(base, l, s.writes), l);
    }
  }

  lemma HoldsFrame(s: State, t: State, d: Disk, l: Layout)
    requires |s.disk| == |d| == l.nblocks && Holds(s, d, l) && t.disk == s.disk && t.cache == s.cache
    ensures Holds(t, d, l)
  {
  }

  lemma FinishCommitCache(s: State, t: State, l: Layout)
    requires InvShape(s, l) && InvCache(s, l) && InvOps(s) && FinishCommit(s, t)
    ensures InvShape(t, l) && InvCache(t, l) && InvOps(t)
  {
    hide Unsettled, Dirty, WfDisk;
    SameUnsettled(s, t);
  }

  // ----- crash and recovery

  lemma CrashKeeps(s: State, t: State, base: Disk, l: Layout)
    requires Inv(s, base, l) && Crash(s, t)
    ensures Inv(t, base, l)
  {
    assert t.writes[..t.boundary] == t.writes;
  }

  lemma ReadHeadKeeps(s: State, t: State, base: Disk, l: Layout)
    requires Inv(s, base, l) && ReadHead(s, t, l)
    ensures Inv(t, base, l)
  {
  }

  lemma ReplayBlockCache(s: State, t: State, l: Layout)
    requires InvShape(s, l) && InvCache(s, l) && ReplayBlock(s, t, l) && InvShape(t, l)
    ensures InvCache(t, l)
  {
    assert forall x :: !Unsettled(s, x) && !Unsettled(t, x);
  }

  lemma ReplayBlockKeeps(s: State, t: State, base: Disk, l: Layout)
    requires Inv(s, base, l) && ReplayBlock(s, t, l)
    ensures Inv(t, base, l)
  {
    hide InvCache, InvOps, Apply, Recovered, CopiedHome, Logical, WfDisk;
    LogReads(s, l);
    InstallBlockShape(s, t, l);
    ReplayBlockCache(s, t, l);
    InstallBlockLog(s, t, l);
    InstallBlockValue(s, t, base, l);
  }

  lemma EraseHeadCache(s: State, t: State, l: Layout)
    requires InvShape(s, l) && InvCache(s, l) && InvOps(s) && EraseHead(s, t, l)
    ensures InvShape(t, l) && InvCache(t, l) && InvOps(t)
    ensures forall x :: 0 <= x < |s.disk| && x != l.start ==> Logical(t, x) == s.disk[x]
  {
    assert forall x :: !Unsettled(s, x) && !Unsettled(t, x);
  }

  lemma EraseHeadKeeps(s: State, t: State, base: Disk, l: Layout)
    requires Inv(s, base, l) && EraseHead(s, t, l)
    ensures Inv(t, base, l)
  {
    hide InvCache, Apply, Recovered, Logical, CopiedHome;
    EraseHeadCache(s, t, l);
    RecoveredCopied(s, l);
    RecoveredEmpty(t.disk, l);
    assert t.writes[..t.boundary] == t.writes;
  }

  // ----- whole runs

  /** Steps of processes and of the cache. */
  ghost predicate IsOpLabel(a: Label) {
    a.BeginOpL? || a.LockL? || a.ModifyL? || a.LogWriteL? || a.ReleaseL? || a.EndOpL? || a.FillL? || a.EvictL?
  }

  lemma OpStepKeeps(s: State, t: State, base: Disk, l: Layout, a: Label)
    requires Inv(s, base, l) && IsOpLabel(a) && Step(s, t, l, a)
    ensures Inv(t, base, l)
  {
    hide Inv;
    match a
    case BeginOpL(p) => BeginOpKeeps(s, t, base, l, p);
    case LockL(p, b) => LockKeeps(s, t, base, l, p, b);
    case ModifyL(p, b, v) => ModifyKeeps(s, t, base, l, p, b, v);
    case LogWriteL(p, b) => LogWriteKeeps(s, t, base, l, p, b);
    case ReleaseL(p, b) => LockKeeps(s, t, base, l, p, b);
    case EndOpL(p) => EndOpKeeps(s, t, base, l, p);
    case FillL(b) => FillKeeps(s, t, base, l, b);
    case EvictL(b) => FillKeeps(s, t, base, l, b);
  }

  lemma CommitStepKeeps(s: State, t: State, base: Disk, l: Layout, a: Label)
    requires Inv(s, base, l) && !IsOpLabel(a) && Step(s, t, l, a)
    ensures Inv(t, base, l)
  {
    hide Inv;
    match a
    case WriteLogBlockL => WriteLogBlockKeeps(s, t, base, l);
    case WriteHeadL => WriteHeadKeeps(s, t, base, l);
    case InstallBlockL => InstallBlockKeeps(s, t, base, l);
    case ClearHeadL => ClearHeadKeeps(s, t, base, l);
    case FinishCommitL => FinishCommitKeeps(s, t, base, l);
    case CrashL => CrashKeeps(s, t, base, l);
    case ReadHeadL => ReadHeadKeeps(s, t, base, l);
    case ReplayBlockL => ReplayBlockKeeps(s, t, base, l);
    case EraseHeadL => EraseHeadKeeps(s, t, base, l);
  }

  lemma StepKeeps(s: State, t: State, base: Disk, l: Layout, a: Label)
    requires Inv(s, base, l) && Step(s, t, l, a)
    ensures Inv(t, base, l)
  {
    hide Inv;
    if IsOpLabel(a) {
      OpStepKeeps(s, t, base, l, a);
    } else {
      CommitStepKeeps(s, t, base, l, a);
    }
  }

  lemma RunPrefix(ss: seq<State>, ls: seq<Label>, d: Disk, l: Layout)
    requires Run(ss, ls, d, l) && ls != []
    ensures var n := |ls| - 1;
            Run(ss[..n + 1], ls[..n], d, l) && Step(ss[n], ss[n + 1], l, ls[n])
  {
    var n := |ls| - 1;
    forall i | 0 <= i < n
      ensures Step(ss[..n + 1][i], ss[..n + 1][i + 1], l, ls[..n][i])
    {
      assert ls[..n][i] == ls[i];
    }
  }

  lemma RunExtend(ss: seq<State>, ls: seq<Label>, d: Disk, l: Layout, t: State, a: Label)
    requires Run(ss, ls, d, l) && Step(ss[|ls|], t, l, a)
    ensures Run(ss + [t], ls + [a], d, l) && (ss + [t])[|ls + [a]|] == t
  {
    hide Step, Init;
    var ss', ls' := ss + [t], ls + [a];
    forall i | 0 <= i < |ls'|
      ensures Step(ss'[i], ss'[i + 1], l, ls'[i])
    {
      if i < |ls| {
        assert ls'[i] == ls[i];
      }
    }
  }

  lemma {:induction false} RunKeeps(ss: seq<State>, ls: seq<Label>, d: Disk, l: Layout)
    requires Run(ss, ls, d, l)
    ensures Inv(ss[|ls|], Recovered(d, l), l)
    decreases |ls|
  {
    if ls == [] {
      InitKeeps(ss[0], d, l);
    } else {
      var n := |ls| - 1;
      RunPrefix(ss, ls, d, l);
      RunKeeps(ss[..n + 1], ls[..n], d, l);
      StepKeeps(ss[n], ss[n + 1], Recovered(d, l), l, ls[n]);
    }
  }

  // ----- what every run guarantees

  /** A commit starts only when no operation is in progress, so end_op never panics and
      nothing enters the log while one runs. */
  lemma CommitExcludesOperations(ss: seq<State>, ls: seq<Label>, d: Disk, l: Layout)
    requires Run(ss, ls, d, l)
    ensures var s := ss[|ls|];
            && (s.committing ==> s.outstanding == 0 && s.ops == map[])
            && (forall p :: p in s.ops ==> !EndOpPanics(s) && s.outstanding >= 1)
            && (forall t, p, b :: LogWrite(s, t, l, p, b) ==> !s.committing)
            && (forall t, p, b, v :: Modify(s, t, l, p, b, v) ==> !s.committing)
  {
    RunKeeps(ss, ls, d, l);
    var s := ss[|ls|];
    assert forall p :: p in s.ops ==> |s.ops| >= 1;
  }

  /** Exactly when begin_op lets a process in: no commit runs and, with the new operation counted,
      the entries and MAXOPBLOCKS for every operation in progress fit into the log.  So the first
      operation of a group is always let in. */
  lemma BeginExactly(ss: seq<State>, ls: seq<Label>, d: Disk, l: Layout, p: nat)
    requires Run(ss, ls, d, l) && p !in ss[|ls|].ops && !Recovering(ss[|ls|].phase)
    ensures var s := ss[|ls|];
            && ((exists t :: BeginOp(s, t, p)) <==>
                s.phase.Running? && |s.lh| + MAXOPBLOCKS * |s.ops.Keys + {p}| <= LOGSIZE)
            && (forall t :: BeginOp(s, t, p) ==> t.ops.Keys == s.ops.Keys + {p} && t.ops[p].added == 0)
            && (s.phase.Running? && s.ops == map[] ==> exists t :: BeginOp(s, t, p))
  {
    RunKeeps(ss, ls, d, l);
    var s := ss[|ls|];
    assert |s.ops.Keys + {p}| == |s.ops| + 1;
    var t := s.(outstanding := s.outstanding + 1, ops := s.ops[p := Op(s.nextOp, 0)], nextOp := s.nextOp + 1);
    assert s.phase.Running? && |s.lh| + MAXOPBLOCKS * (|s.ops| + 1) <= LOGSIZE ==> BeginOp(s, t, p);
  }

  /** A crash can come after any step.  It leaves the disk, of the history the committed prefix, and
      nothing else. */
  lemma CrashAnywhere(ss: seq<State>, ls: seq<Label>, d: Disk, l: Layout) returns (t: State)
    requires Run(ss, ls, d, l)
    ensures Step(ss[|ls|], t, l, CrashL) && Inv(t, Recovered(d, l), l)
    ensures t.disk == ss[|ls|].disk && t.boundary == ss[|ls|].boundary == |t.writes| && t.writes <= ss[|ls|].writes
    ensures t.phase.Booting? && t.cache == map[] && t.pinned == {} && t.lh == [] && t.ops == map[] && t.held == map[]
  {
    var s := ss[|ls|];
    RunKeeps(ss, ls, d, l);
    t := s.(cache := map[], pinned := {}, held := map[], lh := [], outstanding := 0, committing := false,
            ops := map[], phase := Booting, writes := s.writes[..s.boundary], groupOp := s.nextOp);
    StepKeeps(s, t, Recovered(d, l), l, CrashL);
  }

  /** After any run, with any number of crashes in it, one more crash and a recovery yield
      exactly the committed prefix of the writes, and no operation straddles its end. */
  lemma CrashAtomicity(ss: seq<State>, ls: seq<Label>, d: Disk, l: Layout)
    requires Run(ss, ls, d, l)
    ensures var s := ss[|ls|];
            && WfDisk(s.disk, l) && s.boundary <= |s.writes| && WfWrites(s.writes, l)
            && SameHome(Recovered(s.disk, l), Apply(Recovered(d, l), l, s.writes[..s.boundary]), l)
            && Head(Recovered(s.disk, l)[l.start]) == []
            && forall i, j :: 0 <= i < s.boundary <= j < |s.writes| ==> s.writes[i].op != s.writes[j].op
  {
    RunKeeps(ss, ls, d, l);
  }

  /** Durability: with no operation in progress and no commit running, every write made so
      far survives a crash, and the disk holds it already. */
  lemma QuietMeansDurable(ss: seq<State>, ls: seq<Label>, d: Disk, l: Layout)
    requires Run(ss, ls, d, l)
    ensures var s := ss[|ls|];
            s.phase.Running? && s.outstanding == 0 ==>
              && s.boundary == |s.writes| && WfWrites(s.writes, l) && |s.disk| == l.nblocks == |Recovered(d, l)|
              && SameHome(s.disk, Apply(Recovered(d, l), l, s.writes), l)
  {
    RunKeeps(ss, ls, d, l);
    var s := ss[|ls|];
    if s.phase.Running? && s.outstanding == 0 {
      assert s.ops == map[];
      assert forall x :: !Dirty(s, x);
      assert s.writes[..s.boundary] == s.writes;
      RecoveredEmpty(s.disk, l);
    }
  }

  /** Cache transparency: outside recovery a cached block, and a block about to be read
      from disk, hold the last value written, so cache, log and disk act as one array. */
  lemma CacheTransparency(ss: seq<State>, ls: seq<Label>, d: Disk, l: Layout, b: nat)
    requires Run(ss, ls, d, l) && l.Home(b)
    ensures var s := ss[|ls|];
            !Recovering(s.phase) ==>
              && WfWrites(s.writes, l) && |s.disk| == l.nblocks == |Recovered(d, l)|
              && (b in s.cache ==> s.cache[b] == Apply(Recovered(d, l), l, s.writes)[b])
              && (b !in s.cache ==> s.disk[b] == Apply(Recovered(d, l), l, s.writes)[b])
  {
    RunKeeps(ss, ls, d, l);
    var s := ss[|ls|];
    assert !Recovering(s.phase) ==> Logical(s, b) == Apply(Recovered(d, l), l, s.writes)[b];
  }

  lemma CommittedStep(s: State, t: State, l: Layout, a: Label)
    requires s.boundary <= |s.writes| && Step(s, t, l, a)
    ensures t.boundary <= |t.writes|
    ensures s.boundary <= t.boundary && s.writes[..s.boundary] <= t.writes[..t.boundary]
  {
  }

  /** What is committed stays committed: later in the run the committed prefix has only grown. */
  lemma {:induction false} CommittedGrows(ss: seq<State>, ls: seq<Label>, d: Disk, l: Layout, k: nat)
    requires Run(ss, ls, d, l) && k <= |ls|
    ensures ss[k].boundary <= |ss[k].writes| && ss[|ls|].boundary <= |ss[|ls|].writes|
    ensures ss[k].writes[..ss[k].boundary] <= ss[|ls|].writes[..ss[|ls|].boundary]
    decreases |ls|
  {
    if k == |ls| {
      RunKeeps(ss, ls, d, l);
    } else {
      var n := |ls| - 1;
      RunPrefix(ss, ls, d, l);
      CommittedGrows(ss[..n + 1], ls[..n], d, l, k);
      CommittedStep(ss[n], ss[n + 1], l, ls[n]);
    }
  }
}
