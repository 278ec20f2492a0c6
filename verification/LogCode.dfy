/** The code of the log, statement by statement: the in-memory header, the loops that copy
    blocks between cache, log and home, and the ghost trace of every disk the machine could
    be left with if it stopped after some block write.

    Beside it runs the protocol state `s`: every call from initlog to end_op is shown to be
    a sequence of protocol steps, so the theorems about runs hold of the code. */
module LogCode {
  import opened Basics
  import opened LogDisk
  import opened LogSteps
  import P = LogProtocol

  /** How log_write ends. */
  datatype Outcome = Done | TooBig | OutsideTransaction

  class Log {
    const l: Layout
    var disk: Disk
    var cache: map<nat, Block>
    var pinned: set<nat>
    var n: nat                // log.lh.n
    const block: array<nat>   // log.lh.block
    var outstanding: nat
    var committing: bool
    ghost var trace: seq<Disk>
    ghost const d0: Disk      // the disk at power-on
    ghost var s: P.State

    ghost predicate Valid()
      reads this, block
    {
      && WfDisk(disk, l)
      && block.Length == LOGSIZE && n <= LOGSIZE && l.WfHead(Entries())
      && forall b :: b in cache ==> b < |disk|
    }

    ghost function Entries(): (q: seq<nat>)
      reads this, block
      requires n <= block.Length
    {
      block[..n]
    }

    ghost function Mem(): Store
      reads this
    {
      Store(disk, cache)
    }

    /** Cached blocks outside `q` agree with the disk. */
    ghost predicate CleanBut(q: seq<nat>)
      reads this
    {
      Agree(Mem(), q)
    }

    /** The object is at the end of a run of the protocol: every field is the protocol's. */
    ghost predicate InRun()
      reads this, block
    {
      && Valid() && Reachable(s, d0, l)
      && s.disk == disk && s.cache == cache && s.pinned == pinned && s.lh == Entries()
      && s.outstanding == outstanding && s.committing == committing
    }

    constructor (l: Layout, disk: Disk)
      requires WfDisk(disk, l)
      ensures InRun() && s.phase.Booting? && d0 == disk
      ensures this.l == l && this.disk == disk && n == 0 && trace == [disk] && CleanBut([]) && fresh(block)
    {
      this.l := l;
      this.disk := disk;
      cache := map[];
      pinned := {};
      n := 0;
      block := new nat[LOGSIZE](_ => 0);
      outstanding := 0;
      committing := false;
      trace := [disk];
      d0 := disk;
      s := P.State(disk, map[], {}, map[], [], 0, false, map[], P.Booting, 0, 0, [], 0);
      new;
      assert P.Run([s], [], d0, l);
    }

    method Bread(b: nat) returns (v: Block)
      requires b < |disk|
      modifies this`cache
      ensures v == old(Mem()).Read(b) && cache == old(cache)[b := v]
    {
      if b in cache {
        v := cache[b];
      } else {
        v := disk[b];
      }
      cache := cache[b := v];
    }

    method Bwrite(b: nat, v: Block)
      requires b < |disk|
      modifies this`disk, this`cache, this`trace
      ensures disk == old(disk)[b := v] && cache == old(cache)[b := v]
      ensures trace == old(trace) + [disk]
    {
      disk := disk[b := v];
      cache := cache[b := v];
      trace := trace + [disk];
    }

    /** read_head: the on-disk header into memory. */
    method ReadHead()
      requires Valid() && CleanBut([])
      modifies this`cache, this`n, block
      ensures Valid() && CleanBut([]) && Entries() == Head(disk[l.start])
      ensures cache == old(cache)[l.start := disk[l.start]]
    {
      var buf := Bread(l.start);
      n := buf[0];
      var i := 0;
      while i < n
        invariant 0 <= i <= n == buf[0] <= LOGSIZE && block.Length == LOGSIZE
        invariant block[..i] == buf[1..1 + i]
        modifies block
      {
        block[i] := buf[1 + i];
        assert buf[1..1 + i + 1] == buf[1..1 + i] + [buf[1 + i]];
        i := i + 1;
      }
    }

    /** write_head: count and entries over the header block, one disk write. */
    method WriteHead()
      requires Valid() && Mem().Read(l.start) == disk[l.start]
      modifies this`disk, this`cache, this`trace
      ensures Valid() && trace == old(trace) + [disk]
      ensures disk == old(disk)[l.start := PutHead(old(disk)[l.start], Entries())]
      ensures Mem() == HeadRound(old(Mem()), l, Entries())
    {
      var buf := Bread(l.start);
      ghost var was := buf;
      buf := buf[0 := n];
      var i := 0;
      while i < n
        invariant 0 <= i <= n
        invariant buf == [n] + block[..i] + was[1 + i..]
      {
        buf := buf[1 + i := block[i]];
        i := i + 1;
      }
      assert buf == PutHead(was, Entries());
      Bwrite(l.start, buf);
    }

    /** One round of install_trans: a log block to its home, one disk write. */
    method InstallOne(tail: nat, recovering: bool)
      requires Valid() && tail < n
      modifies this`disk, this`cache, this`pinned, this`trace
      ensures Valid() && Mem() == InstallRound(old(Mem()), l, Entries(), tail)
      ensures pinned == if recovering then old(pinned) else old(pinned) - {Entries()[tail]}
      ensures trace == old(trace) + [disk]
    {
      assert block[tail] == Entries()[tail];
      var lbuf := Bread(l.Slot(tail));
      var dbuf := Bread(block[tail]);
      dbuf := lbuf;
      Bwrite(block[tail], dbuf);
      if !recovering {
        pinned := pinned - {block[tail]};
      }
    }

    /** install_trans: every logged block to its home, in order. */
    method InstallTrans(recovering: bool)
      requires Valid() && Entries() == Head(disk[l.start]) && SlotsAgree(Mem(), l)
      modifies this`disk, this`cache, this`pinned, this`trace
      ensures Valid() && SlotsAgree(Mem(), l)
      ensures disk == Installed(old(disk), l, Entries(), n)
      ensures old(CleanBut(Entries())) ==> CleanBut([])
      ensures pinned == if recovering then old(pinned) else old(pinned) - Named(Entries(), n)
      ensures old(trace) <= trace
      ensures forall k :: |old(trace)| <= k < |trace| ==> PartlyInstalled(old(disk), l, Entries(), trace[k])
      ensures Mem() == InstallRounds(old(Mem()), l, Entries(), n)
    {
      hide Installed, PartlyInstalled, SlotsAgree, Agree, Named, InstallRound;
      var tail := 0;
      ghost var m, hdr := Mem(), Entries();
      assert pinned == pinned - Named(hdr, 0) by {
        NamedNone(hdr);
      }
      while tail < n
        invariant 0 <= tail <= n == |hdr| && Entries() == hdr && Valid()
        invariant Mem() == InstallRounds(m, l, hdr, tail)
        invariant pinned == if recovering then old(pinned) else old(pinned) - Named(hdr, tail)
        invariant trace == old(trace) + InstallTrace(m, l, hdr, tail)
      {
        InstallOne(tail, recovering);
        tail := tail + 1;
        NamedNext(hdr, tail);
        assert !recovering ==> pinned == old(pinned) - Named(hdr, tail);
        TraceNext(old(trace), InstallTrace(m, l, hdr, tail - 1), disk);
      }
      InstallRoundsInstall(m, l, hdr, n);
      assert hdr[n..] == [];
      InstallTracePartly(m, l, hdr, old(trace));
    }

    /** recover_from_log.  A crash at any point inside it, and the recovery after that, lead
        to the same home blocks. */
    method RecoverFromLog()
      requires Valid() && CleanBut([])
      modifies this`disk, this`cache, this`pinned, this`trace, this`n, block
      ensures Valid() && CleanBut([]) && n == 0
      ensures disk == Recovered(old(disk), l) && Head(disk[l.start]) == []
      ensures old(trace) <= trace
      ensures forall k :: |old(trace)| <= k < |trace| ==> RecoversTo(trace[k], l, disk)
      ensures Mem() == RecoverRounds(old(Mem()), l, Head(old(disk)[l.start])) && pinned == old(pinned)
    {
      hide PartlyInstalled, Installed, InstallRounds;
      ghost var d := disk;
      ReadHead();
      ghost var hdr := Entries();
      InstallTrans(true);
      InstalledKeepsLog(d, l, hdr, |hdr|);
      n := 0;
      assert Entries() == [];
      WriteHead();
      RecoveredEmpty(disk, l);
      forall k | |old(trace)| <= k < |trace|
        ensures RecoversTo(trace[k], l, disk)
      {
        if k < |trace| - 1 {
          PartlyInstalledRecovers(d, l, hdr, trace[k]);
        }
      }
    }

    /** One round of write_log: a cached block to its log slot, one disk write. */
    method LogOne(tail: nat)
      requires Valid() && tail < n
      modifies this`disk, this`cache, this`trace
      ensures Valid() && Mem() == LogRound(old(Mem()), l, Entries(), tail)
      ensures trace == old(trace) + [disk]
    {
      assert block[tail] == Entries()[tail];
      var to := Bread(l.Slot(tail));
      var from := Bread(block[tail]);
      to := from;
      Bwrite(l.Slot(tail), to);
      assert disk[l.start] == old(disk)[l.start];
    }

    /** write_log: the current value of every entry into the log; home and header untouched. */
    method WriteLog()
      requires Valid()
      modifies this`disk, this`cache, this`trace
      ensures Valid() && disk[l.start] == old(disk)[l.start]
      ensures SameHome(disk, old(disk), l) && SameHome(View(Mem()), View(old(Mem())), l)
      ensures forall i :: 0 <= i < n ==> disk[l.Slot(i)] == View(Mem())[Entries()[i]]
      ensures old(CleanBut(Entries())) ==> CleanBut(Entries())
      ensures old(trace) <= trace
      ensures forall k :: |old(trace)| <= k < |trace| ==> SameOutsideSlots(old(disk), trace[k], l)
      ensures Mem() == LogRounds(old(Mem()), l, Entries(), n)
    {
      hide LogRound, Agree, View;
      var tail := 0;
      ghost var m, hdr := Mem(), Entries();
      while tail < n
        invariant 0 <= tail <= n == |hdr| && Valid() && Entries() == hdr
        invariant Mem() == LogRounds(m, l, hdr, tail)
        invariant trace == old(trace) + LogTrace(m, l, hdr, tail)
      {
        LogOne(tail);
        tail := tail + 1;
        TraceNext(old(trace), LogTrace(m, l, hdr, tail - 1), disk);
      }
      LogRoundsCopy(m, l, hdr, n, hdr);
      LogTraceSame(m, l, hdr, old(trace));
    }

    /** commit, which end_op calls with `committing` set, so that begin_op waits.  Every disk a crash
        could leave recovers to the home blocks from before the transaction, up to some write, and to
        all its updates from then on. */
    method Commit() returns (ghost cut: nat)
      requires committing && outstanding == 0
      requires Valid() && Head(disk[l.start]) == [] && CleanBut(Entries())
      modifies this`disk, this`cache, this`pinned, this`trace, this`n
      ensures Valid() && n == 0 && Head(disk[l.start]) == [] && CleanBut([])
      ensures SameHome(disk, View(old(Mem())), l) && SameHome(View(Mem()), View(old(Mem())), l)
      ensures pinned == old(pinned) - Named(old(Entries()), old(n))
      ensures old(trace) <= trace && |old(trace)| <= cut <= |trace|
      ensures old(n) > 0 ==> cut < |trace|
      ensures forall k :: |old(trace)| <= k < cut ==> RecoversTo(trace[k], l, old(disk))
      ensures forall k :: cut <= k < |trace| ==> RecoversTo(trace[k], l, View(old(Mem())))
      ensures Mem() == CommitRounds(old(Mem()), l, old(Entries()))
    {
      hide RecoversTo, SameOutsideSlots, Agree, LogRounds, InstallRounds, HeadRound, View, Recovered;
      ghost var d, v := disk, View(Mem());
      cut := |trace|;
      if n > 0 {
        WriteLog();
        cut := |trace|;
        assert forall k :: |old(trace)| <= k < cut ==> SameOutsideSlots(d, trace[k], l);
        WriteCommitHead(v);
        InstallAndErase(v);
        forall k | |old(trace)| <= k < cut
          ensures RecoversTo(trace[k], l, d)
        {
          LogOnlyRecovers(d, trace[k], l);
        }
      }
      assert Entries() == [];
      AgreeView(Mem());
    }

    /** The first write_head of commit: the commit point. */
    method WriteCommitHead(ghost v: Disk)
      requires Valid() && CleanBut(Entries()) && |v| == |disk| && SameHome(View(Mem()), v, l)
      requires forall i :: 0 <= i < n ==> disk[l.Slot(i)] == View(Mem())[Entries()[i]]
      modifies this`disk, this`cache, this`trace
      ensures Valid() && CleanBut(Entries()) && Head(disk[l.start]) == Entries()
      ensures trace == old(trace) + [disk] && RecoversTo(disk, l, v)
      ensures Mem() == HeadRound(old(Mem()), l, Entries())
    {
      ghost var hdr := Entries();
      assert l.start !in hdr;
      WriteHead();
      assert forall i :: 0 <= i < |hdr| ==> l.Home(hdr[i]) && disk[l.Slot(i)] == v[hdr[i]];
      CommitPoint(disk, l, hdr, v);
    }

    /** The rest of commit: install, then erase the header. */
    method InstallAndErase(ghost v: Disk)
      requires Valid() && CleanBut(Entries()) && Head(disk[l.start]) == Entries()
      requires |v| == |disk| && RecoversTo(disk, l, v)
      modifies this`disk, this`cache, this`pinned, this`trace, this`n
      ensures Valid() && n == 0 && Head(disk[l.start]) == [] && CleanBut([])
      ensures SameHome(disk, v, l)
      ensures pinned == old(pinned) - Named(old(Entries()), old(n))
      ensures old(trace) <= trace
      ensures forall k :: |old(trace)| <= k < |trace| ==> RecoversTo(trace[k], l, v)
      ensures Mem() == HeadRound(InstallRounds(old(Mem()), l, old(Entries()), old(n)), l, [])
    {
      hide PartlyInstalled, Installed, InstallRounds, RecoversTo;
      ghost var d, hdr := disk, Entries();
      InstallTrans(false);
      InstalledKeepsLog(d, l, hdr, |hdr|);
      n := 0;
      assert Entries() == [];
      WriteHead();
      assert disk == Recovered(d, l);
      RecoversFurther(d, disk, l, v);
      forall k | |old(trace)| <= k < |trace|
        ensures RecoversTo(trace[k], l, v)
      {
        if k < |trace| - 1 {
          PartlyInstalledRecovers(d, l, hdr, trace[k]);
          RecoversFurther(d, trace[k], l, v);
        }
      }
    }

    // ----- the calls, each a sequence of protocol steps

    /** Between any two calls a crash and a recovery lead back to the committed writes, all of
        them and no others, each operation whole or not at all. */
    lemma CrashBetweenCalls()
      requires InRun()
      ensures s.boundary <= |s.writes| && P.WfWrites(s.writes, l) && WfDisk(d0, l)
      ensures SameHome(Recovered(disk, l), P.Apply(Recovered(d0, l), l, s.writes[..s.boundary]), l)
      ensures forall i, j :: 0 <= i < s.boundary <= j < |s.writes| ==> s.writes[i].op != s.writes[j].op
    {
      ReachableKeeps(s, d0, l);
    }

    /** initlog, which runs recovery. */
    method Initlog()
      requires InRun() && s.phase.Booting?
      modifies this, block
      ensures InRun() && s.phase.Running? && n == 0
      ensures Leads(old(s), s, l, RecoverLabels(old(s), l, |Head(old(disk)[l.start])|))
      ensures disk == Recovered(old(disk), l)
    {
      ReachableKeeps(s, d0, l);
      BootingAgree(s, l);
      RecoverFromLog();
      ghost var hdr := Head(old(disk)[l.start]);
      RecoverSteps(s, l, hdr);
      LeadsReachable(s, AfterRecover(s, l, hdr), d0, l, RecoverLabels(s, l, |hdr|));
      s := AfterRecover(s, l, hdr);
      assert Entries() == [];
    }

    /** One pass through begin_op's loop, for process p; false means p sleeps and tries again.
        It succeeds exactly where the protocol lets an operation begin. */
    method TryBeginOp(ghost p: nat) returns (ok: bool)
      requires InRun() && !P.Recovering(s.phase) && p !in s.ops
      modifies this`outstanding, this`s
      ensures InRun()
      ensures ok <==> exists t :: P.BeginOp(old(s), t, p)
      ensures if ok then P.BeginOp(old(s), s, p) else s == old(s)
    {
      ok := false;
      if committing {
      } else if n + (outstanding + 1) * MAXOPBLOCKS > LOGSIZE {
      } else {
        outstanding := outstanding + 1;
        ghost var t := s.(outstanding := outstanding, ops := s.ops[p := P.Op(s.nextOp, 0)], nextOp := s.nextOp + 1);
        assert P.BeginOp(s, t, p);
        ReachableStep(s, t, d0, l, P.BeginOpL(p));
        s := t;
        ok := true;
      }
    }

    /** bread, which locks the buffer; it would wait if another process held it. */
    method BreadLocked(ghost p: nat, b: nat) returns (v: Block)
      requires InRun() && !P.Recovering(s.phase) && b < |disk| && b !in s.held
      modifies this`cache, this`s
      ensures InRun() && v == P.Logical(old(s), b)
      ensures Leads(old(s), s, l, ReadLabels(old(s), b) + [P.LockL(p, b)])
    {
      v := Bread(b);
      ghost var t := s.(cache := cache);
      ReadSteps(s, l, b);
      ghost var u := t.(held := s.held[b := P.Hold(p, false)]);
      assert P.Lock(t, u, p, b);
      LeadsNext(s, t, u, l, ReadLabels(s, b), P.LockL(p, b));
      LeadsReachable(s, u, d0, l, ReadLabels(s, b) + [P.LockL(p, b)]);
      s := u;
    }

    /** An operation changes the buffer it holds. */
    method Change(ghost p: nat, b: nat, v: Block)
      requires InRun() && p in s.ops && b in s.held && s.held[b].p == p && l.Home(b)
      modifies this`cache, this`s
      ensures InRun() && P.Modify(old(s), s, l, p, b, v)
    {
      hide Reachable, P.InvLog, P.InvValue, P.InvOps;
      ReachableKeeps(s, d0, l);
      cache := cache[b := v];
      ghost var t := s.(cache := cache, held := s.held[b := P.Hold(p, true)],
                        writes := s.writes + [P.Write(s.ops[p].id, b, v)]);
      ReachableStep(s, t, d0, l, P.ModifyL(p, b, v));
      s := t;
    }

    /** log_write: a block that is already logged is absorbed, a new one appended and pinned.
        Where it panics nothing has changed. */
    method LogWrite(ghost p: nat, b: nat) returns (r: Outcome)
      requires InRun() && p in s.ops && b in s.held && s.held[b].p == p && l.Home(b)
      modifies this`n, this`pinned, block, this`s
      ensures InRun()
      ensures r != Done <==> P.LogWritePanics(old(s), l)
      ensures r == TooBig <==> old(n) >= LOGSIZE || old(n) >= l.size - 1
      ensures if r == Done then P.LogWrite(old(s), s, l, p, b) else s == old(s)
    {
      hide Reachable;
      if n >= LOGSIZE || n >= l.size - 1 {
        return TooBig;
      }
      if outstanding < 1 {
        return OutsideTransaction;
      }
      ghost var q := Entries();
      Append(b);
      ghost var t := s.(held := s.held[b := P.Hold(p, false)]);
      if b !in q {
        t := t.(lh := q + [b], pinned := pinned, ops := s.ops[p := s.ops[p].(added := s.ops[p].added + 1)]);
      }
      assert P.LogWrite(s, t, l, p, b);
      ReachableStep(s, t, d0, l, P.LogWriteL(p, b));
      s := t;
      r := Done;
    }

    /** The search for the block and the slot it ends at. */
    method Append(b: nat)
      requires Valid() && l.Home(b) && n < LOGSIZE && n < l.size - 1
      modifies this`n, this`pinned, block
      ensures Valid()
      ensures Entries() == if b in old(Entries()) then old(Entries()) else old(Entries()) + [b]
      ensures pinned == if b in old(Entries()) then old(pinned) else old(pinned) + {b}
    {
      ghost var q := Entries();
      var i := 0;
      while i < n && block[i] != b
        invariant 0 <= i <= n && b !in q[..i]
      {
        assert q[..i + 1] == q[..i] + [q[i]];
        i := i + 1;
      }
      assert i < n ==> q[i] == b;
      assert i == n ==> q[..i] == q;
      block[i] := b;
      if i == n {
        pinned := pinned + {b};
        n := n + 1;
        assert Entries() == q + [b];
      } else {
        assert Entries() == q;
      }
    }

    /** bget takes the buffer of a block for another one: neither pinned nor locked. */
    method Recycle(b: nat)
      requires InRun() && b in cache && b !in pinned && b !in s.held
      modifies this`cache, this`s
      ensures InRun() && P.Evict(old(s), s, b) && b !in cache
    {
      cache := cache - {b};
      ghost var t := s.(cache := cache);
      ReachableStep(s, t, d0, l, P.EvictL(b));
      s := t;
    }

    /** brelse of a buffer whose change went through log_write. */
    method Brelse(ghost p: nat, b: nat)
      requires InRun() && b in s.held && s.held[b] == P.Hold(p, false)
      modifies this`s
      ensures InRun() && P.Release(old(s), s, p, b)
    {
      ghost var t := s.(held := s.held - {b});
      ReachableStep(s, t, d0, l, P.ReleaseL(p, b));
      s := t;
    }

    /** end_op: the panic is out of reach, and the last operation out commits for the group.
        A bread inside that commit would wait for a buffer that is still locked. */
    method EndOp(ghost p: nat) returns (panics: bool)
      requires InRun() && p in s.ops && !P.HoldsDirty(s, p)
      requires outstanding == 1 ==> Unlocked(s, l)
      modifies this
      ensures InRun() && !panics
      ensures Leads(old(s), s, l, EndLabels(old(s), p))
      ensures s.outstanding == old(s).outstanding - 1 && !s.committing
      ensures old(outstanding) == 1 ==> n == 0 && SameHome(disk, View(old(Mem())), l) && s.boundary == |s.writes|
    {
      hide Reachable, Leads, EndLabels, CommitRounds, Agree, View, RecoversTo, Recovered;
      hide P.HoldsDirty, P.InvCache, P.InvLog, P.InvOps, P.InvValue;
      ReachableKeeps(s, d0, l);
      EndSteps(s, l, Recovered(d0, l), p);
      ghost var t := AfterEnd(s, l, p);
      LeadsReachable(s, t, d0, l, EndLabels(s, p));
      if outstanding == 1 {
        EndClean(s, l, p);
      }
      var doCommit := false;
      outstanding := outstanding - 1;
      panics := committing;
      if panics {
        return;
      }
      if outstanding == 0 {
        doCommit := true;
        committing := true;
      }
      if doCommit {
        ghost var cut := Commit();
        assert old(s).lh == [] ==> pinned == old(pinned);
        ReachableQuiet(t, d0, l);
        committing := false;
      }
      s := t;
    }
  }

  /** Cached blocks outside `q` agree with the disk. */
  ghost predicate Agree(m: Store, q: seq<nat>) {
    forall b :: b in m.cache && b !in q ==> b < |m.disk| && m.cache[b] == m.disk[b]
  }

  /** Cached blocks of the log agree with the disk. */
  ghost predicate SlotsAgree(m: Store, l: Layout) {
    forall b :: b in m.cache && l.InLog(b) ==> b < |m.disk| && m.cache[b] == m.disk[b]
  }

  /** What a bread of each block would return. */
  ghost function View(m: Store): (v: Disk)
    ensures |v| == |m.disk|
    ensures forall b :: 0 <= b < |v| ==> v[b] == m.Read(b)
  {
    seq(|m.disk|, b requires 0 <= b < |m.disk| => m.Read(b))
  }

  lemma AgreeView(m: Store)
    requires Agree(m, [])
    ensures View(m) == m.disk
  {
  }

  /** While booting nothing is cached but what the disk has. */
  lemma BootingAgree(s: P.State, l: Layout)
    requires P.InvShape(s, l) && P.InvCache(s, l) && s.phase.Booting?
    ensures Agree(StoreOf(s), [])
  {
    assert forall b :: !P.Unsettled(s, b);
  }

  /** What commit relies on, when the last operation is about to end. */
  lemma EndClean(s: P.State, l: Layout, p: nat)
    requires P.InvShape(s, l) && P.InvCache(s, l) && P.InvLog(s, l)
    requires s.outstanding == 1 && p in s.ops && !P.HoldsDirty(s, p)
    ensures Head(s.disk[l.start]) == [] && Agree(StoreOf(s), s.lh)
  {
    assert s.phase.Running? && s.lh[P.Done(s)..] == s.lh;
    forall b | P.Dirty(s, b)
      ensures false
    {
      var q := s.held[b].p;
      assert q in s.ops && s.held[b] == P.Hold(q, true);
      OnlyOne(s.ops, p, q);
    }
  }

  lemma OnlyOne(ops: map<nat, P.Op>, p: nat, q: nat)
    requires |ops| == 1 && p in ops && q in ops
    ensures p == q
  {
    var rest := ops - {p};
    assert |rest| == 0;
    assert q in rest || q == p;
  }

  lemma NamedNone(hdr: seq<nat>)
    ensures Named(hdr, 0) == {}
  {
  }

  lemma TraceNext(a: seq<Disk>, b: seq<Disk>, d: Disk)
    ensures a + b + [d] == a + (b + [d])
  {
  }

  /** The disks between the rounds of install_trans. */
  ghost function InstallTrace(m: Store, l: Layout, hdr: seq<nat>, k: nat): (r: seq<Disk>)
    requires Fits(m, l, hdr) && k <= |hdr|
    ensures |r| == k
    ensures forall i :: 0 <= i < k ==> r[i] == InstallRounds(m, l, hdr, i + 1).disk
    decreases k
  {
    if k == 0 then [] else InstallTrace(m, l, hdr, k - 1) + [InstallRounds(m, l, hdr, k).disk]
  }

  /** The disks between the rounds of write_log. */
  ghost function LogTrace(m: Store, l: Layout, hdr: seq<nat>, k: nat): (r: seq<Disk>)
    requires Fits(m, l, hdr) && k <= |hdr|
    ensures |r| == k
    ensures forall i :: 0 <= i < k ==> r[i] == LogRounds(m, l, hdr, i + 1).disk
    decreases k
  {
    if k == 0 then [] else LogTrace(m, l, hdr, k - 1) + [LogRounds(m, l, hdr, k).disk]
  }

  /** Through the cache or not, install_trans copies what is in the log. */
  lemma {:induction false} InstallRoundsInstall(m: Store, l: Layout, hdr: seq<nat>, k: nat)
    requires Fits(m, l, hdr) && k <= |hdr| && SlotsAgree(m, l)
    ensures InstallRounds(m, l, hdr, k).disk == Installed(m.disk, l, hdr, k)
    ensures SlotsAgree(InstallRounds(m, l, hdr, k), l)
    ensures Agree(m, hdr) ==> Agree(InstallRounds(m, l, hdr, k), hdr[k..])
    decreases k
  {
    hide SlotsAgree, Agree, InstallRound;
    if k == 0 {
      assert hdr[0..] == hdr;
    } else {
      InstallRoundsInstall(m, l, hdr, k - 1);
      InstallRoundAgrees(InstallRounds(m, l, hdr, k - 1), l, hdr, k - 1);
    }
  }

  lemma InstallRoundAgrees(m: Store, l: Layout, hdr: seq<nat>, i: nat)
    requires Fits(m, l, hdr) && i < |hdr| && SlotsAgree(m, l)
    ensures var r := InstallRound(m, l, hdr, i);
            && r.disk == m.disk[hdr[i] := m.disk[l.Slot(i)]] && SlotsAgree(r, l)
            && (Agree(m, hdr[i..]) ==> Agree(r, hdr[i + 1..]))
  {
    assert l.Home(hdr[i]);
    P.DropMember(hdr, i);
  }

  lemma InstallTracePartly(m: Store, l: Layout, hdr: seq<nat>, before: seq<Disk>)
    requires Fits(m, l, hdr) && SlotsAgree(m, l)
    ensures var after := before + InstallTrace(m, l, hdr, |hdr|);
            forall k :: |before| <= k < |after| ==> PartlyInstalled(m.disk, l, hdr, after[k])
  {
    hide Installed, InstallRounds, InstallTrace, SlotsAgree, Agree;
    var trace := InstallTrace(m, l, hdr, |hdr|);
    forall i | 0 <= i < |trace|
      ensures PartlyInstalled(m.disk, l, hdr, trace[i])
    {
      InstallRoundsInstall(m, l, hdr, i + 1);
    }
    assert forall k :: |before| <= k < |before + trace| ==> (before + trace)[k] == trace[k - |before|];
  }

  lemma LogRoundCopies(m: Store, l: Layout, hdr: seq<nat>, i: nat, q: seq<nat>)
    requires Fits(m, l, hdr) && i < |hdr|
    ensures var r := LogRound(m, l, hdr, i);
            && SameOutsideSlots(m.disk, r.disk, l) && SameHome(View(r), View(m), l)
            && r.disk == m.disk[l.Slot(i) := View(m)[hdr[i]]]
            && (Agree(m, q) ==> Agree(r, q))
  {
    assert l.Home(hdr[i]);
  }

  /** write_log copies what a bread of each entry would return, and changes nothing else. */
  lemma {:induction false} LogRoundsCopy(m: Store, l: Layout, hdr: seq<nat>, k: nat, q: seq<nat>)
    requires Fits(m, l, hdr) && k <= |hdr|
    ensures var r := LogRounds(m, l, hdr, k);
            && SameOutsideSlots(m.disk, r.disk, l) && SameHome(View(r), View(m), l)
            && (forall i :: 0 <= i < k ==> r.disk[l.Slot(i)] == View(m)[hdr[i]])
            && (Agree(m, q) ==> Agree(r, q))
    decreases k
  {
    hide View, Agree, LogRound;
    if k > 0 {
      LogRoundsCopy(m, l, hdr, k - 1, q);
      LogRoundCopies(LogRounds(m, l, hdr, k - 1), l, hdr, k - 1, q);
      assert l.Home(hdr[k - 1]);
    }
  }

  lemma LogTraceSame(m: Store, l: Layout, hdr: seq<nat>, before: seq<Disk>)
    requires Fits(m, l, hdr)
    ensures var after := before + LogTrace(m, l, hdr, |hdr|);
            forall k :: |before| <= k < |after| ==> SameOutsideSlots(m.disk, after[k], l)
  {
    hide LogRounds, LogTrace, SameOutsideSlots, Agree, View;
    var trace := LogTrace(m, l, hdr, |hdr|);
    forall i | 0 <= i < |trace|
      ensures SameOutsideSlots(m.disk, trace[i], l)
    {
      LogRoundsCopy(m, l, hdr, i + 1, []);
    }
    assert forall k :: |before| <= k < |before + trace| ==> (before + trace)[k] == trace[k - |before|];
  }

  /** Some number of entries has been copied home. */
  ghost predicate PartlyInstalled(d: Disk, l: Layout, hdr: seq<nat>, e: Disk)
    requires l.Wf() && |d| == l.nblocks && l.WfHead(hdr)
  {
    exists j :: 0 <= j <= |hdr| && e == Installed(d, l, hdr, j)
  }

  /** The disk recovers to the home blocks of `home`, and its log ends up empty. */
  ghost predicate RecoversTo(d: Disk, l: Layout, home: Disk)
    requires l.Wf() && |home| == l.nblocks
  {
    WfDisk(d, l) && SameHome(Recovered(d, l), home, l) && Head(Recovered(d, l)[l.start]) == []
  }

  /** Only log slots differ. */
  ghost predicate SameOutsideSlots(d: Disk, e: Disk, l: Layout)
    requires l.Wf() && |d| == l.nblocks
  {
    |e| == |d| && e[l.start] == d[l.start] && SameHome(e, d, l)
  }

  lemma InstalledKeepsLog(d: Disk, l: Layout, hdr: seq<nat>, k: nat)
    requires l.Wf() && |d| == l.nblocks && l.WfHead(hdr) && k <= |hdr|
    ensures SameLog(d, Installed(d, l, hdr, k), l)
  {
    forall b | 0 <= b < l.nblocks && l.InLog(b)
      ensures d[b] == Installed(d, l, hdr, k)[b]
    {
      InstalledAt(d, l, hdr, k, b);
    }
  }

  lemma PartlyInstalledRecovers(d: Disk, l: Layout, hdr: seq<nat>, e: Disk)
    requires WfDisk(d, l) && hdr == Head(d[l.start]) && PartlyInstalled(d, l, hdr, e)
    ensures RecoversTo(e, l, Recovered(d, l))
  {
    var j :| 0 <= j <= |hdr| && e == Installed(d, l, hdr, j);
    InstalledKeepsLog(d, l, hdr, j);
    RecoveredReplay(d, e, l, j);
  }

  /** What recovers as d does, or is what d recovers to, recovers to what d does. */
  lemma RecoversFurther(d: Disk, e: Disk, l: Layout, v: Disk)
    requires l.Wf() && |v| == l.nblocks && RecoversTo(d, l, v)
    requires RecoversTo(e, l, Recovered(d, l)) || (e == Recovered(d, l) && WfDisk(e, l))
    ensures RecoversTo(e, l, v) && (e == Recovered(d, l) ==> SameHome(e, v, l))
  {
    hide Recovered;
    if e == Recovered(d, l) {
      RecoveredEmpty(e, l);
      RecoveredHead(e, l);
    }
  }

  lemma RecoveredHead(d: Disk, l: Layout)
    requires WfDisk(d, l)
    ensures Head(Recovered(d, l)[l.start]) == []
  {
  }

  lemma LogOnlyRecovers(d: Disk, e: Disk, l: Layout)
    requires WfDisk(d, l) && Head(d[l.start]) == [] && SameOutsideSlots(d, e, l)
    ensures RecoversTo(e, l, d)
  {
    RecoveredEmpty(e, l);
  }

  /** With the header on disk and every entry's value in its slot, recovery yields the new
      values. */
  lemma CommitPoint(d: Disk, l: Layout, hdr: seq<nat>, v: Disk)
    requires WfDisk(d, l) && Head(d[l.start]) == hdr && |v| == |d|
    requires forall i :: 0 <= i < |hdr| ==> d[l.Slot(i)] == v[hdr[i]]
    requires forall b :: 0 <= b < |d| && l.Home(b) && b !in hdr ==> d[b] == v[b]
    ensures RecoversTo(d, l, v)
  {
    forall b | 0 <= b < l.nblocks && l.Home(b)
      ensures Recovered(d, l)[b] == v[b]
    {
      RecoveredAt(d, l, b);
      assert hdr[..|hdr|] == hdr;
    }
  }

  /** A disk that a crash inside (or after) the recovery of d may leave. */
  ghost predicate LeftByRecovery(d: Disk, e: Disk, l: Layout) {
    WfDisk(d, l) && (PartlyInstalled(d, l, Head(d[l.start]), e) || e == Recovered(d, l))
  }

  /** Any number of crashes inside recovery: the recovery that completes at last leaves what
      one undisturbed recovery would have left. */
  lemma {:induction false} CrashesDuringRecovery(ds: seq<Disk>, l: Layout)
    requires ds != [] && WfDisk(ds[0], l)
    requires forall i {:trigger ds[i]} :: 0 <= i < |ds| - 1 ==> LeftByRecovery(ds[i], ds[i + 1], l)
    ensures RecoversTo(ds[|ds| - 1], l, Recovered(ds[0], l))
    decreases |ds|
  {
    var n := |ds| - 1;
    if n > 0 {
      CrashesDuringRecovery(ds[..n], l);
      var d, e := ds[n - 1], ds[n];
      if e == Recovered(d, l) {
        assert PartlyInstalled(d, l, Head(d[l.start]), Installed(d, l, Head(d[l.start]), |Head(d[l.start])|));
        RecoveredEmpty(e, l);
      } else {
        PartlyInstalledRecovers(d, l, Head(d[l.start]), e);
      }
    }
  }
}
