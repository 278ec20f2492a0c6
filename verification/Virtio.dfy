/** The disk driver: descriptors, the two rings, requests and completions.  Every method runs under
    vdisk_lock, or is a step of the device, which may take requests and report them in any order. */
module Virtio {
  import opened Basics
  import opened VirtioSpec

  class Disk {
    var free: seq<bool>
    var desc: seq<Desc>
    var info: seq<Info>
    var availRing: seq<nat>
    var availIdx: nat        // avail->idx, 16 bits
    var takenIdx: nat        // the device's place in the avail ring, 16 bits
    var usedRing: seq<nat>
    var usedIdx: nat         // used->idx, 16 bits
    var seenIdx: nat         // disk.used_idx, 16 bits
    var busy: set<nat>       // the buffers whose disk flag is set
    ghost var owner: seq<Option<nat>>
    ghost var ops: Ops
    ghost var availLog: seq<nat>  // every head ever made available, and how many the device took
    ghost var taken: nat
    ghost var usedLog: seq<nat>   // every head ever reported, and how many the driver has seen
    ghost var seen: nat

    ghost function V(): View
      reads this
    {
      View(free, desc, owner, ops, info, busy, Queue(availRing, availIdx, takenIdx, availLog, taken), Queue(usedRing, usedIdx, seenIdx, usedLog, seen))
    }

    ghost predicate Valid()
      reads this
    {
      Ok(V())
    }

    constructor ()
      ensures Valid() && ops == map[] && forall i :: 0 <= i < NUM ==> free[i] && desc[i] == Desc(false, false, 0)
    {
      free := seq(NUM, _ => true);
      desc := seq(NUM, _ => Desc(false, false, 0));
      info := seq(NUM, _ => Info(None, 0));
      availRing, availIdx, takenIdx := seq(NUM, _ => 0), 0, 0;
      usedRing, usedIdx, seenIdx := seq(NUM, _ => 0), 0, 0;
      busy := {};
      owner, ops := seq(NUM, _ => None), map[];
      availLog, taken, usedLog, seen := [], 0, [], 0;
    }

    /** alloc_desc: the lowest free descriptor, or -1. */
    method AllocDesc() returns (i: int)
      requires |free| == NUM
      modifies this`free
      ensures i == -1 || (0 <= i < NUM && old(free)[i] && free == old(free)[i := false])
      ensures i == -1 ==> free == old(free) && forall k :: 0 <= k < NUM ==> !free[k]
      ensures forall k :: 0 <= k < i ==> !old(free)[k]
    {
      for k := 0 to NUM
        invariant free == old(free) && forall j :: 0 <= j < k ==> !free[j]
      {
        if free[k] {
          free := free[k := false];
          return k;
        }
      }
      i := -1;
    }

    /** free_desc, which panics on a bad or a free descriptor. */
    method FreeDesc(i: nat)
      requires |free| == |desc| == NUM && i < NUM && !free[i]
      modifies this`free, this`desc
      ensures free == old(free)[i := true] && desc == old(desc)[i := Desc(false, false, 0)]
    {
      desc := desc[i := Desc(false, false, 0)];
      free := free[i := true];
    }

    /** free_chain on a chain: exactly its descriptors become free. */
    method FreeChain(h: nat, ghost op: Op)
      requires |free| == NUM && Chain(desc, h, op) && !free[h] && !free[op.d1] && !free[op.d2]
      modifies this`free, this`desc
      ensures free == old(free)[h := true][op.d1 := true][op.d2 := true] && |desc| == NUM
      ensures forall i :: 0 <= i < NUM && i != h && i != op.d1 && i != op.d2 ==> desc[i] == old(desc)[i]
    {
      var i := h;
      ghost var chain, k := [h, op.d1, op.d2], 0;
      while true
        invariant |free| == |desc| == NUM && 0 <= k < 3 && i == chain[k] && free == Freed(old(free), chain, k)
        invariant forall j :: k <= j < 3 ==> !free[chain[j]] && desc[chain[j]] == old(desc)[chain[j]]
        invariant forall j :: 0 <= j < NUM && j !in chain ==> desc[j] == old(desc)[j]
        decreases 3 - k
      {
        var hasNext, next := desc[i].hasNext, desc[i].next;
        FreeDesc(i);
        if !hasNext {
          break;
        }
        i := next;
        k := k + 1;
      }
    }

    /** alloc3_desc: three free descriptors, if there are three; else the free ones are as before. */
    method Alloc3() returns (ok: bool, idx: seq<nat>)
      requires |free| == |desc| == NUM
      modifies this`free, this`desc
      ensures |free| == |desc| == NUM && forall i :: 0 <= i < NUM && !old(free)[i] ==> desc[i] == old(desc)[i]
      ensures ok <==> |FreeSet(old(free))| >= 3
      ensures !ok ==> free == old(free)
      ensures ok ==> |idx| == 3 && AllFree(old(free), idx) && free == old(free)[idx[0] := false][idx[1] := false][idx[2] := false] && desc == old(desc)
    {
      idx := [];
      for n := 0 to 3
        invariant |idx| == n && AllFree(old(free), idx) && desc == old(desc) && |free| == NUM
        invariant forall k :: 0 <= k < NUM ==> free[k] == (old(free)[k] && k !in idx)
      {
        var i := AllocDesc();
        if i < 0 {
          AtMost(old(free), idx);
          GiveBack(idx, old(free));
          return false, idx;
        }
        idx := idx + [i];
      }
      AtLeast(old(free), idx);
      ok := true;
    }

    method GiveBack(idx: seq<nat>, ghost before: seq<bool>)
      requires |free| == |desc| == |before| == NUM && AllFree(before, idx)
      requires forall k :: 0 <= k < NUM ==> free[k] == (before[k] && k !in idx)
      modifies this`free, this`desc
      ensures free == before && |desc| == NUM && forall i :: 0 <= i < NUM && !before[i] ==> desc[i] == old(desc)[i]
    {
      for j := 0 to |idx|
        invariant |free| == |desc| == NUM && forall i :: 0 <= i < NUM && !before[i] ==> desc[i] == old(desc)[i]
        invariant forall k :: 0 <= k < NUM ==> free[k] == (before[k] && k !in idx[j..])
      {
        FreeDesc(idx[j]);
      }
    }

    /** virtio_disk_rw up to the wait: queue a request for b.  Without three free descriptors the
        caller sleeps, with nothing changed, and tries again. */
    method Submit(b: nat, write: bool) returns (head: Option<nat>)
      requires Valid() && forall g :: g in ops ==> ops[g].b != b
      modifies this
      ensures Valid()
      ensures head.Some? <==> |FreeSet(old(free))| >= 3
      ensures head.None? ==> V() == old(V()).(desc := desc)
      ensures head.Some? ==> Submitted(old(V()), V(), head.value, b, write)
    {
      hide Chains, Infos, QueueOk, Ok, SubmitView;
      ghost var v := V();
      Sizes(v);
      var ok, idx := Alloc3();
      if ok {
        SubmitOk(v, idx[0], Op(b, write, idx[1], idx[2], Queued));
        Queue3(b, write, idx[0], idx[1], idx[2], v);
        head := Some(idx[0]);
      } else {
        FreeDescsOk(v, desc);
        head := None;
      }
    }

    /** The request, with the three descriptors it was given. */
    method Queue3(b: nat, write: bool, h: nat, d1: nat, d2: nat, ghost v: View)
      requires |v.free| == |v.desc| == |v.owner| == |v.info| == |v.avail.ring| == NUM && h < NUM && d1 < NUM && d2 < NUM
      requires V() == v.(free := v.free[h := false][d1 := false][d2 := false])
      modifies this`desc, this`info, this`busy, this`availRing, this`availIdx, this`owner, this`ops, this`availLog
      ensures V() == SubmitView(v, h, Op(b, write, d1, d2, Queued)) && ops == old(ops)[h := Op(b, write, d1, d2, Queued)]
    {
      Fill(b, write, h, d1, d2);
    }

    /** Filling in the descriptors, the request's buffer and the avail ring. */
    method Fill(b: nat, write: bool, h: nat, d1: nat, d2: nat)
      requires |free| == |desc| == |owner| == |info| == |availRing| == NUM && h < NUM && d1 < NUM && d2 < NUM
      modifies this`desc, this`info, this`busy, this`availRing, this`availIdx, this`owner, this`ops, this`availLog
      ensures desc == Formatted(old(desc), h, d1, d2, write) && info == old(info)[h := Info(Some(b), 0xff)] && busy == old(busy) + {b}
      ensures availRing == old(availRing)[old(availIdx) % NUM := h] && availIdx == (old(availIdx) + 1) % IDX && availLog == old(availLog) + [h]
      ensures owner == old(owner)[h := Some(h)][d1 := Some(h)][d2 := Some(h)] && ops == old(ops)[h := Op(b, write, d1, d2, Queued)]
    {
      desc := desc[h := Desc(true, false, d1)];
      desc := desc[d1 := Desc(true, !write, d2)];
      info := info[h := Info(Some(b), 0xff)];
      desc := desc[d2 := Desc(false, true, 0)];
      busy := busy + {b};
      availRing := availRing[availIdx % NUM := h];
      availIdx := (availIdx + 1) % IDX;
      owner, ops := owner[h := Some(h)][d1 := Some(h)][d2 := Some(h)], ops[h := Op(b, write, d1, d2, Queued)];
      availLog := availLog + [h];
    }

    /** The device reads the next entry of the avail ring: the oldest request not yet taken, its
        chain as the driver filled it in. */
    method DeviceTake() returns (h: nat)
      requires Valid() && takenIdx != availIdx
      modifies this`takenIdx, this`taken, this`ops
      ensures Valid() && old(taken) < |availLog| && taken == old(taken) + 1 && h == availLog[old(taken)]
      ensures h in old(ops) && old(ops)[h].stage.Queued? && ops == old(ops)[h := old(ops)[h].(stage := Taken)]
      ensures Chain(desc, h, old(ops)[h])
    {
      hide Chains, Infos, QueueOk;
      TakeOk(V());
      h := availRing[takenIdx % NUM];
      takenIdx := (takenIdx + 1) % IDX;
      taken, ops := taken + 1, ops[h := ops[h].(stage := Taken)];
    }

    /** The device reports a request it has taken, with status 0. */
    method DeviceReport(h: nat)
      requires Valid() && h in ops && ops[h].stage.Taken?
      modifies this`info, this`usedRing, this`usedIdx, this`usedLog, this`ops
      ensures Valid() && usedLog == old(usedLog) + [h] && ops == old(ops)[h := old(ops)[h].(stage := Reported)]
    {
      hide Chains, Infos, QueueOk, Ok;
      ghost var v := V();
      ReportOk(v, h);
      info := info[h := info[h].(status := 0)];
      usedRing := usedRing[usedIdx % NUM := h];
      usedIdx := (usedIdx + 1) % IDX;
      usedLog, ops := usedLog + [h], ops[h := ops[h].(stage := Reported)];
      assert V() == ReportView(v, h);
    }

    /** One round of virtio_disk_intr: the status is 0, and the flag cleared is the one of the buffer
        of the reported request, which was set. */
    method See()
      requires Valid() && seenIdx != usedIdx
      modifies this`busy, this`seenIdx, this`seen, this`ops
      ensures Valid() && old(seen) < |usedLog| && seen == old(seen) + 1
      ensures var h := usedLog[old(seen)];
              && h in old(ops) && old(ops)[h].stage.Reported? && ops == old(ops)[h := old(ops)[h].(stage := Done)]
              && old(ops)[h].b in old(busy) && busy == old(busy) - {old(ops)[h].b}
    {
      hide Chains, Infos, QueueOk, Ok;
      ghost var v := V();
      SeeOk(v);
      var id := usedRing[seenIdx % NUM];
      assert info[id].status == 0;
      busy := busy - {info[id].b.value};
      seenIdx := (seenIdx + 1) % IDX;
      seen, ops := seen + 1, ops[id := ops[id].(stage := Done)];
      assert V() == SeeView(v, id);
    }

    /** virtio_disk_intr.  Between rounds the device goes on: it takes requests, and reports those of
        `late` at times of its choosing, n of them before the last look at the ring.  Exactly these
        and the ones reported before are done in the end. */
    method Intr(late: seq<nat>) returns (n: nat)
      requires Valid() && AtDevice(ops, late)
      modifies this
      ensures Valid() && n <= |late| && usedLog == old(usedLog) + late[..n] && seen == |usedLog|
      ensures availLog == old(availLog) && old(taken) <= taken <= |availLog|
      ensures Progress(old(ops), ops, late[..n], availLog[old(taken)..taken], true)
    {
      hide Chains, Infos, QueueOk, Progress;
      n := 0;
      Sizes(V());
      ProgressNone(ops);
      assert late[..0] == [] && availLog[taken..taken] == [];
      while true
        invariant Valid() && n <= |late| && usedLog == old(usedLog) + late[..n] && seen <= |usedLog|
        invariant availLog == old(availLog) && old(taken) <= taken <= |availLog|
        invariant Progress(old(ops), ops, late[..n], availLog[old(taken)..taken], false)
        decreases |old(usedLog)| + |late| - seen
      {
        n := DeviceSteps(late, n, old(ops), old(taken), old(usedLog));
        if seenIdx == usedIdx {
          break;
        }
        ghost var ops' := ops;
        See();
        ProgressSee(old(ops), ops', ops, late[..n], availLog[old(taken)..taken], usedLog[seen - 1]);
      }
      NoneLeft(V(), old(ops), late[..n], availLog[old(taken)..taken]);
    }

    /** Any number of steps of the device. */
    method DeviceSteps(late: seq<nat>, from: nat, ghost ops0: Ops, ghost taken0: nat, ghost usedLog0: seq<nat>) returns (n: nat)
      requires Valid() && AtDevice(ops0, late) && from <= |late| && usedLog == usedLog0 + late[..from] && taken0 <= taken <= |availLog|
      requires Progress(ops0, ops, late[..from], availLog[taken0..taken], false)
      modifies this`takenIdx, this`taken, this`info, this`usedRing, this`usedIdx, this`usedLog, this`ops
      ensures Valid() && from <= n <= |late| && usedLog == usedLog0 + late[..n] && taken0 <= taken <= |availLog|
      ensures Progress(ops0, ops, late[..n], availLog[taken0..taken], false)
    {
      hide Chains, Infos, QueueOk, Progress;
      n := from;
      var to :| from <= to <= |late|;
      while n < to
        invariant Valid() && from <= n <= to && usedLog == usedLog0 + late[..n] && taken0 <= taken <= |availLog|
        invariant Progress(ops0, ops, late[..n], availLog[taken0..taken], false)
      {
        TakeSome(late[..n], ops0, taken0);
        ghost var ops' := ops;
        ProgressLate(ops0, ops, late, n, availLog[taken0..taken]);
        DeviceReport(late[n]);
        ProgressReport(ops0, ops', ops, late, n, availLog[taken0..taken]);
        n := n + 1;
      }
      TakeSome(late[..n], ops0, taken0);
    }

    /** The device takes as many requests as it likes. */
    method TakeSome(ghost reported: seq<nat>, ghost ops0: Ops, ghost taken0: nat)
      requires Valid() && taken0 <= taken <= |availLog| && Progress(ops0, ops, reported, availLog[taken0..taken], false)
      modifies this`takenIdx, this`taken, this`ops
      ensures Valid() && taken0 <= taken <= |availLog| && Progress(ops0, ops, reported, availLog[taken0..taken], false)
    {
      hide Chains, Infos, QueueOk, Progress;
      var more: bool := *;
      while more && takenIdx != availIdx
        invariant Valid() && taken0 <= taken <= |availLog| && Progress(ops0, ops, reported, availLog[taken0..taken], false)
        decreases |availLog| - taken
      {
        ghost var ops' := ops;
        var h := DeviceTake();
        ProgressTake(ops0, ops', ops, reported, availLog[taken0..taken - 1], h);
        assert availLog[taken0..taken] == availLog[taken0..taken - 1] + [h];
        more := *;
      }
    }

    /** virtio_disk_rw after the wait: the flag of b is clear, so its request is done; its chain, and
        nothing else, becomes free. */
    method Finish(h: nat)
      requires Valid() && h in ops && ops[h].b !in busy
      modifies this`free, this`desc, this`info, this`owner, this`ops
      ensures Valid() && old(ops)[h].stage.Done? && ops == old(ops) - {h}
      ensures old(ops)[h].d1 < NUM && old(ops)[h].d2 < NUM && h < NUM && |old(free)| == NUM
      ensures free == old(free)[h := true][old(ops)[h].d1 := true][old(ops)[h].d2 := true]
    {
      hide Chains, Infos, QueueOk, Ok;
      ghost var v, op := V(), ops[h];
      Request(v, h);
      info := info[h := info[h].(b := None)];
      FreeChain(h, op);
      FinishOk(v, h, desc);
      owner, ops := owner[h := None][op.d1 := None][op.d2 := None], ops - {h};
      assert V() == FinishView(v, h, desc);
    }
  }

  /** The free flags once the first k of the chain are freed. */
  function Freed(free: seq<bool>, chain: seq<nat>, k: nat): (r: seq<bool>)
    requires k <= |chain| && forall j :: 0 <= j < |chain| ==> chain[j] < |free|
    ensures |r| == |free|
  {
    if k == 0 then free else Freed(free, chain, k - 1)[chain[k - 1] := true]
  }

  /** Distinct requests that the device has taken. */
  ghost predicate AtDevice(ops: Ops, late: seq<nat>) {
    && (forall k :: 0 <= k < |late| ==> late[k] in ops && ops[late[k]].stage.Taken?)
    && forall k, m :: 0 <= k < m < |late| ==> late[k] != late[m]
  }

  /** Of the requests in ops, those in `taken` were queued and now are taken; the reported ones, old and
      new, are done, or some of them still reported if not all were seen; the rest are as before. */
  ghost predicate Progress(ops: Ops, ops': Ops, reported: seq<nat>, taken: seq<nat>, all: bool) {
    && ops'.Keys == ops.Keys
    && (forall h :: h in taken ==> h in ops && ops[h].stage.Queued?)
    && forall h :: h in ops ==>
         if ops[h].stage.Reported? || h in reported
         then ops'[h] == ops[h].(stage := Done) || (!all && ops'[h] == ops[h].(stage := Reported))
         else ops'[h] == ops[h].(stage := if h in taken then Taken else ops[h].stage)
  }

  lemma ProgressNone(ops: Ops)
    ensures Progress(ops, ops, [], [], false)
  {
  }

  lemma ProgressSee(ops0: Ops, ops: Ops, ops': Ops, reported: seq<nat>, taken: seq<nat>, h: nat)
    requires Progress(ops0, ops, reported, taken, false) && h in ops && ops[h].stage.Reported? && ops' == ops[h := ops[h].(stage := Done)]
    ensures Progress(ops0, ops', reported, taken, false)
  {
  }

  lemma ProgressTake(ops0: Ops, ops: Ops, ops': Ops, reported: seq<nat>, taken: seq<nat>, h: nat)
    requires Progress(ops0, ops, reported, taken, false) && h in ops && ops[h].stage.Queued? && ops' == ops[h := ops[h].(stage := Taken)]
    ensures Progress(ops0, ops', reported, taken + [h], false)
  {
  }

  lemma ProgressLate(ops0: Ops, ops: Ops, late: seq<nat>, n: nat, taken: seq<nat>)
    requires AtDevice(ops0, late) && n < |late| && Progress(ops0, ops, late[..n], taken, false)
    ensures late[n] in ops && ops[late[n]].stage.Taken?
  {
  }

  lemma ProgressReport(ops0: Ops, ops: Ops, ops': Ops, late: seq<nat>, n: nat, taken: seq<nat>)
    requires AtDevice(ops0, late) && n < |late| && Progress(ops0, ops, late[..n], taken, false)
    requires late[n] in ops && ops' == ops[late[n] := ops[late[n]].(stage := Reported)]
    ensures Progress(ops0, ops', late[..n + 1], taken, false)
  {
    assert late[..n + 1] == late[..n] + [late[n]];
    assert late[n] !in taken;
  }

  lemma NoneLeft(v: View, ops: Ops, reported: seq<nat>, taken: seq<nat>)
    requires Ok(v) && v.used.readIdx == v.used.idx && Progress(ops, v.ops, reported, taken, false)
    ensures v.used.read == |v.used.log| && Progress(ops, v.ops, reported, taken, true)
  {
    RingEmpty(v.used.ring, v.used.log, v.used.read, v.used.idx);
  }

  /** The free descriptors. */
  function FreeSet(free: seq<bool>): set<nat> {
    set i | 0 <= i < |free| && free[i]
  }

  lemma AtLeast(free: seq<bool>, idx: seq<nat>)
    requires |idx| == 3 && AllFree(free, idx)
    ensures |FreeSet(free)| >= 3
  {
    var a := {idx[0], idx[1], idx[2]};
    assert |FreeSet(free) - a| == |FreeSet(free)| - |a|;
  }

  lemma AtMost(free: seq<bool>, idx: seq<nat>)
    requires |idx| < 3 && forall i :: 0 <= i < |free| && free[i] ==> i in idx
    ensures |FreeSet(free)| < 3
  {
    var a := if idx == [] then {} else {idx[0], idx[|idx| - 1]};
    assert FreeSet(free) <= a;
    assert |a - FreeSet(free)| == |a| - |FreeSet(free)|;
  }

  /** Distinct descriptors, all free. */
  ghost predicate AllFree(free: seq<bool>, idx: seq<nat>) {
    && |free| == NUM && (forall k :: 0 <= k < |idx| ==> idx[k] < NUM && free[idx[k]])
    && forall k, m :: 0 <= k < m < |idx| ==> idx[k] != idx[m]
  }
}
