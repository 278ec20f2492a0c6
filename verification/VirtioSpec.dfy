/** The descriptors and rings of the disk driver, on values. */
module VirtioSpec {
  import opened Basics

  const NUM := 8
  const IDX := 65536

  /** A descriptor's flags and next field. */
  datatype Desc = Desc(hasNext: bool, deviceWrites: bool, next: nat)

  datatype Info = Info(b: Option<nat>, status: nat)

  /** Where a request is: in the avail ring, at the device, in the used ring, or seen by the driver. */
  datatype Stage = Queued | Taken | Reported | Done

  /** A request for buffer b whose chain is its head, d1 and d2. */
  datatype Op = Op(b: nat, write: bool, d1: nat, d2: nat, stage: Stage)

  /** Requests by head. */
  type Ops = map<nat, Op>

  // ----- chains

  predicate InChain(ops: Ops, h: nat, i: nat) {
    h in ops && (i == h || i == ops[h].d1 || i == ops[h].d2)
  }

  /** Three distinct descriptors linked in order, of which the driver told the device what to write. */
  predicate Chain(desc: seq<Desc>, h: nat, op: Op) {
    && |desc| == NUM && h < NUM && op.d1 < NUM && op.d2 < NUM && h != op.d1 && h != op.d2 && op.d1 != op.d2
    && desc[h] == Desc(true, false, op.d1) && desc[op.d1] == Desc(true, !op.write, op.d2) && desc[op.d2] == Desc(false, true, 0)
  }

  /** Chains and free descriptors partition all descriptors: owner names the chain of each one. */
  ghost predicate Chains(free: seq<bool>, desc: seq<Desc>, owner: seq<Option<nat>>, ops: Ops) {
    && |free| == |desc| == |owner| == NUM
    && (forall h :: h in ops ==> Chain(desc, h, ops[h]))
    && (forall h :: h in ops ==> owner[h] == owner[ops[h].d1] == owner[ops[h].d2] == Some(h))
    && (forall i :: 0 <= i < NUM ==> (free[i] <==> owner[i].None?))
    && (forall i :: 0 <= i < NUM && owner[i].Some? ==> InChain(ops, owner[i].value, i))
  }

  lemma ChainsAdd(free: seq<bool>, desc: seq<Desc>, owner: seq<Option<nat>>, ops: Ops, h: nat, op: Op, desc': seq<Desc>)
    requires Chains(free, desc, owner, ops) && Chain(desc', h, op) && free[h] && free[op.d1] && free[op.d2]
    requires forall i :: 0 <= i < NUM && i != h && i != op.d1 && i != op.d2 ==> desc'[i] == desc[i]
    ensures h !in ops
    ensures Chains(free[h := false][op.d1 := false][op.d2 := false], desc', owner[h := Some(h)][op.d1 := Some(h)][op.d2 := Some(h)], ops[h := op])
  {
    var owner', ops' := owner[h := Some(h)][op.d1 := Some(h)][op.d2 := Some(h)], ops[h := op];
    forall g | g in ops'
      ensures Chain(desc', g, ops'[g]) && owner'[g] == owner'[ops'[g].d1] == owner'[ops'[g].d2] == Some(g)
    {
      if g != h {
        assert Chain(desc, g, ops[g]) && owner[g] == owner[ops[g].d1] == owner[ops[g].d2] == Some(g);
      }
    }
    forall i | 0 <= i < NUM && owner'[i].Some?
      ensures InChain(ops', owner'[i].value, i)
    {
      if owner'[i] != Some(h) {
        assert InChain(ops, owner[i].value, i);
      }
    }
  }

  lemma ChainsApart(free: seq<bool>, desc: seq<Desc>, owner: seq<Option<nat>>, ops: Ops, h: nat, g: nat, i: nat)
    requires Chains(free, desc, owner, ops) && InChain(ops, g, i) && g != h
    ensures i < NUM && !InChain(ops, h, i) && owner[i] == Some(g)
  {
    assert Chain(desc, g, ops[g]);
  }

  lemma ChainsRemove(free: seq<bool>, desc: seq<Desc>, owner: seq<Option<nat>>, ops: Ops, h: nat, desc': seq<Desc>)
    requires Chains(free, desc, owner, ops) && h in ops && |desc'| == NUM
    requires forall i :: 0 <= i < NUM && !InChain(ops, h, i) ==> desc'[i] == desc[i]
    ensures Chains(free[h := true][ops[h].d1 := true][ops[h].d2 := true], desc', owner[h := None][ops[h].d1 := None][ops[h].d2 := None], ops - {h})
  {
    var d1, d2 := ops[h].d1, ops[h].d2;
    ChainBounds(desc, h, ops[h]);
    var free', owner', ops' := free[h := true][d1 := true][d2 := true], owner[h := None][d1 := None][d2 := None], ops - {h};
    forall g | g in ops'
      ensures Chain(desc', g, ops'[g]) && owner'[g] == owner'[ops'[g].d1] == owner'[ops'[g].d2] == Some(g)
    {
      ChainsStay(free, desc, owner, ops, h, g, desc');
    }
    forall i | 0 <= i < NUM
      ensures free'[i] <==> owner'[i].None?
      ensures owner'[i].Some? ==> InChain(ops', owner'[i].value, i)
    {
      OwnersStay(free, desc, owner, ops, h, i);
    }
  }

  /** Other descriptors keep their owner, and the three become free. */
  lemma OwnersStay(free: seq<bool>, desc: seq<Desc>, owner: seq<Option<nat>>, ops: Ops, h: nat, i: nat)
    requires Chains(free, desc, owner, ops) && h in ops && i < NUM
    ensures h < NUM && ops[h].d1 < NUM && ops[h].d2 < NUM
    ensures var free' := free[h := true][ops[h].d1 := true][ops[h].d2 := true];
            var owner' := owner[h := None][ops[h].d1 := None][ops[h].d2 := None];
            (free'[i] <==> owner'[i].None?) && (owner'[i].Some? ==> InChain(ops - {h}, owner'[i].value, i))
  {
    ChainBounds(desc, h, ops[h]);
    assert owner[i].Some? ==> InChain(ops, owner[i].value, i);
  }

  lemma ChainBounds(desc: seq<Desc>, h: nat, op: Op)
    requires Chain(desc, h, op)
    ensures h < NUM && op.d1 < NUM && op.d2 < NUM
  {
  }

  /** The other chains are as before. */
  lemma ChainsStay(free: seq<bool>, desc: seq<Desc>, owner: seq<Option<nat>>, ops: Ops, h: nat, g: nat, desc': seq<Desc>)
    requires Chains(free, desc, owner, ops) && h in ops && g in ops && g != h && |desc'| == NUM
    requires forall i :: 0 <= i < NUM && !InChain(ops, h, i) ==> desc'[i] == desc[i]
    ensures h < NUM && ops[h].d1 < NUM && ops[h].d2 < NUM && Chain(desc', g, ops[g])
    ensures var owner' := owner[h := None][ops[h].d1 := None][ops[h].d2 := None];
            owner'[g] == owner'[ops[g].d1] == owner'[ops[g].d2] == Some(g)
  {
    assert Chain(desc, g, ops[g]) && Chain(desc, h, ops[h]);
    assert InChain(ops, g, g) && InChain(ops, g, ops[g].d1) && InChain(ops, g, ops[g].d2);
    hide Chains, Chain;
    ChainsApart(free, desc, owner, ops, h, g, g);
    ChainsApart(free, desc, owner, ops, h, g, ops[g].d1);
    ChainsApart(free, desc, owner, ops, h, g, ops[g].d2);
  }

  /** Only descriptors in chains matter. */
  lemma ChainsDesc(free: seq<bool>, desc: seq<Desc>, owner: seq<Option<nat>>, ops: Ops, desc': seq<Desc>)
    requires Chains(free, desc, owner, ops) && |desc'| == NUM && forall i :: 0 <= i < NUM && !free[i] ==> desc'[i] == desc[i]
    ensures Chains(free, desc', owner, ops)
  {
    forall h | h in ops
      ensures Chain(desc', h, ops[h])
    {
      assert Chain(desc, h, ops[h]);
    }
  }

  /** The three descriptors of a request, as virtio_disk_rw fills them in. */
  function Formatted(desc: seq<Desc>, h: nat, d1: nat, d2: nat, write: bool): seq<Desc>
    requires |desc| == NUM && h < NUM && d1 < NUM && d2 < NUM
  {
    desc[h := Desc(true, false, d1)][d1 := Desc(true, !write, d2)][d2 := Desc(false, true, 0)]
  }

  lemma ChainsStage(free: seq<bool>, desc: seq<Desc>, owner: seq<Option<nat>>, ops: Ops, h: nat, stage: Stage)
    requires Chains(free, desc, owner, ops) && h in ops
    ensures Chains(free, desc, owner, ops[h := ops[h].(stage := stage)])
  {
  }

  // ----- rings with wrapping indices

  /** The entries lo.. of the log are in the ring, none overwritten, and idx counts the log. */
  ghost predicate Ring(ring: seq<nat>, log: seq<nat>, lo: nat, idx: nat) {
    && |ring| == NUM && lo <= |log| <= lo + NUM && idx == |log| % IDX
    && forall k :: lo <= k < |log| ==> ring[k % NUM] == log[k]
  }

  /** The entries of the log from lo on are distinct requests in a stage. */
  ghost predicate Listed(log: seq<nat>, lo: nat, ops: Ops, stage: Stage) {
    && lo <= |log|
    && (forall k :: lo <= k < |log| ==> log[k] < NUM && log[k] in ops && ops[log[k]].stage == stage)
    && (forall k, m :: lo <= k < m < |log| ==> log[k] != log[m])
    && (forall h :: h in ops && ops[h].stage == stage ==> exists k :: lo <= k < |log| && log[k] == h)
  }

  lemma SlotOf(n: nat)
    ensures n % IDX % NUM == n % NUM
  {
  }

  /** Fewer than NUM apart, two entries of the log have different places in the ring. */
  lemma SlotsApart(k: nat, n: nat)
    requires k < n < k + NUM
    ensures k % NUM != n % NUM
  {
  }

  lemma RingPush(ring: seq<nat>, log: seq<nat>, lo: nat, idx: nat, h: nat)
    requires Ring(ring, log, lo, idx) && |log| < lo + NUM
    ensures Ring(ring[idx % NUM := h], log + [h], lo, (idx + 1) % IDX)
  {
    var ring', log' := ring[idx % NUM := h], log + [h];
    SlotOf(|log|);
    NextIdx(|log|);
    forall k | lo <= k < |log'|
      ensures ring'[k % NUM] == log'[k]
    {
      if k < |log| {
        SlotsApart(k, |log|);
        assert ring[k % NUM] == log[k];
      }
    }
  }

  lemma RingPop(ring: seq<nat>, log: seq<nat>, lo: nat, idx: nat)
    requires Ring(ring, log, lo, idx) && lo < |log|
    ensures Ring(ring, log, lo + 1, idx) && ring[lo % IDX % NUM] == log[lo]
  {
    SlotOf(lo);
  }

  /** Comparing the 16-bit indices tells whether there is something to read. */
  lemma RingEmpty(ring: seq<nat>, log: seq<nat>, lo: nat, idx: nat)
    requires Ring(ring, log, lo, idx)
    ensures lo % IDX == idx <==> lo == |log|
  {
  }

  lemma {:induction false} Pigeonhole(s: seq<nat>, n: nat)
    requires (forall k :: 0 <= k < |s| ==> s[k] < n) && forall k, m :: 0 <= k < m < |s| ==> s[k] != s[m]
    ensures |s| <= n
    decreases n
  {
    if s != [] {
      assert s[0] < n;
      if j :| 0 <= j < |s| && s[j] == n - 1 {
        Pigeonhole(s[..j] + s[j + 1..], n - 1);
      } else {
        Pigeonhole(s, n - 1);
      }
    }
  }

  /** There is room in a ring for one more request. */
  lemma RoomFor(log: seq<nat>, lo: nat, ops: Ops, stage: Stage, h: nat)
    requires Listed(log, lo, ops, stage) && h < NUM && (h !in ops || ops[h].stage != stage)
    ensures |log| < lo + NUM
  {
    var s := log[lo..] + [h];
    forall k | 0 <= k < |log| - lo
      ensures s[k] == log[lo + k] && s[k] != h
    {
    }
    Pigeonhole(s, NUM);
  }

  /** Request h enters a stage. */
  lemma ListedPush(log: seq<nat>, lo: nat, ops: Ops, stage: Stage, h: nat, op: Op)
    requires Listed(log, lo, ops, stage) && h < NUM && (h !in ops || ops[h].stage != stage) && op.stage == stage
    ensures Listed(log + [h], lo, ops[h := op], stage)
  {
    var log', ops' := log + [h], ops[h := op];
    forall g | g in ops' && ops'[g].stage == stage
      ensures exists k :: lo <= k < |log'| && log'[k] == g
    {
      if g == h {
        assert log'[|log|] == h;
      } else {
        var k :| lo <= k < |log| && log[k] == g;
        assert log'[k] == g;
      }
    }
  }

  /** The oldest request of a stage leaves it. */
  lemma ListedPop(log: seq<nat>, lo: nat, ops: Ops, stage: Stage, op: Op)
    requires Listed(log, lo, ops, stage) && lo < |log| && op.stage != stage
    ensures Listed(log, lo + 1, ops[log[lo] := op], stage)
  {
    var ops' := ops[log[lo] := op];
    forall g | g in ops' && ops'[g].stage == stage
      ensures exists k :: lo + 1 <= k < |log| && log[k] == g
    {
      var k :| lo <= k < |log| && log[k] == g;
      assert k != lo;
    }
  }

  /** Requests that are in the stage neither before nor after do not matter. */
  lemma ListedOther(log: seq<nat>, lo: nat, ops: Ops, stage: Stage, ops': Ops, h: nat)
    requires Listed(log, lo, ops, stage)
    requires forall g :: g != h ==> (g in ops <==> g in ops') && (g in ops ==> ops'[g] == ops[g])
    requires h in ops ==> ops[h].stage != stage
    requires h in ops' ==> ops'[h].stage != stage
    ensures Listed(log, lo, ops', stage)
  {
  }

  // ----- buffers

  /** info leads from a head to its buffer, distinct requests have distinct buffers, and a buffer's
      disk flag is set until the driver has seen the completion. */
  ghost predicate Infos(info: seq<Info>, busy: set<nat>, ops: Ops) {
    && |info| == NUM
    && (forall h :: h in ops ==> h < NUM && info[h].b == Some(ops[h].b))
    && (forall h :: h in ops && !ops[h].stage.Done? ==> info[h].status == if ops[h].stage.Reported? then 0 else 0xff)
    && (forall h :: h in ops ==> (ops[h].b in busy <==> !ops[h].stage.Done?))
    && (forall g, h :: g in ops && h in ops && ops[g].b == ops[h].b ==> g == h)
    && (forall b :: b in busy ==> exists h :: h in ops && ops[h].b == b)
  }

  lemma InfosAdd(info: seq<Info>, busy: set<nat>, ops: Ops, h: nat, op: Op)
    requires Infos(info, busy, ops) && h < NUM && h !in ops && op.stage.Queued? && forall g :: g in ops ==> ops[g].b != op.b
    ensures Infos(info[h := Info(Some(op.b), 0xff)], busy + {op.b}, ops[h := op])
  {
    var busy', ops' := busy + {op.b}, ops[h := op];
    forall b | b in busy'
      ensures exists g :: g in ops' && ops'[g].b == b
    {
      if b == op.b {
        assert ops'[h].b == b;
      } else {
        var g :| g in ops && ops[g].b == b;
        assert ops'[g].b == b;
      }
    }
  }

  /** The device takes the request, or reports it with status 0. */
  lemma InfosMove(info: seq<Info>, busy: set<nat>, ops: Ops, h: nat, stage: Stage, status: nat)
    requires Infos(info, busy, ops) && h in ops && !ops[h].stage.Done? && !stage.Done? && status == (if stage.Reported? then 0 else 0xff)
    ensures Infos(info[h := info[h].(status := status)], busy, ops[h := ops[h].(stage := stage)])
  {
    var ops' := ops[h := ops[h].(stage := stage)];
    forall b | b in busy
      ensures exists g :: g in ops' && ops'[g].b == b
    {
      var g :| g in ops && ops[g].b == b;
      assert ops'[g].b == b;
    }
  }

  /** The driver sees the completion and clears the flag of its buffer. */
  lemma InfosSee(info: seq<Info>, busy: set<nat>, ops: Ops, h: nat)
    requires Infos(info, busy, ops) && h in ops && ops[h].stage.Reported?
    ensures ops[h].b in busy && info[h] == Info(Some(ops[h].b), 0)
    ensures Infos(info, busy - {ops[h].b}, ops[h := ops[h].(stage := Done)])
  {
    var busy', ops' := busy - {ops[h].b}, ops[h := ops[h].(stage := Done)];
    forall b | b in busy'
      ensures exists g :: g in ops' && ops'[g].b == b
    {
      var g :| g in ops && ops[g].b == b;
      assert ops'[g].b == b;
    }
  }

  lemma InfosRemove(info: seq<Info>, busy: set<nat>, ops: Ops, h: nat)
    requires Infos(info, busy, ops) && h in ops && ops[h].stage.Done?
    ensures Infos(info[h := info[h].(b := None)], busy, ops - {h})
  {
    var ops' := ops - {h};
    forall b | b in busy
      ensures exists g :: g in ops' && ops'[g].b == b
    {
      var g :| g in ops && ops[g].b == b;
      assert g != h && ops'[g].b == b;
    }
  }

  // ----- the whole driver

  /** A ring, the 16-bit indices of its writer and its reader, all entries ever written, and how
      many of them were read. */
  datatype Queue = Queue(ring: seq<nat>, idx: nat, readIdx: nat, log: seq<nat>, read: nat)

  /** The requests in a stage are the unread entries, none overwritten. */
  ghost predicate QueueOk(q: Queue, ops: Ops, stage: Stage) {
    Ring(q.ring, q.log, q.read, q.idx) && Listed(q.log, q.read, ops, stage) && q.readIdx == q.read % IDX
  }

  function Push(q: Queue, h: nat): Queue
    requires |q.ring| == NUM
  {
    q.(ring := q.ring[q.idx % NUM := h], idx := (q.idx + 1) % IDX, log := q.log + [h])
  }

  function Pop(q: Queue): Queue {
    q.(readIdx := (q.readIdx + 1) % IDX, read := q.read + 1)
  }

  lemma PushOk(q: Queue, ops: Ops, stage: Stage, h: nat, op: Op)
    requires QueueOk(q, ops, stage) && h < NUM && (h !in ops || ops[h].stage != stage) && op.stage == stage
    ensures QueueOk(Push(q, h), ops[h := op], stage)
  {
    RoomFor(q.log, q.read, ops, stage, h);
    RingPush(q.ring, q.log, q.read, q.idx, h);
    ListedPush(q.log, q.read, ops, stage, h, op);
  }

  /** What the reader finds, if the indices differ. */
  lemma Found(q: Queue, ops: Ops, stage: Stage)
    requires QueueOk(q, ops, stage) && q.readIdx != q.idx
    ensures |q.ring| == NUM && q.read < |q.log| && q.ring[q.readIdx % NUM] == q.log[q.read] < NUM
    ensures q.log[q.read] in ops && ops[q.log[q.read]].stage == stage
  {
    RingEmpty(q.ring, q.log, q.read, q.idx);
    RingPop(q.ring, q.log, q.read, q.idx);
  }

  lemma PopOk(q: Queue, ops: Ops, stage: Stage, op: Op)
    requires QueueOk(q, ops, stage) && q.read < |q.log| && op.stage != stage
    ensures QueueOk(Pop(q), ops[q.log[q.read] := op], stage)
  {
    NextIdx(q.read);
    RingPop(q.ring, q.log, q.read, q.idx);
    ListedPop(q.log, q.read, ops, stage, op);
    hide Ring, Listed;
  }

  lemma NextIdx(n: nat)
    ensures (n % IDX + 1) % IDX == (n + 1) % IDX
  {
  }

  datatype View = View(free: seq<bool>, desc: seq<Desc>, owner: seq<Option<nat>>, ops: Ops, info: seq<Info>, busy: set<nat>, avail: Queue, used: Queue)

  ghost predicate Ok(v: View) {
    && Chains(v.free, v.desc, v.owner, v.ops) && Infos(v.info, v.busy, v.ops)
    && QueueOk(v.avail, v.ops, Queued) && QueueOk(v.used, v.ops, Reported)
  }

  /** A descriptor is free or in the chain of exactly one request. */
  lemma Partition(v: View, i: nat)
    requires Ok(v) && i < NUM
    ensures |v.free| == NUM && (v.free[i] <==> !exists h :: InChain(v.ops, h, i))
    ensures forall g, h :: InChain(v.ops, g, i) && InChain(v.ops, h, i) ==> g == h
  {
    forall h | InChain(v.ops, h, i)
      ensures v.owner[i] == Some(h)
    {
      assert Chain(v.desc, h, v.ops[h]);
    }
    if v.owner[i].Some? {
      assert InChain(v.ops, v.owner[i].value, i);
    }
  }

  lemma Sizes(v: View)
    requires Ok(v)
    ensures |v.free| == |v.desc| == |v.owner| == |v.info| == |v.avail.ring| == |v.used.ring| == NUM
    ensures v.avail.read <= |v.avail.log| && v.used.read <= |v.used.log|
  {
  }

  /** What a request says about its chain and its buffer. */
  lemma Request(v: View, h: nat)
    requires Ok(v) && h in v.ops
    ensures Chain(v.desc, h, v.ops[h]) && |v.free| == |v.info| == |v.owner| == |v.used.ring| == NUM
    ensures !v.free[h] && !v.free[v.ops[h].d1] && !v.free[v.ops[h].d2] && (v.ops[h].b !in v.busy ==> v.ops[h].stage.Done?)
    ensures !v.ops[h].stage.Done? && !v.ops[h].stage.Reported? ==> v.info[h].status == 0xff
  {
  }

  /** Free descriptors may hold anything. */
  lemma FreeDescsOk(v: View, desc: seq<Desc>)
    requires Ok(v) && |desc| == |v.free| == |v.desc| == NUM && forall i :: 0 <= i < NUM && !v.free[i] ==> desc[i] == v.desc[i]
    ensures Ok(v.(desc := desc))
  {
    ChainsDesc(v.free, v.desc, v.owner, v.ops, desc);
  }

  function SubmitView(v: View, h: nat, op: Op): View
    requires |v.free| == |v.desc| == |v.owner| == |v.info| == |v.avail.ring| == NUM && h < NUM && op.d1 < NUM && op.d2 < NUM
  {
    View(v.free[h := false][op.d1 := false][op.d2 := false], Formatted(v.desc, h, op.d1, op.d2, op.write),
      v.owner[h := Some(h)][op.d1 := Some(h)][op.d2 := Some(h)], v.ops[h := op],
      v.info[h := Info(Some(op.b), 0xff)], v.busy + {op.b}, Push(v.avail, h), v.used)
  }

  /** From v to v', a request for b with head h is queued. */
  predicate Submitted(v: View, v': View, h: nat, b: nat, write: bool) {
    && h !in v.ops && h in v'.ops && |v.free| == |v.desc| == |v.owner| == |v.info| == |v.avail.ring| == NUM
    && var op := v'.ops[h];
    && h < NUM && op.d1 < NUM && op.d2 < NUM && op.b == b && op.write == write && op.stage == Queued
    && v' == SubmitView(v, h, op)
  }

  lemma SubmitOk(v: View, h: nat, op: Op)
    requires Ok(v) && h < NUM && op.d1 < NUM && op.d2 < NUM && h != op.d1 && h != op.d2 && op.d1 != op.d2
    requires v.free[h] && v.free[op.d1] && v.free[op.d2] && op.stage.Queued? && forall g :: g in v.ops ==> v.ops[g].b != op.b
    ensures h !in v.ops && |v.info| == |v.avail.ring| == |v.owner| == |v.free| == |v.desc| == NUM && Ok(SubmitView(v, h, op))
  {
    hide Chains, Infos, Ring, Listed;
    Sizes(v);
    ChainsAdd(v.free, v.desc, v.owner, v.ops, h, op, Formatted(v.desc, h, op.d1, op.d2, op.write));
    InfosAdd(v.info, v.busy, v.ops, h, op);
    PushOk(v.avail, v.ops, Queued, h, op);
    ListedOther(v.used.log, v.used.read, v.ops, Reported, v.ops[h := op], h);
  }

  lemma TakeOk(v: View)
    requires Ok(v) && v.avail.readIdx != v.avail.idx
    ensures |v.avail.ring| == NUM && v.avail.read < |v.avail.log| && v.avail.ring[v.avail.readIdx % NUM] == v.avail.log[v.avail.read]
    ensures var h := v.avail.log[v.avail.read];
            && h in v.ops && v.ops[h].stage.Queued? && Chain(v.desc, h, v.ops[h])
            && Ok(v.(avail := Pop(v.avail), ops := v.ops[h := v.ops[h].(stage := Taken)]))
  {
    hide Chains, Infos, Ring, Listed;
    Found(v.avail, v.ops, Queued);
    var h := v.avail.log[v.avail.read];
    var op := v.ops[h].(stage := Taken);
    PopOk(v.avail, v.ops, Queued, op);
    Request(v, h);
    ListedOther(v.used.log, v.used.read, v.ops, Reported, v.ops[h := op], h);
    ChainsStage(v.free, v.desc, v.owner, v.ops, h, Taken);
    assert v.info[h].status == 0xff && v.info[h := v.info[h].(status := 0xff)] == v.info;
    InfosMove(v.info, v.busy, v.ops, h, Taken, 0xff);
  }

  function ReportView(v: View, h: nat): View
    requires h in v.ops && h < |v.info| && |v.used.ring| == NUM
  {
    v.(info := v.info[h := v.info[h].(status := 0)], used := Push(v.used, h), ops := v.ops[h := v.ops[h].(stage := Reported)])
  }

  lemma ReportOk(v: View, h: nat)
    requires Ok(v) && h in v.ops && v.ops[h].stage.Taken?
    ensures h < NUM && |v.info| == |v.used.ring| == NUM && Ok(ReportView(v, h))
  {
    hide Chains, Infos, Ring, Listed;
    var op := v.ops[h].(stage := Reported);
    Request(v, h);
    PushOk(v.used, v.ops, Reported, h, op);
    ListedOther(v.avail.log, v.avail.read, v.ops, Queued, v.ops[h := op], h);
    ChainsStage(v.free, v.desc, v.owner, v.ops, h, Reported);
    InfosMove(v.info, v.busy, v.ops, h, Reported, 0);
  }

  function SeeView(v: View, h: nat): View
    requires h in v.ops
  {
    v.(busy := v.busy - {v.ops[h].b}, used := Pop(v.used), ops := v.ops[h := v.ops[h].(stage := Done)])
  }

  lemma SeeOk(v: View)
    requires Ok(v) && v.used.readIdx != v.used.idx
    ensures |v.used.ring| == |v.info| == NUM && v.used.read < |v.used.log| && v.used.ring[v.used.readIdx % NUM] == v.used.log[v.used.read]
    ensures var h := v.used.log[v.used.read];
            && h < NUM && h in v.ops && v.ops[h].stage.Reported? && v.ops[h].b in v.busy && v.info[h] == Info(Some(v.ops[h].b), 0)
            && Ok(SeeView(v, h))
  {
    hide Chains, Infos, Ring, Listed;
    Sizes(v);
    Found(v.used, v.ops, Reported);
    var h := v.used.log[v.used.read];
    var op := v.ops[h].(stage := Done);
    PopOk(v.used, v.ops, Reported, op);
    InfosSee(v.info, v.busy, v.ops, h);
    ListedOther(v.avail.log, v.avail.read, v.ops, Queued, v.ops[h := op], h);
    ChainsStage(v.free, v.desc, v.owner, v.ops, h, Done);
  }

  function FinishView(v: View, h: nat, desc: seq<Desc>): View
    requires h in v.ops && h < NUM && v.ops[h].d1 < NUM && v.ops[h].d2 < NUM && |v.info| == |v.free| == |v.owner| == NUM
  {
    var op := v.ops[h];
    v.(free := v.free[h := true][op.d1 := true][op.d2 := true], desc := desc, owner := v.owner[h := None][op.d1 := None][op.d2 := None],
       ops := v.ops - {h}, info := v.info[h := v.info[h].(b := None)])
  }

  lemma FinishOk(v: View, h: nat, desc: seq<Desc>)
    requires Ok(v) && h in v.ops && v.ops[h].b !in v.busy && |desc| == NUM
    requires forall i :: 0 <= i < NUM && !InChain(v.ops, h, i) ==> desc[i] == v.desc[i]
    ensures v.ops[h].stage.Done? && Chain(v.desc, h, v.ops[h]) && |v.info| == |v.free| == |v.owner| == NUM && Ok(FinishView(v, h, desc))
  {
    hide Chains, Infos, Ring, Listed;
    Request(v, h);
    InfosRemove(v.info, v.busy, v.ops, h);
    ListedOther(v.avail.log, v.avail.read, v.ops, Queued, v.ops - {h}, h);
    ListedOther(v.used.log, v.used.read, v.ops, Reported, v.ops - {h}, h);
    ChainsRemove(v.free, v.desc, v.owner, v.ops, h, desc);
  }
}
