/** The accumulator-based scheduler on one CPU with a fixed set of CPU-bound processes: a dispatched
    process runs until the next timer tick, which adds its priority to its accumulator and yields. */
module PriorityScheduler {

  datatype Proc = Proc(runnable: bool, acc: int, prio: nat)

  type Table = seq<Proc>

  /** find_minimum after the first k entries, with its -1 for "nothing yet". */
  function Scan(t: Table, k: nat): int
    requires k <= |t|
  {
    if k == 0 then -1
    else
      var m := Scan(t, k - 1);
      if t[k - 1].runnable && (m == -1 || t[k - 1].acc < m) then t[k - 1].acc else m
  }

  function Minimum(t: Table): int {
    Scan(t, |t|)
  }

  /** Somebody can run, and m is the least accumulator among those who can. */
  ghost predicate IsLeast(t: Table, m: int) {
    && (exists i :: 0 <= i < |t| && t[i].runnable && t[i].acc == m)
    && (forall i :: 0 <= i < |t| && t[i].runnable ==> m <= t[i].acc)
  }

  /** Whether the last runnable entry among the first k has accumulator -1. */
  predicate EndsAtMinusOne(t: Table, k: nat)
    requires k <= |t|
  {
    k > 0 && if t[k - 1].runnable then t[k - 1].acc == -1 else EndsAtMinusOne(t, k - 1)
  }

  /** -1 serves both as a value and as "nothing yet": the scan is right exactly if the least
      accumulator is another one, or if it comes last. */
  lemma {:induction false} ScanRight(t: Table, k: nat, m: int)
    requires k <= |t| && IsLeast(t[..k], m)
    ensures Scan(t, k) == m <==> m != -1 || EndsAtMinusOne(t, k)
    ensures m == -1 && !EndsAtMinusOne(t, k) ==> Scan(t, k) > -1
    decreases k
  {
    var s := t[..k - 1];
    assert t[..k] == s + [t[k - 1]];
    if t[k - 1].runnable ==> m < t[k - 1].acc {
      LeastOfPrefix(t, k, m);
      ScanRight(t, k - 1, m);
    } else if exists i :: 0 <= i < |s| && s[i].runnable {
      var m' := LeastExists(s);
      ScanRight(t, k - 1, m');
    } else {
      ScanNothing(t, k - 1);
    }
  }

  /** For instance, an accumulator of -1 followed by one of 5. */
  lemma MinusOneHides()
    ensures var t := [Proc(true, -1, 1), Proc(true, 5, 1)]; IsLeast(t, -1) && Minimum(t) == 5
  {
    var t := [Proc(true, -1, 1), Proc(true, 5, 1)];
    assert t[0].runnable && t[0].acc == -1;
    assert Scan(t, 1) == -1 && Scan(t, 2) == 5;
  }

  lemma LeastOfPrefix(t: Table, k: nat, m: int)
    requires 0 < k <= |t| && IsLeast(t[..k], m) && (t[k - 1].runnable ==> m < t[k - 1].acc)
    ensures IsLeast(t[..k - 1], m)
  {
    var i :| 0 <= i < k && t[..k][i].runnable && t[..k][i].acc == m;
    assert t[..k - 1][i] == t[i];
  }

  lemma {:induction false} ScanNothing(t: Table, k: nat)
    requires k <= |t| && forall i :: 0 <= i < k ==> !t[i].runnable
    ensures Scan(t, k) == -1 && !EndsAtMinusOne(t, k)
  {
    if k > 0 {
      ScanNothing(t, k - 1);
    }
  }

  lemma {:induction false} LeastExists(t: Table) returns (m: int)
    requires exists i :: 0 <= i < |t| && t[i].runnable
    ensures IsLeast(t, m)
    decreases |t|
  {
    var i :| 0 <= i < |t| && t[i].runnable;
    var s, last := t[..|t| - 1], t[|t| - 1];
    if exists j :: 0 <= j < |s| && s[j].runnable {
      m := LeastExists(s);
      if last.runnable && last.acc < m {
        m := last.acc;
      } else {
        var j :| 0 <= j < |s| && s[j].runnable && s[j].acc == m;
        assert t[j] == s[j];
      }
    } else {
      assert forall j :: 0 <= j < |s| ==> !t[j].runnable;
      m := last.acc;
    }
  }

  // ----- one visit of a slot

  /** The tables the fairness results are about: non-negative accumulators and somebody to run. */
  ghost predicate Sane(t: Table) {
    && (forall i :: 0 <= i < |t| ==> t[i].acc >= 0)
    && exists i :: 0 <= i < |t| && t[i].runnable
  }

  /** Slot i is dispatched when the scheduler comes by. */
  predicate Chosen(t: Table, i: nat)
    requires i < |t|
  {
    t[i].runnable && t[i].acc <= Minimum(t)
  }

  /** The body of the loop: the chosen process runs for one tick. */
  function Visit(t: Table, i: nat): Table
    requires i < |t|
  {
    if Chosen(t, i) then t[i := t[i].(acc := t[i].acc + t[i].prio)] else t
  }

  lemma MinimumIsLeast(t: Table)
    requires Sane(t)
    ensures IsLeast(t, Minimum(t)) && Minimum(t) >= 0
  {
    var m := LeastExists(t);
    assert t[..|t|] == t;
    ScanRight(t, |t|, m);
  }

  /** A dispatched process has the least accumulator. */
  lemma ChosenIsLeast(t: Table, i: nat)
    requires Sane(t) && i < |t|
    ensures Chosen(t, i) <==> t[i].runnable && IsLeast(t, t[i].acc)
  {
    MinimumIsLeast(t);
  }

  lemma VisitSane(t: Table, i: nat)
    requires Sane(t) && i < |t|
    ensures Sane(Visit(t, i))
  {
    var j :| 0 <= j < |t| && t[j].runnable;
    assert Visit(t, i)[j].runnable;
  }

  class Scheduler {
    var procs: Table
    var minimum: int

    constructor (procs: Table)
      ensures this.procs == procs && minimum == Minimum(procs)
    {
      this.procs := procs;
      new;
      minimum := FindMinimum();
    }

    method FindMinimum() returns (m: int)
      ensures m == Minimum(procs)
    {
      m := -1;
      for p := 0 to |procs|
        invariant m == Scan(procs, p)
      {
        if procs[p].runnable {
          if m == -1 || procs[p].acc < m {
            m := procs[p].acc;
          }
        }
      }
    }

    /** One pass of schedulerPriority over the table; the dispatched slots in order.  Each of them is
        charged its priority, and nothing else changes. */
    method Sweep() returns (who: seq<nat>)
      requires minimum == Minimum(procs)
      modifies this
      ensures minimum == Minimum(procs) && |procs| == |old(procs)|
      ensures procs == Swept(old(procs), |procs|) && who == Who(old(procs), |procs|)
      ensures forall i :: 0 <= i < |procs| ==>
                procs[i] == Proc(old(procs)[i].runnable, old(procs)[i].acc + (if i in who then old(procs)[i].prio else 0), old(procs)[i].prio)
    {
      who := [];
      for p := 0 to |procs|
        invariant |procs| == |old(procs)| && minimum == Minimum(procs)
        invariant procs == Swept(old(procs), p) && who == Who(old(procs), p)
      {
        if procs[p].runnable && procs[p].acc <= minimum {
          procs := procs[p := procs[p].(acc := procs[p].acc + procs[p].prio)];
          who := who + [p];
        }
        minimum := FindMinimum();
      }
      SweptCharges(old(procs), |procs|);
    }
  }

  /** The table after the first k slots of a pass, and the slots dispatched. */
  function Swept(t: Table, k: nat): (r: Table)
    requires k <= |t|
    ensures |r| == |t|
  {
    if k == 0 then t else Visit(Swept(t, k - 1), k - 1)
  }

  function Who(t: Table, k: nat): seq<nat>
    requires k <= |t|
  {
    if k == 0 then [] else Who(t, k - 1) + if Chosen(Swept(t, k - 1), k - 1) then [k - 1] else []
  }

  lemma {:induction false} SweptCharges(t: Table, k: nat)
    requires k <= |t|
    ensures forall i :: 0 <= i < |t| ==> Swept(t, k)[i] == t[i].(acc := t[i].acc + if i in Who(t, k) then t[i].prio else 0)
    ensures forall i :: i in Who(t, k) ==> i < k
    decreases k
  {
    if k > 0 {
      hide Chosen;
      SweptCharges(t, k - 1);
      var who, more := Who(t, k - 1), Chosen(Swept(t, k - 1), k - 1);
      forall i | 0 <= i < |t|
        ensures i in Who(t, k) <==> i in who || (more && i == k - 1)
      {
        assert Who(t, k) == who + if more then [k - 1] else [];
      }
    }
  }

  // ----- runs: one visit after the other, round and round

  /** ts is a run that starts at slot o. */
  ghost predicate Run(ts: seq<Table>, o: nat) {
    && ts != [] && |ts[0]| > 0 && Sane(ts[0]) && (forall k :: 0 <= k < |ts| ==> |ts[k]| == |ts[0]|)
    && forall k :: 0 <= k < |ts| - 1 ==> ts[k + 1] == Visit(ts[k], Slot(ts, o, k))
  }

  function Slot(ts: seq<Table>, o: nat, k: nat): (i: nat)
    requires ts != [] && |ts[0]| > 0
    ensures i < |ts[0]|
  {
    (o + k) % |ts[0]|
  }

  /** The slot visited at step k is dispatched. */
  predicate Runs(ts: seq<Table>, o: nat, k: nat)
    requires ts != [] && |ts[0]| > 0 && k < |ts| && |ts[k]| == |ts[0]|
  {
    Chosen(ts[k], Slot(ts, o, k))
  }

  lemma {:induction false} RunSane(ts: seq<Table>, o: nat, k: nat)
    requires Run(ts, o) && k < |ts|
    ensures Sane(ts[k])
    ensures forall i :: 0 <= i < |ts[0]| ==> ts[k][i].runnable == ts[0][i].runnable && ts[k][i].prio == ts[0][i].prio && ts[k][i].acc >= ts[0][i].acc
  {
    if k > 0 {
      RunSane(ts, o, k - 1);
      VisitSane(ts[k - 1], Slot(ts, o, k - 1));
    }
  }

  // ----- the spread

  ghost predicate Within(t: Table, d: int) {
    forall i, j :: 0 <= i < |t| && 0 <= j < |t| && t[i].runnable && t[j].runnable ==> t[i].acc - t[j].acc <= d
  }

  lemma VisitSpread(t: Table, i: nat, d: int)
    requires Sane(t) && i < |t| && Within(t, d) && d >= 10 && t[i].prio <= 10
    ensures Within(Visit(t, i), d)
  {
    ChosenIsLeast(t, i);
  }

  /** Accumulators of runnable processes never drift further apart than at first, or than 10. */
  lemma {:induction false} SpreadBounded(ts: seq<Table>, o: nat, k: nat, d: int)
    requires Run(ts, o) && k < |ts| && Within(ts[0], d) && forall i :: 0 <= i < |ts[0]| ==> ts[0][i].prio <= 10
    ensures Within(ts[k], if d < 10 then 10 else d)
  {
    if k > 0 {
      SpreadBounded(ts, o, k - 1, d);
      RunSane(ts, o, k - 1);
      VisitSpread(ts[k - 1], Slot(ts, o, k - 1), if d < 10 then 10 else d);
    }
  }

  // ----- what a quantum costs

  /** How often slot i is dispatched among the first k steps. */
  function Quanta(ts: seq<Table>, o: nat, i: nat, k: nat): nat
    requires ts != [] && |ts[0]| > 0 && k <= |ts| && forall j :: 0 <= j < |ts| ==> |ts[j]| == |ts[0]|
  {
    if k == 0 then 0 else Quanta(ts, o, i, k - 1) + if Slot(ts, o, k - 1) == i && Runs(ts, o, k - 1) then 1 else 0
  }

  lemma VisitCharges(t: Table, i: nat, j: nat)
    requires i < |t| && j < |t|
    ensures Visit(t, i)[j] == t[j].(acc := t[j].acc + if i == j && Chosen(t, i) then t[j].prio else 0)
  {
  }

  /** Every quantum is charged, at the process's priority, and nothing else is. */
  lemma {:induction false} Charged(ts: seq<Table>, o: nat, i: nat, k: nat)
    requires Run(ts, o) && k < |ts| && i < |ts[0]|
    ensures ts[k][i].acc == ts[0][i].acc + ts[0][i].prio * Quanta(ts, o, i, k)
    ensures ts[k][i] == ts[0][i].(acc := ts[k][i].acc)
  {
    if k > 0 {
      Charged(ts, o, i, k - 1);
      VisitCharges(ts[k - 1], Slot(ts, o, k - 1), i);
      MoreQuanta(ts[0][i].prio, Quanta(ts, o, i, k - 1));
    }
  }

  lemma MoreQuanta(p: nat, q: nat)
    ensures p * (q + 1) == p * q + p
  {
  }

  /** Inverse proportional share: however long the run, the quanta two runnable processes have had,
      each times its priority, differ by no more than a constant. */
  lemma ProportionalShare(ts: seq<Table>, o: nat, i: nat, j: nat, k: nat, d: int)
    requires Run(ts, o) && k < |ts| && i < |ts[0]| && j < |ts[0]| && ts[0][i].runnable && ts[0][j].runnable
    requires Within(ts[0], d) && forall q :: 0 <= q < |ts[0]| ==> ts[0][q].prio <= 10
    ensures ts[0][i].prio * Quanta(ts, o, i, k) - ts[0][j].prio * Quanta(ts, o, j, k)
            <= (if d < 10 then 10 else d) + ts[0][j].acc - ts[0][i].acc
  {
    SpreadBounded(ts, o, k, d);
    Charged(ts, o, i, k);
    Charged(ts, o, j, k);
  }

  // ----- somebody runs in every round

  lemma RoundsUp(o: nat, n: nat, i: nat) returns (j: nat)
    requires i < n
    ensures j < n && (o + j) % n == i
  {
    var r, a := o % n, o / n;
    j := if i >= r then i - r else i - r + n;
    ModOf(n, if i >= r then a else a + 1, i);
    assert o == n * a + r;
    assert n * (a + 1) == n * a + n;
  }

  lemma ModOf(n: nat, a: nat, i: nat)
    requires i < n
    ensures (n * a + i) % n == i
  {
    assert (n * a + i) / n == a by {
      if (n * a + i) / n != a { DivOff(n, a, i, (n * a + i) / n); }
    }
  }

  lemma DivOff(n: nat, a: nat, i: nat, b: int)
    requires i < n && b != a
    ensures n * b > n * a + i || n * b + n <= n * a + i
  {
    if b < a {
      assert n * (b + 1) <= n * a;
    } else {
      assert n * (a + 1) <= n * b;
    }
  }

  /** A slot that is chosen now is dispatched within a round, or somebody else is before it. */
  lemma {:induction false} UnlessDispatched(ts: seq<Table>, o: nat, k: nat, m: nat)
    requires Run(ts, o) && k <= m < |ts| && forall j :: k <= j < m ==> !Runs(ts, o, j)
    ensures ts[m] == ts[k]
    decreases m
  {
    if m > k {
      UnlessDispatched(ts, o, k, m - 1);
      assert !Runs(ts, o, m - 1);
    }
  }

  /** Every round of the table dispatches somebody. */
  lemma RoundDispatches(ts: seq<Table>, o: nat, k: nat) returns (j: nat)
    requires Run(ts, o) && k + |ts[0]| <= |ts| - 1
    ensures k <= j < k + |ts[0]| && Runs(ts, o, j)
  {
    RunSane(ts, o, k);
    MinimumIsLeast(ts[k]);
    var i :| 0 <= i < |ts[0]| && ts[k][i].runnable && ts[k][i].acc == Minimum(ts[k]);
    var d := RoundsUp(o + k, |ts[0]|, i);
    if forall j :: k <= j < k + d ==> !Runs(ts, o, j) {
      UnlessDispatched(ts, o, k, k + d);
      j := k + d;
    } else {
      j :| k <= j < k + d && Runs(ts, o, j);
    }
  }

  lemma {:induction false} WhoIs(t: Table, k: nat)
    requires k <= |t|
    ensures forall i: nat :: i in Who(t, k) <==> i < k && Chosen(Swept(t, i), i)
    ensures forall a, b :: 0 <= a < b < |Who(t, k)| ==> Who(t, k)[a] < Who(t, k)[b]
    decreases k
  {
    if k > 0 {
      WhoIs(t, k - 1);
      var w := Who(t, k - 1);
      assert forall a :: 0 <= a < |w| ==> w[a] in w;
    }
  }

  /** A pass of the scheduler over the table is a run of |t| visits, and the slots it lists are the
      ones dispatched in that run, in order. */
  lemma PassIsRun(t: Table, ts: seq<Table>)
    requires Sane(t) && |t| > 0 && |ts| == |t| + 1 && forall k :: 0 <= k <= |t| ==> ts[k] == Swept(t, k)
    ensures Run(ts, 0)
    ensures forall k: nat :: k in Who(t, |t|) <==> k < |t| && Runs(ts, 0, k)
    ensures forall a, b :: 0 <= a < b < |Who(t, |t|)| ==> Who(t, |t|)[a] < Who(t, |t|)[b]
  {
    hide Chosen, Visit, Who;
    assert ts[0] == t;
    forall k | 0 <= k < |ts| - 1
      ensures ts[k + 1] == Visit(ts[k], Slot(ts, 0, k)) && (Runs(ts, 0, k) <==> Chosen(Swept(t, k), k))
    {
      assert Slot(ts, 0, k) == k;
    }
    WhoIs(t, |t|);
  }

  // ----- how long p waits

  /** How far entry q is behind p, plus c, if it competes with p. */
  function Lead(t: Table, p: nat, q: nat, c: nat): nat
    requires p < |t| && q < |t|
  {
    if q != p && t[q].runnable && t[p].acc - t[q].acc + c > 0 then t[p].acc - t[q].acc + c else 0
  }

  /** The sum over the first k entries. */
  function Ahead(t: Table, p: nat, c: nat, k: nat): nat
    requires p < |t| && k <= |t|
  {
    if k == 0 then 0 else Ahead(t, p, c, k - 1) + Lead(t, p, k - 1, c)
  }

  lemma {:induction false} AheadDrops(t: Table, t': Table, p: nat, c: nat, k: nat, i: nat, d: nat)
    requires |t'| == |t| && p < |t| && k <= |t| && i < |t| && d <= Lead(t, p, i, c)
    requires forall q :: 0 <= q < |t| && q != i ==> Lead(t', p, q, c) == Lead(t, p, q, c)
    requires Lead(t', p, i, c) <= Lead(t, p, i, c) - d
    ensures Ahead(t', p, c, k) <= Ahead(t, p, c, k) - if i < k then d else 0
  {
    if k > 0 {
      AheadDrops(t, t', p, c, k - 1, i, d);
    }
  }

  lemma {:induction false} AheadZero(t: Table, p: nat, c: nat, k: nat)
    requires p < |t| && k <= |t| && Ahead(t, p, c, k) == 0
    ensures forall q :: 0 <= q < k ==> Lead(t, p, q, c) == 0
  {
    if k > 0 {
      AheadZero(t, p, c, k - 1);
    }
  }

  function Total(t: Table, p: nat, c: nat): nat
    requires p < |t|
  {
    Ahead(t, p, c, |t|)
  }

  /** Dispatches among the first k steps. */
  function Dispatches(ts: seq<Table>, o: nat, k: nat): nat
    requires ts != [] && |ts[0]| > 0 && k <= |ts| && forall j :: 0 <= j < |ts| ==> |ts[j]| == |ts[0]|
  {
    if k == 0 then 0 else Dispatches(ts, o, k - 1) + if Runs(ts, o, k - 1) then 1 else 0
  }

  /** p is not dispatched in steps k to m. */
  ghost predicate Waits(ts: seq<Table>, o: nat, p: nat, k: nat, m: nat)
    requires Run(ts, o) && m <= |ts|
  {
    forall j :: k <= j < m && Slot(ts, o, j) == p ==> !Runs(ts, o, j)
  }

  lemma VisitAhead(t: Table, i: nat, p: nat, c: nat)
    requires Sane(t) && i < |t| && p < |t| && t[p].runnable && i != p
    ensures Total(Visit(t, i), p, c) <= Total(t, p, c)
    ensures Chosen(t, i) && t[i].prio >= 1 && t[i].acc < t[p].acc + c ==> Total(Visit(t, i), p, c) < Total(t, p, c)
  {
    ChosenIsLeast(t, i);
    var d := if Chosen(t, i) && t[i].prio >= 1 && t[i].acc < t[p].acc + c then 1 else 0;
    AheadDrops(t, Visit(t, i), p, c, |t|, i, d);
  }

  /** With priorities of at least 1, at most the sum over q != p of max(0, acc_p - acc_q + 1) quanta
      go to others before p gets one. */
  lemma {:induction false} WaitBound(ts: seq<Table>, o: nat, p: nat, k: nat)
    requires Run(ts, o) && p < |ts[0]| && k < |ts| && ts[0][p].runnable && Waits(ts, o, p, 0, k)
    requires forall i :: 0 <= i < |ts[0]| ==> ts[0][i].prio >= 1
    ensures Dispatches(ts, o, k) + Total(ts[k], p, 1) <= Total(ts[0], p, 1)
  {
    if k > 0 {
      WaitBound(ts, o, p, k - 1);
      RunSane(ts, o, k - 1);
      var t, i := ts[k - 1], Slot(ts, o, k - 1);
      if i != p {
        VisitAhead(t, i, p, 1);
        ChosenIsLeast(t, i);
      }
    }
  }

  // ----- who starves

  /** Some process of priority 0 stays below p for good. */
  ghost predicate Blocked(t: Table, p: nat)
    requires p < |t|
  {
    exists q :: 0 <= q < |t| && t[q].runnable && t[q].prio == 0 && t[q].acc < t[p].acc
  }

  /** Then p never runs again. */
  lemma {:induction false} Starves(ts: seq<Table>, o: nat, p: nat, k: nat)
    requires Run(ts, o) && p < |ts[0]| && k < |ts| && ts[0][p].runnable && Blocked(ts[0], p)
    ensures Waits(ts, o, p, 0, k) && Blocked(ts[k], p)
  {
    if k > 0 {
      Starves(ts, o, p, k - 1);
      var t, i := ts[k - 1], Slot(ts, o, k - 1);
      RunSane(ts, o, k - 1);
      ChosenIsLeast(t, i);
      var q :| 0 <= q < |t| && t[q].runnable && t[q].prio == 0 && t[q].acc < t[p].acc;
      assert ts[k][q].acc == t[q].acc;
    }
  }

  lemma {:induction false} StaysFree(ts: seq<Table>, o: nat, p: nat, k: nat, m: nat)
    requires Run(ts, o) && p < |ts[0]| && k <= m < |ts| && !Blocked(ts[k], p) && Waits(ts, o, p, k, m)
    ensures !Blocked(ts[m], p) && ts[m][p] == ts[k][p]
    decreases m
  {
    if m > k {
      StaysFree(ts, o, p, k, m - 1);
    }
  }

  lemma {:induction false} AheadShrinks(ts: seq<Table>, o: nat, p: nat, k: nat, m: nat)
    requires Run(ts, o) && p < |ts[0]| && k <= m < |ts| && ts[0][p].runnable && Waits(ts, o, p, k, m)
    ensures Total(ts[m], p, 0) <= Total(ts[k], p, 0)
    decreases m
  {
    if m > k {
      AheadShrinks(ts, o, p, k, m - 1);
      RunSane(ts, o, m - 1);
      if Slot(ts, o, m - 1) != p {
        VisitAhead(ts[m - 1], Slot(ts, o, m - 1), p, 0);
      }
    }
  }

  lemma {:induction false} FirstDispatch(ts: seq<Table>, o: nat, k: nat, m: nat) returns (j: nat)
    requires Run(ts, o) && k <= m < |ts| && Runs(ts, o, m)
    ensures k <= j <= m && Runs(ts, o, j) && ts[j] == ts[k]
    decreases m
  {
    if i :| k <= i < m && Runs(ts, o, i) {
      j := FirstDispatch(ts, o, k, i);
    } else {
      UnlessDispatched(ts, o, k, m);
      j := m;
    }
  }

  lemma {:induction false} Grows(ts: seq<Table>, o: nat, k: nat, m: nat, i: nat)
    requires Run(ts, o) && k <= m < |ts| && i < |ts[0]|
    ensures ts[k][i].acc <= ts[m][i].acc && ts[k][i].runnable == ts[m][i].runnable
    decreases m
  {
    if m > k {
      Grows(ts, o, k, m - 1, i);
    }
  }

  /** If p is passed over in a round, then somebody is below it when the round begins. */
  lemma SomebodyBelow(ts: seq<Table>, o: nat, p: nat, k: nat) returns (i: nat)
    requires Run(ts, o) && p < |ts[0]| && ts[0][p].runnable && k + |ts[0]| < |ts|
    requires Waits(ts, o, p, k, k + |ts[0]|)
    ensures i < |ts[0]| && ts[k][i].runnable && ts[k][i].acc < ts[k][p].acc
  {
    var d := RoundsUp(o + k, |ts[0]|, p);
    var m := k + d;
    assert Slot(ts, o, m) == p;
    assert !Runs(ts, o, m);
    RunSane(ts, o, m);
    MinimumIsLeast(ts[m]);
    i :| 0 <= i < |ts[0]| && ts[m][i].runnable && ts[m][i].acc == Minimum(ts[m]);
    Grows(ts, o, k, m, i);
    Unmoved(ts, o, p, k, m);
  }

  lemma {:induction false} Unmoved(ts: seq<Table>, o: nat, p: nat, k: nat, m: nat)
    requires Run(ts, o) && p < |ts[0]| && k <= m < |ts| && Waits(ts, o, p, k, m)
    ensures ts[m][p] == ts[k][p]
    decreases m
  {
    if m > k {
      Unmoved(ts, o, p, k, m - 1);
      assert Slot(ts, o, m - 1) == p ==> !Runs(ts, o, m - 1);
    }
  }

  /** The first dispatch of such a round goes to somebody below p. */
  lemma FirstBelow(ts: seq<Table>, o: nat, p: nat, k: nat) returns (j: nat)
    requires Run(ts, o) && p < |ts[0]| && ts[0][p].runnable && k + |ts[0]| < |ts|
    requires Waits(ts, o, p, k, k + |ts[0]|)
    ensures k <= j < k + |ts[0]| && Runs(ts, o, j) && ts[j] == ts[k] && Slot(ts, o, j) != p
    ensures ts[j][Slot(ts, o, j)].acc < ts[j][p].acc
  {
    var i := SomebodyBelow(ts, o, p, k);
    var m := RoundDispatches(ts, o, k);
    j := FirstDispatch(ts, o, k, m);
    RunSane(ts, o, k);
    MinimumIsLeast(ts[k]);
  }

  /** One round either reaches p or brings somebody below p closer to it. */
  lemma RoundHelps(ts: seq<Table>, o: nat, p: nat, k: nat)
    requires Run(ts, o) && p < |ts[0]| && ts[0][p].runnable && k + |ts[0]| < |ts| && !Blocked(ts[k], p)
    requires Waits(ts, o, p, k, k + |ts[0]|)
    ensures Total(ts[k + |ts[0]|], p, 0) < Total(ts[k], p, 0)
  {
    var j := FirstBelow(ts, o, p, k);
    RunSane(ts, o, j);
    assert ts[j][Slot(ts, o, j)].prio >= 1;
    VisitAhead(ts[j], Slot(ts, o, j), p, 0);
    AheadShrinks(ts, o, p, j + 1, k + |ts[0]|);
  }

  /** Unless it is blocked, p runs within r rounds, if r is more than that sum without the ones. */
  lemma {:induction false} Reached(ts: seq<Table>, o: nat, p: nat, k: nat, r: nat, m: nat)
    requires Run(ts, o) && p < |ts[0]| && ts[0][p].runnable && k <= m < |ts| && !Blocked(ts[k], p)
    requires Total(ts[k], p, 0) < r && k + r * |ts[0]| == m
    ensures !Waits(ts, o, p, k, m)
    decreases r
  {
    var n := |ts[0]|;
    OneRound(k, r, n);
    if Waits(ts, o, p, k, m) {
      RoundHelps(ts, o, p, k);
      StaysFree(ts, o, p, k, k + n);
      Reached(ts, o, p, k + n, r - 1, m);
    }
  }

  lemma OneRound(k: nat, r: nat, n: nat)
    requires r > 0
    ensures k + r * n == (k + n) + (r - 1) * n >= k + n
  {
  }

  /** A process is dispatched again, in every run that is long enough, exactly if it is not blocked. */
  lemma FairExactly(ts: seq<Table>, o: nat, p: nat)
    requires Run(ts, o) && p < |ts[0]| && ts[0][p].runnable && (Total(ts[0], p, 0) + 1) * |ts[0]| < |ts|
    ensures Waits(ts, o, p, 0, |ts| - 1) <==> Blocked(ts[0], p)
  {
    if Blocked(ts[0], p) {
      Starves(ts, o, p, |ts| - 1);
    } else {
      var r := Total(ts[0], p, 0) + 1;
      Reached(ts, o, p, 0, r, r * |ts[0]|);
    }
  }

  /** The priority allocproc gives, 0, is enough to starve a neighbour. */
  lemma DefaultPriorityStarves(ts: seq<Table>, k: nat)
    requires Run(ts, 0) && k < |ts| && ts[0] == [Proc(true, 0, 0), Proc(true, 1, 5)]
    ensures Waits(ts, 0, 1, 0, k)
  {
    assert ts[0][0].acc < ts[0][1].acc;
    Starves(ts, 0, 1, k);
  }
}
