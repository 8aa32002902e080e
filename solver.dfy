/** The relaxation solver over a graph snapshot: a forward voltage pass and
    a backward current pass, repeated until two successive iterates agree
    within relative tolerances, then one result row per node and a totals
    row. Every component rule is applied with the default phase. */
module Solver {
  import opened Components
  import opened PowerGraph

  /** A per-node vector indexed by node index; unused indices hold 0. */
  type Vec = seq<real>

  /** The absolute tolerance that numpy's `allclose` adds to the relative one. */
  const AbsTol: real := 1.0e-8

  /** One element passes the test `|x - y| <= 1e-8 + rtol * |y|`. */
  predicate Close(x: real, y: real, rtol: real)
    ensures rtol >= 0.0 && Abs(x - y) <= AbsTol ==> Close(x, y, rtol)
  {
    Abs(x - y) <= AbsTol + rtol * Abs(y)
  }

  /** The first `n` elements pass the test. */
  predicate CloseUpTo(a: Vec, b: Vec, rtol: real, n: nat)
    requires n <= |a| && |a| == |b|
    decreases n
  {
    n == 0 || (CloseUpTo(a, b, rtol, n - 1) && Close(a[n - 1], b[n - 1], rtol))
  }

  /** numpy's `allclose(a, b, rtol)`: every element passes the test. */
  predicate AllClose(a: Vec, b: Vec, rtol: real)
    requires |a| == |b|
    ensures a == b && rtol >= 0.0 ==> AllClose(a, b, rtol)
  {
    CloseUpToElementwise(a, b, rtol, |a|);
    CloseUpTo(a, b, rtol, |a|)
  }

  lemma {:induction false} CloseUpToElementwise(a: Vec, b: Vec, rtol: real, n: nat)
    requires n <= |a| && |a| == |b|
    ensures CloseUpTo(a, b, rtol, n) <==> forall k :: 0 <= k < n ==> Close(a[k], b[k], rtol)
    decreases n
  {
    if n > 0 {
      CloseUpToElementwise(a, b, rtol, n - 1);
    }
  }

  /** The tolerance test holds exactly when it holds for every element. */
  lemma AllCloseElementwise(a: Vec, b: Vec, rtol: real)
    requires |a| == |b|
    ensures AllClose(a, b, rtol) <==> forall k :: 0 <= k < |a| ==> Abs(a[k] - b[k]) <= AbsTol + rtol * Abs(b[k])
  {
    CloseUpToElementwise(a, b, rtol, |a|);
  }

  /** The voltage and current vectors of one iterate. */
  datatype State = State(v: Vec, i: Vec)

  predicate Sized(g: Graph, s: State) {
    |s.v| == g.size && |s.i| == g.size
  }

  /** The sum of the currents of the listed nodes. */
  function SumAt(cs: seq<nat>, i: Vec): real
    requires forall k :: 0 <= k < |cs| ==> cs[k] < |i|
    decreases |cs|
  {
    if cs == [] then 0.0 else SumAt(cs[..|cs| - 1], i) + i[cs[|cs| - 1]]
  }

  /** The loop that adds up the children's currents. */
  method SumCurrents(cs: seq<nat>, i: Vec) returns (s: real)
    requires forall k :: 0 <= k < |cs| ==> cs[k] < |i|
    ensures s == SumAt(cs, i)
  {
    s := 0.0;
    var k := 0;
    while k < |cs|
      invariant 0 <= k <= |cs|
      invariant s == SumAt(cs[..k], i)
    {
      assert cs[..k + 1][..k] == cs[..k];
      s := s + i[cs[k]];
      k := k + 1;
    }
    assert cs[..k] == cs;
  }

  // ---------------------------------------------------------------------------
  // One iteration, node by node

  /** A node's new output voltage: its rule applied to the parent's previous
      voltage and its own previous current (both 0 at a root) and the sum of
      its children's previous currents. */
  function FwdAt(g: Graph, v: Vec, i: Vec, n: nat): real
    requires WellFormedGraph(g) && |v| == g.size && |i| == g.size && n < g.size
  {
    if n !in g.comps then 0.0
    else
      var isum := SumAt(Children(g, n), i);
      if n !in g.parent then SolveOutVolt(g.comps[n], 0.0, 0.0, isum, NoPhase)
      else SolveOutVolt(g.comps[n], v[g.parent[n]], i[n], isum, NoPhase)
  }

  /** A node's new input current from the new voltages `v` and the previous
      currents `i`: a leaf passes output voltage and output current 0; any
      other node passes its own new voltage and its children's previous
      currents. A root takes its own voltage as input voltage. */
  function BackAt(g: Graph, v: Vec, i: Vec, n: nat): real
    requires WellFormedGraph(g) && |v| == g.size && |i| == g.size && n < g.size
  {
    if n !in g.comps then 0.0
    else
      var c := g.comps[n];
      var cs := Children(g, n);
      var vi := if n in g.parent then v[g.parent[n]] else v[n];
      if cs == [] then SolveInCurr(c, vi, 0.0, 0.0, NoPhase)
      else SolveInCurr(c, vi, v[n], SumAt(cs, i), NoPhase)
  }

  function Fwd(g: Graph, v: Vec, i: Vec): (r: Vec)
    requires WellFormedGraph(g) && |v| == g.size && |i| == g.size
    ensures |r| == g.size && forall n :: 0 <= n < g.size ==> r[n] == FwdAt(g, v, i, n)
  {
    seq(g.size, n requires 0 <= n < g.size => FwdAt(g, v, i, n))
  }

  function Back(g: Graph, v: Vec, i: Vec): (r: Vec)
    requires WellFormedGraph(g) && |v| == g.size && |i| == g.size
    ensures |r| == g.size && forall n :: 0 <= n < g.size ==> r[n] == BackAt(g, v, i, n)
  {
    seq(g.size, n requires 0 <= n < g.size => BackAt(g, v, i, n))
  }

  /** The starting vectors: each node's initial output voltage and input
      current. */
  function Init(g: Graph): (s: State)
    ensures Sized(g, s)
  {
    State(seq(g.size, n => if n in g.comps then InitOutVoltage(g.comps[n], NoPhase) else 0.0),
          seq(g.size, n => if n in g.comps then InitInCurrent(g.comps[n], NoPhase) else 0.0))
  }

  /** One iteration: the forward pass, then the backward pass on its result. */
  function Step(g: Graph, s: State): (r: State)
    requires WellFormedGraph(g) && Sized(g, s)
    ensures Sized(g, r)
  {
    var vn := Fwd(g, s.v, s.i);
    State(vn, Back(g, vn, s.i))
  }

  /** The iterate after `k` iterations. */
  function Iterate(g: Graph, k: nat): (s: State)
    requires WellFormedGraph(g)
    ensures Sized(g, s)
  {
    if k == 0 then Init(g) else Step(g, Iterate(g, k - 1))
  }

  /** One more iteration would change neither vector beyond its tolerance. */
  predicate Converged(g: Graph, s: State, vtol: real, itol: real)
    requires WellFormedGraph(g) && Sized(g, s)
  {
    var r := Step(g, s);
    AllClose(s.v, r.v, vtol) && AllClose(s.i, r.i, itol)
  }

  /** None of the first `k` iterates passes both tolerance tests (vacuous
      for `k <= 0`). */
  predicate NoneConverged(g: Graph, k: int, vtol: real, itol: real)
    requires WellFormedGraph(g)
    decreases k
  {
    k <= 0 || (NoneConverged(g, k - 1, vtol, itol) && !Converged(g, Iterate(g, k - 1), vtol, itol))
  }

  lemma {:induction false} NoneConvergedElementwise(g: Graph, k: int, vtol: real, itol: real)
    requires WellFormedGraph(g)
    ensures NoneConverged(g, k, vtol, itol) ==>
            forall j :: 0 <= j < k ==> !Converged(g, Iterate(g, j), vtol, itol)
    ensures (forall j :: 0 <= j < k ==> !Converged(g, Iterate(g, j), vtol, itol)) ==>
            NoneConverged(g, k, vtol, itol)
    decreases k
  {
    if k > 0 {
      if NoneConverged(g, k, vtol, itol) {
        NoneConvergedElementwise(g, k - 1, vtol, itol);
        forall j | 0 <= j < k ensures !Converged(g, Iterate(g, j), vtol, itol) {
          if j < k - 1 {
            assert NoneConverged(g, k - 1, vtol, itol);
          }
        }
      } else if !Converged(g, Iterate(g, k - 1), vtol, itol) {
        NoneConvergedElementwise(g, k - 1, vtol, itol);
        var j :| 0 <= j < k - 1 && Converged(g, Iterate(g, j), vtol, itol);
        assert 0 <= j < k;
      } else {
        var j: nat := k - 1;
        assert 0 <= j < k && Converged(g, Iterate(g, j), vtol, itol);
      }
    }
  }

  /** No iterate among the first `m` passes, so none among fewer does. */
  lemma {:induction false} NoneConvergedPrefix(g: Graph, m: int, k: int, vtol: real, itol: real)
    requires WellFormedGraph(g) && k <= m && NoneConverged(g, m, vtol, itol)
    ensures NoneConverged(g, k, vtol, itol)
    decreases m - k
  {
    if k < m {
      NoneConvergedPrefix(g, m - 1, k, vtol, itol);
    }
  }

  /** Iterate `k` is the first that passes both tolerance tests. */
  predicate FirstConverged(g: Graph, k: nat, vtol: real, itol: real)
    requires WellFormedGraph(g)
  {
    Converged(g, Iterate(g, k), vtol, itol) && NoneConverged(g, k, vtol, itol)
  }

  // ---------------------------------------------------------------------------
  // The passes as loops over an order of the nodes

  /** An order that lists only nodes and lists every node. */
  predicate Covers(g: Graph, order: seq<nat>) {
    && (forall k :: 0 <= k < |order| ==> order[k] in g.comps)
    && (forall n :: n in g.comps ==> n in order)
  }

  lemma PrefixStep(order: seq<nat>, k: nat, n: nat)
    requires k < |order|
    ensures n in order[..k + 1] <==> n in order[..k] || n == order[k]
  {
    assert order[..k + 1] == order[..k] + [order[k]];
  }

  /** Fills both starting vectors, one node at a time. */
  method SysInit(g: Graph, order: seq<nat>) returns (s: State)
    requires WellFormedGraph(g) && Covers(g, order)
    ensures s == Init(g)
  {
    var v := seq(g.size, _ => 0.0);
    var i := seq(g.size, _ => 0.0);
    var k := 0;
    while k < |order|
      invariant 0 <= k <= |order| && |v| == g.size && |i| == g.size
      invariant forall n :: 0 <= n < g.size ==>
                  v[n] == (if n in order[..k] then InitOutVoltage(g.comps[n], NoPhase) else 0.0)
      invariant forall n :: 0 <= n < g.size ==>
                  i[n] == (if n in order[..k] then InitInCurrent(g.comps[n], NoPhase) else 0.0)
    {
      var n := order[k];
      forall m ensures m in order[..k + 1] <==> m in order[..k] || m == n {
        PrefixStep(order, k, m);
      }
      v := v[n := InitOutVoltage(g.comps[n], NoPhase)];
      i := i[n := InitInCurrent(g.comps[n], NoPhase)];
      k := k + 1;
    }
    assert order[..k] == order;
    s := State(v, i);
  }

  /** The forward pass. Each new voltage depends only on the previous
      vectors, so any order that covers the nodes gives the same result. */
  method FwdProp(g: Graph, order: seq<nat>, v: Vec, i: Vec) returns (vo: Vec)
    requires WellFormedGraph(g) && Covers(g, order) && |v| == g.size && |i| == g.size
    ensures vo == Fwd(g, v, i)
  {
    vo := seq(g.size, _ => 0.0);
    var k := 0;
    while k < |order|
      invariant 0 <= k <= |order| && |vo| == g.size
      invariant forall n :: 0 <= n < g.size ==>
                  vo[n] == (if n in order[..k] then FwdAt(g, v, i, n) else 0.0)
    {
      var n := order[k];
      var c := g.comps[n];
      var cs := Children(g, n);
      var x;
      if cs == [] {
        if n !in g.parent {
          x := SolveOutVolt(c, 0.0, 0.0, 0.0, NoPhase);
        } else {
          x := SolveOutVolt(c, v[g.parent[n]], i[n], 0.0, NoPhase);
        }
      } else {
        var isum := SumCurrents(cs, i);
        if n !in g.parent {
          x := SolveOutVolt(c, 0.0, 0.0, isum, NoPhase);
        } else {
          x := SolveOutVolt(c, v[g.parent[n]], i[n], isum, NoPhase);
        }
      }
      assert x == FwdAt(g, v, i, n);
      forall m ensures m in order[..k + 1] <==> m in order[..k] || m == n {
        PrefixStep(order, k, m);
      }
      vo := vo[n := x];
      k := k + 1;
    }
    assert order[..k] == order;
  }

  /** The backward pass, walking the order from its end. It reads the new
      voltages and the previous currents only, so it is order-independent
      too. */
  method BackProp(g: Graph, order: seq<nat>, v: Vec, i: Vec) returns (ii: Vec)
    requires WellFormedGraph(g) && Covers(g, order) && |v| == g.size && |i| == g.size
    ensures ii == Back(g, v, i)
  {
    ii := seq(g.size, _ => 0.0);
    var k := |order|;
    while k > 0
      invariant 0 <= k <= |order| && |ii| == g.size
      invariant forall n :: 0 <= n < g.size ==>
                  ii[n] == (if n in order[k..] then BackAt(g, v, i, n) else 0.0)
    {
      k := k - 1;
      var n := order[k];
      var c := g.comps[n];
      var cs := Children(g, n);
      var x;
      if cs == [] {
        if n !in g.parent {
          x := SolveInCurr(c, v[n], 0.0, 0.0, NoPhase);
        } else {
          x := SolveInCurr(c, v[g.parent[n]], 0.0, 0.0, NoPhase);
        }
      } else {
        var isum := SumCurrents(cs, i);
        if n !in g.parent {
          x := SolveInCurr(c, v[n], v[n], isum, NoPhase);
        } else {
          x := SolveInCurr(c, v[g.parent[n]], v[n], isum, NoPhase);
        }
      }
      assert x == BackAt(g, v, i, n);
      assert order[k..] == [n] + order[k + 1..];
      ii := ii[n := x];
    }
  }

  /** One round of the loop: both passes, and the tolerance test of the old
      vectors against the new ones. */
  method Round(g: Graph, order: seq<nat>, s: State, vtol: real, itol: real) returns (next: State, stop: bool)
    requires WellFormedGraph(g) && Covers(g, order) && Sized(g, s)
    ensures next == Step(g, s)
    ensures stop <==> Converged(g, s, vtol, itol)
  {
    var vi := FwdProp(g, order, s.v, s.i);
    var ii := BackProp(g, order, vi, s.i);
    next := State(vi, ii);
    stop := AllClose(s.v, vi, vtol) && AllClose(s.i, ii, itol);
  }

  /** The relaxation loop: at most `maxiter` iterations; it stops at the first
      iterate that one more iteration leaves within tolerance, and answers
      with that iterate (not the newer vectors the test compared it with).
      No such iterate within `maxiter` iterations gives `None`. */
  method Relax(g: Graph, order: seq<nat>, vtol: real, itol: real, maxiter: int) returns (r: Option<State>)
    requires WellFormedGraph(g) && Covers(g, order)
    ensures r.None? <==> NoneConverged(g, maxiter, vtol, itol)
    ensures r.Some? ==> exists k :: 0 <= k < maxiter && FirstConverged(g, k, vtol, itol) && r.value == Iterate(g, k)
  {
    var s := SysInit(g, order);
    var k: nat := 0;
    while k < maxiter
      invariant k <= maxiter || k == 0
      invariant s == Iterate(g, k)
      invariant NoneConverged(g, k, vtol, itol)
      decreases maxiter - k
    {
      var next, stop := Round(g, order, s, vtol, itol);
      if stop {
        assert FirstConverged(g, k, vtol, itol);
        if NoneConverged(g, maxiter, vtol, itol) {
          NoneConvergedPrefix(g, maxiter, k + 1, vtol, itol);
          assert false;
        }
        return Some(s);
      }
      s := next;
      k := k + 1;
    }
    return None;
  }

  // ---------------------------------------------------------------------------
  // The result table

  /** One row of the result table. */
  datatype Row = Row(component: string, kind: Kind, parent: string, domain: string,
                     vin: real, vout: real, iin: real, iout: real,
                     power: real, loss: real, efficiency: real, warnings: string)

  /** The "System total" row; its efficiency is a fraction, not a percent. */
  datatype Totals = Totals(iin: real, power: real, loss: real, efficiency: real, warnings: string)

  datatype Report = Report(rows: seq<Row>, total: Totals)

  /** Only kinds with an `rs` parameter can have a root row computed. */
  predicate HasRs(c: Component) { c.Source? || c.RLoad? || c.Loss? }

  predicate RootsHaveRs(g: Graph) {
    forall n :: n in g.comps && n !in g.parent ==> HasRs(g.comps[n])
  }

  /** The name of the last source among the first `k` nodes of the order,
      or "none". */
  function DomainAfter(g: Graph, order: seq<nat>, k: nat): string
    requires Covers(g, order) && k <= |order|
  {
    if k == 0 then "none"
    else if g.comps[order[k - 1]].Source? then g.comps[order[k - 1]].name
    else DomainAfter(g, order, k - 1)
  }

  /** The row for the `k`-th node of the order: a root's input voltage adds
      its series drop to its output voltage and its output current is its own
      current; a leaf has output current 0; any other node has its children's
      summed current as output current. */
  function RowAt(g: Graph, order: seq<nat>, s: State, k: nat): Row
    requires WellFormedGraph(g) && Covers(g, order) && Sized(g, s) && RootsHaveRs(g)
    requires k < |order|
  {
    RowOf(g, s, order[k], DomainAfter(g, order, k + 1))
  }

  /** A node's input voltage in the table. */
  function InVolt(g: Graph, s: State, n: nat): real
    requires WellFormedGraph(g) && Sized(g, s) && RootsHaveRs(g) && n in g.comps
  {
    if n !in g.parent then s.v[n] + g.comps[n].rs * s.i[n] else s.v[g.parent[n]]
  }

  /** A node's output current in the table. */
  function OutCurr(g: Graph, s: State, n: nat): real
    requires WellFormedGraph(g) && Sized(g, s) && n in g.comps
  {
    if n !in g.parent then s.i[n]
    else if Children(g, n) == [] then 0.0
    else SumAt(Children(g, n), s.i)
  }

  function RowOf(g: Graph, s: State, n: nat, domain: string): Row
    requires WellFormedGraph(g) && Sized(g, s) && RootsHaveRs(g) && n in g.comps
  {
    var c := g.comps[n];
    var vi := InVolt(g, s, n);
    var io := OutCurr(g, s, n);
    var pname := if n in g.parent then g.comps[g.parent[n]].name else "";
    var pl := SolvePwrLoss(c, vi, s.v[n], s.i[n], io, NoPhase);
    Row(c.name, c.KindOf(), pname, domain, vi, s.v[n], s.i[n], io,
        pl.pwr, pl.loss, pl.eff, SolveWarns(c, vi, s.v[n], s.i[n], io, NoPhase))
  }

  /** A node's input voltage and output current, as the table uses them. */
  method RowInputs(g: Graph, s: State, n: nat) returns (vi: real, io: real)
    requires WellFormedGraph(g) && Sized(g, s) && RootsHaveRs(g) && n in g.comps
    ensures vi == InVolt(g, s, n) && io == OutCurr(g, s, n)
  {
    var cs := Children(g, n);
    if n !in g.parent {
      vi := s.v[n] + g.comps[n].rs * s.i[n];
      io := s.i[n];
    } else if cs == [] {
      vi := s.v[g.parent[n]];
      io := 0.0;
    } else {
      vi := s.v[g.parent[n]];
      io := SumCurrents(cs, s.i);
    }
  }

  /** Computes one node's row. */
  method SolveRow(g: Graph, s: State, n: nat, domain: string) returns (row: Row)
    requires WellFormedGraph(g) && Sized(g, s) && RootsHaveRs(g) && n in g.comps
    ensures row == RowOf(g, s, n, domain)
  {
    var c := g.comps[n];
    var vi, io := RowInputs(g, s, n);
    var pname := if n in g.parent then g.comps[g.parent[n]].name else "";
    var pl := SolvePwrLoss(c, vi, s.v[n], s.i[n], io, NoPhase);
    var w := "";
    var checks := WarnChecks(c, vi, s.v[n], s.i[n], io, NoPhase);
    if checks.Some? {
      w := GetWarns(c.limits, checks.value);
    }
    assert w == SolveWarns(c, vi, s.v[n], s.i[n], io, NoPhase);
    row := Row(c.name, c.KindOf(), pname, domain, vi, s.v[n], s.i[n], io, pl.pwr, pl.loss, pl.eff, w);
  }

  function Rows(g: Graph, order: seq<nat>, s: State): (rows: seq<Row>)
    requires WellFormedGraph(g) && Covers(g, order) && Sized(g, s) && RootsHaveRs(g)
    ensures |rows| == |order| && forall k :: 0 <= k < |order| ==> rows[k] == RowAt(g, order, s, k)
  {
    seq(|order|, k requires 0 <= k < |order| => RowAt(g, order, s, k))
  }

  function SumLoss(rows: seq<Row>): real
    decreases |rows|
  {
    if rows == [] then 0.0 else SumLoss(rows[..|rows| - 1]) + rows[|rows| - 1].loss
  }

  /** How many rows carry a warning. */
  function CountWarned(rows: seq<Row>): nat
    decreases |rows|
  {
    if rows == [] then 0
    else CountWarned(rows[..|rows| - 1]) + (if rows[|rows| - 1].warnings != "" then 1 else 0)
  }

  lemma {:induction false} CountWarnedPositive(rows: seq<Row>)
    ensures CountWarned(rows) > 0 <==> exists k :: 0 <= k < |rows| && rows[k].warnings != ""
    decreases |rows|
  {
    if rows != [] {
      var init := rows[..|rows| - 1];
      CountWarnedPositive(init);
      assert forall k :: 0 <= k < |init| ==> init[k] == rows[k];
      if CountWarned(init) == 0 && rows[|rows| - 1].warnings == "" {
        forall k | 0 <= k < |rows| ensures rows[k].warnings == "" {
          if k < |init| {
            assert init[k].warnings == "";
          }
        }
      }
    }
  }

  /** The totals row: power is the first row's input voltage times node 0's
      current, loss is the sum of all row losses, efficiency is
      (power - loss) / power (0 without power), and the warning flag is "Yes"
      exactly when some row has a warning. */
  function TotalsOf(rows: seq<Row>, i0: real): (t: Totals)
    requires |rows| > 0
    ensures t.iin == i0 && t.power == Abs(rows[0].vin * i0) && t.loss == SumLoss(rows)
    ensures t.power > 0.0 ==> t.efficiency * t.power == t.power - t.loss
    ensures t.power == 0.0 ==> t.efficiency == 0.0
    ensures t.warnings == "Yes" <==> exists k :: 0 <= k < |rows| && rows[k].warnings != ""
    ensures t.warnings == "None" <==> forall k :: 0 <= k < |rows| ==> rows[k].warnings == ""
  {
    CountWarnedPositive(rows);
    var tpwr := Abs(rows[0].vin * i0);
    var tloss := SumLoss(rows);
    var eff := if tpwr > 0.0 then (tpwr - tloss) / tpwr else 0.0;
    Totals(i0, tpwr, tloss, eff, if CountWarned(rows) > 0 then "Yes" else "None")
  }

  function ReportOf(g: Graph, order: seq<nat>, s: State): Report
    requires WellFormedGraph(g) && Covers(g, order) && Sized(g, s) && RootsHaveRs(g)
    requires 0 in g.comps
  {
    assert 0 in order;
    var rows := Rows(g, order, s);
    Report(rows, TotalsOf(rows, s.i[0]))
  }

  lemma PrefixSnoc<T>(xs: seq<T>, k: nat)
    requires k < |xs|
    ensures xs[..k + 1] == xs[..k] + [xs[k]]
  {
  }

  /** The row of the `k`-th node of the order, given the domain so far;
      returns the domain the next node sees. */
  method NextRow(g: Graph, order: seq<nat>, s: State, k: nat, domain: string) returns (row: Row, next: string)
    requires WellFormedGraph(g) && Covers(g, order) && Sized(g, s) && RootsHaveRs(g)
    requires k < |order| && domain == DomainAfter(g, order, k)
    ensures row == RowAt(g, order, s, k) && next == DomainAfter(g, order, k + 1)
  {
    var n := order[k];
    next := domain;
    if g.comps[n].Source? {
      next := g.comps[n].name;
    }
    row := SolveRow(g, s, n, next);
  }

  /** Builds the rows one node at a time, then the totals row. */
  method Assemble(g: Graph, order: seq<nat>, s: State) returns (rep: Report)
    requires WellFormedGraph(g) && Covers(g, order) && Sized(g, s) && RootsHaveRs(g)
    requires 0 in g.comps
    ensures rep == ReportOf(g, order, s)
  {
    var rows: seq<Row> := [];
    var dname := "none";
    var k := 0;
    while k < |order|
      invariant 0 <= k <= |order|
      invariant dname == DomainAfter(g, order, k)
      invariant rows == Rows(g, order, s)[..k]
    {
      var row;
      row, dname := NextRow(g, order, s, k, dname);
      PrefixSnoc(Rows(g, order, s), k);
      rows := rows + [row];
      k := k + 1;
    }
    assert rows == Rows(g, order, s);
    assert 0 in order;
    rep := Report(rows, TotalsOf(rows, s.i[0]));
  }

  /** The whole solve over a graph: relaxation in topological order, then
      the report of the first iterate that meets the tolerances. */
  method SolveGraph(g: Graph, vtol: real, itol: real, maxiter: int) returns (r: Option<Report>)
    requires WellFormedGraph(g) && RootsHaveRs(g) && 0 in g.comps
    ensures r.None? <==> NoneConverged(g, maxiter, vtol, itol)
    ensures maxiter < 1 ==> r.None?
    ensures r.Some? ==>
              exists k :: 0 <= k < maxiter && FirstConverged(g, k, vtol, itol)
                          && r.value == ReportOf(g, TopoOrder(g), Iterate(g, k))
  {
    var order := TopoOrder(g);
    var s := Relax(g, order, vtol, itol, maxiter);
    if s.None? {
      return None;
    }
    var rep := Assemble(g, order, s.value);
    return Some(rep);
  }

  // ---------------------------------------------------------------------------
  // Properties

  /** Position `j` holds the last source among the first `k` nodes. */
  predicate LatestSourceAt(g: Graph, order: seq<nat>, j: nat, k: nat)
    requires Covers(g, order) && k <= |order|
  {
    && j < k && g.comps[order[j]].Source?
    && forall m :: j < m < k ==> !g.comps[order[m]].Source?
  }

  /** The domain column names the last source at or before the row, and
      "none" before the first source. */
  lemma {:induction false} DomainIsLatestSource(g: Graph, order: seq<nat>, k: nat)
    requires Covers(g, order) && k <= |order|
    ensures (forall j :: 0 <= j < k ==> !g.comps[order[j]].Source?) ==> DomainAfter(g, order, k) == "none"
    ensures forall j: nat :: LatestSourceAt(g, order, j, k) ==> DomainAfter(g, order, k) == g.comps[order[j]].name
    decreases k
  {
    if k > 0 {
      DomainIsLatestSource(g, order, k - 1);
      forall j: nat | LatestSourceAt(g, order, j, k)
        ensures DomainAfter(g, order, k) == g.comps[order[j]].name
      {
        if j < k - 1 {
          assert !g.comps[order[k - 1]].Source?;
          assert LatestSourceAt(g, order, j, k - 1);
        }
      }
    }
  }

  /** A source root draws what its children drew in the previous iterate,
      and nothing when it has no children. */
  lemma SourceDrawsChildrenCurrent(g: Graph, v: Vec, i: Vec, n: nat)
    requires WellFormedGraph(g) && |v| == g.size && |i| == g.size
    requires n in g.comps && g.comps[n].Source? && n !in g.parent
    ensures Back(g, v, i)[n] == SumAt(Children(g, n), i)
    ensures Children(g, n) == [] ==> Back(g, v, i)[n] == 0.0
  {
  }

  /** A row names its component, kind and domain, and reports the node's
      output voltage and input current from the iterate. */
  lemma RowColumns(g: Graph, s: State, n: nat, domain: string)
    requires WellFormedGraph(g) && Sized(g, s) && RootsHaveRs(g) && n in g.comps
    ensures var row := RowOf(g, s, n, domain);
            && row.component == g.comps[n].name && row.kind == g.comps[n].KindOf()
            && row.domain == domain && row.vout == s.v[n] && row.iin == s.i[n]
  {
  }

  /** A row's input voltage and output current columns are the node's table
      inputs. */
  lemma RowInputColumns(g: Graph, s: State, n: nat, domain: string)
    requires WellFormedGraph(g) && Sized(g, s) && RootsHaveRs(g) && n in g.comps
    ensures RowOf(g, s, n, domain).vin == InVolt(g, s, n)
    ensures RowOf(g, s, n, domain).iout == OutCurr(g, s, n)
    ensures RowOf(g, s, n, domain).parent == if n in g.parent then g.comps[g.parent[n]].name else ""
  {
  }

  /** A root's table inputs: its own voltage plus the series drop, and its
      own current. */
  lemma RootInputs(g: Graph, s: State, n: nat)
    requires WellFormedGraph(g) && Sized(g, s) && RootsHaveRs(g) && n in g.comps
    requires n !in g.parent
    ensures InVolt(g, s, n) == s.v[n] + g.comps[n].rs * s.i[n]
    ensures OutCurr(g, s, n) == s.i[n]
  {
  }

  /** A root's row: its input voltage adds the series drop `rs * ii` to its
      output voltage, its output current is its own input current, and its
      parent column is empty. */
  lemma RootRow(g: Graph, s: State, n: nat, domain: string)
    requires WellFormedGraph(g) && Sized(g, s) && RootsHaveRs(g) && n in g.comps
    requires n !in g.parent
    ensures RowOf(g, s, n, domain).vin == s.v[n] + g.comps[n].rs * s.i[n]
    ensures RowOf(g, s, n, domain).iout == s.i[n]
    ensures RowOf(g, s, n, domain).parent == ""
  {
    RowInputColumns(g, s, n, domain);
    RootInputs(g, s, n);
  }

  /** The row of a node with a parent: its input voltage is the parent's
      output voltage, the parent column names the parent, and its output
      current is 0 for a leaf and its children's summed current otherwise. */
  lemma ChildRow(g: Graph, s: State, n: nat, domain: string)
    requires WellFormedGraph(g) && Sized(g, s) && RootsHaveRs(g) && n in g.comps
    requires n in g.parent
    ensures var row := RowOf(g, s, n, domain);
            && row.vin == s.v[g.parent[n]] && row.parent == g.comps[g.parent[n]].name
            && (Children(g, n) == [] ==> row.iout == 0.0)
            && (Children(g, n) != [] ==> row.iout == SumAt(Children(g, n), s.i))
  {
  }

  /** The rows follow the order one for one, each node's row carrying the
      last source at or before it as its domain. */
  lemma ReportRows(g: Graph, order: seq<nat>, s: State, k: nat)
    requires WellFormedGraph(g) && Covers(g, order) && Sized(g, s) && RootsHaveRs(g)
    requires k < |order|
    ensures |Rows(g, order, s)| == |order|
    ensures Rows(g, order, s)[k] == RowOf(g, s, order[k], DomainAfter(g, order, k + 1))
  {
  }

  /** The graph of a system holding one source and nothing else. */
  function LoneSource(c: Component): Graph {
    Graph(map[0 := c], map[], 1)
  }

  /** The starting vectors of a lone source reproduce themselves. */
  lemma LoneSourceFixedPoint(c: Component)
    requires c.Source? && WellFormed(c)
    ensures WellFormedGraph(LoneSource(c))
    ensures Iterate(LoneSource(c), 0) == State([c.vo], [0.0])
    ensures Step(LoneSource(c), Iterate(LoneSource(c), 0)) == Iterate(LoneSource(c), 0)
  {
    var g := LoneSource(c);
    assert Children(g, 0) == [];
    var s := Iterate(g, 0);
    assert s.v == [c.vo] && s.i == [0.0];
    var r := Step(g, s);
    assert r.v[0] == c.vo && r.i[0] == 0.0;
    assert r.v == [c.vo] && r.i == [0.0];
  }

  /** A system holding one source settles on the first test: the starting
      vectors already reproduce themselves. */
  lemma LoneSourceConvergesAtOnce(c: Component, vtol: real, itol: real)
    requires c.Source? && WellFormed(c) && vtol >= 0.0 && itol >= 0.0
    ensures WellFormedGraph(LoneSource(c))
    ensures Iterate(LoneSource(c), 0) == State([c.vo], [0.0])
    ensures FirstConverged(LoneSource(c), 0, vtol, itol)
  {
    LoneSourceFixedPoint(c);
    var g := LoneSource(c);
    var s := Iterate(g, 0);
    AllCloseElementwise(s.v, s.v, vtol);
    AllCloseElementwise(s.i, s.i, itol);
  }

  /** The report of a lone source has zero total power and a total
      efficiency of 0, not 100. */
  lemma LoneSourceReport(c: Component)
    requires c.Source? && WellFormed(c)
    ensures WellFormedGraph(LoneSource(c))
    ensures var g := LoneSource(c);
            && ReportOf(g, TopoOrder(g), Iterate(g, 0)).total.power == 0.0
            && ReportOf(g, TopoOrder(g), Iterate(g, 0)).total.efficiency == 0.0
  {
    LoneSourceFixedPoint(c);
    var g := LoneSource(c);
    assert TopoOrder(g) == [0];
  }
}
