# sysloss core in Dafny

This is a model of the core of `sysloss`, a DC power-tree loss analyser. A system is a forest of components:

- sources at the roots;
- converters, linear regulators and series losses inside the trees;
- power, current and resistive loads at the leaves.

Solving the system alternates two passes until two iterates agree within relative tolerances:

- a forward pass, which propagates voltages from the roots;
- a backward pass, which propagates currents from the leaves.

The solver then tabulates, for every node:

- input and output voltage and current;
- power, loss and efficiency;
- limit warnings.

A "System total" row follows the node rows.

The project has four modules:

- `components.dfy`, module `Components`:
  - the seven component kinds as one datatype;
  - their checked construction;
  - the child-kind rule;
  - the per-kind solver rules: initial values, one forward and one backward step, power/loss/efficiency, and limit warnings with the `_get_warns` loop.
- `graph.dfy`, module `PowerGraph`:
  - a value snapshot of the graph: components by node index, a parent map, and a bound on the indices;
  - the views the solver uses: children, descendants, topological order.
- `solver.dfy`, module `Solver`:
  - the forward and backward passes as loops proved equal to per-node specification functions, for any order that covers the nodes;
  - the relaxation loop;
  - the result rows and the totals row.
- `system.dfy`, module `PowerSystem`:
  - the mutable `System` class: its name map, parent map and node store;
  - its edit operations, with their error precedence;
  - `Solve`.

Node indices are handed out in increasing order and never reused. So a parent's index is always below its children's, and ascending index order is a topological order. The passes are shown to give the same vectors for every order that lists each node. So the particular topological order does not change the solved vectors. It does decide the row order and the domain column. Through the first row it also decides the totals row: total power is the first row's input voltage times node 0's current, and the total efficiency follows from it. With several roots, the order therefore picks which source's voltage enters the totals.

## Model

| member | source | states |
|---|---|---|
| Components.GetOpt | src/sysloss/components.py:54-58 | the stored value when the key is present, otherwise the default |
| Components.GetMand | src/sysloss/components.py:61-65 | succeeds exactly when the key is present, with its value; a missing key is an error naming that key |
| Components.GetWarns | src/sysloss/components.py:68-76 | the loop's string equals the warning text: each violating key followed by a space, in check order |
| Components.FlaggedMembers | src/sysloss/components.py:68-76 | a key is flagged iff some check with that key has a magnitude outside [abs lo, abs hi] of its limit (default [0, 1e6]) |
| Components.WarnTextEmpty | src/sysloss/components.py:68-76 | the warning text is empty iff no check violates its limit |
| Components.GetEff | src/sysloss/components.py:79-83 | with positive input power, the efficiency times input power is 100 times the output-power magnitude (so it is non-negative); otherwise it is the default; never negative when the default is not |
| Components.NewSource | src/sysloss/components.py:132-145 | a well-formed Source keeping vo and storing abs(rs) |
| Components.NewPLoad | src/sysloss/components.py:203-218 | a well-formed power load storing abs(pwr) and abs(pwrs) and the phase overrides |
| Components.NewILoad | src/sysloss/components.py:276-291 | a well-formed current load storing abs(ii) and abs(iis) and the phase overrides |
| Components.NewRLoad | src/sysloss/components.py:330-345 | fails exactly when rs is 0; otherwise a well-formed resistive load storing abs(rs) |
| Components.NewLoss | src/sysloss/components.py:391-404 | a well-formed series loss storing abs(rs) and abs(vdrop) |
| Components.NewConverter | src/sysloss/components.py:471-494 | succeeds exactly when 0 < eff < 1; eff <= 0 gives the lower-bound error first; iq and iis stored as magnitudes |
| Components.NewLinReg | src/sysloss/components.py:588-609 | succeeds exactly when abs(vdrop) < abs(vo); vdrop, iq and iis stored as magnitudes |
| Components.ChildTypes | src/sysloss/components.py:125-130 | SOURCE is never an allowed child kind; the set is empty exactly for loads; every other kind allows LOAD, LOSS, CONVERTER and LINREG |
| Components.ChildTypesRule | src/sysloss/components.py:197-201 | a kind is an allowed child iff the parent is not a load and the kind is not SOURCE |
| Components.SelectLoad | src/sysloss/components.py:238-249 | the three-way phase split: base value for no phase or no overrides, standby value for an unlisted phase, the override for a listed phase |
| Components.InitOutVoltage | src/sysloss/components.py:518-524 | only a source or an active converter or regulator starts with a non-zero output voltage, and each of these starts at its vo (per kind: 161-162, 235-236, 420-421, 518-524, 633-639) |
| Components.InitInCurrent | src/sysloss/components.py:510-516 | only a current load, converter or regulator starts with a non-zero input current: a current load starts at ii, an active converter or regulator at iq and a switched-off one at iis; a well-formed component never starts with a negative one (per kind: 158-159, 232-233, 305-306, 417-418, 510-516, 625-631) |
| Components.SolveOutVolt | src/sysloss/components.py:652-661 | a source outputs vo − rs·io and an active converter vo; loads and switched-off converters and regulators output 0 V; a well-formed series loss or linear regulator outputs 0 V from vi = 0; a linear regulator's output magnitude is at most abs(vo) and at most abs(vi) (per kind: 168-170, 251-253, 429-436, 539-546, 652-661) |
| Components.SolveInCurr | src/sysloss/components.py:238-249 | a source draws its children's current; every other kind draws nothing at vi = 0; an active linear regulator draws io + iq from a non-zero vi; a current load never draws a negative current, nor does a well-formed converter or regulator with a non-negative output current (per kind: 164-166, 238-249, 308-318, 358-366, 423-427, 526-537, 641-650) |
| Components.SourcePwrLoss | src/sysloss/components.py:172-177 | loss rs·io², input power abs(vo·io) plus that loss, efficiency 100·abs(vo·io) over positive input power and 100 otherwise |
| Components.SeriesPwrLoss | src/sysloss/components.py:438-443 | power 0, loss abs(rs·ii² + vdrop·ii), efficiency 100·abs(vo·io)/abs(vi·ii), or 0 without input power |
| Components.ConverterPwrLoss | src/sysloss/components.py:548-560 | power 0, non-negative efficiency; loss abs(iis·vi) when switched off, abs(iq·vi + (ii − iq)·vi·(1 − eff)) when active |
| Components.LinRegPwrLoss | src/sysloss/components.py:663-672 | power 0, non-negative efficiency; loss abs(iis·vi) when switched off, (abs(vi) − abs(vo))·io + abs(vi)·iq when active |
| Components.SolvePwrLoss | src/sysloss/components.py:255-257 | only sources and loads report input power; a load reports (abs(vi·ii), 0, 100); no component reports a negative efficiency (per kind: 172-177, 255-257, 438-443, 548-560, 663-672) |
| Components.WarnChecks | src/sysloss/components.py:259-264 | nothing is checked exactly for a load with phase overrides in a named phase it does not list; a source checks ii, io; a load otherwise checks vi, ii; every other kind checks vi, vo, ii, io, in that order, each with its own value (per kind: 179-181, 259-264, 445-447, 562-564, 674-676) |
| Components.SolveWarns | src/sysloss/components.py:179-181 | no warning when nothing is checked; otherwise no warning exactly when none of the kind's checked values lies outside its limit: ii, io for a source, vi, ii for a load, vi, vo, ii, io for the other kinds (per kind: 179-181, 259-264, 445-447, 562-564, 674-676) |
| Components.SolveWarnsEmpty | src/sysloss/components.py:445-447 | a row has no warning exactly when nothing is checked or every checked value lies within its limit |
| Components.SourceEfficiencyBounded | src/sysloss/components.py:172-177 | source input power is abs(vo·io) + rs·io², its loss is rs·io² and non-negative and its efficiency lies in [0, 100]: 100 when no power goes in (the source's default, where losses and regulators default to 0), otherwise 100·abs(vo·io) over the input power |
| Components.LoadRules | src/sysloss/components.py:232-257 | loads start and stay at output voltage 0, draw nothing at vi = 0, and report (abs(vi·ii), 0, 100) |
| Components.LoadCurrentByPhase | src/sysloss/components.py:238-249 | from a non-zero vi, a power load draws the phase-selected power over abs(vi) and a current load the magnitude of the phase-selected current |
| Components.InactiveRegulator | src/sysloss/components.py:510-560 | a switched-off converter or regulator starts and stays at 0 V, draws iis from a non-zero vi, and reports power 0 and loss abs(iis·vi) |
| Components.ActiveRegulatorDefaultPhase | src/sysloss/components.py:510-524 | in the default phase a converter or regulator is active and starts at vo with current iq |
| Components.RLoadCurrent | src/sysloss/components.py:358-366 | a resistive load's current times the resistance it uses (the listed phase's override, otherwise rs; no standby value) is abs(vi) |
| Components.LinRegOutputBounded | src/sysloss/components.py:652-661 | the regulator output never exceeds abs(vo), has vo's sign, equals vo when active with enough headroom, and in dropout has magnitude max(abs(vi) − vdrop, 0) |
| Components.ConverterInputCurrent | src/sysloss/components.py:526-537 | an active converter draws iq plus abs(vo·io)/(eff·vi) from a positive vi and nothing from vi <= 0 |
| Components.LossRules | src/sysloss/components.py:423-436 | a series loss outputs 0 V and draws 0 at vi = 0; otherwise it drops rs·io + vdrop towards zero and passes io through |
| Components.LossPowerReport | src/sysloss/components.py:438-443 | a series loss reports power 0, the non-negative loss abs(rs·ii² + vdrop·ii), and efficiency 100·output/input power, or 0 without input power |
| Components.RegulatorPowerReport | src/sysloss/components.py:548-560 | a converter or regulator reports power 0 and efficiency 100·abs(input − loss)/input, or 0 without input power |
| Components.RegulatorLossReport | src/sysloss/components.py:548-560 | the loss of a converter or regulator is abs(iis·vi) when switched off; when active, abs(iq·vi + (ii − iq)·vi·(1 − eff)) for a converter and (abs(vi) − abs(vo))·io + abs(vi)·iq for a linear regulator (per kind: 548-560, 663-672) |
| Components.SourceWarnKeys | src/sysloss/components.py:179-181 | a source only ever flags "ii" or "io" |
| Components.LoadSilentInUnlistedPhase | src/sysloss/components.py:259-264 | a load with overrides gives no warning in a named phase it does not list |
| PowerGraph.Children | src/sysloss/system.py:148-156 | exactly the nodes whose parent is n, in ascending order, all of them nodes |
| PowerGraph.TopoOrder | src/sysloss/system.py:173-176 | lists every node exactly once and puts each parent before its children |
| PowerGraph.Descendants | src/sysloss/system.py:257-261 | the nodes having e as an ancestor, all of them nodes with indices above e |
| PowerGraph.DescendantsClosed | src/sysloss/system.py:257-261 | a node whose parent is e or a descendant of e is itself a descendant |
| Solver.SumCurrents | src/sysloss/system.py:314-316 | the loop's sum equals the sum of the listed children's currents |
| Solver.SysInit | src/sysloss/system.py:293-299 | the vectors hold each node's initial output voltage and input current, 0 at unused indices |
| Solver.FwdProp | src/sysloss/system.py:301-321 | for any order covering the nodes, each new voltage is the node's rule applied to the previous parent voltage and its own previous current (both 0 at a root) and its children's previous currents |
| Solver.BackProp | src/sysloss/system.py:323-343 | walking the order backwards, each new current is the node's rule on the new parent voltage (its own at a root), its new voltage and its children's previous currents; a leaf uses 0 for both |
| Solver.Close | src/sysloss/system.py:368-370 | with a non-negative relative tolerance, two values within the absolute tolerance 1e-8 always pass |
| Solver.AllClose | src/sysloss/system.py:368-370 | with a non-negative relative tolerance, identical vectors always pass |
| Solver.AllCloseElementwise | src/sysloss/system.py:368-370 | the tolerance test passes iff every element satisfies abs(a − b) <= 1e-8 + rtol·abs(b), numpy's allclose rule |
| Solver.Round | src/sysloss/system.py:366-370 | one round yields exactly the next iterate and asks to stop exactly when the current iterate passes both tolerance tests |
| Solver.NoneConvergedElementwise | src/sysloss/system.py:364-379 | the loop's "nothing converged yet" condition after k rounds holds iff each of the first k iterates fails a tolerance test |
| Solver.Relax | src/sysloss/system.py:362-379 | None iff no iterate among the first maxiter passes both tolerance tests; otherwise the first such iterate, which is the older of the two compared |
| Solver.RowInputs | src/sysloss/system.py:394-405 | a node's table input voltage and output current: a root adds rs·ii to its own voltage and passes its own current, a leaf takes its parent's voltage and outputs 0, an inner node sums its children's currents |
| Solver.SolveRow | src/sysloss/system.py:385-414 | the row computed for one node equals its specification row |
| Solver.ReportRows | src/sysloss/system.py:385-414 | one row per position in the order; row k is node order[k]'s row with the last source up to position k as its domain |
| Solver.NextRow | src/sysloss/system.py:385-414 | one pass of the row loop: the k-th row, and the domain advanced to the k-th node's name when it is a source |
| Solver.RowColumns | src/sysloss/system.py:386-393 | a row names its component, kind and domain and reports the node's own output voltage and input current |
| Solver.RootRow | src/sysloss/system.py:394-406 | a root row's vin adds rs·ii to its vout, its iout is its own current, and its parent column is empty |
| Solver.ChildRow | src/sysloss/system.py:394-406 | a non-root row's vin is the parent's voltage and its parent column names the parent; its iout is 0 for a leaf and the children's summed current otherwise |
| Solver.DomainIsLatestSource | src/sysloss/system.py:384-389 | the domain column is the last source at or before the row in the order, or "none" before the first one |
| Solver.TotalsOf | src/sysloss/system.py:438-459 | total power is abs(first row's vin · node 0's current); total loss sums the row losses; efficiency is the fraction (power − loss)/power, or 0 without power; the flag is "Yes" iff some row warns, else "None" |
| Solver.CountWarnedPositive | src/sysloss/system.py:441-443 | the count of warned rows is positive iff some row has a warning |
| Solver.Assemble | src/sysloss/system.py:381-459 | the rows and totals built by the loop equal the report of the given iterate |
| Solver.SolveGraph | src/sysloss/system.py:358-461 | None iff no iterate among the first maxiter converges (always None when maxiter < 1); otherwise the report of the first converged iterate |
| Solver.SourceDrawsChildrenCurrent | src/sysloss/system.py:334-341 | after a backward pass a source root draws what its children drew in the previous iterate, and 0 without children |
| Solver.LoneSourceFixedPoint | src/sysloss/system.py:362-367 | a lone source starts at (vo, 0) and one round of both passes leaves that iterate unchanged |
| Solver.LoneSourceConvergesAtOnce | src/sysloss/system.py:364-379 | a lone source settles on the first test, whatever the non-negative tolerances |
| Solver.LoneSourceReport | src/sysloss/system.py:438-459 | a lone source's report has total power 0 and total efficiency 0, not 100 |
| PowerSystem.System.Init | src/sysloss/system.py:41-50 | a consistent system holding only the source at node 0, with only its name mapped |
| PowerSystem.System.Create | src/sysloss/system.py:41-50 | succeeds exactly when the first component is a source |
| PowerSystem.System.AddComp | src/sysloss/system.py:192-209 | checks the parent exists, then the name is free, then the kind is allowed, changing nothing on failure; passes exactly when all three hold; on success adds one node under the parent, maps its name, and keeps roots sources and loads leaves |
| PowerSystem.AddChildKeepsConsistent | src/sysloss/system.py:192-209 | adding a non-source under an existing node at the next index under a free name keeps the system consistent; roots stay sources, and loads stay leaves when the parent is not a load |
| PowerSystem.System.AddSource | src/sysloss/system.py:211-218 | checks the name, then the kind; on success adds one parentless source and maps its name |
| PowerSystem.AddRootKeepsConsistent | src/sysloss/system.py:211-218 | adding a source as a new root at the next index under a free name keeps the system consistent, roots sources and loads leaves |
| PowerSystem.System.ChangeComp | src/sysloss/system.py:220-239 | a taken new name fails with a name-in-use error; otherwise an unknown name fails, changing nothing; otherwise a non-root node whose parent does not allow the new kind fails with a child-not-allowed error; it passes exactly when neither applies, and on success the node keeps its index and edges and the old name is replaced by the new one |
| PowerSystem.ReplaceKeepsConsistent | src/sysloss/system.py:220-239 | a replacement keeps the system consistent; roots stay sources unless a root gets a non-source; loads stay leaves unless a node with children becomes a load |
| PowerSystem.System.DelComp | src/sysloss/system.py:241-269 | unknown names and roots are refused without change; otherwise removes the node (and its descendants when asked) from the store and name map, and otherwise moves its children to its parent |
| PowerSystem.Remove | src/sysloss/system.py:241-269 | the graph and name map without the removed nodes (the node, plus its descendants when asked), the surviving children moved to the node's parent, still consistent |
| PowerSystem.CollectDescendants | src/sysloss/system.py:257-261 | the loop collects exactly the descendants of the node |
| PowerSystem.Relink | src/sysloss/system.py:265-269 | every listed child gets the new parent; all other edges stay |
| PowerSystem.DeleteKeepsConsistent | src/sysloss/system.py:241-269 | both kinds of deletion keep the system consistent, with roots staying sources and loads staying leaves |
| PowerSystem.System.Solve | src/sysloss/system.py:358-461 | the relaxation and report over the current graph in ascending index order; None iff no iterate within maxiter converges |

## Left out

- File loading and saving (`from_file` of every class, `System.from_file`, `save`): file I/O and JSON/TOML parsing.
- `tree`, `params` and the pandas table: rendering only. Rows are a sequence of records, and the totals row is a separate record.
- The `ComponentMeta`/`ComponentInterface` duck typing: runtime introspection with no behaviour.
- Console output from `solve` and `del_comp`.
- Floating point: all quantities are exact reals. Convergence of the relaxation and concrete results such as the efficiency of a particular circuit are therefore not modelled; only the loop and its stopping rule are.
- Phases in the system: every component rule requires a `phase` argument, but the system calls them without one (`src/sysloss/system.py:297-298`, `:309`, `:331`, `:407`, `:412`). In Python that raises a `TypeError` at the first call, so `solve` as written never completes. The system-level model passes the empty phase, the "no phase" value of the rules, and phase scheduling is not part of this model.
- `src/sysloss/element.py` is not part of this model; the system does not import it.
- rustworkx internals. Cycle checking is unnecessary because edges only ever point from a lower to a higher index. The library reuses freed indices and uses its own topological order; the model never reuses an index and uses ascending index order.
- PowerSystem.System.Solve: requires every root to be a kind with a series resistance (source, resistive load or loss). For any other root the source reads `rs` only after convergence, while building the rows, and fails there with a missing-key error. When no iterate converges it returns None without reading `rs`; the model refuses such a graph in both cases.
- PowerSystem.System.ChangeComp: reports an unknown name as `NameNotFound`. The source does not look the name up first; it carries on with index −1 and always ends in an exception that leaves the system unchanged. That exception is the child-kind `ValueError` when `parents[-1]`, the parent entry of the highest-index node, refuses the new kind; otherwise the store write at index −1 fails (system.py:236) and, at the latest, removing the unknown name from the name map raises `KeyError` (system.py:238). The model keeps the failure and the unchanged state but not which of these exceptions is raised.
- Solver.SolveGraph: requires every root to carry `rs`, as do `Solver.RowInputs`, `Solver.SolveRow`, `Solver.NextRow` and `Solver.Assemble`. For a graph with another kind of root the source still returns None when nothing converges; the model does not state that case.
- Components.SolveInCurr: requires a resistive load's phase override not to be 0. The source divides by it.
- Components.SolvePwrLoss: its own contract states only the facts shared across kinds (which kinds report input power, the load row, non-negative efficiency). The per-kind power, loss and efficiency values are stated by `Components.SourcePwrLoss`, `Components.SeriesPwrLoss`, `Components.ConverterPwrLoss` and `Components.LinRegPwrLoss`, to which it dispatches, and by `Components.SourceEfficiencyBounded`, `Components.LossPowerReport`, `Components.RegulatorPowerReport` and `Components.RegulatorLossReport` about `SolvePwrLoss` itself.
- Keyword defaults: the model takes every argument explicitly. The defaults are not modelled: `solve(vtol=1e-5, itol=1e-6, maxiter=1000)` (system.py:358), `del_comp(del_childs=True)` (system.py:241), and the component defaults `RS_DEFAULT`, `IQ_DEFAULT`, `IIS_DEFAULT`, `VDROP_DEFAULT`, `PWRS_DEFAULT`, `LIMITS_DEFAULT`, `{}` and `[]` (components.py:40-51).

Behaviours of the code that a reader might not expect, all kept by the model:

- `change_comp` does not check the kind when it replaces a root, and lets a node with children become a load. `Valid` therefore does not include "roots are sources" or "loads are leaves". The edit methods state when each of these is preserved.
- `del_comp` refuses every root, and `del_childs = True` removes the whole subtree.
- The domain column is the most recent source in topological order, not the nearest source ancestor. In ascending index order, a node added under the first source after a second source was added reports the second source's domain.
- The totals row uses the first row's input voltage and node 0's current, and gives its efficiency as a fraction. A lone source therefore gets a total efficiency of 0, not 100%.
- There are no subsystem rows.
- Loss, converter and regulator rows report power 0.
- On convergence the report uses the iterate before the last pass, not the vectors that pass produced.
