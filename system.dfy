/** The system: a named forest of components, built and edited by name,
    and solved as a whole. Node indices are handed out in increasing order
    and never reused, so every parent's index is below its children's. */
module PowerSystem {
  import opened Components
  import opened PowerGraph
  import opened Solver

  /** Why an edit was refused. */
  datatype SysError =
    | NotASource
    | ParentNotFound(parent: string)
    | NameInUse(name: string)
    | ChildNotAllowed(kind: Kind)
    | NameNotFound(name: string)
    | CannotDeleteSource

  datatype Outcome = Pass | Fail(error: SysError)

  /** Every node without a parent is a source. */
  predicate RootsAreSources(g: Graph) {
    forall n :: n in g.comps && n !in g.parent ==> g.comps[n].Source?
  }

  /** No load has a child. */
  predicate LoadsAreLeaves(g: Graph) {
    forall c :: c in g.parent && g.parent[c] in g.comps ==> !g.comps[g.parent[c]].IsLoad()
  }

  /** The graph is well formed, node 0 is a root, no source has a parent,
      and `names` maps each component's name to its node and nothing
      else. */
  ghost predicate Consistent(g: Graph, names: map<string, nat>) {
    && WellFormedGraph(g)
    && 0 in g.comps && 0 !in g.parent
    && (forall c :: c in g.parent ==> !g.comps[c].Source?)
    && (forall nm :: nm in names ==> names[nm] in g.comps && g.comps[names[nm]].name == nm)
    && (forall n :: n in g.comps ==> g.comps[n].name in names && names[g.comps[n].name] == n)
  }

  /** The node indices of every descendant of `e`: a node is one exactly
      when its parent is `e` or one already found, and parents come
      before their children in index order. */
  method CollectDescendants(g: Graph, e: nat) returns (ds: set<nat>)
    requires WellFormedGraph(g)
    ensures ds == Descendants(g, e)
  {
    ds := {};
    var k := e + 1;
    while k < g.size
      invariant e < k
      invariant forall n :: n in ds <==> e < n < k && n in g.comps && IsAncestor(g, e, n)
    {
      if k in g.parent && (g.parent[k] == e || g.parent[k] in ds) {
        ds := ds + {k};
      } else if k in g.parent && g.parent[k] != e && IsAncestor(g, e, g.parent[k]) {
        AncestorBelow(g, e, g.parent[k]);
      }
      k := k + 1;
    }
    forall n | n in g.comps && IsAncestor(g, e, n) ensures n < k {
      AncestorBelow(g, e, n);
    }
  }

  /** Gives each listed node the parent `pe`. */
  method Relink(parent: map<nat, nat>, cs: seq<nat>, pe: nat) returns (r: map<nat, nat>)
    ensures forall c :: c in r <==> c in parent || c in cs
    ensures forall c :: c in r ==> r[c] == if c in cs then pe else parent[c]
  {
    r := parent;
    var j := 0;
    while j < |cs|
      invariant 0 <= j <= |cs|
      invariant forall c :: c in r <==> c in parent || c in cs[..j]
      invariant forall c :: c in r ==> r[c] == if c in cs[..j] then pe else parent[c]
    {
      assert cs[..j + 1] == cs[..j] + [cs[j]];
      r := r[cs[j] := pe];
      j := j + 1;
    }
    assert cs[..j] == cs;
  }

  /** `g'` and `names'` are `g` and `names` without the nodes in `gone`,
      with every remaining child of `e` moved up to `e`'s parent. */
  ghost predicate Removed(g: Graph, names: map<string, nat>, e: nat, gone: set<nat>,
                    g': Graph, names': map<string, nat>)
    requires e in g.parent
  {
    && g'.comps == g.comps - gone && g'.size == g.size
    && (forall nm :: nm in names' <==> nm in names && names[nm] !in gone)
    && (forall nm :: nm in names' ==> names'[nm] == names[nm])
    && (forall c :: c in g'.parent <==> c in g.parent && c !in gone)
    && (forall c :: c in g'.parent ==>
          g'.parent[c] == if g.parent[c] == e then g.parent[e] else g.parent[c])
  }

  /** Removing a non-root node `e` together with the set `gone` (just `e`,
      or `e` and all its descendants), with every remaining child of `e`
      moved up to `e`'s parent, keeps the graph consistent and keeps roots
      sources and loads leaves. */
  lemma DeleteKeepsConsistent(g: Graph, names: map<string, nat>, e: nat, gone: set<nat>,
                              g': Graph, names': map<string, nat>)
    requires Consistent(g, names) && e in g.parent
    requires gone == {e} || gone == Descendants(g, e) + {e}
    requires Removed(g, names, e, gone, g', names')
    ensures Consistent(g', names')
    ensures RootsAreSources(g) ==> RootsAreSources(g')
    ensures LoadsAreLeaves(g) ==> LoadsAreLeaves(g')
  {
    forall c | c in g'.parent ensures g'.parent[c] in g'.comps && g'.parent[c] < c {
      if g.parent[c] != e && g.parent[c] in gone {
        DescendantsClosed(g, e, c);
      }
    }
    assert 0 !in gone;
  }

  /** The graph and name map without node `e` and, when `delChilds`
      holds, its descendants; otherwise `e`'s children move up to its
      parent. */
  method Remove(g: Graph, names: map<string, nat>, e: nat, delChilds: bool)
    returns (g': Graph, names': map<string, nat>)
    requires Consistent(g, names) && e in g.parent
    ensures Removed(g, names, e, if delChilds then Descendants(g, e) + {e} else {e}, g', names')
    ensures Consistent(g', names')
    ensures RootsAreSources(g) ==> RootsAreSources(g')
    ensures LoadsAreLeaves(g) ==> LoadsAreLeaves(g')
  {
    var gone, parent';
    if delChilds {
      var ds := CollectDescendants(g, e);
      gone := ds + {e};
      parent' := g.parent - gone;
      forall c | c in g.parent && g.parent[c] == e ensures c in gone {
        DescendantsClosed(g, e, c);
      }
    } else {
      gone := {e};
      var cs := Children(g, e);
      parent' := Relink(g.parent - gone, cs, g.parent[e]);
      assert forall c :: c in cs <==> c in g.parent && g.parent[c] == e;
    }
    names' := map nm | nm in names && names[nm] !in gone :: names[nm];
    g' := Graph(g.comps - gone, parent', g.size);
    assert Removed(g, names, e, gone, g', names');
    assert gone == if delChilds then Descendants(g, e) + {e} else {e};
    DeleteKeepsConsistent(g, names, e, gone, g', names');
  }

  /** Adding a non-source `comp` under the existing node `p`, at the next
      free index and under a free name, keeps the graph consistent; roots
      stay sources, and loads stay leaves when `p` is not a load. */
  lemma AddChildKeepsConsistent(g: Graph, names: map<string, nat>, p: nat, comp: Component)
    requires Consistent(g, names) && WellFormed(comp) && !comp.Source?
    requires p in g.comps && comp.name !in names
    ensures var g' := Graph(g.comps[g.size := comp], g.parent[g.size := p], g.size + 1);
            && Consistent(g', names[comp.name := g.size])
            && (RootsAreSources(g) ==> RootsAreSources(g'))
            && (LoadsAreLeaves(g) && !g.comps[p].IsLoad() ==> LoadsAreLeaves(g'))
  {
    assert g.size !in g.comps;
  }

  /** Adding a source as a new root, at the next free index and under a
      free name, keeps the graph consistent, roots sources and loads
      leaves. */
  lemma AddRootKeepsConsistent(g: Graph, names: map<string, nat>, comp: Component)
    requires Consistent(g, names) && WellFormed(comp) && comp.Source? && comp.name !in names
    ensures var g' := Graph(g.comps[g.size := comp], g.parent, g.size + 1);
            && Consistent(g', names[comp.name := g.size])
            && (RootsAreSources(g) ==> RootsAreSources(g'))
            && (LoadsAreLeaves(g) ==> LoadsAreLeaves(g'))
  {
    assert g.size !in g.comps;
  }

  /** Replacing the component at node `e` by `comp`, renamed in `names`,
      keeps the graph consistent as long as a node with a parent does not
      become a source. Roots stay sources when the node has a parent or
      `comp` is a source; loads stay leaves when `comp` is not a load or
      the node has no children. */
  lemma ReplaceKeepsConsistent(g: Graph, names: map<string, nat>, name: string, comp: Component)
    requires Consistent(g, names) && WellFormed(comp) && name in names
    requires comp.name == name || comp.name !in names
    requires names[name] in g.parent ==> !comp.Source?
    ensures var e := names[name];
            Consistent(Graph(g.comps[e := comp], g.parent, g.size), (names - {name})[comp.name := e])
    ensures var e := names[name];
            RootsAreSources(g) && (comp.Source? || e in g.parent)
            ==> RootsAreSources(Graph(g.comps[e := comp], g.parent, g.size))
    ensures var e := names[name];
            LoadsAreLeaves(g) && (!comp.IsLoad() || Children(g, e) == [])
            ==> LoadsAreLeaves(Graph(g.comps[e := comp], g.parent, g.size))
  {
    var e := names[name];
    var g' := Graph(g.comps[e := comp], g.parent, g.size);
    var names' := (names - {name})[comp.name := e];
    forall n | n in g'.comps ensures g'.comps[n].name in names' && names'[g'.comps[n].name] == n {
      if n != e {
        assert g.comps[n].name != name;
      }
    }
    if LoadsAreLeaves(g) && (!comp.IsLoad() || Children(g, e) == []) {
      forall c | c in g.parent && g.parent[c] in g'.comps ensures !g'.comps[g.parent[c]].IsLoad() {
        if g.parent[c] == e {
          assert c in Children(g, e);
        }
      }
    }
  }

  class System {
    var sysName: string
    var comps: map<nat, Component>
    var parent: map<nat, nat>
    /** Component name to node index. */
    var names: map<string, nat>
    /** The next node index to hand out. */
    var next: nat

    function Snapshot(): Graph
      reads this
    {
      Graph(comps, parent, next)
    }

    ghost predicate Valid()
      reads this
    {
      Consistent(Snapshot(), names)
    }

    constructor Init(name: string, source: Component)
      requires source.Source? && WellFormed(source)
      ensures Valid()
      ensures sysName == name && comps == map[0 := source] && parent == map[]
      ensures names == map[source.name := 0] && next == 1
    {
      sysName := name;
      comps := map[0 := source];
      parent := map[];
      names := map[source.name := 0];
      next := 1;
    }

    /** A new system whose first component must be a source. */
    static method Create(name: string, source: Component) returns (r: Result<System, SysError>)
      requires WellFormed(source)
      ensures r.Ok? <==> source.Source?
      ensures r.Err? ==> r.error == NotASource
      ensures r.Ok? ==> fresh(r.value) && r.value.Valid() && r.value.sysName == name
                        && r.value.comps == map[0 := source] && r.value.parent == map[]
    {
      if !source.Source? {
        return Err(NotASource);
      }
      var s := new System.Init(name, source);
      return Ok(s);
    }

    /** Adds `comp` as a child of the component named `parentName`. The
        checks run in this order: the parent exists, the name is free, the
        parent accepts the child's kind. */
    method AddComp(parentName: string, comp: Component) returns (r: Outcome)
      requires Valid() && WellFormed(comp)
      modifies this
      ensures Valid()
      ensures parentName !in old(names) ==> r == Fail(ParentNotFound(parentName))
      ensures parentName in old(names) && comp.name in old(names) ==> r == Fail(NameInUse(comp.name))
      ensures parentName in old(names) && comp.name !in old(names)
              && comp.KindOf() !in ChildTypes(old(comps[names[parentName]]))
              ==> r == Fail(ChildNotAllowed(comp.KindOf()))
      ensures r.Pass? <==>
                && parentName in old(names) && comp.name !in old(names)
                && comp.KindOf() in ChildTypes(old(comps[names[parentName]]))
      ensures r.Fail? ==> unchanged(this)
      ensures r.Pass? ==>
                && comps == old(comps)[old(next) := comp]
                && parent == old(parent)[old(next) := old(names[parentName])]
                && names == old(names)[comp.name := old(next)]
                && next == old(next) + 1 && sysName == old(sysName)
      ensures old(RootsAreSources(Snapshot())) ==> RootsAreSources(Snapshot())
      ensures old(LoadsAreLeaves(Snapshot())) ==> LoadsAreLeaves(Snapshot())
    {
      if parentName !in names {
        return Fail(ParentNotFound(parentName));
      }
      if comp.name in names {
        return Fail(NameInUse(comp.name));
      }
      var p := names[parentName];
      if comp.KindOf() !in ChildTypes(comps[p]) {
        return Fail(ChildNotAllowed(comp.KindOf()));
      }
      assert !comp.Source? && !comps[p].IsLoad();
      var g := Snapshot();
      AddChildKeepsConsistent(g, names, p, comp);
      comps, parent, names, next := comps[next := comp], parent[next := p], names[comp.name := next], next + 1;
      return Pass;
    }

    /** Adds another source as a new root. The name is checked before the
        kind. */
    method AddSource(source: Component) returns (r: Outcome)
      requires Valid() && WellFormed(source)
      modifies this
      ensures Valid()
      ensures source.name in old(names) ==> r == Fail(NameInUse(source.name))
      ensures source.name !in old(names) && !source.Source? ==> r == Fail(NotASource)
      ensures r.Pass? <==> source.name !in old(names) && source.Source?
      ensures r.Fail? ==> unchanged(this)
      ensures r.Pass? ==>
                && comps == old(comps)[old(next) := source] && parent == old(parent)
                && names == old(names)[source.name := old(next)]
                && next == old(next) + 1 && sysName == old(sysName)
      ensures old(RootsAreSources(Snapshot())) ==> RootsAreSources(Snapshot())
      ensures old(LoadsAreLeaves(Snapshot())) ==> LoadsAreLeaves(Snapshot())
    {
      if source.name in names {
        return Fail(NameInUse(source.name));
      }
      if !source.Source? {
        return Fail(NotASource);
      }
      var g := Snapshot();
      AddRootKeepsConsistent(g, names, source);
      comps, names, next := comps[next := source], names[source.name := next], next + 1;
      return Pass;
    }

    /** Replaces the component named `name` by `comp` at the same node.
        A new name must be free; a node with a parent must get a kind the
        parent accepts. A root is replaced without any kind check, and a
        node with children may become a load. */
    method ChangeComp(name: string, comp: Component) returns (r: Outcome)
      requires Valid() && WellFormed(comp)
      modifies this
      ensures Valid()
      ensures comp.name != name && comp.name in old(names) ==> r == Fail(NameInUse(comp.name))
      ensures (comp.name == name || comp.name !in old(names)) && name !in old(names)
              ==> r == Fail(NameNotFound(name))
      ensures (comp.name == name || comp.name !in old(names)) && name in old(names) && old(names[name]) in old(parent) &&
              comp.KindOf() !in ChildTypes(old(comps[parent[names[name]]]))
              ==> r == Fail(ChildNotAllowed(comp.KindOf()))
      ensures r.Pass? <==>
                && (comp.name == name || comp.name !in old(names))
                && name in old(names)
                && (old(names[name]) in old(parent) ==>
                      comp.KindOf() in ChildTypes(old(comps[parent[names[name]]])))
      ensures r.Fail? ==> unchanged(this)
      ensures r.Pass? ==>
                && comps == old(comps)[old(names[name]) := comp]
                && names == (old(names) - {name})[comp.name := old(names[name])]
                && parent == old(parent) && next == old(next) && sysName == old(sysName)
      ensures name in old(names) && old(RootsAreSources(Snapshot())) && (comp.Source? || old(names[name]) in old(parent))
              ==> RootsAreSources(Snapshot())
      ensures name in old(names) && old(LoadsAreLeaves(Snapshot())) && (!comp.IsLoad() || Children(old(Snapshot()), old(names[name])) == [])
              ==> LoadsAreLeaves(Snapshot())
    {
      if name != comp.name && comp.name in names {
        return Fail(NameInUse(comp.name));
      }
      if name !in names {
        return Fail(NameNotFound(name));
      }
      var e := names[name];
      if e in parent && comp.KindOf() !in ChildTypes(comps[parent[e]]) {
        return Fail(ChildNotAllowed(comp.KindOf()));
      }
      ReplaceKeepsConsistent(Snapshot(), names, name, comp);
      comps := comps[e := comp];
      names := (names - {name})[comp.name := e];
      return Pass;
    }

    /** Removes the component named `name`, and all its descendants when
        `delChilds` holds; otherwise its children are reattached to its
        parent. Roots cannot be removed. */
    method DelComp(name: string, delChilds: bool) returns (r: Outcome)
      requires Valid()
      modifies this
      ensures Valid()
      ensures name !in old(names) ==> r == Fail(NameNotFound(name))
      ensures name in old(names) && old(names[name]) !in old(parent) ==> r == Fail(CannotDeleteSource)
      ensures r.Pass? <==> name in old(names) && old(names[name]) in old(parent)
      ensures r.Fail? ==> unchanged(this)
      ensures r.Pass? ==>
                var e := old(names[name]);
                var g := old(Snapshot());
                var gone := if delChilds then Descendants(g, e) + {e} else {e};
                Removed(g, old(names), e, gone, Snapshot(), names) && sysName == old(sysName)
      ensures old(RootsAreSources(Snapshot())) ==> RootsAreSources(Snapshot())
      ensures old(LoadsAreLeaves(Snapshot())) ==> LoadsAreLeaves(Snapshot())
    {
      if name !in names {
        return Fail(NameNotFound(name));
      }
      var e := names[name];
      if e !in parent {
        return Fail(CannotDeleteSource);
      }
      var g', names' := Remove(Snapshot(), names, e, delChilds);
      assert g' == Graph(g'.comps, g'.parent, next);
      comps := g'.comps;
      parent := g'.parent;
      names := names';
      assert Snapshot() == g';
      return Pass;
    }

    /** Runs the relaxation over the current graph in ascending index order
        and reports the converged iterate; `None` when `maxiter` iterations
        do not reach the tolerances. */
    method Solve(vtol: real, itol: real, maxiter: int) returns (r: Option<Report>)
      requires Valid() && RootsHaveRs(Snapshot())
      ensures var g := Snapshot();
              r.None? <==> NoneConverged(g, maxiter, vtol, itol)
      ensures var g := Snapshot();
              r.Some? ==> exists k :: 0 <= k < maxiter && FirstConverged(g, k, vtol, itol)
                                      && r.value == ReportOf(g, TopoOrder(g), Iterate(g, k))
    {
      var g := Snapshot();
      r := SolveGraph(g, vtol, itol, maxiter);
      assert g == Snapshot();
    }
  }
}
