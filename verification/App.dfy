/** The phases of `AppBuilder::build`: factories, module registration, overrides, and the access
    contract, which ties the whole boot together. */
module App {
  import opened Basics
  import opened Providers
  import opened Schedules
  import opened Registration
  import opened ModuleTree
  import opened Collecting
  import AccessGraph
  import Graph

  datatype BuildResult =
    | Assembled(global: set<Key>)
    | FactoryFailed
    | ModulePanicked(at: ModuleId, outcome: Outcome)
    | AccessDenied(error: AccessGraph.AccessError)
    | ResolverUnlisted(resolver: Key)

  // ---------------------------------------------------------------- the factory phase

  /** Queued factories run in order; one whose key is already supplied is skipped; `None` when one
      fails. */
  function RunFactories(c: Container, queue: seq<Factory>): Option<Container> {
    if queue == [] then Some(c)
    else
      match RunFactories(c, queue[..|queue| - 1])
      case None => None
      case Some(mid) =>
        var f := queue[|queue| - 1];
        if f.key in mid then Some(mid)
        else match f.run(mid)
          case None => None
          case Some(v) => Some(mid[f.key := v])
  }

  lemma {:induction false} PrefixSucceeds(seeds: Container, queue: seq<Factory>, n: nat)
    requires RunFactories(seeds, queue).Some? && n <= |queue|
    ensures RunFactories(seeds, queue[..n]).Some?
    decreases |queue|
  {
    if n == |queue| {
      assert queue[..n] == queue;
    } else {
      PrefixSucceeds(seeds, queue[..|queue| - 1], n);
      assert queue[..|queue| - 1][..n] == queue[..n];
    }
  }

  /** The first factory queued for `k`, when no seed supplies it. */
  ghost predicate FirstFor(seeds: Container, queue: seq<Factory>, k: Key, n: nat) {
    n < |queue| && queue[n].key == k && k !in seeds && forall i :: 0 <= i < n ==> queue[i].key != k
  }

  /** Seeds win; otherwise the first queued factory of the key wins, run on a container that holds
      exactly the seeds and the outputs of the factories queued before it. */
  lemma {:induction false} FactoryPhase(seeds: Container, queue: seq<Factory>)
    requires RunFactories(seeds, queue).Some?
    ensures var c := RunFactories(seeds, queue).value;
      && c.Keys == seeds.Keys + (set f | f in queue :: f.key)
      && (forall k :: k in seeds ==> c[k] == seeds[k])
      && (forall k, n: nat :: FirstFor(seeds, queue, k, n) ==>
            && RunFactories(seeds, queue[..n]).Some?
            && queue[n].run(RunFactories(seeds, queue[..n]).value) == Some(c[k]))
  {
    if queue != [] {
      var last := |queue| - 1;
      var front := queue[..last];
      assert queue == front + [queue[last]];
      PrefixSucceeds(seeds, queue, last);
      FactoryPhase(seeds, front);
      var mid, c := RunFactories(seeds, front).value, RunFactories(seeds, queue).value;
      forall k, n: nat | FirstFor(seeds, queue, k, n)
        ensures RunFactories(seeds, queue[..n]).Some?
        ensures queue[n].run(RunFactories(seeds, queue[..n]).value) == Some(c[k])
      {
        if n < last {
          assert FirstFor(seeds, front, k, n) && front[..n] == queue[..n];
        }
      }
    }
  }

  /** One turn of the phase: a supplied key is left alone, and any other takes what its factory makes
      of the container at that moment. */
  ghost predicate Turn(f: Factory, c: Container, after: Container) {
    if f.key in c then after == c
    else f.run(c).Some? && after == c[f.key := f.run(c).value]
  }

  /** `cs` is what the container holds before each turn, and after the last. */
  ghost predicate Turns(seeds: Container, queue: seq<Factory>, cs: seq<Container>) {
    && |cs| == |queue| + 1 && cs[0] == seeds
    && forall n :: 0 <= n < |queue| ==> Turn(queue[n], cs[n], cs[n + 1])
  }

  ghost predicate EveryTurnSucceeds(seeds: Container, queue: seq<Factory>) {
    exists cs :: Turns(seeds, queue, cs)
  }

  /** Every turn succeeds, and they end in `c`. */
  ghost predicate PhaseEnds(seeds: Container, queue: seq<Factory>, c: Container) {
    exists cs :: Turns(seeds, queue, cs) && cs[|queue|] == c
  }

  lemma TurnsSnoc(seeds: Container, queue: seq<Factory>, cs: seq<Container>, after: Container)
    requires queue != [] && Turns(seeds, queue[..|queue| - 1], cs)
    requires Turn(queue[|queue| - 1], cs[|queue| - 1], after)
    ensures Turns(seeds, queue, cs + [after])
  {
    var front := queue[..|queue| - 1];
    forall n | 0 <= n < |queue| ensures Turn(queue[n], (cs + [after])[n], (cs + [after])[n + 1]) {
      if n < |front| { assert front[n] == queue[n]; }
    }
  }

  /** When the phase succeeds, and with what: exactly when every turn does, and with what the last one
      leaves. */
  lemma {:induction false} PhaseExactly(seeds: Container, queue: seq<Factory>)
    ensures RunFactories(seeds, queue).Some? <==> EveryTurnSucceeds(seeds, queue)
    ensures RunFactories(seeds, queue).Some? ==> PhaseEnds(seeds, queue, RunFactories(seeds, queue).value)
    ensures forall c :: PhaseEnds(seeds, queue, c) ==> RunFactories(seeds, queue) == Some(c)
  {
    if queue == [] {
      assert Turns(seeds, queue, [seeds]);
    } else {
      var front, f := queue[..|queue| - 1], queue[|queue| - 1];
      PhaseExactly(seeds, front);
      if RunFactories(seeds, queue).Some? {
        var mid, c := RunFactories(seeds, front).value, RunFactories(seeds, queue).value;
        var cs :| Turns(seeds, front, cs) && cs[|front|] == mid;
        TurnsSnoc(seeds, queue, cs, c);
        assert (cs + [c])[|queue|] == c;
      }
      forall cs | Turns(seeds, queue, cs) ensures RunFactories(seeds, queue) == Some(cs[|queue|]) {
        var ds := cs[..|queue|];
        assert Turns(seeds, front, ds) && ds[|front|] == cs[|front|];
        assert PhaseEnds(seeds, front, cs[|front|]);
        assert Turn(f, cs[|front|], cs[|queue|]);
      }
    }
  }

  ghost predicate AllSeeded(seeds: Container, queue: seq<Factory>) {
    forall f :: f in queue ==> f.key in seeds
  }

  /** A boot whose seeds supply every queued key runs no factory, so none can fail it. */
  lemma SeededNeverFails(seeds: Container, queue: seq<Factory>)
    requires AllSeeded(seeds, queue)
    ensures RunFactories(seeds, queue) == Some(seeds)
  {
    var cs := seq(|queue| + 1, n => seeds);
    assert forall n :: 0 <= n < |queue| ==> queue[n] in queue;
    assert Turns(seeds, queue, cs) && cs[|queue|] == seeds;
    PhaseExactly(seeds, queue);
  }

  lemma EarlierOutputsSeen(seeds: Container, queue: seq<Factory>, n: nat, k: Key)
    requires RunFactories(seeds, queue).Some? && n <= |queue| && RunFactories(seeds, queue[..n]).Some?
    ensures var seen := RunFactories(seeds, queue[..n]).value;
      (k in seen ==> k in RunFactories(seeds, queue).value && seen[k] == RunFactories(seeds, queue).value[k])
    decreases |queue|
  {
    if n == |queue| {
      assert queue[..n] == queue;
    } else {
      var front := queue[..|queue| - 1];
      PrefixSucceeds(seeds, queue, |queue| - 1);
      assert front[..n] == queue[..n];
      EarlierOutputsSeen(seeds, front, n, k);
    }
  }

  lemma OneMoreFactory(seeds: Container, queue: seq<Factory>, i: nat, c: Container)
    requires i < |queue| && RunFactories(seeds, queue[..i]) == Some(c)
    ensures queue[i].key in c ==> RunFactories(seeds, queue[..i + 1]) == Some(c)
    ensures queue[i].key !in c && queue[i].run(c).Some? ==>
              RunFactories(seeds, queue[..i + 1]) == Some(c[queue[i].key := queue[i].run(c).value])
    ensures queue[i].key !in c && queue[i].run(c).None? ==> RunFactories(seeds, queue).None?
  {
    var more := queue[..i + 1];
    assert more[..i] == queue[..i] && more[i] == queue[i];
    if RunFactories(seeds, queue).Some? { PrefixSucceeds(seeds, queue, i + 1); }
  }

  method FactoryLoop(b: ContainerBuilder) returns (ok: bool)
    modifies b`providers, b`factories
    ensures b.factories == []
    ensures ok <==> RunFactories(old(b.providers), old(b.factories)).Some?
    ensures ok ==> b.providers == RunFactories(old(b.providers), old(b.factories)).value
    ensures ok <==> EveryTurnSucceeds(old(b.providers), old(b.factories))
    ensures ok ==> PhaseEnds(old(b.providers), old(b.factories), b.providers)
    ensures AllSeeded(old(b.providers), old(b.factories)) ==> ok && b.providers == old(b.providers)
  {
    ghost var seeds := b.providers;
    var queue := b.TakeFactories();
    PhaseExactly(seeds, queue);
    if AllSeeded(seeds, queue) { SeededNeverFails(seeds, queue); }
    for i := 0 to |queue|
      invariant b.factories == [] && RunFactories(seeds, queue[..i]) == Some(b.providers)
    {
      OneMoreFactory(seeds, queue, i, b.providers);
      if queue[i].key !in b.providers {
        match queue[i].run(b.providers) {
          case None => return false;
          case Some(v) => b.Provide(queue[i].key, v);
        }
      }
    }
    assert queue[..|queue|] == queue;
    return true;
  }

  // ---------------------------------------------------------------- registration from the roots

  ghost predicate BelowRoots(tree: Tree, roots: seq<ModuleId>, m: ModuleId) {
    exists r :: r in roots && Graph.Reaches(ImportGraph(tree), r, m)
  }

  ghost function BelowSet(tree: Tree, roots: seq<ModuleId>): set<ModuleId> {
    set m | m in tree && BelowRoots(tree, roots, m)
  }

  /** All modules below the roots, and no others, ran their body, each exactly once. */
  ghost predicate EachOnce(tree: Tree, roots: seq<ModuleId>, ran: seq<ModuleId>) {
    Distinct(ran) && forall m :: m in ran <==> m in BelowSet(tree, roots)
  }

  ghost predicate AllHealthy(tree: Tree, global: set<Key>, roots: seq<ModuleId>) {
    forall m :: m in tree && BelowRoots(tree, roots, m) ==> Healthy(tree, global, m)
  }

  lemma MarkedAreBelow(tree: Tree, roots: seq<ModuleId>, r: ModuleId, m0: set<ModuleId>, m1: set<ModuleId>,
                       more: seq<ModuleId>)
    requires m0 == BelowSet(tree, roots) && Explored(tree, m0, m1, r, more)
    ensures m1 <= BelowSet(tree, roots + [r])
  {
    forall m | m in m1 ensures BelowRoots(tree, roots + [r], m) {
      if m in m0 {
        var q :| q in roots && Graph.Reaches(ImportGraph(tree), q, m);
        assert q in roots + [r];
      } else {
        assert r in roots + [r];
      }
    }
  }

  lemma BelowAreMarked(tree: Tree, roots: seq<ModuleId>, r: ModuleId, m0: set<ModuleId>, m1: set<ModuleId>,
                       more: seq<ModuleId>)
    requires WellFormed(tree) && m0 == BelowSet(tree, roots) && r in m1 && Explored(tree, m0, m1, r, more)
    ensures BelowSet(tree, roots + [r]) <= m1
  {
    var g := ImportGraph(tree);
    forall x, y | x in m1 && x in g && y in g[x] ensures y in m1 {
      if x in m0 {
        var q :| q in roots && Graph.Reaches(g, q, x);
        Graph.ReachesAppend(g, q, x, y);
      } else {
        assert StaticIds(tree[x].imports) <= m1;
      }
    }
    forall m | m in tree && BelowRoots(tree, roots + [r], m) ensures m in m1 {
      var q :| q in roots + [r] && Graph.Reaches(g, q, m);
      if q == r {
        Graph.ClosedHoldsReachable(g, m1, r, m);
      } else {
        assert BelowRoots(tree, roots, m);
      }
    }
  }

  lemma DistinctChain(a: seq<ModuleId>, b: seq<ModuleId>)
    requires Distinct(a) && Distinct(b) && forall x :: x in a ==> x !in b
    ensures Distinct(a + b)
  {
    assert forall i :: 0 <= i < |a| ==> a[i] in a;
    assert forall i :: 0 <= i < |b| ==> b[i] in b;
  }

  /** Walking one more root marks what lies below it, and runs it once. */
  lemma OneMoreRoot(tree: Tree, roots: seq<ModuleId>, r: ModuleId, m0: set<ModuleId>, m1: set<ModuleId>,
                    ran: seq<ModuleId>, more: seq<ModuleId>)
    requires WellFormed(tree) && m0 == BelowSet(tree, roots) && EachOnce(tree, roots, ran)
    requires r in m1 && Explored(tree, m0, m1, r, more)
    ensures m1 == BelowSet(tree, roots + [r]) && EachOnce(tree, roots + [r], ran + more)
  {
    MarkedAreBelow(tree, roots, r, m0, m1, more);
    BelowAreMarked(tree, roots, r, m0, m1, more);
    DistinctChain(ran, more);
  }

  lemma HealthyFromRoot(tree: Tree, global: set<Key>, roots: seq<ModuleId>, r: ModuleId)
    requires r in roots && AllHealthy(tree, global, roots)
    ensures OffCyclesBelow(tree, r)
  {
    forall m | m in tree && Graph.Reaches(ImportGraph(tree), r, m) ensures OffCycles(tree, m) {
      assert BelowRoots(tree, roots, m);
    }
  }

  lemma KeysGrow(tree: Tree, m0: set<ModuleId>, m1: set<ModuleId>)
    requires m0 <= m1
    ensures KeysOfModules(tree, m1) == KeysOfModules(tree, m0) + KeysOfModules(tree, m1 - m0)
  {
    assert m1 == m0 + (m1 - m0);
    KeysUnion(tree, m0, m1 - m0);
  }

  /** The register phase as a function: every root in turn, against one shared set of marks. */
  ghost function VisitRoots(tree: Tree, roots: seq<ModuleId>): (w: Walk)
    requires WellFormed(tree) && forall i :: 0 <= i < |roots| ==> roots[i] in tree
    ensures w.marked <= tree.Keys
  {
    if roots == [] then Walk({}, [])
    else
      var w := VisitRoots(tree, roots[..|roots| - 1]);
      var v := Visit(tree, w.marked, roots[|roots| - 1]);
      Walk(v.marked, w.acts + v.acts)
  }

  lemma {:induction false} RootsExtend(tree: Tree, roots: seq<ModuleId>, n: nat, m: nat) returns (rest: seq<Act>)
    requires WellFormed(tree) && (forall i :: 0 <= i < |roots| ==> roots[i] in tree) && n <= m <= |roots|
    ensures VisitRoots(tree, roots[..m]).acts == VisitRoots(tree, roots[..n]).acts + rest
    decreases m
  {
    if n == m {
      rest := [];
    } else {
      rest := RootsExtend(tree, roots, n, m - 1);
      assert roots[..m][..m - 1] == roots[..m - 1];
      rest := rest + Visit(tree, VisitRoots(tree, roots[..m - 1]).marked, roots[m - 1]).acts;
    }
  }

  /** The collect phase: every root in turn, the same walk as the register phase. */
  method CollectRoots(b: ContainerBuilder, tree: Tree, roots: seq<ModuleId>)
    requires WellFormed(tree) && (forall i :: 0 <= i < |roots| ==> roots[i] in tree) && b.collectedModules == {}
    modifies b`collectedModules, b`factories
    ensures Queues(tree, old(b.factories), b.factories, SitesOf(VisitRoots(tree, roots).acts))
  {
    ghost var before := b.factories;
    for i := 0 to |roots|
      invariant b.collectedModules == VisitRoots(tree, roots[..i]).marked
      invariant Queues(tree, before, b.factories, SitesOf(VisitRoots(tree, roots[..i]).acts))
    {
      assert roots[..i + 1][..i] == roots[..i];
      ghost var queue, w := b.factories, VisitRoots(tree, roots[..i]);
      ghost var v := Visit(tree, w.marked, roots[i]);
      Collect(b, tree, roots[i]);
      QueuesChain(tree, before, queue, b.factories, SitesOf(w.acts), SitesOf(v.acts));
      SitesAppend(w.acts, v.acts);
    }
    assert roots[..|roots|] == roots;
  }

  method RegisterRoots(b: ContainerBuilder, tree: Tree, roots: seq<ModuleId>) returns (r: Boot, ghost log: seq<Act>)
    requires WellFormed(tree) && (forall i :: 0 <= i < |roots| ==> roots[i] in tree) && b.registeredModules == {}
    modifies b`providers, b`registeredModules
    ensures Boots(tree, old(b.providers.Keys), VisitRoots(tree, roots).acts, log, r)
    ensures r.Fine? <==> AllFine(tree, old(b.providers.Keys), VisitRoots(tree, roots).acts)
    ensures r.Fine? ==> b.providers.Keys == Held(tree, old(b.providers.Keys), log)
    ensures r.Fine? ==> RunsTo(tree, old(b.providers), VisitRoots(tree, roots).acts, b.providers)
  {
    ghost var init := b.providers;
    FollowsStart(tree, init, {});
    r, log := Fine, [];
    for i := 0 to |roots|
      invariant r.Fine?
      invariant Follows(tree, init, VisitRoots(tree, roots[..i]), log, b.registeredModules, b.providers)
    {
      assert roots[..i + 1][..i] == roots[..i];
      ghost var marked, found := b.registeredModules, b.providers;
      ghost var w, v := VisitRoots(tree, roots[..i]), Visit(tree, marked, roots[i]);
      ghost var more;
      r, more := Register(b, tree, roots[i]);
      if r.Panicked? {
        ghost var rest := RootsExtend(tree, roots, i + 1, |roots|);
        assert roots[..|roots|] == roots;
        StopsLater(tree, init.Keys, log, v.acts, rest, more, r);
        log := log + more;
        StopsIsNotFine(tree, init.Keys, VisitRoots(tree, roots).acts, log, r);
        return;
      }
      FollowsWalk(tree, init, w, log, marked, found, v, more, b.registeredModules, b.providers);
      log := log + more;
    }
    assert roots[..|roots|] == roots;
  }

  /** Exactly the modules below the roots run, each once, whatever the import graph. */
  lemma {:induction false} RootsExplore(tree: Tree, roots: seq<ModuleId>)
    requires WellFormed(tree) && forall i :: 0 <= i < |roots| ==> roots[i] in tree
    ensures var w := VisitRoots(tree, roots);
      && w.marked == BelowSet(tree, roots) && EachOnce(tree, roots, Ran(w.acts))
      && GainsOf(tree, w.acts) == KeysOfModules(tree, BelowSet(tree, roots))
  {
    if roots != [] {
      var front, root := roots[..|roots| - 1], roots[|roots| - 1];
      var w := VisitRoots(tree, front);
      var v := Visit(tree, w.marked, root);
      RootsExplore(tree, front);
      VisitExplores(tree, w.marked, root);
      assert roots == front + [root];
      OneMoreRoot(tree, front, root, w.marked, v.marked, Ran(w.acts), Ran(v.acts));
      RanAppend(w.acts, v.acts);
      GainsAppend(tree, w.acts, v.acts);
      KeysGrow(tree, w.marked, v.marked);
    }
  }

  /** And every dynamic import of those modules is come to once. */
  lemma {:induction false} RootsSites(tree: Tree, roots: seq<ModuleId>)
    requires WellFormed(tree) && forall i :: 0 <= i < |roots| ==> roots[i] in tree
    ensures VisitedAll(tree, BelowSet(tree, roots), SitesOf(VisitRoots(tree, roots).acts))
  {
    if roots != [] {
      var front, root := roots[..|roots| - 1], roots[|roots| - 1];
      var w := VisitRoots(tree, front);
      var v := Visit(tree, w.marked, root);
      RootsExplore(tree, front);
      RootsExplore(tree, roots);
      RootsSites(tree, front);
      VisitSites(tree, w.marked, root);
      SitesAppend(w.acts, v.acts);
      AllVisitedChain(tree, w.marked, v.marked, SitesOf(w.acts), SitesOf(v.acts));
    }
  }

  lemma {:induction false} RootLeads(tree: Tree, roots: seq<ModuleId>, a: Act) returns (r: ModuleId)
    requires WellFormed(tree) && forall i :: 0 <= i < |roots| ==> roots[i] in tree
    requires a in VisitRoots(tree, roots).acts
    ensures r in roots && Graph.Reaches(ImportGraph(tree), r, OwnerOf(a))
  {
    var front := roots[..|roots| - 1];
    if a in VisitRoots(tree, front).acts {
      r := RootLeads(tree, front, a);
    } else {
      r := roots[|roots| - 1];
      VisitStaysBelow(tree, VisitRoots(tree, front).marked, r, a);
    }
  }

  /** Roots are walked in listed order: what none of the first roots leads to comes after their loops. */
  lemma RootOrder(tree: Tree, roots: seq<ModuleId>, i: nat, p: nat)
    requires WellFormed(tree) && (forall j :: 0 <= j < |roots| ==> roots[j] in tree) && i < |roots|
    requires p < |VisitRoots(tree, roots).acts|
    requires !BelowRoots(tree, roots[..i + 1], OwnerOf(VisitRoots(tree, roots).acts[p]))
    ensures Loop(roots[i]) in VisitRoots(tree, roots).acts[..p]
  {
    var acts, some := VisitRoots(tree, roots).acts, roots[..i + 1];
    var first := VisitRoots(tree, some).acts;
    var rest := RootsExtend(tree, roots, i + 1, |roots|);
    assert roots[..|roots|] == roots && acts == first + rest;
    if p < |first| {
      assert acts[p] == first[p];
      var r := RootLeads(tree, some, first[p]);
      assert BelowRoots(tree, some, OwnerOf(acts[p]));
      assert false;
    }
    RootsExplore(tree, some);
    assert some[i] == roots[i] && roots[i] in some;
    Graph.ReachesSelf(ImportGraph(tree), roots[i]);
    RanLoops(first, roots[i]);
    assert acts[..p] == first + rest[..p - |first|];
  }

  /** Without import cycles below the roots every loop comes after all the modules below its own. */
  lemma {:induction false} ReadyRoots(tree: Tree, global: set<Key>, roots: seq<ModuleId>)
    requires WellFormed(tree) && forall i :: 0 <= i < |roots| ==> roots[i] in tree
    requires forall r :: r in roots ==> OffCyclesBelow(tree, r)
    ensures var w := VisitRoots(tree, roots);
      AllReady(tree, global, w.acts) && Progress(tree, w.marked, Held(tree, global, w.acts), {}, global)
  {
    if roots == [] {
      assert GainsOf(tree, []) == {};
    } else {
      var front, root := roots[..|roots| - 1], roots[|roots| - 1];
      var w := VisitRoots(tree, front);
      var v := Visit(tree, w.marked, root);
      assert roots == front + [root] && root in roots;
      assert forall r :: r in front ==> r in roots;
      ReadyRoots(tree, global, front);
      ReadyVisit(tree, global, {}, w.marked, Held(tree, global, w.acts), root);
      ReadyChain(tree, global, w.acts, v.acts);
      GainsAppend(tree, w.acts, v.acts);
    }
  }

  /** In a healthy tree no module panics. */
  lemma HealthyRoots(tree: Tree, global: set<Key>, roots: seq<ModuleId>)
    requires WellFormed(tree) && (forall i :: 0 <= i < |roots| ==> roots[i] in tree) && AllHealthy(tree, global, roots)
    ensures AllFine(tree, global, VisitRoots(tree, roots).acts)
  {
    forall r | r in roots ensures OffCyclesBelow(tree, r) {
      HealthyFromRoot(tree, global, roots, r);
    }
    ReadyRoots(tree, global, roots);
    RootsExplore(tree, roots);
    HealthyActsFine(tree, global, global, VisitRoots(tree, roots).acts);
  }

  // ---------------------------------------------------------------- the whole build

  function StaticImports(imports: seq<Import>): seq<ModuleId> {
    if imports == [] then []
    else (if imports[0].Static? then [imports[0].id] else []) + StaticImports(imports[1..])
  }

  function Described(ps: seq<Provider>): seq<AccessGraph.ProviderDescriptor> {
    seq(|ps|, i requires 0 <= i < |ps| => AccessGraph.ProviderDescriptor(ps[i].key, RequiredKeys(ps[i].fields)))
  }

  /** What a module submits of each provider: its key, and every key some `Arc` field injects, whenever
      it is built. */
  lemma DescribedExactly(ps: seq<Provider>)
    ensures |Described(ps)| == |ps|
    ensures forall i :: 0 <= i < |ps| ==> Described(ps)[i].provided == ps[i].key
    ensures forall i, k :: 0 <= i < |ps| ==> (k in Described(ps)[i].injects <==> Inject(k) in ps[i].fields)
  {
    forall i, k | 0 <= i < |ps| ensures k in Described(ps)[i].injects <==> Inject(k) in ps[i].fields {
      RequiredKeysAt(ps[i].fields, k);
    }
  }

  /** The descriptor `#[module]` submits: static imports only, and what each provider injects
      whenever it is built. */
  function Descriptor(m: ModuleId, def: ModuleDef): AccessGraph.ModuleDescriptor {
    AccessGraph.ModuleDescriptor(m, StaticImports(def.imports), Described(def.providers))
  }

  /** One descriptor for each module of the binary. */
  ghost predicate Describes(descs: seq<AccessGraph.ModuleDescriptor>, tree: Tree) {
    && (forall d :: d in descs ==> d.id in tree && d == Descriptor(d.id, tree[d.id]))
    && forall m :: m in tree ==> Descriptor(m, tree[m]) in descs
  }

  /** Some module reachable from the roots lists the resolver. */
  ghost predicate ListedBelow(descs: seq<AccessGraph.ModuleDescriptor>, roots: seq<ModuleId>, resolver: Key) {
    AccessGraph.Member(AccessGraph.ById(descs), roots, resolver)
  }

  /** Test substitutions replace what the modules registered; the last one for a key wins. */
  function Overridden(c: Container, overrides: seq<(Key, Instance)>): Container {
    if overrides == [] then c
    else
      var last := overrides[|overrides| - 1];
      Overridden(c, overrides[..|overrides| - 1])[last.0 := last.1]
  }

  ghost predicate LastOverride(overrides: seq<(Key, Instance)>, k: Key, n: nat) {
    n < |overrides| && overrides[n].0 == k && forall i :: n < i < |overrides| ==> overrides[i].0 != k
  }

  ghost function OverrideKeys(overrides: seq<(Key, Instance)>): set<Key> {
    set o | o in overrides :: o.0
  }

  lemma {:induction false} OverriddenAt(c: Container, overrides: seq<(Key, Instance)>)
    ensures var o := Overridden(c, overrides);
      && o.Keys == c.Keys + OverrideKeys(overrides)
      && (forall k :: k in c && k !in OverrideKeys(overrides) ==> o[k] == c[k])
      && forall k, n: nat :: LastOverride(overrides, k, n) ==> o[k] == overrides[n].1
  {
    if overrides != [] {
      var last := |overrides| - 1;
      var front := overrides[..last];
      assert overrides == front + [overrides[last]];
      OverriddenAt(c, front);
      forall k, n: nat | LastOverride(overrides, k, n) ensures Overridden(c, overrides)[k] == overrides[n].1 {
        if n < last {
          assert LastOverride(front, k, n) && overrides[last].0 != k;
        }
      }
    }
  }

  method Override(b: ContainerBuilder, overrides: seq<(Key, Instance)>)
    modifies b`providers
    ensures b.providers == Overridden(old(b.providers), overrides)
  {
    ghost var registered := b.providers;
    for i := 0 to |overrides|
      invariant b.providers == Overridden(registered, overrides[..i])
    {
      assert overrides[..i + 1][..i] == overrides[..i];
      b.Provide(overrides[i].0, overrides[i].1);
    }
    assert overrides[..|overrides|] == overrides;
  }

  ghost predicate ResolversListed(descs: seq<AccessGraph.ModuleDescriptor>, roots: seq<ModuleId>, resolvers: seq<Key>) {
    forall k :: k in resolvers ==> ListedBelow(descs, roots, k)
  }

  /** `e` names a provider that breaks the contract, and a module whose import would mend it. */
  ghost predicate Denial(descs: seq<AccessGraph.ModuleDescriptor>, roots: seq<ModuleId>, global: set<Key>,
                         e: AccessGraph.AccessError) {
    && AccessGraph.Violation(descs, roots, global, e.importer, e.consumer, e.dependency)
    && AccessGraph.OwnedBy(descs, e.dependency, e.owner)
  }

  method FinalChecks(descs: seq<AccessGraph.ModuleDescriptor>, roots: seq<ModuleId>, global: set<Key>,
                     resolvers: seq<Key>)
    returns (r: BuildResult)
    ensures r.AccessDenied? || r.ResolverUnlisted? || r == Assembled(global)
    ensures r.AccessDenied? <==> !AccessGraph.Contract(descs, roots, global)
    ensures r.AccessDenied? ==> Denial(descs, roots, global, r.error)
    ensures r.Assembled? <==> AccessGraph.Contract(descs, roots, global) && ResolversListed(descs, roots, resolvers)
    ensures r.ResolverUnlisted? ==> r.resolver in resolvers && !ListedBelow(descs, roots, r.resolver)
  {
    var checked := AccessGraph.ValidateAccessGraph(descs, roots, global);
    if checked.Err? {
      return AccessDenied(checked.error);
    }
    var listed := AccessGraph.ValidateResolverMembership(descs, roots, resolvers);
    r := if listed.Err? then ResolverUnlisted(listed.error) else Assembled(global);
  }

  /** The four phases and the two checks that end the build. */
  method Build(b: ContainerBuilder, tree: Tree, descs: seq<AccessGraph.ModuleDescriptor>, roots: seq<ModuleId>,
               overrides: seq<(Key, Instance)>, resolvers: seq<Key>)
    returns (r: BuildResult, ghost ran: seq<Act>, ghost supplied: Option<Container>, ghost registered: Container)
    requires WellFormed(tree) && (forall i :: 0 <= i < |roots| ==> roots[i] in tree)
    requires b.registeredModules == {} && b.collectedModules == {} && Describes(descs, tree)
    modifies b
    ensures var queue := QueueOf(tree, SitesOf(VisitRoots(tree, roots).acts));
      supplied == RunFactories(old(b.providers), old(b.factories) + queue)
    ensures r.FactoryFailed? <==> supplied.None?
    ensures var queue := old(b.factories) + QueueOf(tree, SitesOf(VisitRoots(tree, roots).acts));
      && (r.FactoryFailed? <==> !EveryTurnSucceeds(old(b.providers), queue))
      && (!r.FactoryFailed? ==> PhaseEnds(old(b.providers), queue, supplied.value))
      && (AllSeeded(old(b.providers), queue) ==> !r.FactoryFailed?)
    ensures r.ModulePanicked? <==> supplied.Some? && !AllFine(tree, supplied.value.Keys, VisitRoots(tree, roots).acts)
    ensures r.ModulePanicked? ==>
              StopsAfter(tree, supplied.value.Keys, VisitRoots(tree, roots).acts, ran, Panicked(r.at, r.outcome))
    ensures r.AccessDenied? ==> !AccessGraph.Contract(descs, roots, supplied.value.Keys)
                                && Denial(descs, roots, supplied.value.Keys, r.error)
    ensures r.ResolverUnlisted? ==> AccessGraph.Contract(descs, roots, supplied.value.Keys)
                                    && r.resolver in resolvers && !ListedBelow(descs, roots, r.resolver)
    ensures r.Assembled? ==> r.global == supplied.value.Keys
    ensures r.Assembled? <==>
              && supplied.Some? && AllFine(tree, supplied.value.Keys, VisitRoots(tree, roots).acts)
              && AccessGraph.Contract(descs, roots, supplied.value.Keys)
              && ResolversListed(descs, roots, resolvers)
    ensures r.Assembled? ==> EachOnce(tree, roots, Ran(ran))
    ensures r.Assembled? ==>
              b.providers.Keys == r.global + KeysOfModules(tree, BelowSet(tree, roots)) + OverrideKeys(overrides)
    ensures r.Assembled? ==> RunsTo(tree, supplied.value, VisitRoots(tree, roots).acts, registered)
                             && b.providers == Overridden(registered, overrides)
    ensures supplied.Some? && AllHealthy(tree, supplied.value.Keys, roots) ==> !r.ModulePanicked?
  {
    ran, registered := [], map[];
    CollectRoots(b, tree, roots);
    supplied := RunFactories(b.providers, b.factories);
    PhaseExactly(b.providers, b.factories);
    var ok := FactoryLoop(b);
    if !ok {
      r := FactoryFailed;
      return;
    }
    var global := b.providers.Keys;
    if AllHealthy(tree, global, roots) {
      HealthyRoots(tree, global, roots);
    }
    var boot;
    boot, ran := RegisterRoots(b, tree, roots);
    if boot.Panicked? {
      r := ModulePanicked(boot.at, boot.outcome);
      return;
    }
    RootsExplore(tree, roots);
    registered := b.providers;
    Override(b, overrides);
    OverriddenAt(registered, overrides);
    r := FinalChecks(descs, roots, global, resolvers);
  }

  // ---------------------------------------------------------------- the two checks agree

  lemma {:induction false} StaticImportsAre(imports: seq<Import>)
    ensures Graph.Elements(StaticImports(imports)) == StaticIds(imports)
  {
    if imports != [] {
      var rest := imports[1..];
      StaticImportsAre(rest);
      forall i | i in StaticIds(imports) ensures i in StaticImports(imports) {
        var n :| 0 <= n < |imports| && imports[n].Static? && imports[n].id == i;
        if n > 0 {
          assert rest[n - 1] == imports[n];
        }
      }
      forall i | i in StaticImports(imports) ensures i in StaticIds(imports) {
        if i in StaticIds(rest) {
          var n :| 0 <= n < |rest| && rest[n].Static? && rest[n].id == i;
          assert imports[n + 1] == rest[n];
        } else {
          assert imports[0].Static? && imports[0].id == i;
        }
      }
    }
  }

  lemma DescribedModule(descs: seq<AccessGraph.ModuleDescriptor>, tree: Tree, m: ModuleId)
    requires Describes(descs, tree)
    ensures m in tree <==> m in AccessGraph.ById(descs)
    ensures m in tree ==> AccessGraph.ById(descs)[m] == Descriptor(m, tree[m])
    ensures m in tree ==> Graph.Elements(Descriptor(m, tree[m]).imports) == StaticIds(tree[m].imports)
  {
    if m in tree {
      assert Descriptor(m, tree[m]) in descs;
      StaticImportsAre(tree[m].imports);
    }
  }

  lemma SameGraph(descs: seq<AccessGraph.ModuleDescriptor>, tree: Tree)
    requires Describes(descs, tree)
    ensures AccessGraph.Edges(AccessGraph.ById(descs)) == ImportGraph(tree)
    ensures forall m :: m in AccessGraph.ById(descs) ==>
              m in tree && AccessGraph.ById(descs)[m] == Descriptor(m, tree[m])
  {
    forall m ensures m in tree <==> m in AccessGraph.ById(descs)
             ensures m in tree ==> AccessGraph.ById(descs)[m] == Descriptor(m, tree[m])
             ensures m in tree ==> AccessGraph.Edges(AccessGraph.ById(descs))[m] == ImportGraph(tree)[m]
    {
      DescribedModule(descs, tree, m);
    }
  }

  /** Every provider that the descriptors offer for `k` does publish it at registration, and there
      is one. */
  ghost predicate HonestlyOffered(tree: Tree, k: Key) {
    && (forall m, p :: m in tree && p in tree[m].providers && p.key == k ==> p.AddsKey())
    && exists m, p :: m in tree && p in tree[m].providers && p.key == k
  }

  lemma OfferedIsPublished(tree: Tree, c: ModuleId, k: Key)
    requires c in tree && AccessGraph.Provides(Descriptor(c, tree[c]), k) && HonestlyOffered(tree, k)
    ensures k in ModuleKeys(tree[c])
  {
    var ps := tree[c].providers;
    var e :| e in Described(ps) && e.provided == k;
    var j :| 0 <= j < |ps| && Described(ps)[j] == e;
    assert ps[j] in ps && ps[j].key == k;
  }

  lemma OfferedBy(descs: seq<AccessGraph.ModuleDescriptor>, tree: Tree, m: ModuleId, p: Provider)
    requires Describes(descs, tree) && m in tree && p in tree[m].providers
    ensures Descriptor(m, tree[m]) in descs && AccessGraph.Provides(Descriptor(m, tree[m]), p.key)
  {
    var i :| 0 <= i < |tree[m].providers| && tree[m].providers[i] == p;
    assert Described(tree[m].providers)[i] in Described(tree[m].providers);
  }

  lemma DescribedProvider(ps: seq<Provider>, p: Provider) returns (d: AccessGraph.ProviderDescriptor)
    requires p in ps
    ensures d in Described(ps) && d.provided == p.key && d.injects == RequiredKeys(p.fields)
  {
    var i :| 0 <= i < |ps| && ps[i] == p;
    d := Described(ps)[i];
  }

  lemma OfferedIsInClosure(descs: seq<AccessGraph.ModuleDescriptor>, tree: Tree, roots: seq<ModuleId>, global: set<Key>,
                           m: ModuleId, p: Provider, k: Key)
    requires Describes(descs, tree) && AccessGraph.Contract(descs, roots, global)
    requires m in tree && BelowRoots(tree, roots, m) && p in tree[m].providers && k in RequiredKeys(p.fields)
    requires k !in global && HonestlyOffered(tree, k)
    ensures AccessGraph.InClosure(AccessGraph.ById(descs), m, k)
  {
    var byId := AccessGraph.ById(descs);
    SameGraph(descs, tree);
    DescribedModule(descs, tree, m);
    var d := DescribedProvider(tree[m].providers, p);
    assert AccessGraph.ReachableFrom(byId, roots, m);
    var owner, q :| owner in tree && q in tree[owner].providers && q.key == k;
    OfferedBy(descs, tree, owner, q);
    assert !AccessGraph.Violation(descs, roots, global, m, d, k);
  }

  /** What the access check accepts, the provider loops can resolve, as long as each required key
      is global or honestly offered: the link between the two independent checks. */
  lemma ContractImpliesSupplied(descs: seq<AccessGraph.ModuleDescriptor>, tree: Tree, roots: seq<ModuleId>,
                                global: set<Key>,
                                m: ModuleId, p: Provider, k: Key)
    requires Describes(descs, tree) && AccessGraph.Contract(descs, roots, global)
    requires m in tree && BelowRoots(tree, roots, m) && p in tree[m].providers && k in RequiredKeys(p.fields)
    requires k in global || HonestlyOffered(tree, k)
    ensures Supplied(tree, global, m, k)
  {
    if k !in global {
      var byId := AccessGraph.ById(descs);
      OfferedIsInClosure(descs, tree, roots, global, m, p, k);
      var c :| c in byId && Graph.Reaches(AccessGraph.Edges(byId), m, c) && AccessGraph.Provides(byId[c], k);
      SameGraph(descs, tree);
      OfferedIsPublished(tree, c, k);
    }
  }

  /** Two modules that import each other; the second injects what the first provides. */
  const OWNER := TypeId(10)
  const CLIENT := TypeId(20)
  const SHARED := TypeId(2)

  function Supplier(): Provider { Provider(Concrete, Singleton, SHARED, []) }

  function User(): Provider { Provider(Concrete, Singleton, TypeId(1), [Inject(SHARED)]) }

  function CyclicTree(): Tree {
    map[OWNER := ModuleDef([Static(CLIENT)], [Supplier()]), CLIENT := ModuleDef([Static(OWNER)], [User()])]
  }

  function CyclicDescriptors(): seq<AccessGraph.ModuleDescriptor> {
    [Descriptor(OWNER, CyclicTree()[OWNER]), Descriptor(CLIENT, CyclicTree()[CLIENT])]
  }

  lemma UserNeedsShared()
    ensures RequiredKeys(User().fields) == [SHARED] && SHARED in User().Dependencies()
    ensures OptionalKeys(User().fields) == []
  {
    SingleField(User().fields[0]);
    assert User().fields == [User().fields[0]];
  }

  lemma CycleVerdict()
    ensures VerdictOf(Listed([User()]), {}) == CannotRegister({User()})
    ensures !ListingPanics([User()], {})
  {
    var s := Listed([User()]);
    assert User() in s && forall p :: p in s ==> p == User();
    UserNeedsShared();
    assert KeysOf({}, {}) == {};
    assert Closed(s, {}, {});
    LeastIsUnique(s, {}, {}, Least(s, {}));
    assert SHARED !in PendingOf(s, {});
    assert Culprits(s, {}, {}, PendingOf(s, {})) == {User()};
  }

  lemma CycleDescribed()
    ensures Describes(CyclicDescriptors(), CyclicTree())
    ensures AccessGraph.InClosure(AccessGraph.ById(CyclicDescriptors()), CLIENT, SHARED)
  {
    var descs, tree := CyclicDescriptors(), CyclicTree();
    assert Describes(descs, tree) by {
      assert descs[0] in descs && descs[1] in descs;
    }
    SameGraph(descs, tree);
    var g := ImportGraph(tree);
    assert tree[CLIENT].imports[0].id == OWNER;
    assert OWNER in g[CLIENT];
    Graph.ReachesSelf(g, OWNER);
    Graph.ReachesPrepend(g, CLIENT, OWNER, OWNER);
    OfferedBy(descs, tree, OWNER, tree[OWNER].providers[0]);
  }

  lemma DescribedAlone(p: Provider)
    ensures Described([p]) == [AccessGraph.ProviderDescriptor(p.key, RequiredKeys(p.fields))]
  {
  }

  lemma CycleContract()
    ensures AccessGraph.Contract(CyclicDescriptors(), [OWNER], {})
  {
    var tree := CyclicTree();
    var byId := AccessGraph.ById(CyclicDescriptors());
    CycleDescribed();
    SameGraph(CyclicDescriptors(), tree);
    UserNeedsShared();
    DescribedAlone(Supplier());
    DescribedAlone(User());
    forall m, p, k | m in byId && p in byId[m].providers && k in p.injects ensures m == CLIENT && k == SHARED { }
  }

  lemma SingleRoot(tree: Tree, id: ModuleId)
    requires WellFormed(tree) && id in tree
    ensures VisitRoots(tree, [id]) == Visit(tree, {}, id)
  {
    var w := VisitRoots(tree, []);
    assert [id][..0] == [] && w == Walk({}, []);
    assert [] + Visit(tree, {}, id).acts == Visit(tree, {}, id).acts;
  }

  /** Entered at `OWNER`, the walk reaches the loop of `CLIENT` first, while `OWNER` has published nothing. */
  lemma CycleFromA()
    ensures VisitRoots(CyclicTree(), [OWNER]).acts == [Loop(CLIENT), Loop(OWNER)]
  {
    var tree := CyclicTree();
    var inner := VisitImports(tree, {OWNER, CLIENT}, CLIENT, 1);
    assert VisitImports(tree, {OWNER, CLIENT}, CLIENT, 0) == Walk({OWNER, CLIENT}, []);
    assert Visit(tree, {OWNER, CLIENT}, OWNER) == Walk({OWNER, CLIENT}, []);
    assert inner == Walk({OWNER, CLIENT}, []);
    assert {OWNER} + {CLIENT} == {OWNER, CLIENT};
    assert Visit(tree, {OWNER}, CLIENT) == Walk({OWNER, CLIENT}, [Loop(CLIENT)]);
    assert VisitImports(tree, {OWNER}, OWNER, 0) == Walk({OWNER}, []);
    assert VisitImports(tree, {OWNER}, OWNER, 1) == Walk({OWNER, CLIENT}, [Loop(CLIENT)]);
    assert {} + {OWNER} == {OWNER};
    assert Visit(tree, {}, OWNER) == Walk({OWNER, CLIENT}, [Loop(CLIENT), Loop(OWNER)]);
    assert [OWNER][..0] == [] && VisitRoots(tree, []) == Walk({}, []);
  }

  lemma CycleFromB()
    ensures VisitRoots(CyclicTree(), [CLIENT]).acts == [Loop(OWNER), Loop(CLIENT)]
  {
    var tree := CyclicTree();
    var inner := VisitImports(tree, {CLIENT, OWNER}, OWNER, 1);
    assert VisitImports(tree, {CLIENT, OWNER}, OWNER, 0) == Walk({CLIENT, OWNER}, []);
    assert Visit(tree, {CLIENT, OWNER}, CLIENT) == Walk({CLIENT, OWNER}, []);
    assert inner == Walk({CLIENT, OWNER}, []);
    assert {CLIENT} + {OWNER} == {CLIENT, OWNER};
    assert Visit(tree, {CLIENT}, OWNER) == Walk({CLIENT, OWNER}, [Loop(OWNER)]);
    assert VisitImports(tree, {CLIENT}, CLIENT, 0) == Walk({CLIENT}, []);
    assert VisitImports(tree, {CLIENT}, CLIENT, 1) == Walk({CLIENT, OWNER}, [Loop(OWNER)]);
    assert {} + {CLIENT} == {CLIENT};
    assert Visit(tree, {}, CLIENT) == Walk({CLIENT, OWNER}, [Loop(OWNER), Loop(CLIENT)]);
    assert [CLIENT][..0] == [] && VisitRoots(tree, []) == Walk({}, []);
  }

  lemma CycleFirstLoop(acts: seq<Act>)
    ensures acts != [] && acts[0] == Loop(CLIENT) ==> !AllFine(CyclicTree(), {}, acts)
  {
    if acts != [] && acts[0] == Loop(CLIENT) {
      CycleVerdict();
      assert acts[..0] == [] && Held(CyclicTree(), {}, []) == {};
      assert !ActFine(CyclicTree(), Held(CyclicTree(), {}, acts[..0]), acts[0]);
    }
  }

  lemma CycleStops(log: seq<Act>, r: Boot)
    requires Boots(CyclicTree(), {}, [Loop(CLIENT), Loop(OWNER)], log, r)
    ensures r.Panicked? && r.at == CLIENT && !r.outcome.ConstructorPanic?
    ensures Summary([User()], r.outcome) == CannotRegister({User()})
  {
    var acts := [Loop(CLIENT), Loop(OWNER)];
    CycleFirstLoop(acts);
    var head := log + [Loop(r.at)];
    assert head[0] == acts[0] && (log != [] ==> log[0] == head[0]);
    CycleFirstLoop(log);
    CycleVerdict();
    assert Held(CyclicTree(), {}, []) == {};
  }

  /** A provider on its own registers as soon as its required keys are there. */
  lemma LoneProviderCompletes(p: Provider, keys: set<Key>)
    requires AllPresent(p.Dependencies(), keys) && p.OptionalDependencies() == [] && !p.BuildsUndeclared()
    ensures BodyCompletes([p], keys)
  {
    var s := Listed([p]);
    var d := Least(s, keys);
    assert p in s && forall q :: q in s ==> q == p;
    assert Ready(p, KeysOf(keys, d), PendingOf(s, d));
    NoneMustPanic([p], keys);
  }

  lemma CycleBoots()
    ensures AllFine(CyclicTree(), {}, [Loop(OWNER)] + [Loop(CLIENT)])
  {
    var tree := CyclicTree();
    UserNeedsShared();
    LoneProviderCompletes(Supplier(), {});
    FineOne(tree, {}, Loop(OWNER));
    GainsOne(tree, Loop(OWNER));
    assert Supplier() in tree[OWNER].providers;
    assert Supplier().key in Held(tree, {}, [Loop(OWNER)]);
    LoneProviderCompletes(User(), Held(tree, {}, [Loop(OWNER)]));
    FineOne(tree, Held(tree, {}, [Loop(OWNER)]), Loop(CLIENT));
    FineChain(tree, {}, [Loop(OWNER)], [Loop(CLIENT)]);
  }

  /** An import cycle passes the access check, yet a boot from `OWNER` panics in the loop of `CLIENT`, which is
      entered second and cannot see what `OWNER` has not built yet; a boot from `CLIENT` gets through. */
  lemma ImportCyclePassesCheckButStalls()
    ensures WellFormed(CyclicTree()) && Describes(CyclicDescriptors(), CyclicTree())
    ensures AccessGraph.Contract(CyclicDescriptors(), [OWNER], {})
    ensures VisitRoots(CyclicTree(), [OWNER]) == Visit(CyclicTree(), {}, OWNER)
    ensures forall log, r :: Boots(CyclicTree(), {}, VisitRoots(CyclicTree(), [OWNER]).acts, log, r) ==>
              r.Panicked? && r.at == CLIENT && !r.outcome.ConstructorPanic?
              && Summary([User()], r.outcome) == CannotRegister({User()})
    ensures AllFine(CyclicTree(), {}, VisitRoots(CyclicTree(), [CLIENT]).acts)
  {
    CycleDescribed();
    CycleContract();
    CycleFromA();
    CycleFromB();
    SingleRoot(CyclicTree(), OWNER);
    forall log, r | Boots(CyclicTree(), {}, [Loop(CLIENT), Loop(OWNER)], log, r)
      ensures r.Panicked? && r.at == CLIENT && !r.outcome.ConstructorPanic?
              && Summary([User()], r.outcome) == CannotRegister({User()})
    {
      CycleStops(log, r);
    }
    CycleBoots();
    assert [Loop(OWNER)] + [Loop(CLIENT)] == [Loop(OWNER), Loop(CLIENT)];
  }

  /** An import cycle is no reason to panic in itself: without providers any import graph boots. */
  lemma CyclesAloneAreHarmless(tree: Tree, roots: seq<ModuleId>, keys: set<Key>)
    requires WellFormed(tree) && forall i :: 0 <= i < |roots| ==> roots[i] in tree
    requires forall m :: m in tree ==> tree[m].providers == []
    ensures AllFine(tree, keys, VisitRoots(tree, roots).acts)
  {
    var acts := VisitRoots(tree, roots).acts;
    RootsExplore(tree, roots);
    forall n | 0 <= n < |acts| && acts[n].Loop? ensures ActFine(tree, Held(tree, keys, acts[..n]), acts[n]) {
      LoopsRan(acts, acts[n].id);
      NoneMustPanic([], Held(tree, keys, acts[..n]));
    }
  }
}
