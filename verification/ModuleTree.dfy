/** The recursive import walk every `#[module]` emits around its provider loop. */
module ModuleTree {
  import opened Providers
  import opened Schedules
  import opened Stalls
  import opened Registration
  import Graph

  /** `imports` lists modules by type, and dynamic modules by value: those add configuration in the
      register phase and queue factories in the collect phase. */
  datatype Import = Static(id: ModuleId) | Dynamic(config: Container, factories: seq<Factory>)

  datatype ModuleDef = ModuleDef(imports: seq<Import>, providers: seq<Provider>)

  type Tree = map<ModuleId, ModuleDef>

  datatype Boot = Fine | Panicked(at: ModuleId, outcome: Outcome)

  ghost predicate WellFormed(tree: Tree) {
    forall m, n :: m in tree && 0 <= n < |tree[m].imports| && tree[m].imports[n].Static?
      ==> tree[m].imports[n].id in tree
  }

  ghost function StaticIds(imports: seq<Import>): set<ModuleId> {
    set n | 0 <= n < |imports| && imports[n].Static? :: imports[n].id
  }

  ghost function ImportGraph(tree: Tree): Graph.Edges<ModuleId> {
    map m | m in tree :: StaticIds(tree[m].imports)
  }

  ghost function DynamicKeys(imports: seq<Import>): set<Key> {
    if imports == [] then {}
    else
      var last := imports[|imports| - 1];
      DynamicKeys(imports[..|imports| - 1]) + (if last.Dynamic? then last.config.Keys else {})
  }

  /** What registering a module's own body adds to the container. */
  ghost function ModuleKeys(def: ModuleDef): set<Key> {
    DynamicKeys(def.imports) + set p | p in def.providers && p.AddsKey() :: p.key
  }

  ghost function KeysOfModules(tree: Tree, s: set<ModuleId>): set<Key> {
    set m, k | m in s && m in tree && k in ModuleKeys(tree[m]) :: k
  }

  // ---------------------------------------------------------------- when nothing panics

  /** The key is global, or published by a module in the import closure of `m`. */
  ghost predicate Supplied(tree: Tree, global: set<Key>, m: ModuleId, k: Key) {
    k in global || exists c :: c in tree && Graph.Reaches(ImportGraph(tree), m, c) && k in ModuleKeys(tree[c])
  }

  /** As `Supplied`, but in time for a provider that is built without waiting for its siblings. */
  ghost predicate SuppliedBefore(tree: Tree, global: set<Key>, m: ModuleId, k: Key)
    requires m in tree
  {
    || k in global
    || k in DynamicKeys(tree[m].imports)
    || exists c :: c in tree && c != m && Graph.Reaches(ImportGraph(tree), m, c) && k in ModuleKeys(tree[c])
  }

  /** No import cycle runs through `m`. */
  ghost predicate OffCycles(tree: Tree, m: ModuleId) {
    forall path :: Graph.IsCycle(ImportGraph(tree), path) ==> path[0] != m
  }

  ghost predicate Healthy(tree: Tree, global: set<Key>, m: ModuleId)
    requires m in tree
  {
    var ps := tree[m].providers;
    && OffCycles(tree, m)
    && (forall p, k :: p in ps && k in p.Dependencies() ==> Supplied(tree, global, m, k))
    && (forall p, k :: p in ps && p.BuildsUndeclared() && k in RequiredKeys(p.fields)
          ==> SuppliedBefore(tree, global, m, k))
    && Graph.Acyclic(WaitsGraph(Listed(ps), global))
  }

  ghost predicate HealthyBelow(tree: Tree, global: set<Key>, id: ModuleId) {
    forall m :: m in tree && Graph.Reaches(ImportGraph(tree), id, m) ==> Healthy(tree, global, m)
  }

  /** Every module below `m` is complete. */
  ghost predicate ClosureComplete(tree: Tree, keys: set<Key>, m: ModuleId) {
    forall c :: c in tree && c != m && Graph.Reaches(ImportGraph(tree), m, c) ==> ModuleKeys(tree[c]) <= keys
  }

  lemma WaitsShrink(s: set<Provider>, global: set<Key>, keys: set<Key>)
    requires global <= keys && Graph.Acyclic(WaitsGraph(s, global))
    ensures Graph.Acyclic(WaitsGraph(s, keys))
  {
    forall path | Graph.IsCycle(WaitsGraph(s, keys), path) ensures false {
      assert Graph.IsCycle(WaitsGraph(s, global), path);
    }
  }

  lemma ClosureSupplies(tree: Tree, global: set<Key>, m: ModuleId, keys: set<Key>)
    requires m in tree && Healthy(tree, global, m)
    requires global <= keys && DynamicKeys(tree[m].imports) <= keys && ClosureComplete(tree, keys, m)
    ensures LocallySupplied(Listed(tree[m].providers), keys)
  {
    var ps := tree[m].providers;
    forall p, k | p in ps && k in p.Dependencies() && k !in keys ensures !Lacks(Listed(ps), keys, p, k) {
      assert Supplied(tree, global, m, k);
      assert k in ModuleKeys(tree[m]);
    }
  }

  lemma UndeclaredArePresent(tree: Tree, global: set<Key>, m: ModuleId, keys: set<Key>, p: Provider)
    requires m in tree && Healthy(tree, global, m) && p in tree[m].providers
    requires global <= keys && DynamicKeys(tree[m].imports) <= keys && ClosureComplete(tree, keys, m)
    ensures !MustPanic(p, keys)
  {
    if p.BuildsUndeclared() {
      forall k | k in RequiredKeys(p.fields) ensures k in keys {
        assert SuppliedBefore(tree, global, m, k);
      }
    }
  }

  /** Once the closure of a healthy module is complete, its own loop registers everything. */
  lemma HealthyModuleCompletes(tree: Tree, global: set<Key>, m: ModuleId, keys: set<Key>)
    requires m in tree && Healthy(tree, global, m)
    requires global <= keys && DynamicKeys(tree[m].imports) <= keys && ClosureComplete(tree, keys, m)
    ensures BodyCompletes(tree[m].providers, keys)
  {
    ClosureSupplies(tree, global, m, keys);
    WaitsShrink(Listed(tree[m].providers), global, keys);
    SuppliedAndAcyclicCompletes(Listed(tree[m].providers), keys);
    forall p | p in tree[m].providers ensures !MustPanic(p, keys) {
      UndeclaredArePresent(tree, global, m, keys, p);
    }
    NoneMustPanic(tree[m].providers, keys);
  }

  // ---------------------------------------------------------------- the walk, as a function

  /** A dynamic import, by module and position. */
  datatype Site = Site(owner: ModuleId, at: nat)

  ghost predicate IsSite(tree: Tree, s: Site) {
    s.owner in tree && s.at < |tree[s.owner].imports| && tree[s.owner].imports[s.at].Dynamic?
  }

  ghost function ConfigAt(tree: Tree, s: Site): Container {
    if IsSite(tree, s) then tree[s.owner].imports[s.at].config else map[]
  }

  /** What the register phase does, step by step: a dynamic import adds its configuration, or a module
      runs its provider loop. */
  datatype Act = Configure(site: Site) | Loop(id: ModuleId)

  /** The modules marked afterwards, and what was done meanwhile. */
  datatype Walk = Walk(marked: set<ModuleId>, acts: seq<Act>)

  /** Depth first, each module after its imports, skipping those already marked. */
  ghost function Visit(tree: Tree, marked: set<ModuleId>, id: ModuleId): (w: Walk)
    requires WellFormed(tree) && id in tree && marked <= tree.Keys
    ensures marked <= w.marked <= tree.Keys
    decreases tree.Keys - marked, 0
  {
    if id in marked then Walk(marked, [])
    else
      var w := VisitImports(tree, marked + {id}, id, |tree[id].imports|);
      Walk(w.marked, w.acts + [Loop(id)])
  }

  /** The first `n` imports of `id`, in order. */
  ghost function VisitImports(tree: Tree, marked: set<ModuleId>, id: ModuleId, n: nat): (w: Walk)
    requires WellFormed(tree) && id in tree && marked <= tree.Keys && n <= |tree[id].imports|
    ensures marked <= w.marked <= tree.Keys
    decreases tree.Keys - marked, n + 1
  {
    if n == 0 then Walk(marked, [])
    else
      var w := VisitImports(tree, marked, id, n - 1);
      match tree[id].imports[n - 1]
      case Dynamic(_, _) => Walk(w.marked, w.acts + [Configure(Site(id, n - 1))])
      case Static(j) =>
        var v := Visit(tree, w.marked, j);
        Walk(v.marked, w.acts + v.acts)
  }

  /** The modules whose loop ran, in order. */
  ghost function Ran(acts: seq<Act>): seq<ModuleId> {
    if acts == [] then []
    else
      var last := acts[|acts| - 1];
      Ran(acts[..|acts| - 1]) + (if last.Loop? then [last.id] else [])
  }

  ghost function Gains(tree: Tree, a: Act): set<Key> {
    match a
    case Configure(site) => ConfigAt(tree, site).Keys
    case Loop(m) => if m in tree then set p | p in tree[m].providers && p.AddsKey() :: p.key else {}
  }

  ghost function GainsOf(tree: Tree, acts: seq<Act>): set<Key> {
    set a, k | a in acts && k in Gains(tree, a) :: k
  }

  /** The keys held after these acts, if none of them panicked. */
  ghost function Held(tree: Tree, keys: set<Key>, acts: seq<Act>): set<Key> {
    keys + GainsOf(tree, acts)
  }

  ghost predicate ActFine(tree: Tree, keys: set<Key>, a: Act) {
    a.Loop? ==> a.id in tree && BodyCompletes(tree[a.id].providers, keys)
  }

  /** Each loop gets through, over the keys it finds: those the walk began with, the configuration
      added so far, and those of the modules that ran before it. */
  ghost predicate AllFine(tree: Tree, keys: set<Key>, acts: seq<Act>) {
    forall n :: 0 <= n < |acts| ==> ActFine(tree, Held(tree, keys, acts[..n]), acts[n])
  }

  /** After `log`, the loop of the module named in `r` panics, because over the keys it finds it has
      to. */
  ghost predicate Fails(tree: Tree, keys: set<Key>, log: seq<Act>, r: Boot) {
    && r.Panicked? && r.at in tree
    && AllFine(tree, keys, log)
    && !BodyCompletes(tree[r.at].providers, Held(tree, keys, log))
    && Reports(tree[r.at].providers, Held(tree, keys, log), r.outcome)
  }

  /** The walk `acts` gets as far as `log` and panics in the next loop. */
  ghost predicate StopsAfter(tree: Tree, keys: set<Key>, acts: seq<Act>, log: seq<Act>, r: Boot) {
    r.Panicked? && log + [Loop(r.at)] <= acts && Fails(tree, keys, log, r)
  }

  /** `r` and `log` are how the walk `acts` ends over `keys`. */
  ghost predicate Boots(tree: Tree, keys: set<Key>, acts: seq<Act>, log: seq<Act>, r: Boot) {
    match r
    case Fine => log == acts && AllFine(tree, keys, acts)
    case Panicked(_, _) => StopsAfter(tree, keys, acts, log, r)
  }

  lemma {:induction false} RanAppend(a: seq<Act>, b: seq<Act>)
    ensures Ran(a + b) == Ran(a) + Ran(b)
  {
    if b == [] {
      assert a + b == a;
    } else {
      RanAppend(a, b[..|b| - 1]);
      assert (a + b)[..|a + b| - 1] == a + b[..|b| - 1];
    }
  }

  lemma GainsAppend(tree: Tree, a: seq<Act>, b: seq<Act>)
    ensures GainsOf(tree, a + b) == GainsOf(tree, a) + GainsOf(tree, b)
  {
  }

  lemma GainsOne(tree: Tree, a: Act)
    ensures GainsOf(tree, [a]) == Gains(tree, a)
  {
    assert a in [a];
  }

  lemma FineChain(tree: Tree, keys: set<Key>, a: seq<Act>, b: seq<Act>)
    ensures AllFine(tree, keys, a + b) <==> AllFine(tree, keys, a) && AllFine(tree, Held(tree, keys, a), b)
  {
    forall n | 0 <= n < |a| + |b|
      ensures (a + b)[..n] == if n <= |a| then a[..n] else a + b[..n - |a|]
      ensures n >= |a| ==> Held(tree, keys, (a + b)[..n]) == Held(tree, Held(tree, keys, a), b[..n - |a|])
    {
      if n >= |a| {
        assert (a + b)[..n] == a + b[..n - |a|];
        GainsAppend(tree, a, b[..n - |a|]);
      }
    }
    if AllFine(tree, keys, a + b) {
      forall n | 0 <= n < |a| ensures ActFine(tree, Held(tree, keys, a[..n]), a[n]) {
        assert (a + b)[n] == a[n];
      }
      forall n | 0 <= n < |b| ensures ActFine(tree, Held(tree, Held(tree, keys, a), b[..n]), b[n]) {
        assert (a + b)[|a| + n] == b[n];
      }
    }
  }

  lemma FineOne(tree: Tree, keys: set<Key>, a: Act)
    ensures AllFine(tree, keys, [a]) <==> ActFine(tree, keys, a)
  {
    assert [a][..0] == [] && [a][0] == a;
    assert Held(tree, keys, []) == keys;
  }

  /** A walk stops or gets through, never both: `Fine` is exactly `AllFine`. */
  lemma StopsIsNotFine(tree: Tree, keys: set<Key>, acts: seq<Act>, log: seq<Act>, r: Boot)
    requires StopsAfter(tree, keys, acts, log, r)
    ensures !AllFine(tree, keys, acts)
  {
    var n := |log|;
    assert acts[..n] == log && acts[n] == (log + [Loop(r.at)])[n];
    assert !ActFine(tree, Held(tree, keys, acts[..n]), acts[n]);
  }

  lemma PrefixGrows<T>(p: seq<T>, a: seq<T>, rest: seq<T>)
    requires p <= a
    ensures p <= a + rest
  {
  }

  lemma PrefixShifts<T>(a: seq<T>, p: seq<T>, b: seq<T>, x: T)
    requires p + [x] <= b
    ensures (a + p) + [x] <= a + b
  {
    assert (a + p) + [x] == a + (p + [x]);
  }

  lemma StopsExtend(tree: Tree, keys: set<Key>, a: seq<Act>, rest: seq<Act>, log: seq<Act>, r: Boot)
    requires StopsAfter(tree, keys, a, log, r)
    ensures StopsAfter(tree, keys, a + rest, log, r)
  {
    PrefixGrows(log + [Loop(r.at)], a, rest);
  }

  lemma FailsLater(tree: Tree, keys: set<Key>, a: seq<Act>, log: seq<Act>, r: Boot)
    requires AllFine(tree, keys, a) && Fails(tree, Held(tree, keys, a), log, r)
    ensures Fails(tree, keys, a + log, r)
  {
    FineChain(tree, keys, a, log);
    GainsAppend(tree, a, log);
    assert Held(tree, keys, a + log) == Held(tree, Held(tree, keys, a), log);
  }

  /** A later part of the walk stops the whole walk. */
  lemma StopsLater(tree: Tree, keys: set<Key>, a: seq<Act>, b: seq<Act>, rest: seq<Act>, log: seq<Act>, r: Boot)
    requires AllFine(tree, keys, a) && StopsAfter(tree, Held(tree, keys, a), b, log, r)
    ensures StopsAfter(tree, keys, a + b + rest, a + log, r)
  {
    FailsLater(tree, keys, a, log, r);
    PrefixShifts(a, log, b, Loop(r.at));
    PrefixGrows((a + log) + [Loop(r.at)], a + b, rest);
  }

  lemma {:induction false} ImportsExtend(tree: Tree, marked: set<ModuleId>, id: ModuleId, n: nat,
                                         m: nat) returns (rest: seq<Act>)
    requires WellFormed(tree) && id in tree && marked <= tree.Keys && n <= m <= |tree[id].imports|
    ensures VisitImports(tree, marked, id, m).acts == VisitImports(tree, marked, id, n).acts + rest
    decreases m
  {
    if n == m {
      rest := [];
    } else {
      rest := ImportsExtend(tree, marked, id, n, m - 1);
      var w := VisitImports(tree, marked, id, m - 1);
      match tree[id].imports[m - 1] {
        case Dynamic(_, _) => rest := rest + [Configure(Site(id, m - 1))];
        case Static(j) => rest := rest + Visit(tree, w.marked, j).acts;
      }
    }
  }

  lemma CompletedKeys(ps: seq<Provider>, keys: set<Key>)
    requires VerdictOf(Listed(ps), keys) == AllRegistered
    ensures KeysOf(keys, Least(Listed(ps), keys)) == keys + set p | p in ps && p.AddsKey() :: p.key
  {
  }

  ghost predicate BuiltBy(ps: seq<Provider>, c: Container, after: Container) {
    exists order: seq<nat> ::
      Schedule(ps, c, order) && (forall i :: 0 <= i < |ps| ==> i in order) && after == Replay(c, ps, order)
  }

  /** One act, in terms of the values in the container; a loop may build in any order its readiness
      rule allows. */
  ghost predicate StepTo(tree: Tree, c: Container, a: Act, after: Container) {
    match a
    case Configure(site) => after == c + ConfigAt(tree, site)
    case Loop(m) => m in tree && BuiltBy(tree[m].providers, c, after)
  }

  /** `cs` is what the container holds before each act, and after the last. */
  ghost predicate Trace(tree: Tree, acts: seq<Act>, cs: seq<Container>) {
    |cs| == |acts| + 1 && forall n :: 0 <= n < |acts| ==> StepTo(tree, cs[n], acts[n], cs[n + 1])
  }

  ghost predicate TraceBetween(tree: Tree, c: Container, acts: seq<Act>, after: Container, cs: seq<Container>) {
    Trace(tree, acts, cs) && cs[0] == c && cs[|acts|] == after
  }

  ghost predicate RunsTo(tree: Tree, c: Container, acts: seq<Act>, after: Container) {
    exists cs :: TraceBetween(tree, c, acts, after, cs)
  }

  lemma RunsNothing(tree: Tree, c: Container)
    ensures RunsTo(tree, c, [], c)
  {
    assert TraceBetween(tree, c, [], c, [c]);
  }

  lemma RunsOneMore(tree: Tree, c: Container, acts: seq<Act>, mid: Container, a: Act, after: Container)
    requires RunsTo(tree, c, acts, mid) && StepTo(tree, mid, a, after)
    ensures RunsTo(tree, c, acts + [a], after)
  {
    var cs :| TraceBetween(tree, c, acts, mid, cs);
    assert TraceBetween(tree, c, acts + [a], after, cs + [after]);
  }

  lemma RunsAppend(tree: Tree, c: Container, a: seq<Act>, mid: Container, b: seq<Act>, after: Container)
    requires RunsTo(tree, c, a, mid) && RunsTo(tree, mid, b, after)
    ensures RunsTo(tree, c, a + b, after)
  {
    var cs :| TraceBetween(tree, c, a, mid, cs);
    var ds :| TraceBetween(tree, mid, b, after, ds);
    var all := cs + ds[1..];
    forall n | 0 <= n < |a + b| ensures StepTo(tree, all[n], (a + b)[n], all[n + 1]) {
      if n >= |a| {
        assert all[n] == ds[n - |a|] && all[n + 1] == ds[n - |a| + 1];
      }
    }
    assert TraceBetween(tree, c, a + b, after, all);
  }

  /** The builder is where the walk should have brought it. */
  ghost predicate Follows(tree: Tree, init: Container, w: Walk, log: seq<Act>, marked: set<ModuleId>, c: Container) {
    && log == w.acts && AllFine(tree, init.Keys, w.acts)
    && marked == w.marked && c.Keys == Held(tree, init.Keys, w.acts)
    && RunsTo(tree, init, w.acts, c)
  }

  lemma FollowsStart(tree: Tree, init: Container, marked: set<ModuleId>)
    ensures Follows(tree, init, Walk(marked, []), [], marked, init)
  {
    RunsNothing(tree, init);
    assert GainsOf(tree, []) == {};
  }

  lemma FollowsAct(tree: Tree, init: Container, w: Walk, log: seq<Act>, marked: set<ModuleId>, c: Container, act: Act,
                   after: Container)
    requires Follows(tree, init, w, log, marked, c) && ActFine(tree, c.Keys, act)
    requires StepTo(tree, c, act, after) && after.Keys == c.Keys + Gains(tree, act)
    ensures Follows(tree, init, Walk(w.marked, w.acts + [act]), log + [act], marked, after)
  {
    FineChain(tree, init.Keys, w.acts, [act]);
    FineOne(tree, c.Keys, act);
    GainsAppend(tree, w.acts, [act]);
    GainsOne(tree, act);
    RunsOneMore(tree, init, w.acts, c, act, after);
  }

  lemma FollowsWalk(tree: Tree, init: Container, w: Walk, log: seq<Act>, marked: set<ModuleId>, c: Container,
                    v: Walk, more: seq<Act>, marked': set<ModuleId>, after: Container)
    requires Follows(tree, init, w, log, marked, c) && Follows(tree, c, v, more, marked', after)
    ensures Follows(tree, init, Walk(v.marked, w.acts + v.acts), log + more, marked', after)
  {
    FineChain(tree, init.Keys, w.acts, v.acts);
    GainsAppend(tree, w.acts, v.acts);
    RunsAppend(tree, init, w.acts, c, v.acts, after);
    assert after.Keys == Held(tree, init.Keys, w.acts + v.acts);
  }

  // ---------------------------------------------------------------- the walk, as it runs

  /** `<M as Module>::register`.  `log` is what was done, in order. */
  method Register(b: ContainerBuilder, tree: Tree, id: ModuleId) returns (r: Boot, ghost log: seq<Act>)
    requires WellFormed(tree) && id in tree && b.registeredModules <= tree.Keys
    modifies b`providers, b`registeredModules
    ensures var w := Visit(tree, old(b.registeredModules), id);
      && Boots(tree, old(b.providers.Keys), w.acts, log, r)
      && (r.Fine? <==> AllFine(tree, old(b.providers.Keys), w.acts))
      && (r.Fine? ==> Follows(tree, old(b.providers), w, log, b.registeredModules, b.providers))
    decreases tree.Keys - b.registeredModules, 0
  {
    ghost var marked, init := b.registeredModules, b.providers;
    ghost var keys := init.Keys;
    var first := b.MarkRegistered(id);
    if !first {
      FollowsStart(tree, init, marked);
      return Fine, [];
    }
    r, log := RegisterImports(b, tree, id);
    ghost var imported := VisitImports(tree, marked + {id}, id, |tree[id].imports|);
    if r.Panicked? {
      StopsExtend(tree, keys, imported.acts, [Loop(id)], log, r);
      StopsIsNotFine(tree, keys, imported.acts + [Loop(id)], log, r);
      return;
    }
    ghost var found := b.providers;
    FineChain(tree, keys, imported.acts, [Loop(id)]);
    FineOne(tree, found.Keys, Loop(id));
    var outcome;
    ghost var order;
    outcome, order := b.RegisterProviders(tree[id].providers);
    if !outcome.Completed? {
      return Panicked(id, outcome), log;
    }
    CompletedKeys(tree[id].providers, found.Keys);
    FollowsAct(tree, init, imported, log, b.registeredModules, found, Loop(id), b.providers);
    log := log + [Loop(id)];
  }

  /** A walk that stops among the first `n` imports stops among all of them. */
  lemma ImportsStop(tree: Tree, marked: set<ModuleId>, id: ModuleId, n: nat, keys: set<Key>, log: seq<Act>, r: Boot)
    requires WellFormed(tree) && id in tree && marked <= tree.Keys && n <= |tree[id].imports|
    requires StopsAfter(tree, keys, VisitImports(tree, marked, id, n).acts, log, r)
    ensures StopsAfter(tree, keys, VisitImports(tree, marked, id, |tree[id].imports|).acts, log, r)
  {
    var rest := ImportsExtend(tree, marked, id, n, |tree[id].imports|);
    StopsExtend(tree, keys, VisitImports(tree, marked, id, n).acts, rest, log, r);
  }

  /** A dynamic import adds its configuration, after what `log` did. */
  method RegisterDynamic(b: ContainerBuilder, tree: Tree, site: Site, ghost init: Container, ghost w: Walk,
                         ghost log: seq<Act>)
    returns (r: Boot, ghost log': seq<Act>)
    requires IsSite(tree, site) && Follows(tree, init, w, log, b.registeredModules, b.providers)
    modifies b`providers
    ensures r.Fine?
    ensures forall k :: k in ConfigAt(tree, site) ==> k in b.providers && b.providers[k] == ConfigAt(tree, site)[k]
    ensures forall k :: k !in ConfigAt(tree, site) ==> Lookup(b.providers, k) == Lookup(old(b.providers), k)
    ensures Follows(tree, init, Walk(w.marked, w.acts + [Configure(site)]), log', b.registeredModules, b.providers)
  {
    ghost var found := b.providers;
    b.providers := b.providers + tree[site.owner].imports[site.at].config;
    FollowsAct(tree, init, w, log, b.registeredModules, found, Configure(site), b.providers);
    return Fine, log + [Configure(site)];
  }

  /** A static import runs the imported module's own registration, after what `log` did. */
  method RegisterStatic(b: ContainerBuilder, tree: Tree, j: ModuleId, ghost init: Container, ghost w: Walk,
                        ghost log: seq<Act>)
    returns (r: Boot, ghost log': seq<Act>)
    requires WellFormed(tree) && j in tree && b.registeredModules <= tree.Keys
    requires Follows(tree, init, w, log, b.registeredModules, b.providers)
    modifies b`providers, b`registeredModules
    ensures var v := Visit(tree, w.marked, j);
      && (r.Fine? ==>
            Follows(tree, init, Walk(v.marked, w.acts + v.acts), log', b.registeredModules, b.providers))
      && (r.Panicked? ==> StopsAfter(tree, init.Keys, w.acts + v.acts, log', r))
    decreases tree.Keys - b.registeredModules, 1
  {
    ghost var found, v := b.providers, Visit(tree, w.marked, j);
    ghost var more;
    r, more := Register(b, tree, j);
    log' := log + more;
    if r.Panicked? {
      StopsLater(tree, init.Keys, w.acts, v.acts, [], more, r);
      assert w.acts + v.acts + [] == w.acts + v.acts;
    } else {
      FollowsWalk(tree, init, w, log, w.marked, found, v, more, b.registeredModules, b.providers);
    }
  }

  /** The call emitted for one import; `log` is what was done for the imports before it. */
  method RegisterImport(b: ContainerBuilder, tree: Tree, id: ModuleId, n: nat, ghost init: Container,
                        ghost marked: set<ModuleId>, ghost log: seq<Act>)
    returns (r: Boot, ghost log': seq<Act>)
    requires WellFormed(tree) && id in tree && n < |tree[id].imports| && marked <= b.registeredModules <= tree.Keys
    requires Follows(tree, init, VisitImports(tree, marked, id, n), log, b.registeredModules, b.providers)
    modifies b`providers, b`registeredModules
    ensures r.Fine? ==>
      Follows(tree, init, VisitImports(tree, marked, id, n + 1), log', b.registeredModules, b.providers)
    ensures r.Panicked? ==>
      StopsAfter(tree, init.Keys, VisitImports(tree, marked, id, |tree[id].imports|).acts, log', r)
    decreases tree.Keys - b.registeredModules, 2
  {
    ghost var w, next := VisitImports(tree, marked, id, n), VisitImports(tree, marked, id, n + 1);
    match tree[id].imports[n] {
      case Dynamic(config, _) =>
        assert next == Walk(w.marked, w.acts + [Configure(Site(id, n))]);
        r, log' := RegisterDynamic(b, tree, Site(id, n), init, w, log);
      case Static(j) =>
        assert next == Walk(Visit(tree, w.marked, j).marked, w.acts + Visit(tree, w.marked, j).acts);
        r, log' := RegisterStatic(b, tree, j, init, w, log);
        if r.Panicked? {
          ImportsStop(tree, marked, id, n + 1, init.Keys, log', r);
        }
    }
  }

  /** The import calls emitted in front of the provider loop, one after another. */
  method RegisterImports(b: ContainerBuilder, tree: Tree, id: ModuleId) returns (r: Boot, ghost log: seq<Act>)
    requires WellFormed(tree) && id in tree && b.registeredModules <= tree.Keys
    modifies b`providers, b`registeredModules
    ensures var w := VisitImports(tree, old(b.registeredModules), id, |tree[id].imports|);
      && (r.Fine? ==> Follows(tree, old(b.providers), w, log, b.registeredModules, b.providers))
      && (r.Panicked? ==> StopsAfter(tree, old(b.providers.Keys), w.acts, log, r))
    decreases tree.Keys - b.registeredModules, 3
  {
    ghost var marked, init := b.registeredModules, b.providers;
    r, log := Fine, [];
    FollowsStart(tree, init, marked);
    for n := 0 to |tree[id].imports|
      invariant r.Fine? && Follows(tree, init, VisitImports(tree, marked, id, n), log, b.registeredModules, b.providers)
    {
      r, log := RegisterImport(b, tree, id, n, init, marked, log);
      if r.Panicked? {
        return;
      }
    }
  }

  // ---------------------------------------------------------------- what the walk visits

  /** What one call explored: exactly modules below `id`, with their imports, each once. */
  ghost predicate Explored(tree: Tree, before: set<ModuleId>, after: set<ModuleId>, id: ModuleId, ran: seq<ModuleId>) {
    && before <= after <= tree.Keys
    && (forall m :: m in after - before ==> Graph.Reaches(ImportGraph(tree), id, m))
    && (forall m :: m in after - before ==> StaticIds(tree[m].imports) <= after)
    && Distinct(ran) && forall m :: m in ran <==> m in after - before
  }

  lemma TakeOneMore(imports: seq<Import>, n: nat)
    requires n < |imports|
    ensures StaticIds(imports[..n + 1]) == StaticIds(imports[..n])
                                           + (if imports[n].Static? then {imports[n].id} else {})
    ensures DynamicKeys(imports[..n + 1]) == DynamicKeys(imports[..n])
                                             + (if imports[n].Dynamic? then imports[n].config.Keys else {})
  {
    assert imports[..n + 1][..n] == imports[..n];
    assert imports[..n + 1][n] == imports[n];
    forall x | x in StaticIds(imports[..n]) ensures x in StaticIds(imports[..n + 1]) {
      var i :| 0 <= i < n && imports[..n][i].Static? && imports[..n][i].id == x;
      assert imports[..n + 1][i].id == x;
    }
    forall x | x in StaticIds(imports[..n + 1])
      ensures x in StaticIds(imports[..n]) || (imports[n].Static? && imports[n].id == x)
    {
      var i :| 0 <= i < n + 1 && imports[..n + 1][i].Static? && imports[..n + 1][i].id == x;
      assert i == n || (i < n && imports[..n][i] == imports[..n + 1][i]);
    }
  }

  lemma ExploredChain(tree: Tree, m0: set<ModuleId>, m1: set<ModuleId>, m2: set<ModuleId>, id: ModuleId, j: ModuleId,
                      ran: seq<ModuleId>, more: seq<ModuleId>)
    requires id in tree && j in StaticIds(tree[id].imports)
    requires Explored(tree, m0, m1, id, ran) && Explored(tree, m1, m2, j, more)
    ensures Explored(tree, m0, m2, id, ran + more)
  {
    forall m | m in m2 - m1 ensures Graph.Reaches(ImportGraph(tree), id, m) {
      Graph.ReachesPrepend(ImportGraph(tree), id, j, m);
    }
    assert forall i :: 0 <= i < |ran| ==> ran[i] in ran;
    assert forall i :: 0 <= i < |more| ==> more[i] in more;
  }

  lemma KeysUnion(tree: Tree, s: set<ModuleId>, t: set<ModuleId>)
    ensures KeysOfModules(tree, s + t) == KeysOfModules(tree, s) + KeysOfModules(tree, t)
  {
  }

  lemma KeysChain(tree: Tree, m0: set<ModuleId>, m1: set<ModuleId>, m2: set<ModuleId>)
    requires m0 <= m1 <= m2
    ensures KeysOfModules(tree, m2 - m0) == KeysOfModules(tree, m1 - m0) + KeysOfModules(tree, m2 - m1)
  {
    assert m2 - m0 == (m1 - m0) + (m2 - m1);
    KeysUnion(tree, m1 - m0, m2 - m1);
  }

  /** What a visit contributes: the unmarked modules it had to run, each once, and their keys. */
  ghost predicate VisitDone(tree: Tree, marked: set<ModuleId>, id: ModuleId, w: Walk) {
    && id in w.marked && Explored(tree, marked, w.marked, id, Ran(w.acts))
    && GainsOf(tree, w.acts) == KeysOfModules(tree, w.marked - marked)
  }

  /** What the first `n` imports of `id` contribute. */
  ghost predicate ImportsDone(tree: Tree, marked: set<ModuleId>, id: ModuleId, n: nat, w: Walk)
    requires id in tree && n <= |tree[id].imports|
  {
    && Explored(tree, marked, w.marked, id, Ran(w.acts))
    && StaticIds(tree[id].imports[..n]) <= w.marked
    && GainsOf(tree, w.acts) == DynamicKeys(tree[id].imports[..n]) + KeysOfModules(tree, w.marked - marked)
  }

  lemma ExploredSelf(tree: Tree, before: set<ModuleId>, after: set<ModuleId>, id: ModuleId, ran: seq<ModuleId>)
    requires id in tree && id !in before && id in after && Explored(tree, before + {id}, after, id, ran)
    requires StaticIds(tree[id].imports) <= after
    ensures Explored(tree, before, after, id, ran + [id])
  {
    Graph.ReachesSelf(ImportGraph(tree), id);
    assert after - before == (after - (before + {id})) + {id};
  }

  lemma KeysSelf(tree: Tree, before: set<ModuleId>, after: set<ModuleId>, id: ModuleId)
    requires id in tree && id !in before && id in after
    ensures KeysOfModules(tree, after - before)
         == DynamicKeys(tree[id].imports) + KeysOfModules(tree, after - (before + {id})) + Gains(tree, Loop(id))
  {
    assert after - before == (after - (before + {id})) + {id};
    KeysUnion(tree, after - (before + {id}), {id});
    var m := id;
    forall k | k in ModuleKeys(tree[m]) ensures k in KeysOfModules(tree, {id}) { }
    assert KeysOfModules(tree, {id}) == ModuleKeys(tree[id]);
  }

  lemma OwnLoopExplores(tree: Tree, marked: set<ModuleId>, id: ModuleId, w: Walk)
    requires id in tree && id !in marked && marked + {id} <= w.marked
    requires ImportsDone(tree, marked + {id}, id, |tree[id].imports|, w)
    ensures VisitDone(tree, marked, id, Walk(w.marked, w.acts + [Loop(id)]))
  {
    assert tree[id].imports[..|tree[id].imports|] == tree[id].imports;
    RanAppend(w.acts, [Loop(id)]);
    assert Ran([Loop(id)]) == [id] by { assert [Loop(id)][..0] == []; }
    GainsAppend(tree, w.acts, [Loop(id)]);
    GainsOne(tree, Loop(id));
    ExploredSelf(tree, marked, w.marked, id, Ran(w.acts));
    KeysSelf(tree, marked, w.marked, id);
  }

  /** On any import graph, cyclic or not, the walk runs exactly the unmarked modules below `id` that
      it has to, each once, and adds exactly their keys. */
  lemma {:induction false} VisitExplores(tree: Tree, marked: set<ModuleId>, id: ModuleId)
    requires WellFormed(tree) && id in tree && marked <= tree.Keys
    ensures VisitDone(tree, marked, id, Visit(tree, marked, id))
    decreases tree.Keys - marked, 0
  {
    if id !in marked {
      var n := |tree[id].imports|;
      ImportsExplore(tree, marked + {id}, id, n);
      OwnLoopExplores(tree, marked, id, VisitImports(tree, marked + {id}, id, n));
    }
  }

  lemma QuietAct(acts: seq<Act>, act: Act)
    requires act.Configure?
    ensures Ran(acts + [act]) == Ran(acts)
  {
    assert (acts + [act])[..|acts|] == acts;
    assert Ran(acts) + [] == Ran(acts);
  }

  lemma ConfigGains(tree: Tree, id: ModuleId, n: nat)
    requires id in tree && n < |tree[id].imports| && tree[id].imports[n].Dynamic?
    ensures Gains(tree, Configure(Site(id, n))) == tree[id].imports[n].config.Keys
  {
  }

  lemma DynamicExplores(tree: Tree, marked: set<ModuleId>, id: ModuleId, n: nat, w: Walk)
    requires id in tree && 0 < n <= |tree[id].imports| && ImportsDone(tree, marked, id, n - 1, w)
    requires tree[id].imports[n - 1].Dynamic?
    ensures ImportsDone(tree, marked, id, n, Walk(w.marked, w.acts + [Configure(Site(id, n - 1))]))
  {
    var act := Configure(Site(id, n - 1));
    QuietAct(w.acts, act);
    GainsAppend(tree, w.acts, [act]);
    GainsOne(tree, act);
    ConfigGains(tree, id, n - 1);
    TakeOneMore(tree[id].imports, n - 1);
  }

  lemma StaticExplores(tree: Tree, marked: set<ModuleId>, id: ModuleId, n: nat, j: ModuleId, w: Walk, v: Walk)
    requires id in tree && 0 < n <= |tree[id].imports| && tree[id].imports[n - 1] == Static(j)
    requires ImportsDone(tree, marked, id, n - 1, w)
    requires VisitDone(tree, w.marked, j, v)
    ensures ImportsDone(tree, marked, id, n, Walk(v.marked, w.acts + v.acts))
  {
    assert j in StaticIds(tree[id].imports);
    RanAppend(w.acts, v.acts);
    GainsAppend(tree, w.acts, v.acts);
    ExploredChain(tree, marked, w.marked, v.marked, id, j, Ran(w.acts), Ran(v.acts));
    KeysChain(tree, marked, w.marked, v.marked);
    TakeOneMore(tree[id].imports, n - 1);
  }

  lemma OneMoreExplores(tree: Tree, marked: set<ModuleId>, id: ModuleId, n: nat)
    requires WellFormed(tree) && id in tree && marked <= tree.Keys && 0 < n <= |tree[id].imports|
    requires ImportsDone(tree, marked, id, n - 1, VisitImports(tree, marked, id, n - 1))
    requires var i := tree[id].imports[n - 1];
      var w := VisitImports(tree, marked, id, n - 1);
      i.Static? ==> VisitDone(tree, w.marked, i.id, Visit(tree, w.marked, i.id))
    ensures ImportsDone(tree, marked, id, n, VisitImports(tree, marked, id, n))
  {
    var w := VisitImports(tree, marked, id, n - 1);
    match tree[id].imports[n - 1] {
      case Dynamic(_, _) => DynamicExplores(tree, marked, id, n, w);
      case Static(j) => StaticExplores(tree, marked, id, n, j, w, Visit(tree, w.marked, j));
    }
  }

  lemma {:induction false} ImportsExplore(tree: Tree, marked: set<ModuleId>, id: ModuleId, n: nat)
    requires WellFormed(tree) && id in tree && marked <= tree.Keys && n <= |tree[id].imports|
    ensures ImportsDone(tree, marked, id, n, VisitImports(tree, marked, id, n))
    decreases tree.Keys - marked, n + 1
  {
    if n > 0 {
      var w := VisitImports(tree, marked, id, n - 1);
      ImportsExplore(tree, marked, id, n - 1);
      if tree[id].imports[n - 1].Static? {
        VisitExplores(tree, w.marked, tree[id].imports[n - 1].id);
      }
      OneMoreExplores(tree, marked, id, n);
    }
  }

  // ---------------------------------------------------------------- imports in listed order

  lemma {:induction false} RanLoops(acts: seq<Act>, m: ModuleId)
    requires m in Ran(acts)
    ensures Loop(m) in acts
  {
    var last := |acts| - 1;
    assert acts == acts[..last] + [acts[last]];
    if acts[last] != Loop(m) {
      RanLoops(acts[..last], m);
    }
  }

  function OwnerOf(a: Act): ModuleId {
    match a
    case Configure(site) => site.owner
    case Loop(m) => m
  }

  /** The `n`th import of `id` is this very act, or leads to the module it belongs to. */
  ghost predicate LeadsTo(tree: Tree, id: ModuleId, n: nat, a: Act)
    requires id in tree && n < |tree[id].imports|
  {
    match tree[id].imports[n]
    case Dynamic(_, _) => a == Configure(Site(id, n))
    case Static(j) => Graph.Reaches(ImportGraph(tree), j, OwnerOf(a))
  }

  lemma LedBelow(tree: Tree, id: ModuleId, n: nat, a: Act)
    requires id in tree && n < |tree[id].imports| && LeadsTo(tree, id, n, a)
    ensures Graph.Reaches(ImportGraph(tree), id, OwnerOf(a))
  {
    Graph.ReachesSelf(ImportGraph(tree), id);
    if tree[id].imports[n].Static? {
      Graph.ReachesPrepend(ImportGraph(tree), id, tree[id].imports[n].id, OwnerOf(a));
    }
  }

  lemma {:induction false} VisitStaysBelow(tree: Tree, marked: set<ModuleId>, id: ModuleId, a: Act)
    requires WellFormed(tree) && id in tree && marked <= tree.Keys && a in Visit(tree, marked, id).acts
    ensures Graph.Reaches(ImportGraph(tree), id, OwnerOf(a))
    decreases tree.Keys - marked, 0
  {
    if a == Loop(id) {
      Graph.ReachesSelf(ImportGraph(tree), id);
    } else {
      var n := ImportLeads(tree, marked + {id}, id, |tree[id].imports|, a);
      LedBelow(tree, id, n, a);
    }
  }

  lemma {:induction false} ImportLeads(tree: Tree, marked: set<ModuleId>, id: ModuleId, n: nat, a: Act)
    returns (i: nat)
    requires WellFormed(tree) && id in tree && marked <= tree.Keys && n <= |tree[id].imports|
    requires a in VisitImports(tree, marked, id, n).acts
    ensures i < n && LeadsTo(tree, id, i, a)
    decreases tree.Keys - marked, n + 1
  {
    var w := VisitImports(tree, marked, id, n - 1);
    if a in w.acts {
      i := ImportLeads(tree, marked, id, n - 1, a);
    } else {
      i := n - 1;
      if tree[id].imports[i].Static? {
        VisitStaysBelow(tree, w.marked, tree[id].imports[i].id, a);
      }
    }
  }

  /** The import has had its turn: its configuration is added, or its loop has run, unless the module was
      marked before. */
  ghost predicate HadItsTurn(tree: Tree, marked: set<ModuleId>, id: ModuleId, n: nat, acts: seq<Act>)
    requires id in tree && n < |tree[id].imports|
  {
    match tree[id].imports[n]
    case Dynamic(_, _) => Configure(Site(id, n)) in acts
    case Static(j) => j in marked || Loop(j) in acts
  }

  lemma TurnTaken(tree: Tree, marked: set<ModuleId>, id: ModuleId, n: nat)
    requires WellFormed(tree) && id in tree && marked <= tree.Keys && n < |tree[id].imports|
    ensures HadItsTurn(tree, marked, id, n, VisitImports(tree, marked, id, n + 1).acts)
  {
    var w := VisitImports(tree, marked, id, n);
    match tree[id].imports[n] {
      case Dynamic(_, _) =>
      case Static(j) =>
        if j in w.marked && j !in marked {
          ImportsExplore(tree, marked, id, n);
          RanLoops(w.acts, j);
        }
    }
  }

  /** Imports are walked in listed order: whatever none of the first imports leads to comes after each of
      them has had its turn, the module's own loop included. */
  lemma ImportOrder(tree: Tree, marked: set<ModuleId>, id: ModuleId, i: nat, p: nat)
    requires WellFormed(tree) && id in tree && marked <= tree.Keys && id !in marked && i < |tree[id].imports|
    requires p < |Visit(tree, marked, id).acts|
    requires forall n: nat :: n <= i ==> !LeadsTo(tree, id, n, Visit(tree, marked, id).acts[p])
    ensures HadItsTurn(tree, marked + {id}, id, i, Visit(tree, marked, id).acts[..p])
  {
    var acts, first := Visit(tree, marked, id).acts, VisitImports(tree, marked + {id}, id, i + 1).acts;
    var rest := ImportsExtend(tree, marked + {id}, id, i + 1, |tree[id].imports|);
    assert acts == first + (rest + [Loop(id)]);
    if p < |first| {
      assert acts[p] == first[p];
      var n := ImportLeads(tree, marked + {id}, id, i + 1, first[p]);
      assert false;
    }
    TurnTaken(tree, marked + {id}, id, i);
    assert acts[..p] == first + (rest + [Loop(id)])[..p - |first|];
  }

  // ---------------------------------------------------------------- imports come first

  ghost predicate OffCyclesBelow(tree: Tree, id: ModuleId) {
    forall m :: m in tree && Graph.Reaches(ImportGraph(tree), id, m) ==> OffCycles(tree, m)
  }

  /** A loop finds the configuration of its own imports, and everything below its module complete. */
  ghost predicate ActReady(tree: Tree, keys: set<Key>, a: Act) {
    a.Loop? ==> a.id in tree && DynamicKeys(tree[a.id].imports) <= keys && ClosureComplete(tree, keys, a.id)
  }

  ghost predicate AllReady(tree: Tree, keys: set<Key>, acts: seq<Act>) {
    forall n :: 0 <= n < |acts| ==> ActReady(tree, Held(tree, keys, acts[..n]), acts[n])
  }

  lemma ReadyChain(tree: Tree, keys: set<Key>, a: seq<Act>, b: seq<Act>)
    requires AllReady(tree, keys, a) && AllReady(tree, Held(tree, keys, a), b)
    ensures AllReady(tree, keys, a + b)
  {
    forall n | 0 <= n < |a| + |b| ensures ActReady(tree, Held(tree, keys, (a + b)[..n]), (a + b)[n]) {
      if n < |a| {
        assert (a + b)[..n] == a[..n] && (a + b)[n] == a[n];
      } else {
        assert (a + b)[..n] == a + b[..n - |a|] && (a + b)[n] == b[n - |a|];
        GainsAppend(tree, a, b[..n - |a|]);
        assert Held(tree, keys, (a + b)[..n]) == Held(tree, Held(tree, keys, a), b[..n - |a|]);
      }
    }
  }

  lemma ReadyOne(tree: Tree, keys: set<Key>, a: Act)
    requires ActReady(tree, keys, a)
    ensures AllReady(tree, keys, [a])
  {
    assert [a][..0] == [] && [a][0] == a;
    assert Held(tree, keys, []) == keys;
  }

  /** Modules marked but not on the recursion stack are complete, and so are their imports. */
  ghost predicate Progress(tree: Tree, marked: set<ModuleId>, keys: set<Key>, stack: set<ModuleId>, global: set<Key>) {
    && global <= keys && stack <= marked <= tree.Keys
    && Graph.ClosedUnder(ImportGraph(tree), marked - stack)
    && forall c :: c in marked - stack ==> ModuleKeys(tree[c]) <= keys
  }

  /** The stack is a chain of importers of `id`. */
  ghost predicate Above(tree: Tree, stack: set<ModuleId>, id: ModuleId) {
    forall s :: s in stack ==> Graph.Reaches(ImportGraph(tree), s, id)
  }

  /** Without import cycles an import is never one of the importers still being registered. */
  lemma ImportIsFresh(tree: Tree, id: ModuleId, j: ModuleId, stack: set<ModuleId>)
    requires id in tree && j in StaticIds(tree[id].imports) && OffCyclesBelow(tree, id) && Above(tree, stack, id)
    ensures j !in stack + {id} && Above(tree, stack + {id}, j) && OffCyclesBelow(tree, j)
  {
    var g := ImportGraph(tree);
    Graph.ReachesSelf(g, id);
    assert OffCycles(tree, id);
    if j in stack + {id} {
      Graph.CycleThroughEdge(g, id, j);
    }
    forall s | s in stack + {id} ensures Graph.Reaches(g, s, j) {
      Graph.ReachesAppend(g, s, id, j);
    }
    forall m | m in tree && Graph.Reaches(g, j, m) ensures OffCycles(tree, m) {
      Graph.ReachesPrepend(g, id, j, m);
    }
  }

  lemma MarkKeepsProgress(tree: Tree, marked: set<ModuleId>, keys: set<Key>, stack: set<ModuleId>, global: set<Key>,
                          id: ModuleId)
    requires Progress(tree, marked, keys, stack, global) && id in tree && id !in marked
    ensures Progress(tree, marked + {id}, keys, stack + {id}, global)
  {
    assert (marked + {id}) - (stack + {id}) == marked - stack;
  }

  /** When the imports of `id` are complete, so is everything below it. */
  lemma ImportsClosed(tree: Tree, marked: set<ModuleId>, keys: set<Key>, stack: set<ModuleId>, global: set<Key>,
                      id: ModuleId)
    requires id in tree && Progress(tree, marked, keys, stack + {id}, global)
    requires StaticIds(tree[id].imports) <= marked - (stack + {id})
    ensures ClosureComplete(tree, keys, id)
  {
    var g := ImportGraph(tree);
    var complete := marked - (stack + {id});
    assert Graph.ClosedUnder(g, complete + {id});
    forall c | c in tree && c != id && Graph.Reaches(g, id, c) ensures ModuleKeys(tree[c]) <= keys {
      Graph.ClosedHoldsReachable(g, complete + {id}, id, c);
    }
  }

  lemma ProgressFinished(tree: Tree, marked: set<ModuleId>, keys: set<Key>, keys': set<Key>, stack: set<ModuleId>,
                         global: set<Key>, id: ModuleId)
    requires id in tree && id in marked && id !in stack && Progress(tree, marked, keys, stack + {id}, global)
    requires StaticIds(tree[id].imports) <= marked - (stack + {id})
    requires keys <= keys' && ModuleKeys(tree[id]) <= keys'
    ensures Progress(tree, marked, keys', stack, global)
  {
    assert marked - stack == (marked - (stack + {id})) + {id};
  }

  /** Every loop of the walk so far came after its imports, and the walk left things as its caller
      needs them. */
  ghost predicate ReadySoFar(tree: Tree, global: set<Key>, stack: set<ModuleId>, keys: set<Key>, w: Walk) {
    AllReady(tree, keys, w.acts) && Progress(tree, w.marked, Held(tree, keys, w.acts), stack, global)
  }

  /** And the first `n` imports of `id` are complete. */
  ghost predicate ImportsReady(tree: Tree, global: set<Key>, stack: set<ModuleId>, keys: set<Key>, id: ModuleId,
                               n: nat, w: Walk)
    requires id in tree && n <= |tree[id].imports|
  {
    && ReadySoFar(tree, global, stack + {id}, keys, w)
    && StaticIds(tree[id].imports[..n]) <= w.marked - (stack + {id})
  }

  lemma DynamicReady(tree: Tree, global: set<Key>, stack: set<ModuleId>, keys: set<Key>, id: ModuleId, n: nat, w: Walk)
    requires id in tree && 0 < n <= |tree[id].imports| && ImportsReady(tree, global, stack, keys, id, n - 1, w)
    requires tree[id].imports[n - 1].Dynamic?
    ensures ImportsReady(tree, global, stack, keys, id, n, Walk(w.marked, w.acts + [Configure(Site(id, n - 1))]))
  {
    var act := Configure(Site(id, n - 1));
    TakeOneMore(tree[id].imports, n - 1);
    ReadyChain(tree, keys, w.acts, [act]);
    ReadyOne(tree, Held(tree, keys, w.acts), act);
    GainsAppend(tree, w.acts, [act]);
  }

  lemma StaticReady(tree: Tree, global: set<Key>, stack: set<ModuleId>, keys: set<Key>, id: ModuleId, n: nat,
                    j: ModuleId,
                   w: Walk, v: Walk)
    requires id in tree && 0 < n <= |tree[id].imports| && ImportsReady(tree, global, stack, keys, id, n - 1, w)
    requires tree[id].imports[n - 1] == Static(j) && j !in stack + {id} && w.marked <= v.marked && j in v.marked
    requires ReadySoFar(tree, global, stack + {id}, Held(tree, keys, w.acts), v)
    ensures ImportsReady(tree, global, stack, keys, id, n, Walk(v.marked, w.acts + v.acts))
  {
    TakeOneMore(tree[id].imports, n - 1);
    ReadyChain(tree, keys, w.acts, v.acts);
    GainsAppend(tree, w.acts, v.acts);
    assert Held(tree, keys, w.acts + v.acts) == Held(tree, Held(tree, keys, w.acts), v.acts);
  }

  ghost predicate StaticVisitReady(tree: Tree, global: set<Key>, stack: set<ModuleId>, keys: set<Key>, id: ModuleId,
                                   j: ModuleId,
                                  w: Walk)
    requires WellFormed(tree) && j in tree && w.marked <= tree.Keys
  {
    var v := Visit(tree, w.marked, j);
    j !in stack + {id} && j in v.marked && ReadySoFar(tree, global, stack + {id}, Held(tree, keys, w.acts), v)
  }

  lemma OneMoreReady(tree: Tree, global: set<Key>, stack: set<ModuleId>, marked: set<ModuleId>, keys: set<Key>,
                     id: ModuleId,
                    n: nat)
    requires WellFormed(tree) && id in tree && marked <= tree.Keys && 0 < n <= |tree[id].imports|
    requires ImportsReady(tree, global, stack, keys, id, n - 1, VisitImports(tree, marked, id, n - 1))
    requires tree[id].imports[n - 1].Static? ==>
      StaticVisitReady(tree, global, stack, keys, id, tree[id].imports[n - 1].id, VisitImports(tree, marked, id, n - 1))
    ensures ImportsReady(tree, global, stack, keys, id, n, VisitImports(tree, marked, id, n))
  {
    var w := VisitImports(tree, marked, id, n - 1);
    match tree[id].imports[n - 1] {
      case Dynamic(_, _) => DynamicReady(tree, global, stack, keys, id, n, w);
      case Static(j) => StaticReady(tree, global, stack, keys, id, n, j, w, Visit(tree, w.marked, j));
    }
  }

  lemma NoImportsReady(tree: Tree, global: set<Key>, stack: set<ModuleId>, marked: set<ModuleId>, keys: set<Key>,
                       id: ModuleId)
    requires id in tree && Progress(tree, marked, keys, stack + {id}, global)
    ensures ImportsReady(tree, global, stack, keys, id, 0, Walk(marked, []))
  {
    assert GainsOf(tree, []) == {};
  }

  /** Without import cycles every loop of the walk comes after all the modules below its own. */
  lemma {:induction false} ReadyVisit(tree: Tree, global: set<Key>, stack: set<ModuleId>, marked: set<ModuleId>,
                                        keys: set<Key>, id: ModuleId)
    requires WellFormed(tree) && id in tree
    requires OffCyclesBelow(tree, id) && Above(tree, stack, id) && id !in stack
    requires Progress(tree, marked, keys, stack, global)
    ensures ReadySoFar(tree, global, stack, keys, Visit(tree, marked, id)) && id in Visit(tree, marked, id).marked
    decreases tree.Keys - marked, 0
  {
    if id in marked {
      assert GainsOf(tree, []) == {};
    } else {
      var n := |tree[id].imports|;
      var w := VisitImports(tree, marked + {id}, id, n);
      var held := Held(tree, keys, w.acts);
      MarkKeepsProgress(tree, marked, keys, stack, global, id);
      ReadyImports(tree, global, stack, marked + {id}, keys, id, n);
      ImportsExplore(tree, marked + {id}, id, n);
      assert tree[id].imports[..n] == tree[id].imports;
      ImportsClosed(tree, w.marked, held, stack, global, id);
      Graph.ReachesSelf(ImportGraph(tree), id);
      ReadyChain(tree, keys, w.acts, [Loop(id)]);
      ReadyOne(tree, held, Loop(id));
      GainsAppend(tree, w.acts, [Loop(id)]);
      GainsOne(tree, Loop(id));
      ProgressFinished(tree, w.marked, held, held + Gains(tree, Loop(id)), stack, global, id);
    }
  }

  lemma {:induction false} ReadyImports(tree: Tree, global: set<Key>, stack: set<ModuleId>, marked: set<ModuleId>,
                                          keys: set<Key>, id: ModuleId, n: nat)
    requires WellFormed(tree) && id in tree && n <= |tree[id].imports|
    requires OffCyclesBelow(tree, id) && Above(tree, stack, id)
    requires Progress(tree, marked, keys, stack + {id}, global)
    ensures ImportsReady(tree, global, stack, keys, id, n, VisitImports(tree, marked, id, n))
    decreases tree.Keys - marked, n + 2
  {
    if n == 0 {
      NoImportsReady(tree, global, stack, marked, keys, id);
    } else {
      var w := VisitImports(tree, marked, id, n - 1);
      ReadyImports(tree, global, stack, marked, keys, id, n - 1);
      if tree[id].imports[n - 1].Static? {
        ReadyStatic(tree, global, stack, keys, id, tree[id].imports[n - 1].id, w);
      }
      OneMoreReady(tree, global, stack, marked, keys, id, n);
    }
  }

  lemma {:induction false} ReadyStatic(tree: Tree, global: set<Key>, stack: set<ModuleId>, keys: set<Key>, id: ModuleId,
                                         j: ModuleId, w: Walk)
    requires WellFormed(tree) && id in tree && j in StaticIds(tree[id].imports) && w.marked <= tree.Keys
    requires OffCyclesBelow(tree, id) && Above(tree, stack, id) && ReadySoFar(tree, global, stack + {id}, keys, w)
    ensures StaticVisitReady(tree, global, stack, keys, id, j, w)
    decreases tree.Keys - w.marked, 1
  {
    ImportIsFresh(tree, id, j, stack);
    ReadyVisit(tree, global, stack + {id}, w.marked, Held(tree, keys, w.acts), j);
  }

  // ---------------------------------------------------------------- a healthy tree boots

  lemma {:induction false} LoopsRan(acts: seq<Act>, m: ModuleId)
    requires Loop(m) in acts
    ensures m in Ran(acts)
  {
    var last := |acts| - 1;
    assert acts == acts[..last] + [acts[last]];
    if acts[last] != Loop(m) {
      LoopsRan(acts[..last], m);
    }
  }

  /** A walk whose loops are ready gets through when the modules they belong to are healthy. */
  lemma HealthyActsFine(tree: Tree, global: set<Key>, keys: set<Key>, acts: seq<Act>)
    requires global <= keys && AllReady(tree, keys, acts)
    requires forall m :: m in Ran(acts) ==> m in tree && Healthy(tree, global, m)
    ensures AllFine(tree, keys, acts)
  {
    forall n | 0 <= n < |acts| && acts[n].Loop? ensures ActFine(tree, Held(tree, keys, acts[..n]), acts[n]) {
      LoopsRan(acts, acts[n].id);
      assert ActReady(tree, Held(tree, keys, acts[..n]), acts[n]);
      HealthyModuleCompletes(tree, global, acts[n].id, Held(tree, keys, acts[..n]));
    }
  }

  /** In a healthy tree every loop of the walk gets through. */
  lemma HealthyVisit(tree: Tree, global: set<Key>, marked: set<ModuleId>, keys: set<Key>, id: ModuleId)
    requires WellFormed(tree) && id in tree && HealthyBelow(tree, global, id)
    requires Progress(tree, marked, keys, {}, global)
    ensures AllFine(tree, keys, Visit(tree, marked, id).acts)
  {
    ReadyVisit(tree, global, {}, marked, keys, id);
    VisitExplores(tree, marked, id);
    HealthyActsFine(tree, global, keys, Visit(tree, marked, id).acts);
  }
}
