/** What a successful boot assembles: when there is one, read off the tree alone, and why the objects it
    builds do not depend on the order in which roots, imports and providers are listed. */
module Assembly {
  import opened Providers
  import opened Schedules
  import opened Stalls
  import opened Registration
  import opened ModuleTree
  import opened App
  import AccessGraph
  import Collecting
  import Graph

  ghost predicate Offers(tree: Tree, m: ModuleId, p: Provider) {
    m in tree && p in tree[m].providers
  }

  ghost predicate Configured(tree: Tree, k: Key) {
    exists s :: IsSite(tree, s) && k in ConfigAt(tree, s).Keys
  }

  /** A key stands for one provider of one module, and for no configuration as well. */
  ghost predicate DistinctProviders(tree: Tree, global: set<Key>) {
    && (forall m, n, p, q :: Offers(tree, m, p) && Offers(tree, n, q) && p.key == q.key ==> m == n && p == q)
    && (forall m, p :: Offers(tree, m, p) && p.key !in global ==> !Configured(tree, p.key))
  }

  /** Whatever stands for `k` is a provider that publishes it at registration. */
  ghost predicate Honest(tree: Tree, k: Key) {
    !Configured(tree, k) && forall n, q :: Offers(tree, n, q) && q.key == k ==> q.AddsKey()
  }

  ghost predicate HonestlyRequired(tree: Tree, global: set<Key>) {
    forall m, p, k :: Offers(tree, m, p) && k in p.Dependencies() && k !in global ==> Honest(tree, k)
  }

  ghost predicate AllDeclared(tree: Tree) {
    forall m, p :: Offers(tree, m, p) ==> !p.BuildsUndeclared()
  }

  /** What the boot needs of a module, read off the tree: every required key is global or published in
      the import closure, and no providers wait on each other in a circle. */
  ghost predicate Wired(tree: Tree, global: set<Key>, m: ModuleId)
    requires m in tree
  {
    var ps := tree[m].providers;
    && (forall p, k :: p in ps && k in p.Dependencies() ==> Supplied(tree, global, m, k))
    && Graph.Acyclic(WaitsGraph(Listed(ps), global))
  }

  ghost predicate WiredBelow(tree: Tree, global: set<Key>, roots: seq<ModuleId>) {
    forall m :: m in tree && BelowRoots(tree, roots, m) ==> Wired(tree, global, m)
  }

  // ---------------------------------------------------------------- when the boot succeeds

  /** Where the keys of a walk come from. */
  lemma GainedFrom(tree: Tree, keys: set<Key>, acts: seq<Act>, k: Key)
    requires k in Held(tree, keys, acts) && k !in keys
    ensures Configured(tree, k) || exists m, q :: Loop(m) in acts && Offers(tree, m, q) && q.AddsKey() && q.key == k
  {
    var a :| a in acts && k in Gains(tree, a);
    match a {
      case Configure(site) =>
        assert IsSite(tree, site);
      case Loop(m) =>
        var q :| q in tree[m].providers && q.AddsKey() && q.key == k;
        assert Offers(tree, m, q);
    }
  }

  lemma NotBefore(a: seq<ModuleId>, m: ModuleId, b: seq<ModuleId>)
    requires Distinct(a + ([m] + b))
    ensures m !in a
  {
    var whole := a + ([m] + b);
    assert whole[|a|] == m;
    forall i | 0 <= i < |a| ensures a[i] != m {
      assert whole[i] == a[i];
    }
  }

  lemma RanSplit(acts: seq<Act>, n: nat, m: ModuleId)
    requires n < |acts| && acts[n] == Loop(m)
    ensures Ran(acts) == Ran(acts[..n]) + ([m] + Ran(acts[n + 1..]))
  {
    var before, one, rest := acts[..n], [acts[n]], acts[n + 1..];
    assert acts == before + (one + rest);
    RanAppend(before, one + rest);
    RanAppend(one, rest);
    assert one[..0] == [] && Ran(one) == [m];
  }

  /** A loop that runs once has not run before. */
  lemma RunsOnce(acts: seq<Act>, n: nat, m: ModuleId)
    requires Distinct(Ran(acts)) && n < |acts| && acts[n] == Loop(m)
    ensures Loop(m) !in acts[..n]
  {
    RanSplit(acts, n, m);
    NotBefore(Ran(acts[..n]), m, Ran(acts[n + 1..]));
    if Loop(m) in acts[..n] {
      LoopsRan(acts[..n], m);
    }
  }

  lemma OneListing(tree: Tree, global: set<Key>, m: ModuleId)
    requires DistinctProviders(tree, global) && m in tree
    ensures DistinctKeys(Listed(tree[m].providers))
  {
    var s := Listed(tree[m].providers);
    forall p, q | p in s && q in s && p.key == q.key ensures p == q {
      assert Offers(tree, m, p) && Offers(tree, m, q);
    }
  }

  /** Before its loop runs a module finds none of its own keys, except global ones. */
  lemma OwnKeysAbsent(tree: Tree, global: set<Key>, acts: seq<Act>, m: ModuleId, p: Provider)
    requires DistinctProviders(tree, global) && Offers(tree, m, p) && Loop(m) !in acts
    ensures p.key in Held(tree, global, acts) ==> p.key in global
  {
    if p.key in Held(tree, global, acts) && p.key !in global {
      GainedFrom(tree, global, acts, p.key);
    }
  }

  /** What a module waits on is the same over the keys its loop finds as over the global ones. */
  lemma SameWaits(tree: Tree, global: set<Key>, acts: seq<Act>, m: ModuleId)
    requires DistinctProviders(tree, global) && m in tree && Loop(m) !in acts
    ensures var s := Listed(tree[m].providers);
      WaitsGraph(s, Held(tree, global, acts)) == WaitsGraph(s, global)
  {
    var s, held := Listed(tree[m].providers), Held(tree, global, acts);
    forall q | q in s ensures q.key in held <==> q.key in global {
      OwnKeysAbsent(tree, global, acts, m, q);
    }
    forall p | p in s ensures WaitsGraph(s, held)[p] == WaitsGraph(s, global)[p] { }
  }

  lemma RequiredIsOffered(tree: Tree, global: set<Key>, acts: seq<Act>, m: ModuleId, p: Provider, k: Key)
    requires m in tree && LocallySupplied(Listed(tree[m].providers), Held(tree, global, acts))
    requires HonestlyRequired(tree, global) && p in tree[m].providers && k in p.Dependencies() && k !in global
    ensures HonestlyOffered(tree, k)
  {
    var held := Held(tree, global, acts);
    assert Offers(tree, m, p) && Honest(tree, k);
    forall n, q | n in tree && q in tree[n].providers && q.key == k ensures q.AddsKey() {
      assert Offers(tree, n, q);
    }
    if k in held {
      GainedFrom(tree, global, acts, k);
    } else {
      assert !Lacks(Listed(tree[m].providers), held, p, k);
    }
  }

  /** A loop that gets through, in a boot the access check accepts, belongs to a wired module. */
  lemma FineIsWired(descs: seq<AccessGraph.ModuleDescriptor>, tree: Tree, roots: seq<ModuleId>, global: set<Key>,
                    acts: seq<Act>, m: ModuleId)
    requires Describes(descs, tree) && AccessGraph.Contract(descs, roots, global)
    requires DistinctProviders(tree, global) && HonestlyRequired(tree, global)
    requires m in tree && BelowRoots(tree, roots, m) && Loop(m) !in acts
    requires BodyCompletes(tree[m].providers, Held(tree, global, acts))
    ensures Wired(tree, global, m)
  {
    var ps, held := tree[m].providers, Held(tree, global, acts);
    OneListing(tree, global, m);
    BodyCompletesExactly(ps, held);
    SameWaits(tree, global, acts, m);
    forall p, k | p in ps && k in p.Dependencies() ensures Supplied(tree, global, m, k) {
      if k !in global {
        RequiredIsOffered(tree, global, acts, m, p, k);
        ContractImpliesSupplied(descs, tree, roots, global, m, p, k);
      }
    }
  }

  lemma WiredIsHealthy(tree: Tree, global: set<Key>, m: ModuleId)
    requires m in tree && Wired(tree, global, m) && Graph.Acyclic(ImportGraph(tree)) && AllDeclared(tree)
    ensures Healthy(tree, global, m)
  {
    forall p | p in tree[m].providers ensures !p.BuildsUndeclared() {
      assert Offers(tree, m, p);
    }
  }

  /** For acyclic imports, and keys that each stand for one provider that publishes them, a boot gets
      through all loops and the access check exactly when every module below the roots is wired and the
      access check passes: nothing in the condition depends on any order. */
  lemma BootExactly(descs: seq<AccessGraph.ModuleDescriptor>, tree: Tree, roots: seq<ModuleId>, global: set<Key>)
    requires WellFormed(tree) && (forall i :: 0 <= i < |roots| ==> roots[i] in tree) && Describes(descs, tree)
    requires Graph.Acyclic(ImportGraph(tree)) && AllDeclared(tree)
    requires DistinctProviders(tree, global) && HonestlyRequired(tree, global)
    ensures AllFine(tree, global, VisitRoots(tree, roots).acts) && AccessGraph.Contract(descs, roots, global)
       <==> WiredBelow(tree, global, roots) && AccessGraph.Contract(descs, roots, global)
  {
    var acts := VisitRoots(tree, roots).acts;
    if AllFine(tree, global, acts) && AccessGraph.Contract(descs, roots, global) {
      RootsExplore(tree, roots);
      forall m | m in tree && BelowRoots(tree, roots, m) ensures Wired(tree, global, m) {
        RanLoops(acts, m);
        var n :| 0 <= n < |acts| && acts[n] == Loop(m);
        RunsOnce(acts, n, m);
        assert ActFine(tree, Held(tree, global, acts[..n]), acts[n]);
        FineIsWired(descs, tree, roots, global, acts[..n], m);
      }
    }
    if WiredBelow(tree, global, roots) {
      forall m | m in tree && BelowRoots(tree, roots, m) ensures Healthy(tree, global, m) {
        WiredIsHealthy(tree, global, m);
      }
      HealthyRoots(tree, global, roots);
    }
  }

  // ---------------------------------------------------------------- what the containers hold

  lemma {:induction false} DynamicKeysAre(imports: seq<Import>, k: Key)
    ensures k in DynamicKeys(imports) <==> exists i :: i in imports && i.Dynamic? && k in i.config
  {
    if imports != [] {
      var last := |imports| - 1;
      DynamicKeysAre(imports[..last], k);
      assert imports == imports[..last] + [imports[last]];
    }
  }

  /** No module below the roots publishes or configures `k`. */
  ghost predicate Nowhere(tree: Tree, roots: seq<ModuleId>, k: Key) {
    forall m :: m in BelowSet(tree, roots) ==> k !in ModuleKeys(tree[m])
  }

  ghost predicate ConfiguredIn(tree: Tree, roots: seq<ModuleId>, m: ModuleId, k: Key) {
    m in BelowSet(tree, roots) && k in DynamicKeys(tree[m].imports)
  }

  ghost predicate HoldsConfig(tree: Tree, roots: seq<ModuleId>, base: Container) {
    forall m, i, k :: m in BelowSet(tree, roots) && i in tree[m].imports && i.Dynamic? && k in i.config
      ==> k in base && base[k] == i.config[k]
  }

  /** `base` is what the container holds besides providers: what was there, and the configuration of
      every dynamic import below the roots, none of which disagree. */
  ghost predicate IsBase(tree: Tree, roots: seq<ModuleId>, init: Container, base: Container) {
    && (forall k :: k in init ==> k in base && base[k] == init[k])
    && HoldsConfig(tree, roots, base)
    && forall k :: k in base ==> k in init || exists m :: ConfiguredIn(tree, roots, m, k)
  }

  /** Whatever a provider looks up is there in time, by its module's imports, or never comes. */
  ghost predicate LookupsSettled(tree: Tree, roots: seq<ModuleId>, global: set<Key>) {
    forall m, p, k :: m in BelowSet(tree, roots) && Offers(tree, m, p) && p.AddsKey() && InjectsKey(p, k)
      ==> Supplied(tree, global, m, k) || Nowhere(tree, roots, k)
  }

  /** The conditions under which listing order can matter to nothing. */
  ghost predicate Orderless(tree: Tree, roots: seq<ModuleId>, init: Container, base: Container) {
    && WellFormed(tree) && (forall i :: 0 <= i < |roots| ==> roots[i] in tree)
    && Graph.Acyclic(ImportGraph(tree)) && AllDeclared(tree)
    && (forall m :: m in tree ==> Distinct(tree[m].providers))
    && DistinctProviders(tree, init.Keys) && (forall m, p :: Offers(tree, m, p) ==> p.key !in init)
    && IsBase(tree, roots, init, base) && LookupsSettled(tree, roots, init.Keys)
  }

  /** The instance of `p` was built from what the container holds now, and lacks nothing it requires. */
  ghost predicate Instantiated(c: Container, p: Provider) {
    && p.key in c && c[p.key] == Built(p, Resolve(p.fields, c))
    && forall k :: Inject(k) in p.fields ==> k in c
  }

  ghost predicate Finished(tree: Tree, roots: seq<ModuleId>, c: Container, p: Provider) {
    && Instantiated(c, p)
    && forall k :: InjectsKey(p, k) && k !in c ==> Nowhere(tree, roots, k)
  }

  /** After `acts`: the base is as it should be, every published instance was built from what the
      container holds now, and what it did not find will never come. */
  ghost predicate GraphSoFar(tree: Tree, roots: seq<ModuleId>, init: Container, base: Container, acts: seq<Act>,
                             c: Container) {
    && c.Keys == Held(tree, init.Keys, acts)
    && (forall k :: k in c && k in base ==> c[k] == base[k])
    && (forall m, p :: Loop(m) in acts && Offers(tree, m, p) && p.AddsKey() ==> Finished(tree, roots, c, p))
  }

  /** A finished instance stays finished when the container grows by keys that some module below the
      roots gains, and nothing it holds changes. */
  lemma StaysFinished(tree: Tree, roots: seq<ModuleId>, c: Container, after: Container, p: Provider)
    requires Finished(tree, roots, c, p)
    requires forall k :: k in c ==> k in after && after[k] == c[k]
    requires forall k :: k in after && k !in c ==> !Nowhere(tree, roots, k)
    ensures Finished(tree, roots, after, p)
  {
    forall f | f in p.fields && !f.Plain? ensures Lookup(c, f.key) == Lookup(after, f.key) {
      assert InjectsKey(p, f.key);
    }
    ResolveUnchanged(p.fields, c, after);
  }

  lemma ConfigIsKnown(tree: Tree, roots: seq<ModuleId>, init: Container, base: Container, site: Site)
    requires IsBase(tree, roots, init, base) && IsSite(tree, site) && site.owner in BelowSet(tree, roots)
    ensures forall k :: k in ConfigAt(tree, site) ==>
              k in base && base[k] == ConfigAt(tree, site)[k] && k in ModuleKeys(tree[site.owner])
  {
    var imports := tree[site.owner].imports;
    assert imports[site.at] in imports;
    forall k | k in ConfigAt(tree, site) ensures k in DynamicKeys(imports) {
      DynamicKeysAre(imports, k);
    }
  }

  lemma ConfigKeepsFinished(tree: Tree, roots: seq<ModuleId>, base: Container, c: Container, config: Container,
                            m: ModuleId,
                            p: Provider)
    requires Finished(tree, roots, c, p) && m in BelowSet(tree, roots)
    requires forall k :: k in c && k in base ==> c[k] == base[k]
    requires forall k :: k in config ==> k in base && base[k] == config[k] && k in ModuleKeys(tree[m])
    ensures Finished(tree, roots, c + config, p)
  {
    StaysFinished(tree, roots, c, c + config, p);
  }

  lemma ConfigureStep(tree: Tree, roots: seq<ModuleId>, init: Container, base: Container, acts: seq<Act>, c: Container,
                      site: Site)
    requires Orderless(tree, roots, init, base) && GraphSoFar(tree, roots, init, base, acts, c)
    requires IsSite(tree, site) && site.owner in BelowSet(tree, roots)
    ensures GraphSoFar(tree, roots, init, base, acts + [Configure(site)], c + ConfigAt(tree, site))
  {
    var config := ConfigAt(tree, site);
    GainsAppend(tree, acts, [Configure(site)]);
    GainsOne(tree, Configure(site));
    ConfigIsKnown(tree, roots, init, base, site);
    forall m, p | Loop(m) in acts + [Configure(site)] && Offers(tree, m, p) && p.AddsKey()
      ensures Finished(tree, roots, c + config, p)
    {
      assert Loop(m) in acts;
      ConfigKeepsFinished(tree, roots, base, c, config, site.owner, p);
    }
  }

  lemma {:induction false} ListedOnce(ps: seq<Provider>, order: seq<nat>)
    requires Indices(ps, order) && forall i :: 0 <= i < |ps| ==> i in order
    ensures DoneSet(ps, order) == Listed(ps)
  {
    forall p | p in Listed(ps) ensures p in DoneSet(ps, order) {
      var i :| 0 <= i < |ps| && ps[i] == p;
      assert i in order;
    }
  }

  lemma OwnUnambiguous(tree: Tree, roots: seq<ModuleId>, init: Container, base: Container, acts: seq<Act>, m: ModuleId)
    requires Orderless(tree, roots, init, base) && m in tree && Loop(m) !in acts
    ensures Unambiguous(tree[m].providers, Held(tree, init.Keys, acts))
  {
    var ps := tree[m].providers;
    forall i | 0 <= i < |ps| ensures ps[i].key !in Held(tree, init.Keys, acts) && !ps[i].BuildsUndeclared() {
      assert Offers(tree, m, ps[i]);
      OwnKeysAbsent(tree, init.Keys, acts, m, ps[i]);
    }
    forall i, j | 0 <= i < j < |ps| ensures ps[i].key != ps[j].key {
      assert Offers(tree, m, ps[i]) && Offers(tree, m, ps[j]) && ps[i] != ps[j];
    }
  }

  /** A completed loop of a module whose keys are its own. */
  lemma BuiltConsistent(ps: seq<Provider>, c: Container, after: Container)
    requires BuiltBy(ps, c, after) && Unambiguous(ps, c.Keys)
    ensures SelfConsistent(c, Listed(ps), after)
    ensures forall p :: p in ps && p.AddsKey() ==> Instantiated(after, p)
  {
    var order: seq<nat> :|
      Schedule(ps, c, order) && (forall i :: 0 <= i < |ps| ==> i in order) && after == Replay(c, ps, order);
    ScheduleSelfConsistent(ps, c, order);
    ListedOnce(ps, order);
    forall p | p in ps && p.AddsKey() ensures Instantiated(after, p) {
      forall k | Inject(k) in p.fields ensures k in after {
        RequiredStay(ps, c, order, p, k);
      }
    }
  }

  /** What a loop adds, and that it changes nothing else. */
  lemma LoopAdds(tree: Tree, roots: seq<ModuleId>, init: Container, base: Container, acts: seq<Act>, c: Container,
                 m: ModuleId, after: Container)
    requires Orderless(tree, roots, init, base) && m in tree && Loop(m) !in acts
    requires c.Keys == Held(tree, init.Keys, acts) && BuiltBy(tree[m].providers, c, after)
    ensures after.Keys == Held(tree, init.Keys, acts + [Loop(m)]) == c.Keys + Gains(tree, Loop(m))
    ensures forall k :: k in c ==> after[k] == c[k]
    ensures forall p :: Offers(tree, m, p) && p.AddsKey() ==> Instantiated(after, p)
  {
    OwnUnambiguous(tree, roots, init, base, acts, m);
    BuiltConsistent(tree[m].providers, c, after);
    GainsAppend(tree, acts, [Loop(m)]);
    GainsOne(tree, Loop(m));
  }

  lemma ConfiguredBy(tree: Tree, m: ModuleId, k: Key)
    requires m in tree
    ensures k in DynamicKeys(tree[m].imports) ==> Configured(tree, k)
  {
    DynamicKeysAre(tree[m].imports, k);
    if k in DynamicKeys(tree[m].imports) {
      var i :| i in tree[m].imports && i.Dynamic? && k in i.config;
      var n :| 0 <= n < |tree[m].imports| && tree[m].imports[n] == i;
      assert IsSite(tree, Site(m, n)) && ConfigAt(tree, Site(m, n)) == i.config;
    }
  }

  lemma NewKeysAreNew(tree: Tree, roots: seq<ModuleId>, init: Container, base: Container, m: ModuleId, k: Key)
    requires Orderless(tree, roots, init, base) && m in tree && k in Gains(tree, Loop(m))
    ensures k !in base && k in ModuleKeys(tree[m])
  {
    var p :| p in tree[m].providers && p.AddsKey() && p.key == k;
    assert Offers(tree, m, p) && !Configured(tree, k);
    forall n | n in tree ensures k !in DynamicKeys(tree[n].imports) {
      ConfiguredBy(tree, n, k);
    }
  }

  lemma SuppliedIsThere(tree: Tree, keys: set<Key>, c: set<Key>, m: ModuleId, k: Key)
    requires m in tree && keys <= c && ActReady(tree, c, Loop(m)) && Supplied(tree, keys, m, k)
    ensures k in c + Gains(tree, Loop(m))
  {
    if k !in c {
      var n :| n in tree && Graph.Reaches(ImportGraph(tree), m, n) && k in ModuleKeys(tree[n]);
      assert n == m;
    }
  }

  lemma BuiltIsFinished(tree: Tree, roots: seq<ModuleId>, init: Container, base: Container, c: Container, m: ModuleId,
                        after: Container, p: Provider)
    requires Orderless(tree, roots, init, base) && m in BelowSet(tree, roots) && Offers(tree, m, p) && p.AddsKey()
    requires init.Keys <= c.Keys && ActReady(tree, c.Keys, Loop(m)) && after.Keys == c.Keys + Gains(tree, Loop(m))
    requires Instantiated(after, p)
    ensures Finished(tree, roots, after, p)
  {
    forall k | InjectsKey(p, k) && k !in after ensures Nowhere(tree, roots, k) {
      if Supplied(tree, init.Keys, m, k) {
        SuppliedIsThere(tree, init.Keys, c.Keys, m, k);
      }
    }
  }

  lemma LoopStep(tree: Tree, roots: seq<ModuleId>, init: Container, base: Container, acts: seq<Act>, c: Container,
                 m: ModuleId,
                 after: Container)
    requires Orderless(tree, roots, init, base) && GraphSoFar(tree, roots, init, base, acts, c)
    requires m in BelowSet(tree, roots) && Loop(m) !in acts && ActReady(tree, c.Keys, Loop(m))
    requires BuiltBy(tree[m].providers, c, after)
    ensures GraphSoFar(tree, roots, init, base, acts + [Loop(m)], after)
  {
    LoopAdds(tree, roots, init, base, acts, c, m, after);
    forall k | k in after && k !in c ensures k !in base && k in ModuleKeys(tree[m]) {
      NewKeysAreNew(tree, roots, init, base, m, k);
    }
    forall n, p | Loop(n) in acts + [Loop(m)] && Offers(tree, n, p) && p.AddsKey()
      ensures Finished(tree, roots, after, p)
    {
      if n == m {
        BuiltIsFinished(tree, roots, init, base, c, m, after, p);
      } else {
        assert Loop(n) in acts;
        StaysFinished(tree, roots, c, after, p);
      }
    }
  }

  lemma {:induction false} SitesMembers(acts: seq<Act>, site: Site)
    requires Configure(site) in acts
    ensures site in Collecting.SitesOf(acts)
  {
    var last := |acts| - 1;
    assert acts == acts[..last] + [acts[last]];
    if acts[last] != Configure(site) {
      SitesMembers(acts[..last], site);
    }
  }

  /** What the walk from the roots consists of. */
  lemma ActsBelow(tree: Tree, roots: seq<ModuleId>, global: set<Key>, n: nat)
    requires WellFormed(tree) && (forall i :: 0 <= i < |roots| ==> roots[i] in tree) && Graph.Acyclic(ImportGraph(tree))
    requires n < |VisitRoots(tree, roots).acts|
    ensures var acts := VisitRoots(tree, roots).acts;
      match acts[n]
      case Configure(site) => IsSite(tree, site) && site.owner in BelowSet(tree, roots)
      case Loop(m) =>
        && m in BelowSet(tree, roots) && Loop(m) !in acts[..n]
        && ActReady(tree, Held(tree, global, acts[..n]), Loop(m))
  {
    var acts := VisitRoots(tree, roots).acts;
    RootsExplore(tree, roots);
    RootsSites(tree, roots);
    ReadyRoots(tree, global, roots);
    match acts[n] {
      case Configure(site) =>
        SitesMembers(acts, site);
      case Loop(m) =>
        LoopsRan(acts, m);
        RunsOnce(acts, n, m);
        assert ActReady(tree, Held(tree, global, acts[..n]), acts[n]);
    }
  }

  /** One act of the walk keeps the invariant. */
  lemma ActStep(tree: Tree, roots: seq<ModuleId>, init: Container, base: Container, n: nat, c: Container,
                after: Container)
    requires Orderless(tree, roots, init, base) && n < |VisitRoots(tree, roots).acts|
    requires GraphSoFar(tree, roots, init, base, VisitRoots(tree, roots).acts[..n], c)
    requires StepTo(tree, c, VisitRoots(tree, roots).acts[n], after)
    ensures GraphSoFar(tree, roots, init, base,
                       VisitRoots(tree, roots).acts[..n] + [VisitRoots(tree, roots).acts[n]], after)
  {
    var acts := VisitRoots(tree, roots).acts;
    ActsBelow(tree, roots, init.Keys, n);
    match acts[n] {
      case Configure(site) => ConfigureStep(tree, roots, init, base, acts[..n], c, site);
      case Loop(m) => LoopStep(tree, roots, init, base, acts[..n], c, m, after);
    }
  }

  lemma {:induction false} GraphAfter(tree: Tree, roots: seq<ModuleId>, init: Container, base: Container,
                                      cs: seq<Container>, n: nat)
    requires Orderless(tree, roots, init, base) && n <= |VisitRoots(tree, roots).acts|
    requires Trace(tree, VisitRoots(tree, roots).acts, cs) && cs[0] == init
    ensures GraphSoFar(tree, roots, init, base, VisitRoots(tree, roots).acts[..n], cs[n])
  {
    var acts := VisitRoots(tree, roots).acts;
    if n == 0 {
      assert GainsOf(tree, []) == {};
    } else {
      assert acts[..n] == acts[..n - 1] + [acts[n - 1]];
      GraphAfter(tree, roots, init, base, cs, n - 1);
      ActStep(tree, roots, init, base, n - 1, cs[n - 1], cs[n]);
    }
  }

  ghost function ProvidersBelow(tree: Tree, roots: seq<ModuleId>): set<Provider> {
    set m, p | m in BelowSet(tree, roots) && p in tree[m].providers :: p
  }

  lemma KeysBelow(tree: Tree, roots: seq<ModuleId>, init: Container, base: Container)
    requires IsBase(tree, roots, init, base)
    ensures init.Keys + KeysOfModules(tree, BelowSet(tree, roots)) == KeysOf(base.Keys, ProvidersBelow(tree, roots))
  {
    var all, below := init.Keys + KeysOfModules(tree, BelowSet(tree, roots)), BelowSet(tree, roots);
    forall m, k | m in below && k in DynamicKeys(tree[m].imports) ensures k in base {
      DynamicKeysAre(tree[m].imports, k);
    }
    forall k | k in base ensures k in all {
      if k !in init {
        var m :| m in below && k in DynamicKeys(tree[m].imports);
        assert k in ModuleKeys(tree[m]);
      }
    }
    forall p | p in ProvidersBelow(tree, roots) && p.AddsKey() ensures p.key in all {
      var m :| m in below && p in tree[m].providers;
      assert p.key in ModuleKeys(tree[m]);
    }
    forall k | k in KeysOfModules(tree, below) ensures k in KeysOf(base.Keys, ProvidersBelow(tree, roots)) {
      var m :| m in below && k in ModuleKeys(tree[m]);
      if k !in DynamicKeys(tree[m].imports) {
        var p :| p in tree[m].providers && p.AddsKey() && p.key == k;
        assert p in ProvidersBelow(tree, roots);
      }
    }
  }

  /** Every instance a boot publishes was built from the final contents of the container: each of its
      fields holds the very instance that is under its key when the boot ends, and an optional field is
      empty only when there is none. */
  lemma BootSelfConsistent(tree: Tree, roots: seq<ModuleId>, init: Container, base: Container, c: Container)
    requires Orderless(tree, roots, init, base) && RunsTo(tree, init, VisitRoots(tree, roots).acts, c)
    ensures SelfConsistent(base, ProvidersBelow(tree, roots), c)
    ensures Wires(ProvidersBelow(tree, roots), c)
  {
    var acts := VisitRoots(tree, roots).acts;
    assert acts[..|acts|] == acts;
    var cs :| TraceBetween(tree, init, acts, c, cs);
    GraphAfter(tree, roots, init, base, cs, |acts|);
    RootsExplore(tree, roots);
    KeysBelow(tree, roots, init, base);
    forall p | p in ProvidersBelow(tree, roots) && p.AddsKey() ensures Finished(tree, roots, c, p) {
      var m :| m in BelowSet(tree, roots) && p in tree[m].providers;
      RanLoops(acts, m);
      assert Offers(tree, m, p);
    }
    ConsistentWires(base, ProvidersBelow(tree, roots), c);
  }

  // ---------------------------------------------------------------- listing order

  /** The same application with roots, imports and providers listed in another order. */
  ghost predicate Relisted(t: Tree, roots: seq<ModuleId>, u: Tree, others: seq<ModuleId>) {
    && t.Keys == u.Keys
    && (forall r :: r in roots <==> r in others)
    && (forall m :: m in t ==> multiset(t[m].providers) == multiset(u[m].providers))
    && (forall m, i :: m in t ==> (i in t[m].imports <==> i in u[m].imports))
  }

  lemma StaticIdsAre(imports: seq<Import>)
    ensures forall j :: j in StaticIds(imports) <==> Static(j) in imports
  {
    forall j | Static(j) in imports ensures j in StaticIds(imports) {
      var n :| 0 <= n < |imports| && imports[n] == Static(j);
      assert imports[n].id == j;
    }
  }

  lemma SameModule(t: Tree, roots: seq<ModuleId>, u: Tree, others: seq<ModuleId>, m: ModuleId)
    requires Relisted(t, roots, u, others) && m in t
    ensures Listed(t[m].providers) == Listed(u[m].providers)
    ensures StaticIds(t[m].imports) == StaticIds(u[m].imports) && DynamicKeys(t[m].imports) == DynamicKeys(u[m].imports)
    ensures ModuleKeys(t[m]) == ModuleKeys(u[m])
  {
    SameListed(t[m].providers, u[m].providers);
    StaticIdsAre(t[m].imports);
    StaticIdsAre(u[m].imports);
    forall k ensures k in DynamicKeys(t[m].imports) <==> k in DynamicKeys(u[m].imports) {
      DynamicKeysAre(t[m].imports, k);
      DynamicKeysAre(u[m].imports, k);
    }
    assert forall p :: p in t[m].providers <==> p in Listed(t[m].providers);
    assert forall p :: p in u[m].providers <==> p in Listed(u[m].providers);
  }

  lemma SameImports(t: Tree, roots: seq<ModuleId>, u: Tree, others: seq<ModuleId>)
    requires Relisted(t, roots, u, others)
    ensures ImportGraph(t) == ImportGraph(u) && BelowSet(t, roots) == BelowSet(u, others)
    ensures forall m :: m in t ==> ModuleKeys(t[m]) == ModuleKeys(u[m])
    ensures forall m, p :: Offers(t, m, p) <==> Offers(u, m, p)
  {
    forall m | m in t
      ensures ImportGraph(t)[m] == ImportGraph(u)[m] && ModuleKeys(t[m]) == ModuleKeys(u[m])
      ensures forall p :: p in t[m].providers <==> p in u[m].providers
    {
      SameModule(t, roots, u, others, m);
      assert forall p :: p in t[m].providers <==> p in multiset(t[m].providers);
      assert forall p :: p in u[m].providers <==> p in multiset(u[m].providers);
    }
    assert ImportGraph(t) == ImportGraph(u);
    forall m ensures BelowRoots(t, roots, m) <==> BelowRoots(u, others, m) { }
  }

  lemma {:induction false} DistinctCounts(s: seq<Provider>, p: Provider)
    requires Distinct(s)
    ensures multiset(s)[p] <= 1
  {
    if s != [] {
      var last := |s| - 1;
      DistinctCounts(s[..last], p);
      assert s == s[..last] + [s[last]];
      if s[last] == p {
        assert p !in s[..last];
        assert p !in multiset(s[..last]);
      }
    }
  }

  lemma DistinctPermutes(s: seq<Provider>, t: seq<Provider>)
    requires Distinct(s) && multiset(s) == multiset(t)
    ensures Distinct(t)
  {
    forall i, j | 0 <= i < j < |t| ensures t[i] != t[j] {
      assert t == t[..j] + t[j..];
      assert t[i] in t[..j] && t[j] in t[j..];
      assert t[i] in multiset(t[..j]) && t[j] in multiset(t[j..]);
      DistinctCounts(s, t[i]);
    }
  }

  lemma ConfiguredRelisted(t: Tree, roots: seq<ModuleId>, u: Tree, others: seq<ModuleId>, k: Key)
    requires Relisted(t, roots, u, others) && Configured(u, k)
    ensures Configured(t, k)
  {
    var s :| IsSite(u, s) && k in ConfigAt(u, s).Keys;
    var i := u[s.owner].imports[s.at];
    assert i in t[s.owner].imports;
    DynamicKeysAre(t[s.owner].imports, k);
    ConfiguredBy(t, s.owner, k);
  }

  lemma ConfigRelisted(t: Tree, roots: seq<ModuleId>, u: Tree, others: seq<ModuleId>, base: Container)
    requires Relisted(t, roots, u, others) && BelowSet(t, roots) == BelowSet(u, others) && HoldsConfig(t, roots, base)
    ensures HoldsConfig(u, others, base)
  {
    forall m, i, k | m in BelowSet(u, others) && i in u[m].imports && i.Dynamic? && k in i.config
      ensures k in base && base[k] == i.config[k]
    {
      assert i in t[m].imports;
    }
  }

  lemma BaseRelisted(t: Tree, roots: seq<ModuleId>, u: Tree, others: seq<ModuleId>, init: Container, base: Container)
    requires Relisted(t, roots, u, others) && BelowSet(t, roots) == BelowSet(u, others) && IsBase(t, roots, init, base)
    ensures IsBase(u, others, init, base)
  {
    ConfigRelisted(t, roots, u, others, base);
    forall k | k in base && k !in init ensures exists m :: ConfiguredIn(u, others, m, k) {
      var m :| ConfiguredIn(t, roots, m, k);
      SameModule(t, roots, u, others, m);
      assert ConfiguredIn(u, others, m, k);
    }
  }

  lemma SuppliedRelisted(t: Tree, roots: seq<ModuleId>, u: Tree, others: seq<ModuleId>, global: set<Key>, m: ModuleId,
                         k: Key)
    requires Relisted(t, roots, u, others) && ImportGraph(t) == ImportGraph(u) && Supplied(t, global, m, k)
    ensures Supplied(u, global, m, k)
  {
    if k !in global {
      var c :| c in t && Graph.Reaches(ImportGraph(t), m, c) && k in ModuleKeys(t[c]);
      SameModule(t, roots, u, others, c);
    }
  }

  lemma NowhereRelisted(t: Tree, roots: seq<ModuleId>, u: Tree, others: seq<ModuleId>, k: Key)
    requires Relisted(t, roots, u, others) && BelowSet(t, roots) == BelowSet(u, others) && Nowhere(t, roots, k)
    ensures Nowhere(u, others, k)
  {
    forall m | m in BelowSet(u, others) ensures k !in ModuleKeys(u[m]) {
      SameModule(t, roots, u, others, m);
    }
  }

  lemma LookupsRelisted(t: Tree, roots: seq<ModuleId>, u: Tree, others: seq<ModuleId>, global: set<Key>)
    requires Relisted(t, roots, u, others) && LookupsSettled(t, roots, global)
    ensures LookupsSettled(u, others, global)
  {
    SameImports(t, roots, u, others);
    forall m, p, k | m in BelowSet(u, others) && Offers(u, m, p) && p.AddsKey() && InjectsKey(p, k)
      ensures Supplied(u, global, m, k) || Nowhere(u, others, k)
    {
      assert Offers(t, m, p);
      if Supplied(t, global, m, k) {
        SuppliedRelisted(t, roots, u, others, global, m, k);
      } else {
        NowhereRelisted(t, roots, u, others, k);
      }
    }
  }

  lemma OrderlessRelisted(t: Tree, roots: seq<ModuleId>, u: Tree, others: seq<ModuleId>, init: Container,
                          base: Container)
    requires Relisted(t, roots, u, others) && Orderless(t, roots, init, base)
    ensures Orderless(u, others, init, base)
  {
    SameImports(t, roots, u, others);
    BaseRelisted(t, roots, u, others, init, base);
    LookupsRelisted(t, roots, u, others, init.Keys);
    forall m, n | m in u && 0 <= n < |u[m].imports| && u[m].imports[n].Static? ensures u[m].imports[n].id in u {
      var i := u[m].imports[n];
      assert i in t[m].imports;
      var x :| 0 <= x < |t[m].imports| && t[m].imports[x] == i;
    }
    forall m | m in u ensures Distinct(u[m].providers) {
      DistinctPermutes(t[m].providers, u[m].providers);
    }
    forall m, p | Offers(u, m, p) && p.key !in init.Keys ensures !Configured(u, p.key) {
      assert Offers(t, m, p);
      if Configured(u, p.key) {
        ConfiguredRelisted(t, roots, u, others, p.key);
      }
    }
    forall i | 0 <= i < |others| ensures others[i] in u {
      assert others[i] in roots;
    }
  }

  lemma SameProvidersBelow(t: Tree, roots: seq<ModuleId>, u: Tree, others: seq<ModuleId>)
    requires Relisted(t, roots, u, others)
    ensures ProvidersBelow(t, roots) == ProvidersBelow(u, others)
  {
    SameImports(t, roots, u, others);
    assert forall m, p :: m in t && p in t[m].providers ==> Offers(t, m, p);
    assert forall m, p :: m in u && p in u[m].providers ==> Offers(u, m, p);
  }

  /** Roots, imports and providers can be listed in any order: two boots of one application assemble
      the same container, down to the instances behind every field. */
  lemma BootOrderIndependent(t: Tree, roots: seq<ModuleId>, u: Tree, others: seq<ModuleId>, init: Container,
                             base: Container,
                             c: Container, d: Container)
    requires Orderless(t, roots, init, base) && Relisted(t, roots, u, others)
    requires WellFormed(u) && forall i :: 0 <= i < |others| ==> others[i] in u
    requires RunsTo(t, init, VisitRoots(t, roots).acts, c)
    requires RunsTo(u, init, VisitRoots(u, others).acts, d)
    ensures c == d
  {
    OrderlessRelisted(t, roots, u, others, init, base);
    SameImports(t, roots, u, others);
    BootSelfConsistent(t, roots, init, base, c);
    BootSelfConsistent(u, others, init, base, d);
    SameProvidersBelow(t, roots, u, others);
    SelfConsistentIsUnique(base, ProvidersBelow(t, roots), c, d);
  }

  lemma WiredRelisted(t: Tree, roots: seq<ModuleId>, u: Tree, others: seq<ModuleId>, global: set<Key>)
    requires Relisted(t, roots, u, others) && WiredBelow(t, global, roots)
    ensures WiredBelow(u, global, others)
  {
    SameImports(t, roots, u, others);
    forall m | m in u && BelowRoots(u, others, m) ensures Wired(u, global, m) {
      assert m in BelowSet(u, others);
      SameModule(t, roots, u, others, m);
      forall p, k | p in u[m].providers && k in p.Dependencies() ensures Supplied(u, global, m, k) {
        assert Offers(u, m, p) && Offers(t, m, p);
        SuppliedRelisted(t, roots, u, others, global, m, k);
      }
    }
  }

  /** And whether they get through the loops does not depend on the listing either, once the access
      check passes. */
  lemma BootOutcomeOrderIndependent(t: Tree, roots: seq<ModuleId>, descs: seq<AccessGraph.ModuleDescriptor>,
                                    u: Tree, others: seq<ModuleId>, global: set<Key>)
    requires WellFormed(t) && (forall i :: 0 <= i < |roots| ==> roots[i] in t) && Describes(descs, t)
    requires WellFormed(u) && (forall i :: 0 <= i < |others| ==> others[i] in u) && Relisted(t, roots, u, others)
    requires Graph.Acyclic(ImportGraph(t)) && AllDeclared(t)
    requires DistinctProviders(t, global) && HonestlyRequired(t, global) && AccessGraph.Contract(descs, roots, global)
    requires AllFine(t, global, VisitRoots(t, roots).acts)
    ensures AllFine(u, global, VisitRoots(u, others).acts)
  {
    BootExactly(descs, t, roots, global);
    WiredRelisted(t, roots, u, others, global);
    SameImports(t, roots, u, others);
    forall m | m in u && BelowRoots(u, others, m) ensures Healthy(u, global, m) {
      assert forall p :: Offers(u, m, p) ==> Offers(t, m, p);
      WiredIsHealthy(u, global, m);
    }
    HealthyRoots(u, global, others);
  }
}
