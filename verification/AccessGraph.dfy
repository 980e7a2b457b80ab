/** The boot-time access contract: which modules' providers a module may inject. */
module AccessGraph {
  import opened Basics
  import opened Providers
  import opened Registration
  import Graph

  /** `provided` is the container key, `injects` every key the provider pulls from the container,
      whenever it is built. */
  datatype ProviderDescriptor = ProviderDescriptor(provided: Key, injects: seq<Key>)

  datatype ModuleDescriptor = ModuleDescriptor(id: ModuleId, imports: seq<ModuleId>, providers: seq<ProviderDescriptor>)

  /** Names the importing module, the offending provider, its dependency and the module to import. */
  datatype AccessError = AccessError(importer: ModuleId, consumer: ProviderDescriptor, dependency: Key, owner: ModuleId)

  datatype Result<+E> = Ok | Err(error: E)

  /** Collecting into a map: the last descriptor of a module wins. */
  function ById(descs: seq<ModuleDescriptor>): (r: map<ModuleId, ModuleDescriptor>)
    ensures forall m :: m in r ==> r[m] in descs && r[m].id == m
    ensures forall d :: d in descs ==> d.id in r
  {
    if descs == [] then map[]
    else ById(descs[..|descs| - 1])[descs[|descs| - 1].id := descs[|descs| - 1]]
  }

  ghost predicate LastOf(descs: seq<ModuleDescriptor>, m: ModuleId, i: nat) {
    i < |descs| && descs[i].id == m && forall j :: i < j < |descs| ==> descs[j].id != m
  }

  lemma {:induction false} ByIdIsLast(descs: seq<ModuleDescriptor>, i: nat)
    requires i < |descs| && LastOf(descs, descs[i].id, i)
    ensures descs[i].id in ById(descs) && ById(descs)[descs[i].id] == descs[i]
  {
    var last := |descs| - 1;
    if i < last {
      var front := descs[..last];
      assert front[i] == descs[i] && descs[last].id != descs[i].id;
      ByIdIsLast(front, i);
      assert ById(descs) == ById(front)[descs[last].id := descs[last]];
    }
  }

  ghost function Edges(byId: map<ModuleId, ModuleDescriptor>): Graph.Edges<ModuleId> {
    map m | m in byId :: Graph.Elements(byId[m].imports)
  }

  ghost predicate ReachableFrom(byId: map<ModuleId, ModuleDescriptor>, roots: seq<ModuleId>, m: ModuleId) {
    exists r :: r in roots && Graph.Reaches(Edges(byId), r, m)
  }

  ghost predicate Provides(d: ModuleDescriptor, k: Key) {
    exists p :: p in d.providers && p.provided == k
  }

  /** Some module in the import closure of `m`, itself included, provides `k`. */
  ghost predicate InClosure(byId: map<ModuleId, ModuleDescriptor>, m: ModuleId, k: Key) {
    exists c :: c in byId && Graph.Reaches(Edges(byId), m, c) && Provides(byId[c], k)
  }

  ghost predicate BreaksContract(descs: seq<ModuleDescriptor>, global: set<Key>, d: ModuleDescriptor,
                                 p: ProviderDescriptor, k: Key) {
    && p in d.providers && k in p.injects
    && k !in global && !InClosure(ById(descs), d.id, k)
    && exists o :: o in descs && Provides(o, k)
  }

  /** Provider `p` of the root-reachable module `m` injects `k`, which is neither global nor
      provided in its closure, although some module does provide it. */
  ghost predicate Violation(descs: seq<ModuleDescriptor>, roots: seq<ModuleId>, global: set<Key>,
                            m: ModuleId, p: ProviderDescriptor, k: Key) {
    var byId := ById(descs);
    && ReachableFrom(byId, roots, m) && m in byId
    && BreaksContract(descs, global, byId[m], p, k)
  }

  ghost predicate Contract(descs: seq<ModuleDescriptor>, roots: seq<ModuleId>, global: set<Key>) {
    forall m, p, k :: !Violation(descs, roots, global, m, p, k)
  }

  ghost function Universe(roots: seq<ModuleId>, byId: map<ModuleId, ModuleDescriptor>): set<ModuleId> {
    Graph.Elements(roots) + set m, i | m in byId && i in byId[m].imports :: i
  }

  /** The modules reachable from the roots, as a finite set. */
  ghost function ReachSet(roots: seq<ModuleId>, byId: map<ModuleId, ModuleDescriptor>): set<ModuleId> {
    set m | m in Universe(roots, byId) && ReachableFrom(byId, roots, m)
  }

  lemma ReachSetIsAll(roots: seq<ModuleId>, byId: map<ModuleId, ModuleDescriptor>, m: ModuleId)
    ensures m in ReachSet(roots, byId) <==> ReachableFrom(byId, roots, m)
  {
    if ReachableFrom(byId, roots, m) {
      var r :| r in roots && Graph.Reaches(Edges(byId), r, m);
      Graph.ClosedHoldsReachable(Edges(byId), Universe(roots, byId), r, m);
    }
  }

  lemma ReachableImport(byId: map<ModuleId, ModuleDescriptor>, roots: seq<ModuleId>, m: ModuleId, i: ModuleId)
    requires ReachableFrom(byId, roots, m) && m in byId && i in byId[m].imports
    ensures ReachableFrom(byId, roots, i)
  {
    var r :| r in roots && Graph.Reaches(Edges(byId), r, m);
    Graph.ReachesAppend(Edges(byId), r, m, i);
  }

  lemma RootReachable(byId: map<ModuleId, ModuleDescriptor>, roots: seq<ModuleId>, r: ModuleId)
    requires r in roots
    ensures ReachableFrom(byId, roots, r)
  {
    Graph.ReachesSelf(Edges(byId), r);
  }

  ghost function ImportSet(byId: map<ModuleId, ModuleDescriptor>, m: ModuleId): set<ModuleId>
    requires m in byId
  {
    Graph.Elements(byId[m].imports)
  }

  lemma ReachSetClosed(roots: seq<ModuleId>, byId: map<ModuleId, ModuleDescriptor>)
    ensures Graph.Elements(roots) <= ReachSet(roots, byId)
    ensures forall m :: m in ReachSet(roots, byId) && m in byId ==> ImportSet(byId, m) <= ReachSet(roots, byId)
  {
    forall r | r in roots ensures r in ReachSet(roots, byId) {
      RootReachable(byId, roots, r);
      ReachSetIsAll(roots, byId, r);
    }
    forall m, i | m in ReachSet(roots, byId) && m in byId && i in byId[m].imports ensures i in ReachSet(roots, byId) {
      ReachableImport(byId, roots, m, i);
      ReachSetIsAll(roots, byId, i);
    }
  }

  /** `held` has the roots and the imports of everything already seen. */
  ghost predicate Covers(byId: map<ModuleId, ModuleDescriptor>, roots: seq<ModuleId>, seen: set<ModuleId>,
                         held: set<ModuleId>) {
    && Graph.Elements(roots) <= held
    && forall m :: m in seen && m in byId ==> ImportSet(byId, m) <= held
  }

  lemma CoveredReachable(byId: map<ModuleId, ModuleDescriptor>, roots: seq<ModuleId>, seen: set<ModuleId>)
    requires Covers(byId, roots, seen, seen)
    ensures ReachSet(roots, byId) <= seen
  {
    forall m | ReachableFrom(byId, roots, m) ensures m in seen {
      var r :| r in roots && Graph.Reaches(Edges(byId), r, m);
      assert r in Graph.Elements(roots);
      forall x, y | x in seen && x in byId && y in Edges(byId)[x] ensures y in seen {
        assert ImportSet(byId, x) <= seen;
      }
      Graph.ClosedHoldsReachable(Edges(byId), seen, r, m);
    }
  }

  lemma PopElements(stack: seq<ModuleId>)
    requires stack != []
    ensures Graph.Elements(stack) == Graph.Elements(stack[..|stack| - 1]) + {stack[|stack| - 1]}
  {
    assert stack == stack[..|stack| - 1] + [stack[|stack| - 1]];
  }

  lemma PushElements(stack: seq<ModuleId>, more: seq<ModuleId>)
    ensures Graph.Elements(stack + more) == Graph.Elements(stack) + Graph.Elements(more)
  {
  }

  /** What a turn of the walk leaves on the stack once `id` is popped. */
  function Pushed(byId: map<ModuleId, ModuleDescriptor>, seen: set<ModuleId>, id: ModuleId): seq<ModuleId> {
    if id !in seen && id in byId then byId[id].imports else []
  }

  lemma TurnKeepsCover(roots: seq<ModuleId>, byId: map<ModuleId, ModuleDescriptor>, seen: set<ModuleId>,
                       held: set<ModuleId>, id: ModuleId, more: set<ModuleId>)
    requires Covers(byId, roots, seen, held) && held <= ReachSet(roots, byId) && id in held
    requires more == if id !in seen && id in byId then ImportSet(byId, id) else {}
    ensures Covers(byId, roots, seen + {id}, held + more)
    ensures held + more <= ReachSet(roots, byId)
  {
    forall m | m in seen + {id} && m in byId ensures ImportSet(byId, m) <= held + more {
      assert m in seen ==> ImportSet(byId, m) <= held;
    }
    ReachSetClosed(roots, byId);
  }

  /** The cycle-tolerant walk over `imports`: exactly the modules some import path leads to. */
  method Reachable(roots: seq<ModuleId>, byId: map<ModuleId, ModuleDescriptor>) returns (seen: set<ModuleId>)
    ensures seen == ReachSet(roots, byId)
  {
    seen := {};
    var stack := roots;
    ReachSetClosed(roots, byId);
    while stack != []
      invariant Covers(byId, roots, seen, seen + Graph.Elements(stack))
      invariant seen + Graph.Elements(stack) <= ReachSet(roots, byId)
      decreases ReachSet(roots, byId) - seen, |stack|
    {
      var id := stack[|stack| - 1];
      ghost var rest := stack[..|stack| - 1];
      ghost var more := Pushed(byId, seen, id);
      PopElements(stack);
      PushElements(rest, more);
      TurnKeepsCover(roots, byId, seen, seen + Graph.Elements(stack), id, Graph.Elements(more));
      assert (seen + {id}) + Graph.Elements(rest + more) == (seen + Graph.Elements(stack)) + Graph.Elements(more);
      stack := stack[..|stack| - 1];
      if id !in seen {
        seen := seen + {id};
        if id in byId {
          stack := stack + byId[id].imports;
        }
      }
      assert stack == rest + more;
    }
    assert seen + Graph.Elements(stack) == seen;
    CoveredReachable(byId, roots, seen);
  }

  /** The descriptor at `i` is the first that provides `k`. */
  ghost predicate FirstProvides(descs: seq<ModuleDescriptor>, k: Key, i: nat) {
    i < |descs| && Provides(descs[i], k) && forall j :: 0 <= j < i ==> !Provides(descs[j], k)
  }

  ghost predicate OwnedBy(descs: seq<ModuleDescriptor>, k: Key, owner: ModuleId) {
    exists i: nat :: FirstProvides(descs, k, i) && descs[i].id == owner
  }

  /** First binding of a key wins. */
  method ProvidedBy(descs: seq<ModuleDescriptor>) returns (owners: map<Key, ModuleId>)
    ensures forall k :: k in owners <==> exists o :: o in descs && Provides(o, k)
    ensures forall k :: k in owners ==> OwnedBy(descs, k, owners[k])
  {
    owners := map[];
    for i := 0 to |descs|
      invariant forall k :: k in owners <==> exists j :: 0 <= j < i && Provides(descs[j], k)
      invariant forall k :: k in owners ==>
                  exists j: nat :: j < i && FirstProvides(descs, k, j) && descs[j].id == owners[k]
    {
      ghost var before := owners;
      var ps := descs[i].providers;
      for n := 0 to |ps|
        invariant forall k :: k in owners <==> k in before || exists q :: q in ps[..n] && q.provided == k
        invariant forall k :: k in owners ==> if k in before then owners[k] == before[k] else owners[k] == descs[i].id
      {
        assert ps[..n + 1] == ps[..n] + [ps[n]];
        if ps[n].provided !in owners {
          owners := owners[ps[n].provided := descs[i].id];
        }
      }
      assert ps[..|ps|] == ps;
    }
  }

  /** Every key provided by the modules of `seen`. */
  method ProvidedKeys(seen: set<ModuleId>, byId: map<ModuleId, ModuleDescriptor>) returns (keys: set<Key>)
    ensures forall k :: k in keys <==> exists m :: m in seen && m in byId && Provides(byId[m], k)
  {
    keys := {};
    var todo := seen;
    while todo != {}
      invariant todo <= seen
      invariant forall k :: k in keys <==> exists m :: m in seen - todo && m in byId && Provides(byId[m], k)
    {
      ghost var before, left := keys, todo;
      var m := Pick(todo);
      todo := todo - {m};
      if m in byId {
        keys := keys + set p | p in byId[m].providers :: p.provided;
      }
      forall k ensures k in keys <==> exists c :: c in seen - todo && c in byId && Provides(byId[c], k) {
        if k in keys && k !in before {
          assert m in seen - todo && Provides(byId[m], k);
        }
      }
    }
  }

  /** One module's providers against its closure. */
  method CheckModule(descs: seq<ModuleDescriptor>, global: set<Key>, owners: map<Key, ModuleId>, d: ModuleDescriptor,
                     closureKeys: set<Key>) returns (r: Result<AccessError>)
    requires forall k :: k in owners <==> exists o :: o in descs && Provides(o, k)
    requires forall k :: k in closureKeys <==> InClosure(ById(descs), d.id, k)
    ensures r.Ok? ==> forall p, k :: !BreaksContract(descs, global, d, p, k)
    ensures r.Err? ==> BreaksContract(descs, global, d, r.error.consumer, r.error.dependency)
                       && r.error.importer == d.id && r.error.dependency in owners
                       && r.error.owner == owners[r.error.dependency]
  {
    for i := 0 to |d.providers|
      invariant forall j, k :: 0 <= j < i ==> !BreaksContract(descs, global, d, d.providers[j], k)
    {
      var p := d.providers[i];
      for n := 0 to |p.injects|
        invariant forall j :: 0 <= j < n ==> !BreaksContract(descs, global, d, p, p.injects[j])
      {
        var k := p.injects[n];
        if k !in global && k !in closureKeys && k in owners {
          return Err(AccessError(d.id, p, k, owners[k]));
        }
      }
    }
    return Ok;
  }

  lemma ClosureKeysExact(byId: map<ModuleId, ModuleDescriptor>, m: ModuleId, keys: set<Key>)
    requires forall k :: k in keys <==> exists c :: c in ReachSet([m], byId) && c in byId && Provides(byId[c], k)
    ensures forall k :: k in keys <==> InClosure(byId, m, k)
  {
    forall c ensures c in ReachSet([m], byId) <==> Graph.Reaches(Edges(byId), m, c) {
      ReachSetIsAll([m], byId, c);
      assert m in [m];
    }
  }

  /** Sound and complete: Ok exactly when no reachable provider breaks the contract; an error
      names a violation and a module whose import would supply the dependency. */
  method ValidateAccessGraph(descs: seq<ModuleDescriptor>, roots: seq<ModuleId>, global: set<Key>)
    returns (r: Result<AccessError>)
    ensures r.Ok? <==> Contract(descs, roots, global)
    ensures r.Err? ==> Violation(descs, roots, global, r.error.importer, r.error.consumer, r.error.dependency)
    ensures r.Err? ==> OwnedBy(descs, r.error.dependency, r.error.owner)
  {
    var byId := ById(descs);
    var owners := ProvidedBy(descs);
    var reached := Reachable(roots, byId);
    forall m ensures m in reached <==> ReachableFrom(byId, roots, m) { ReachSetIsAll(roots, byId, m); }
    var todo := reached;
    while todo != {}
      invariant todo <= reached
      invariant forall m, p, k :: m in reached - todo ==> !Violation(descs, roots, global, m, p, k)
    {
      var m := Pick(todo);
      todo := todo - {m};
      if m in byId {
        var closure := Reachable([m], byId);
        var closureKeys := ProvidedKeys(closure, byId);
        ClosureKeysExact(byId, m, closureKeys);
        var checked := CheckModule(descs, global, owners, byId[m], closureKeys);
        if checked.Err? {
          assert Violation(descs, roots, global, m, checked.error.consumer, checked.error.dependency);
          return checked;
        }
      }
    }
    return Ok;
  }

  /** Provider `p` of the root-reachable module `m` injects `k`. */
  ghost predicate Injects(descs: seq<ModuleDescriptor>, roots: seq<ModuleId>, m: ModuleId, p: ProviderDescriptor,
                          k: Key) {
    var byId := ById(descs);
    ReachableFrom(byId, roots, m) && m in byId && p in byId[m].providers && k in p.injects
  }

  /** `k` is global, or provided in the import closure of `m`, or provided nowhere at all. */
  ghost predicate WithinReach(descs: seq<ModuleDescriptor>, global: set<Key>, m: ModuleId, k: Key) {
    k in global || InClosure(ById(descs), m, k) || forall o :: o in descs ==> !Provides(o, k)
  }

  /** What the check guarantees, provider by provider. */
  lemma ContractExactly(descs: seq<ModuleDescriptor>, roots: seq<ModuleId>, global: set<Key>)
    ensures Contract(descs, roots, global) <==>
              forall m, p, k :: Injects(descs, roots, m, p, k) ==> WithinReach(descs, global, m, k)
  {
    forall m, p, k
      ensures Violation(descs, roots, global, m, p, k)
         <==> Injects(descs, roots, m, p, k) && !WithinReach(descs, global, m, k)
    {
    }
    if Contract(descs, roots, global) {
      forall m, p, k | Injects(descs, roots, m, p, k) ensures WithinReach(descs, global, m, k) {
        assert !Violation(descs, roots, global, m, p, k);
      }
    }
  }

  ghost predicate Member(byId: map<ModuleId, ModuleDescriptor>, roots: seq<ModuleId>, k: Key) {
    exists m :: ReachableFrom(byId, roots, m) && m in byId && Provides(byId[m], k)
  }

  lemma MemberKeys(byId: map<ModuleId, ModuleDescriptor>, roots: seq<ModuleId>, keys: set<Key>)
    requires forall k :: k in keys <==> exists m :: m in ReachSet(roots, byId) && m in byId && Provides(byId[m], k)
    ensures forall k :: k in keys <==> Member(byId, roots, k)
  {
    forall m ensures m in ReachSet(roots, byId) <==> ReachableFrom(byId, roots, m) { ReachSetIsAll(roots, byId, m); }
  }

  /** Every linked resolver must be listed by a module reachable from the roots. */
  method ValidateResolverMembership(descs: seq<ModuleDescriptor>, roots: seq<ModuleId>, resolvers: seq<Key>)
    returns (r: Result<Key>)
    ensures r.Ok? <==> forall k :: k in resolvers ==> Member(ById(descs), roots, k)
    ensures r.Err? ==> r.error in resolvers && !Member(ById(descs), roots, r.error)
  {
    var byId := ById(descs);
    var reached := Reachable(roots, byId);
    var keys := ProvidedKeys(reached, byId);
    MemberKeys(byId, roots, keys);
    for i := 0 to |resolvers|
      invariant forall j :: 0 <= j < i ==> Member(byId, roots, resolvers[j])
    {
      if resolvers[i] !in keys {
        assert resolvers[i] in resolvers;
        return Err(resolvers[i]);
      }
    }
    return Ok;
  }

  // ---------------------------------------------------------------- monotonicity

  /** More shared infrastructure never breaks a boot. */
  lemma LargerGlobalKeepsContract(descs: seq<ModuleDescriptor>, roots: seq<ModuleId>, g: set<Key>, g': set<Key>)
    requires g <= g' && Contract(descs, roots, g)
    ensures Contract(descs, roots, g')
  {
    forall m, p, k ensures !Violation(descs, roots, g', m, p, k) {
      assert !Violation(descs, roots, g, m, p, k);
    }
  }

  ghost function WithImport(descs: seq<ModuleDescriptor>, n: nat, to: ModuleId): seq<ModuleDescriptor>
    requires n < |descs|
  {
    descs[n := descs[n].(imports := descs[n].imports + [to])]
  }

  /** `b` differs from `a` only in that one module may import `to` as well. */
  ghost predicate SameButImport(a: ModuleDescriptor, b: ModuleDescriptor, to: ModuleId) {
    && b.id == a.id && b.providers == a.providers
    && (b.imports == a.imports || b.imports == a.imports + [to])
  }

  ghost predicate MapsDifferByImport(a: map<ModuleId, ModuleDescriptor>, b: map<ModuleId, ModuleDescriptor>,
                                     to: ModuleId) {
    a.Keys == b.Keys && forall m :: m in a ==> SameButImport(a[m], b[m], to)
  }

  lemma {:induction false} ByIdDiffers(descs: seq<ModuleDescriptor>, more: seq<ModuleDescriptor>, to: ModuleId)
    requires |more| == |descs| && forall i :: 0 <= i < |descs| ==> SameButImport(descs[i], more[i], to)
    ensures MapsDifferByImport(ById(descs), ById(more), to)
  {
    if descs != [] {
      ByIdDiffers(descs[..|descs| - 1], more[..|more| - 1], to);
    }
  }

  lemma ClosureKept(a: map<ModuleId, ModuleDescriptor>, b: map<ModuleId, ModuleDescriptor>, to: ModuleId, m: ModuleId,
                    k: Key)
    requires MapsDifferByImport(a, b, to) && InClosure(a, m, k)
    ensures InClosure(b, m, k)
  {
    var c :| c in a && Graph.Reaches(Edges(a), m, c) && Provides(a[c], k);
    forall x | x in Edges(a) ensures Edges(a)[x] <= Edges(b)[x] { assert SameButImport(a[x], b[x], to); }
    Graph.ReachesInLarger(Edges(a), Edges(b), m, c);
    assert SameButImport(a[c], b[c], to);
    assert Provides(b[c], k);
  }

  lemma ProviderKept(descs: seq<ModuleDescriptor>, more: seq<ModuleDescriptor>, to: ModuleId, k: Key)
    requires |more| == |descs| && forall i :: 0 <= i < |descs| ==> SameButImport(descs[i], more[i], to)
    ensures (exists o :: o in more && Provides(o, k)) ==> exists o :: o in descs && Provides(o, k)
  {
    if o :| o in more && Provides(o, k) {
      var j :| 0 <= j < |more| && more[j] == o;
      assert SameButImport(descs[j], more[j], to);
      assert descs[j] in descs && Provides(descs[j], k);
    }
  }

  lemma {:induction false} PathReachable(a: map<ModuleId, ModuleDescriptor>, b: map<ModuleId, ModuleDescriptor>,
                                         roots: seq<ModuleId>, to: ModuleId, path: seq<ModuleId>, n: nat)
    requires MapsDifferByImport(a, b, to) && ReachableFrom(a, roots, to)
    requires Graph.IsPath(Edges(b), path) && path[0] in roots && n < |path|
    ensures ReachableFrom(a, roots, path[n])
  {
    if n == 0 {
      RootReachable(a, roots, path[0]);
    } else {
      PathReachable(a, b, roots, to, path, n - 1);
      assert path[n - 1] in b && path[n] in b[path[n - 1]].imports;
      assert SameButImport(a[path[n - 1]], b[path[n - 1]], to);
      if path[n] != to {
        ReachableImport(a, roots, path[n - 1], path[n]);
      }
    }
  }

  lemma NothingNewReachable(a: map<ModuleId, ModuleDescriptor>, b: map<ModuleId, ModuleDescriptor>,
                            roots: seq<ModuleId>,
                            to: ModuleId, m: ModuleId)
    requires MapsDifferByImport(a, b, to) && ReachableFrom(a, roots, to) && ReachableFrom(b, roots, m)
    ensures ReachableFrom(a, roots, m)
  {
    var r :| r in roots && Graph.Reaches(Edges(b), r, m);
    var path :| Graph.Connects(Edges(b), path, r, m);
    PathReachable(a, b, roots, to, path, |path| - 1);
  }

  lemma ViolationWasThere(descs: seq<ModuleDescriptor>, more: seq<ModuleDescriptor>, roots: seq<ModuleId>,
                          global: set<Key>,
                          to: ModuleId, m: ModuleId, p: ProviderDescriptor, k: Key)
    requires |more| == |descs| && forall i :: 0 <= i < |descs| ==> SameButImport(descs[i], more[i], to)
    requires MapsDifferByImport(ById(descs), ById(more), to) && ReachableFrom(ById(descs), roots, to)
    requires Violation(more, roots, global, m, p, k)
    ensures Violation(descs, roots, global, m, p, k)
  {
    var a, b := ById(descs), ById(more);
    NothingNewReachable(a, b, roots, to, m);
    assert SameButImport(a[m], b[m], to);
    if InClosure(a, m, k) { ClosureKept(a, b, to, m, k); }
    ProviderKept(descs, more, to, k);
  }

  /** Importing one reachable module into another never breaks a boot. */
  lemma ImportBetweenReachableKeepsContract(descs: seq<ModuleDescriptor>, roots: seq<ModuleId>, global: set<Key>,
                                            n: nat, to: ModuleId)
    requires n < |descs| && ReachableFrom(ById(descs), roots, to)
    requires Contract(descs, roots, global)
    ensures Contract(WithImport(descs, n, to), roots, global)
  {
    var more := WithImport(descs, n, to);
    ByIdDiffers(descs, more, to);
    forall m, p, k ensures !Violation(more, roots, global, m, p, k) {
      if Violation(more, roots, global, m, p, k) {
        ViolationWasThere(descs, more, roots, global, to, m, p, k);
      }
    }
  }
}
