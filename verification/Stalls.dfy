/** What the end of a module's registration says about its providers: when all of them register, and
    how far the two stall messages can be trusted. */
module Stalls {
  import opened Providers
  import Graph

  /** Within one module, `p` needs `q`: some required key of `p` that is not there beforehand is the
      key `q` stands for. */
  ghost function NeedsGraph(s: set<Provider>, init: set<Key>): Graph.Edges<Provider> {
    map p | p in s :: set q | q in s && q.key !in init && q.key in p.Dependencies()
  }

  /** As `NeedsGraph`, optional keys included. */
  ghost function WaitsGraph(s: set<Provider>, init: set<Key>): Graph.Edges<Provider> {
    map p | p in s ::
      set q | q in s && q.key !in init && (q.key in p.Dependencies() || q.key in p.OptionalDependencies())
  }

  /** `p` requires `k`, which is not there beforehand and which no provider of the set publishes. */
  ghost predicate Lacks(s: set<Provider>, init: set<Key>, p: Provider, k: Key) {
    p in s && k in p.Dependencies() && k !in init && forall q :: q in s && q.AddsKey() ==> q.key != k
  }

  /** Every required key is there already or published by some provider of the set. */
  ghost predicate LocallySupplied(s: set<Provider>, init: set<Key>) {
    forall p, k :: !Lacks(s, init, p, k)
  }

  // ---------------------------------------------------------------- completion

  lemma StuckWaitsOnStuck(s: set<Provider>, init: set<Key>, d: set<Provider>, p: Provider)
    requires LocallySupplied(s, init) && IsLeast(s, init, d) && p in s - d
    ensures WaitsGraph(s, init)[p] * (s - d) != {}
  {
    var all, pending := KeysOf(init, d), PendingOf(s, d);
    assert !Ready(p, all, pending);
    if !AllPresent(p.Dependencies(), all) {
      var k :| k in p.Dependencies() && k !in all;
      assert !Lacks(s, init, p, k);
      var q :| q in s && q.AddsKey() && q.key == k;
      assert q in WaitsGraph(s, init)[p] * (s - d);
    } else {
      var k :| k in p.OptionalDependencies() && k !in all && k in pending;
      var q :| q in s && q !in d && q.key == k;
      assert q in WaitsGraph(s, init)[p] * (s - d);
    }
  }

  /** A module whose required keys are supplied and whose providers do not wait on each other in a
      circle, optional dependencies included, registers completely. */
  lemma SuppliedAndAcyclicCompletes(s: set<Provider>, init: set<Key>)
    requires LocallySupplied(s, init) && Graph.Acyclic(WaitsGraph(s, init))
    ensures VerdictOf(s, init) == AllRegistered
  {
    var d := Least(s, init);
    forall p | p in s - d ensures p in WaitsGraph(s, init) && WaitsGraph(s, init)[p] * (s - d) != {} {
      StuckWaitsOnStuck(s, init, d, p);
    }
    Graph.AcyclicLeavesNoneStuck(WaitsGraph(s, init), s - d);
  }

  ghost predicate DistinctKeys(s: set<Provider>) {
    forall p, q :: p in s && q in s && p.key == q.key ==> p == q
  }

  lemma CompletedIsSupplied(s: set<Provider>, init: set<Key>)
    requires VerdictOf(s, init) == AllRegistered
    ensures LocallySupplied(s, init)
  {
    forall p, k ensures !Lacks(s, init, p, k) {
      if Lacks(s, init, p, k) {
        LeastAreReady(s, init, p);
      }
    }
  }

  lemma SuccessorOnCycle(s: set<Provider>, init: set<Key>, path: seq<Provider>, p: Provider) returns (q: Provider)
    requires Graph.IsCycle(WaitsGraph(s, init), path) && p in path
    ensures q in path && q in s && q.key !in init && (q.key in p.Dependencies() || q.key in p.OptionalDependencies())
  {
    var i :| 0 <= i < |path| && path[i] == p;
    var n := if i == |path| - 1 then 0 else i;
    assert path[n] == p && path[n + 1] in WaitsGraph(s, init)[path[n]];
    q := path[n + 1];
  }

  /** None of the providers on a cycle is ever registered: leaving them all out is closed. */
  lemma CycleStaysOut(s: set<Provider>, init: set<Key>, path: seq<Provider>)
    requires DistinctKeys(s) && Graph.IsCycle(WaitsGraph(s, init), path)
    ensures !(s <= Least(s, init))
  {
    var c := s - Graph.Elements(path);
    var keys, pending := KeysOf(init, c), PendingOf(s, c);
    forall p | p in s && p in path ensures !Ready(p, keys, pending) {
      var q := SuccessorOnCycle(s, init, path, p);
      assert q.key in pending && q.key !in keys;
    }
    assert Closed(s, init, c) && path[0] in Graph.Elements(path);
    assert path[0] in WaitsGraph(s, init);
  }

  /** And only such a module does, when no two of its providers share a key: the whole fixpoint
      succeeds exactly when the listing, as written, is supplied and free of circular waits. */
  lemma CompletesExactly(s: set<Provider>, init: set<Key>)
    requires DistinctKeys(s)
    ensures VerdictOf(s, init) == AllRegistered <==> LocallySupplied(s, init) && Graph.Acyclic(WaitsGraph(s, init))
  {
    if VerdictOf(s, init) == AllRegistered {
      CompletedIsSupplied(s, init);
      forall path | Graph.IsCycle(WaitsGraph(s, init), path) ensures false {
        CycleStaysOut(s, init, path);
      }
    } else if LocallySupplied(s, init) && Graph.Acyclic(WaitsGraph(s, init)) {
      SuppliedAndAcyclicCompletes(s, init);
    }
  }

  // ---------------------------------------------------------------- the two messages

  lemma NeedsStuck(s: set<Provider>, init: set<Key>, d: set<Provider>, p: Provider)
    requires p in s - d && WaitsOnPending(p, KeysOf(init, d), PendingOf(s, d))
    ensures NeedsGraph(s, init)[p] * (s - d) != {}
  {
    var k :| k in p.Dependencies() && k !in KeysOf(init, d);
    var q :| q in s && q !in d && q.key == k;
    assert q in NeedsGraph(s, init)[p] * (s - d);
  }

  /** The "dependency cycle" panic is never a false alarm. */
  lemma CyclePanicIsReal(s: set<Provider>, init: set<Key>) returns (path: seq<Provider>)
    requires VerdictOf(s, init).CycleAmong?
    ensures Graph.IsCycle(NeedsGraph(s, init), path)
    ensures forall p :: p in path ==> p in VerdictOf(s, init).stuck
  {
    var d := Least(s, init);
    var g := NeedsGraph(s, init);
    forall p | p in s - d ensures p in g && g[p] * (s - d) != {} {
      assert p !in Culprits(s, d, KeysOf(init, d), PendingOf(s, d));
      NeedsStuck(s, init, d, p);
    }
    path := Graph.StuckSetHasCycle(g, s - d);
  }

  /** At the end `p` still requires a key that is neither there nor coming from a stuck provider. */
  ghost predicate NeedsUnsupplied(s: set<Provider>, init: set<Key>, p: Provider) {
    var d := Least(s, init);
    exists k :: k in p.Dependencies() && k !in KeysOf(init, d) && k !in PendingOf(s, d)
  }

  /** The "cannot register" panic is right about one of the providers it names. */
  ghost predicate NamesALack(s: set<Provider>, init: set<Key>)
    requires VerdictOf(s, init).CannotRegister?
  {
    exists p :: p in VerdictOf(s, init).culprits && NeedsUnsupplied(s, init, p)
  }

  /** No provider requires the key of an interceptor beside it, which registers and publishes
      nothing.  A deferred provider publishes nothing either, but never gets stuck. */
  ghost predicate NoInterceptorRequired(s: set<Provider>) {
    forall p, q :: p in s && q in s && q.key in p.Dependencies() ==> q.AddsKey() || q.build.Deferred?
  }

  /** `p` lacks `k`, and every interceptor that stands for `k` has registered, publishing nothing. */
  ghost predicate LacksForGood(s: set<Provider>, init: set<Key>, p: Provider, k: Key) {
    && Lacks(s, init, p, k)
    && forall q :: q in s && q.key == k && q.build.Interceptor? ==> q in Least(s, init)
  }

  lemma UnsuppliedIsLacking(s: set<Provider>, init: set<Key>, p: Provider)
    requires p in s && NeedsUnsupplied(s, init, p)
    ensures exists k :: LacksForGood(s, init, p, k)
  {
    var d := Least(s, init);
    var k :| k in p.Dependencies() && k !in KeysOf(init, d) && k !in PendingOf(s, d);
    assert LacksForGood(s, init, p, k);
  }

  lemma LackingIsCulprit(s: set<Provider>, init: set<Key>, p: Provider, k: Key)
    requires LacksForGood(s, init, p, k)
    ensures p in Culprits(s, Least(s, init), KeysOf(init, Least(s, init)), PendingOf(s, Least(s, init)))
    ensures NeedsUnsupplied(s, init, p)
  {
    var d := Least(s, init);
    if p in d {
      LeastAreReady(s, init, p);
    }
    forall q | q in s && q.key == k ensures q in d {
      assert !q.build.Interceptor? ==> Ready(q, KeysOf(init, d), PendingOf(s, d));
    }
  }

  /** When the "cannot register" panic is right, read off the listing: exactly when some required key
      is neither there nor published by the module, and no stuck interceptor stands for it.  When
      every required key is supplied nothing is missing, and what it reports is a cycle that runs
      through an optional dependency. */
  lemma CannotRegisterExactly(s: set<Provider>, init: set<Key>)
    requires VerdictOf(s, init).CannotRegister?
    ensures NamesALack(s, init) <==> exists p, k :: LacksForGood(s, init, p, k)
    ensures NoInterceptorRequired(s) ==> (NamesALack(s, init) <==> !LocallySupplied(s, init))
    ensures LocallySupplied(s, init) ==> !Graph.Acyclic(WaitsGraph(s, init))
  {
    if NamesALack(s, init) {
      var p :| p in VerdictOf(s, init).culprits && NeedsUnsupplied(s, init, p);
      UnsuppliedIsLacking(s, init, p);
    }
    forall p, k | LacksForGood(s, init, p, k) ensures NamesALack(s, init) {
      LackingIsCulprit(s, init, p, k);
    }
    forall p, k | Lacks(s, init, p, k) && NoInterceptorRequired(s) ensures LacksForGood(s, init, p, k) { }
    if LocallySupplied(s, init) && Graph.Acyclic(WaitsGraph(s, init)) {
      SuppliedAndAcyclicCompletes(s, init);
    }
  }

  /** In a module without optional injections the panic always names a real lack. */
  lemma RequiredOnlyNamesALack(s: set<Provider>, init: set<Key>)
    requires VerdictOf(s, init).CannotRegister? && forall p :: p in s ==> p.OptionalDependencies() == []
    ensures NamesALack(s, init)
  {
    var d := Least(s, init);
    var p :| p in VerdictOf(s, init).culprits;
    assert p in s && !Ready(p, KeysOf(init, d), PendingOf(s, d));
    assert NeedsUnsupplied(s, init, p);
  }

  // ---------------------------------------------------------------- wrong messages

  /** A cycle that runs through an optional dependency is misreported: nothing is missing, yet
      the panic is "cannot register" with an empty list of needs. */
  lemma OptionalCycleMisreported()
    ensures var x, y := TypeId(1), TypeId(2);
            var a := Provider(Concrete, Singleton, x, [InjectOptional(y)]);
            var b := Provider(Concrete, Singleton, y, [Inject(x)]);
            VerdictOf({a, b}, {}) == CannotRegister({a}) && LocallySupplied({a, b}, {})
  {
    var x, y := TypeId(1), TypeId(2);
    var a := Provider(Concrete, Singleton, x, [InjectOptional(y)]);
    var b := Provider(Concrete, Singleton, y, [Inject(x)]);
    var s := {a, b};
    SingleField(a.fields[0]);
    SingleField(b.fields[0]);
    assert y in OptionalKeys(a.fields) && x in RequiredKeys(b.fields);
    assert b in s && b !in {} && b.key in PendingOf(s, {});
    assert KeysOf({}, {}) == {};
    assert Closed(s, {}, {});
    LeastIsUnique(s, {}, {}, Least(s, {}));
    assert a.key in PendingOf(s, {});
    assert WaitsOnPending(b, {}, PendingOf(s, {}));
    assert Culprits(s, {}, {}, PendingOf(s, {})) == {a};
  }

  /** A stuck interceptor hides a lack: `a` requires a key that only the interceptor `i` stands for
      and that nobody publishes, but it is reported as merely waiting, and the panic names `c`, which
      lacks nothing. */
  lemma InterceptorHidesALack()
    ensures var x, y, z := TypeId(1), TypeId(2), TypeId(3);
            var a := Provider(Concrete, Singleton, x, [Inject(y)]);
            var i := Provider(Concrete, Interceptor, y, [Inject(x)]);
            var c := Provider(Concrete, Singleton, z, [InjectOptional(x)]);
            var s := {a, i, c};
            && VerdictOf(s, {}) == CannotRegister({c}) && !NamesALack(s, {})
            && Lacks(s, {}, a, y)
  {
    var x, y, z := TypeId(1), TypeId(2), TypeId(3);
    var a := Provider(Concrete, Singleton, x, [Inject(y)]);
    var i := Provider(Concrete, Interceptor, y, [Inject(x)]);
    var c := Provider(Concrete, Singleton, z, [InjectOptional(x)]);
    var s := {a, i, c};
    SingleField(a.fields[0]);
    SingleField(i.fields[0]);
    SingleField(c.fields[0]);
    assert y in RequiredKeys(a.fields) && x in RequiredKeys(i.fields) && x in OptionalKeys(c.fields);
    assert KeysOf({}, {}) == {};
    assert a in s && a !in {} && a.key in PendingOf(s, {});
    assert i in s && i !in {} && i.key in PendingOf(s, {});
    assert Closed(s, {}, {});
    LeastIsUnique(s, {}, {}, Least(s, {}));
    assert Culprits(s, {}, {}, PendingOf(s, {})) == {c};
  }
}
