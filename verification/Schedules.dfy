/** Registration orders: which sequences of provider indices the `#[module]` loop may follow,
    and what every such sequence has in common. */
module Schedules {
  import opened Basics
  import opened Providers

  ghost predicate Distinct<T(!new)>(s: seq<T>) {
    forall i, j :: 0 <= i < j < |s| ==> s[i] != s[j]
  }

  ghost predicate InRange(ps: seq<Provider>, order: seq<nat>) {
    forall k :: 0 <= k < |order| ==> order[k] < |ps|
  }

  ghost predicate Indices(ps: seq<Provider>, order: seq<nat>) {
    Distinct(order) && InRange(ps, order)
  }

  /** `m` has an instance of `p` whose fields hold what `c` has for them. */
  ghost predicate Publishes(p: Provider, c: Container, m: Container) {
    && p.key in m && m[p.key].Built? && m[p.key].provider == p
    && FieldsHold(p.fields, c, m[p.key].fields)
  }

  /** One registration: build now or not, publish the key or not. */
  function Registered(p: Provider, c: Container): Container {
    if p.AddsKey() then c[p.key := Built(p, Resolve(p.fields, c))] else c
  }

  /** What registering one provider does, by how it is built and listed: a concrete singleton, and
      whatever is listed `as dyn`, publish one new instance whose fields hold what the container had;
      an interceptor or a deferred provider listed as itself leaves the container as it is.  Deferred
      providers declare nothing, the others the keys of their fields. */
  lemma RegistrationByKind(p: Provider, c: Container)
    ensures p.binding.Concrete? && !p.build.Singleton? ==> Registered(p, c) == c
    ensures p.binding.AsDyn? || p.build.Singleton? ==>
              forall k :: k in Registered(p, c) <==> k in c || k == p.key
    ensures forall k :: k in c && k != p.key ==> Registered(p, c)[k] == c[k]
    ensures (p.binding.AsDyn? || p.build.Singleton?) && (forall k :: Inject(k) in p.fields ==> k in c) ==>
              Publishes(p, c, Registered(p, c))
    ensures p.build.Deferred? ==> p.Dependencies() == [] && p.OptionalDependencies() == []
    ensures !p.build.Deferred? ==> forall k ::
              (k in p.Dependencies() <==> Inject(k) in p.fields)
              && (k in p.OptionalDependencies() <==> InjectOptional(k) in p.fields)
    ensures p.BuildsNow() <==> p.binding.AsDyn? || p.build.Singleton? || p.build.Interceptor?
  {
    if forall k :: Inject(k) in p.fields ==> k in c {
      ResolvedFieldsHold(p.fields, c);
    }
    forall k ensures k in RequiredKeys(p.fields) <==> Inject(k) in p.fields { RequiredKeysAt(p.fields, k); }
    forall k ensures k in OptionalKeys(p.fields) <==> InjectOptional(k) in p.fields { OptionalKeysAt(p.fields, k); }
  }

  function Replay(init: Container, ps: seq<Provider>, order: seq<nat>): Container
    requires forall k :: 0 <= k < |order| ==> order[k] < |ps|
  {
    if order == [] then init
    else Registered(ps[order[|order| - 1]], Replay(init, ps, order[..|order| - 1]))
  }

  ghost function DoneSet(ps: seq<Provider>, order: seq<nat>): set<Provider> {
    set i | i in order && i < |ps| :: ps[i]
  }

  ghost function PendingKeys(ps: seq<Provider>, order: seq<nat>): set<Key> {
    set j | 0 <= j < |ps| && j !in order :: ps[j].key
  }

  ghost function Listed(ps: seq<Provider>): set<Provider> {
    set p | p in ps
  }

  /** The provider at `i` may be registered after those in `order`, with nothing missing that
      its constructor would `.expect`. */
  ghost predicate MayRegister(ps: seq<Provider>, init: Container, order: seq<nat>, i: nat)
    requires Indices(ps, order) && i < |ps|
  {
    var keys := Replay(init, ps, order).Keys;
    && i !in order
    && Ready(ps[i], keys, PendingKeys(ps, order))
    && (ps[i].BuildsNow() ==> AllPresent(RequiredKeys(ps[i].fields), keys))
  }

  lemma IndicesPrefix(ps: seq<Provider>, order: seq<nat>, n: nat)
    requires Indices(ps, order) && n <= |order|
    ensures Indices(ps, order[..n])
  {
  }

  /** Position `n` of the order was a registration allowed by what came before it. */
  ghost predicate Stage(ps: seq<Provider>, init: Container, order: seq<nat>, n: nat)
    requires Indices(ps, order) && n < |order|
  {
    IndicesPrefix(ps, order, n);
    MayRegister(ps, init, order[..n], order[n])
  }

  ghost predicate Schedule(ps: seq<Provider>, init: Container, order: seq<nat>) {
    Indices(ps, order) && forall n :: 0 <= n < |order| ==> Stage(ps, init, order, n)
  }

  /** Nothing further can be registered. */
  ghost predicate Settled(ps: seq<Provider>, init: Container, order: seq<nat>)
    requires Indices(ps, order)
  {
    forall i :: 0 <= i < |ps| && i !in order
      ==> !Ready(ps[i], Replay(init, ps, order).Keys, PendingKeys(ps, order))
  }

  lemma ScheduleExtend(ps: seq<Provider>, init: Container, order: seq<nat>, i: nat)
    requires Schedule(ps, init, order) && i < |ps| && MayRegister(ps, init, order, i)
    ensures Schedule(ps, init, order + [i])
    ensures Replay(init, ps, order + [i]) == Registered(ps[i], Replay(init, ps, order))
    ensures PendingKeys(ps, order + [i]) <= PendingKeys(ps, order)
    ensures Replay(init, ps, order).Keys <= Replay(init, ps, order + [i]).Keys
  {
    var more := order + [i];
    assert Indices(ps, more);
    assert more[..|order|] == order;
    forall n | 0 <= n < |more| ensures Stage(ps, init, more, n) {
      if n < |order| {
        assert Stage(ps, init, order, n);
        assert more[..n] == order[..n];
      }
    }
  }

  lemma SchedulePrefix(ps: seq<Provider>, init: Container, order: seq<nat>, n: nat)
    requires Schedule(ps, init, order) && n <= |order|
    ensures Schedule(ps, init, order[..n])
    ensures n < |order| ==> order[n] < |ps| && MayRegister(ps, init, order[..n], order[n])
  {
    IndicesPrefix(ps, order, n);
    forall k | 0 <= k < n ensures Stage(ps, init, order[..n], k) {
      assert Stage(ps, init, order, k);
      assert order[..n][..k] == order[..k];
    }
    if n < |order| {
      assert Stage(ps, init, order, n);
    }
  }

  lemma DoneSetSplit(ps: seq<Provider>, order: seq<nat>)
    requires InRange(ps, order) && order != []
    ensures DoneSet(ps, order) == DoneSet(ps, order[..|order| - 1]) + {ps[order[|order| - 1]]}
  {
    assert order == order[..|order| - 1] + [order[|order| - 1]];
  }

  lemma KeysOfOneMore(init: set<Key>, d: set<Provider>, p: Provider)
    ensures KeysOf(init, d + {p}) == KeysOf(init, d) + (if p.AddsKey() then {p.key} else {})
  {
  }

  lemma {:induction false} ReplayKeys(init: Container, ps: seq<Provider>, order: seq<nat>)
    requires InRange(ps, order)
    ensures Replay(init, ps, order).Keys == KeysOf(init.Keys, DoneSet(ps, order))
  {
    if order != [] {
      var last := |order| - 1;
      ReplayKeys(init, ps, order[..last]);
      DoneSetSplit(ps, order);
      KeysOfOneMore(init.Keys, DoneSet(ps, order[..last]), ps[order[last]]);
    }
  }

  lemma PendingOfIsSmaller(ps: seq<Provider>, order: seq<nat>)
    requires Indices(ps, order)
    ensures PendingOf(Listed(ps), DoneSet(ps, order)) <= PendingKeys(ps, order)
  {
    var d := DoneSet(ps, order);
    forall p | p in Listed(ps) && p !in d ensures p.key in PendingKeys(ps, order) {
      var i :| 0 <= i < |ps| && ps[i] == p;
      assert i !in order;
    }
  }

  /** Soundness: whatever is registered, in any order, lies in every closed set. */
  lemma {:induction false} ScheduleInEveryClosed(ps: seq<Provider>, init: Container, order: seq<nat>)
    requires Schedule(ps, init, order)
    ensures InEveryClosed(Listed(ps), init.Keys, DoneSet(ps, order))
    ensures DoneSet(ps, order) <= Listed(ps)
  {
    if order != [] {
      var last := |order| - 1;
      var before := order[..last];
      var s, d, p := Listed(ps), DoneSet(ps, before), ps[order[last]];
      SchedulePrefix(ps, init, order, last);
      ScheduleInEveryClosed(ps, init, before);
      ReplayKeys(init, ps, before);
      PendingOfIsSmaller(ps, before);
      ReadyIsMonotone(p, KeysOf(init.Keys, d), PendingKeys(ps, before), KeysOf(init.Keys, d), PendingOf(s, d));
      OneMoreStaysInside(s, init.Keys, d, p);
      DoneSetSplit(ps, order);
    }
  }

  /** A provider once ready stays ready, so a settled order never leaves one copy of a provider
      listed twice unregistered. */
  lemma {:induction false} DoneStaysReady(ps: seq<Provider>, init: Container, order: seq<nat>, p: Provider)
    requires Schedule(ps, init, order) && p in DoneSet(ps, order)
    ensures Ready(p, Replay(init, ps, order).Keys, PendingKeys(ps, order))
  {
    var last := |order| - 1;
    var before := order[..last];
    assert order == before + [order[last]];
    SchedulePrefix(ps, init, order, last);
    ScheduleExtend(ps, init, before, order[last]);
    if p != ps[order[last]] {
      DoneSetSplit(ps, order);
      DoneStaysReady(ps, init, before, p);
    }
    ReadyIsMonotone(p, Replay(init, ps, before).Keys, PendingKeys(ps, before),
                    Replay(init, ps, order).Keys, PendingKeys(ps, order));
  }

  lemma SettledPending(ps: seq<Provider>, init: Container, order: seq<nat>)
    requires Schedule(ps, init, order) && Settled(ps, init, order)
    ensures PendingKeys(ps, order) == PendingOf(Listed(ps), DoneSet(ps, order))
    ensures forall i :: 0 <= i < |ps| ==> (i in order <==> ps[i] in DoneSet(ps, order))
  {
    var d := DoneSet(ps, order);
    PendingOfIsSmaller(ps, order);
    forall i | 0 <= i < |ps| ensures i in order <==> ps[i] in d {
      if i in order {
        assert ps[i] in d;
      } else if ps[i] in d {
        DoneStaysReady(ps, init, order, ps[i]);
      }
    }
    forall j | 0 <= j < |ps| && j !in order ensures ps[j].key in PendingOf(Listed(ps), d) {
      assert ps[j] in Listed(ps) && ps[j] !in d;
    }
  }

  /** Completeness: a settled order has registered the least fixpoint, so every settled order,
      of every listing of the same providers, registers the same ones. */
  lemma SettledIsLeast(ps: seq<Provider>, init: Container, order: seq<nat>)
    requires Schedule(ps, init, order) && Settled(ps, init, order)
    ensures DoneSet(ps, order) == Least(Listed(ps), init.Keys)
    ensures Replay(init, ps, order).Keys == KeysOf(init.Keys, Least(Listed(ps), init.Keys))
  {
    var s, d := Listed(ps), DoneSet(ps, order);
    ScheduleInEveryClosed(ps, init, order);
    ReplayKeys(init, ps, order);
    SettledPending(ps, init, order);
    forall p | p in s && Ready(p, KeysOf(init.Keys, d), PendingOf(s, d)) ensures p in d {
      var i :| 0 <= i < |ps| && ps[i] == p;
    }
    LeastIsUnique(s, init.Keys, d, Least(s, init.Keys));
  }

  // ---------------------------------------------------------------- what providers receive

  /** An optional dependency that some provider of the same module publishes is present when its
      consumer is built, wherever the two are listed. */
  lemma OptionalSuppliedIsPresent(ps: seq<Provider>, init: Container, order: seq<nat>, n: nat, j: nat, k: Key)
    requires Schedule(ps, init, order) && n < |order| && j < |ps| && order[n] < |ps|
    requires k in ps[order[n]].OptionalDependencies()
    requires ps[j].AddsKey() && ps[j].key == k
    ensures Indices(ps, order[..n]) && k in Replay(init, ps, order[..n])
  {
    SchedulePrefix(ps, init, order, n);
    ReplayKeys(init, ps, order[..n]);
    if j in order[..n] {
      assert ps[j] in DoneSet(ps, order[..n]);
    }
  }

  /** No key of the listing is published twice or shadows one already in the container, and no
      provider built without declared dependencies wants an optional value of this module. */
  ghost predicate Unambiguous(ps: seq<Provider>, init: set<Key>) {
    && (forall i, j :: 0 <= i < j < |ps| && ps[i].AddsKey() && ps[j].AddsKey() ==> ps[i].key != ps[j].key)
    && (forall i :: 0 <= i < |ps| && ps[i].AddsKey() ==> ps[i].key !in init)
    && (forall i, j :: 0 <= i < |ps| && 0 <= j < |ps| && ps[i].BuildsUndeclared() && ps[j].AddsKey()
          ==> ps[j].key !in OptionalKeys(ps[i].fields))
  }

  /** Each published instance of `d` was built from the final contents of the container. */
  ghost predicate SelfConsistent(init: Container, d: set<Provider>, m: Container) {
    && m.Keys == KeysOf(init.Keys, d)
    && (forall k :: k in init ==> m[k] == init[k])
    && (forall p :: p in d && p.AddsKey() ==> m[p.key] == Built(p, Resolve(p.fields, m)))
  }

  ghost predicate InjectsKey(p: Provider, k: Key) {
    Inject(k) in p.fields || InjectOptional(k) in p.fields
  }

  /** No key `p` looks up and does not find can still be published by a provider outside `order`. */
  ghost predicate LookupsFinal(ps: seq<Provider>, order: seq<nat>, m: Container, p: Provider) {
    forall k, j :: InjectsKey(p, k) && k !in m && 0 <= j < |ps| && j !in order && ps[j].AddsKey() ==> ps[j].key != k
  }

  lemma LookupsFinalWhenRegistered(ps: seq<Provider>, init: Container, order: seq<nat>, i: nat)
    requires Schedule(ps, init, order) && i < |ps| && MayRegister(ps, init, order, i)
    requires Unambiguous(ps, init.Keys) && ps[i].AddsKey()
    ensures LookupsFinal(ps, order, Replay(init, ps, order), ps[i])
  {
    var m, p := Replay(init, ps, order), ps[i];
    forall k, j | InjectsKey(p, k) && k !in m && 0 <= j < |ps| && j !in order && ps[j].AddsKey()
      ensures ps[j].key != k
    {
      RequiredKeysAt(p.fields, k);
      OptionalKeysAt(p.fields, k);
      assert k in OptionalKeys(p.fields);
      assert ps[j].key in PendingKeys(ps, order);
    }
  }

  lemma ResolveUnchanged(fields: seq<Field>, m: Container, m': Container)
    requires forall f :: f in fields && !f.Plain? ==> Lookup(m, f.key) == Lookup(m', f.key)
    ensures Resolve(fields, m) == Resolve(fields, m')
  {
    forall i | 0 <= i < |fields| ensures FieldValue(fields[i], m) == FieldValue(fields[i], m') {
      assert fields[i] in fields;
    }
  }

  ghost predicate FinalSoFar(ps: seq<Provider>, init: Container, order: seq<nat>)
    requires Indices(ps, order)
  {
    var m := Replay(init, ps, order);
    && SelfConsistent(init, DoneSet(ps, order), m)
    && forall p :: p in DoneSet(ps, order) && p.AddsKey() ==> LookupsFinal(ps, order, m, p)
  }

  lemma LookupsUnchanged(ps: seq<Provider>, order: seq<nat>, m: Container, m': Container, i: nat, q: Provider)
    requires Indices(ps, order) && i < |ps| && i !in order && ps[i].AddsKey() && ps[i].key !in m
    requires m' == Registered(ps[i], m) && LookupsFinal(ps, order, m, q)
    ensures Resolve(q.fields, m) == Resolve(q.fields, m')
    ensures LookupsFinal(ps, order + [i], m', q)
  {
    forall f | f in q.fields && !f.Plain? ensures Lookup(m, f.key) == Lookup(m', f.key) {
      assert InjectsKey(q, f.key);
    }
    ResolveUnchanged(q.fields, m, m');
  }

  lemma ConsistencyCore(ps: seq<Provider>, init: Container, order: seq<nat>, m: Container, d: set<Provider>, i: nat)
    requires Indices(ps, order) && i < |ps| && i !in order
    requires SelfConsistent(init, d, m) && forall q :: q in d && q.AddsKey() ==> LookupsFinal(ps, order, m, q)
    requires ps[i].AddsKey() ==> LookupsFinal(ps, order, m, ps[i]) && ps[i].key !in m
    ensures SelfConsistent(init, d + {ps[i]}, Registered(ps[i], m))
    ensures forall q :: q in d + {ps[i]} && q.AddsKey() ==> LookupsFinal(ps, order + [i], Registered(ps[i], m), q)
  {
    var m', p := Registered(ps[i], m), ps[i];
    KeysOfOneMore(init.Keys, d, p);
    if p.AddsKey() {
      forall q | q in d + {p} && q.AddsKey()
        ensures m'[q.key] == Built(q, Resolve(q.fields, m')) && LookupsFinal(ps, order + [i], m', q)
      {
        LookupsUnchanged(ps, order, m, m', i, q);
      }
    }
  }

  lemma FreshKey(ps: seq<Provider>, init: Container, order: seq<nat>, i: nat)
    requires Schedule(ps, init, order) && i < |ps| && MayRegister(ps, init, order, i)
    requires Unambiguous(ps, init.Keys) && ps[i].AddsKey()
    ensures ps[i].key !in Replay(init, ps, order)
    ensures ps[i] !in DoneSet(ps, order)
  {
    ReplayKeys(init, ps, order);
    forall q | q in DoneSet(ps, order) && q.AddsKey() ensures q.key != ps[i].key {
      var j :| j in order && j < |ps| && ps[j] == q;
      assert j != i;
    }
  }

  lemma ConsistencyStep(ps: seq<Provider>, init: Container, order: seq<nat>, i: nat)
    requires Schedule(ps, init, order) && i < |ps| && MayRegister(ps, init, order, i)
    requires Unambiguous(ps, init.Keys) && FinalSoFar(ps, init, order)
    ensures Schedule(ps, init, order + [i]) && FinalSoFar(ps, init, order + [i])
  {
    var m, d, p := Replay(init, ps, order), DoneSet(ps, order), ps[i];
    ScheduleExtend(ps, init, order, i);
    DoneSetSplit(ps, order + [i]);
    assert (order + [i])[..|order|] == order;
    if p.AddsKey() {
      LookupsFinalWhenRegistered(ps, init, order, i);
      FreshKey(ps, init, order, i);
    }
    ConsistencyCore(ps, init, order, m, d, i);
  }

  /** Every published instance holds, field by field, what the container has now. */
  ghost predicate Wires(d: set<Provider>, m: Container) {
    forall p :: p in d && p.AddsKey() ==> Publishes(p, m, m)
  }

  lemma ConsistentWires(init: Container, d: set<Provider>, m: Container)
    requires SelfConsistent(init, d, m)
    requires forall p, k :: p in d && p.AddsKey() && Inject(k) in p.fields ==> k in m
    ensures Wires(d, m)
  {
    forall p | p in d && p.AddsKey() ensures Publishes(p, m, m) {
      assert p.key in m;
      ResolvedFieldsHold(p.fields, m);
    }
  }

  /** What a registered provider requires was there, and still is. */
  lemma {:induction false} RequiredStay(ps: seq<Provider>, init: Container, order: seq<nat>, p: Provider, k: Key)
    requires Schedule(ps, init, order) && p in DoneSet(ps, order) && p.AddsKey() && Inject(k) in p.fields
    ensures k in Replay(init, ps, order)
  {
    var last := |order| - 1;
    assert order == order[..last] + [order[last]];
    SchedulePrefix(ps, init, order, last);
    RequiredKeysAt(p.fields, k);
    if p != ps[order[last]] {
      DoneSetSplit(ps, order);
      RequiredStay(ps, init, order[..last], p, k);
    }
  }

  lemma {:induction false} ScheduleSelfConsistent(ps: seq<Provider>, init: Container, order: seq<nat>)
    requires Schedule(ps, init, order) && Unambiguous(ps, init.Keys)
    ensures FinalSoFar(ps, init, order)
    ensures Wires(DoneSet(ps, order), Replay(init, ps, order))
  {
    if order != [] {
      var last := |order| - 1;
      SchedulePrefix(ps, init, order, last);
      ScheduleSelfConsistent(ps, init, order[..last]);
      assert order == order[..last] + [order[last]];
      ConsistencyStep(ps, init, order[..last], order[last]);
    }
    forall p, k | p in DoneSet(ps, order) && p.AddsKey() && Inject(k) in p.fields ensures k in Replay(init, ps, order) {
      RequiredStay(ps, init, order, p, k);
    }
    ConsistentWires(init, DoneSet(ps, order), Replay(init, ps, order));
  }

  /** Two containers built from their own contents over the same providers are equal: induction
      on the instances, whose fields are strictly smaller. */
  lemma {:induction false} SameInstance(init: Container, d: set<Provider>, m: Container, m': Container, k: Key,
                                        v: Instance)
    requires SelfConsistent(init, d, m) && SelfConsistent(init, d, m')
    requires k in m && m[k] == v
    ensures k in m' && m'[k] == v
    decreases v
  {
    if k !in init {
      var p :| p in d && p.AddsKey() && p.key == k;
      var fs := p.fields;
      forall i | 0 <= i < |fs| ensures FieldValue(fs[i], m) == FieldValue(fs[i], m') {
        if !fs[i].Plain? && fs[i].key in m {
          assert v.fields[i] == Some(m[fs[i].key]);
          assert v.fields[i] < v;
          SameInstance(init, d, m, m', fs[i].key, m[fs[i].key]);
        }
      }
      assert Resolve(fs, m) == Resolve(fs, m');
    }
  }

  lemma SelfConsistentIsUnique(init: Container, d: set<Provider>, m: Container, m': Container)
    requires SelfConsistent(init, d, m) && SelfConsistent(init, d, m')
    ensures m == m'
  {
    forall k | k in m ensures k in m' && m'[k] == m[k] {
      SameInstance(init, d, m, m', k, m[k]);
    }
  }

  lemma SameListed(ps: seq<Provider>, qs: seq<Provider>)
    requires multiset(ps) == multiset(qs)
    ensures Listed(ps) == Listed(qs)
  {
    assert forall p :: p in ps <==> p in multiset(ps);
    assert forall p :: p in qs <==> p in multiset(qs);
  }

  /** Listing order is irrelevant to the whole object graph, not only to the set of keys: any two
      settled orders over any two listings of the same providers build equal containers. */
  lemma ObjectGraphOrderIndependent(ps: seq<Provider>, qs: seq<Provider>, init: Container, o1: seq<nat>, o2: seq<nat>)
    requires multiset(ps) == multiset(qs)
    requires Unambiguous(ps, init.Keys) && Unambiguous(qs, init.Keys)
    requires Schedule(ps, init, o1) && Settled(ps, init, o1)
    requires Schedule(qs, init, o2) && Settled(qs, init, o2)
    ensures Replay(init, ps, o1) == Replay(init, qs, o2)
  {
    SameListed(ps, qs);
    SettledIsLeast(ps, init, o1);
    SettledIsLeast(qs, init, o2);
    ScheduleSelfConsistent(ps, init, o1);
    ScheduleSelfConsistent(qs, init, o2);
    SelfConsistentIsUnique(init, DoneSet(ps, o1), Replay(init, ps, o1), Replay(init, qs, o2));
  }

  /** Both listings of the two providers register completely, into different containers. */
  ghost predicate OrderMatters(p: Provider, q: Provider, init: Container) {
    && Schedule([p, q], init, [0, 1]) && Settled([p, q], init, [0, 1])
    && Schedule([q, p], init, [0, 1]) && Settled([q, p], init, [0, 1])
    && Replay(init, [p, q], [0, 1]) != Replay(init, [q, p], [0, 1])
  }

  lemma BothRegister(p: Provider, q: Provider, init: Container)
    requires p.OptionalDependencies() == q.OptionalDependencies() == []
    requires AllPresent(RequiredKeys(p.fields), init.Keys) && AllPresent(RequiredKeys(q.fields), init.Keys)
    ensures Schedule([p, q], init, [0, 1]) && Settled([p, q], init, [0, 1])
    ensures Replay(init, [p, q], [0, 1]) == Registered(q, Registered(p, init))
  {
    var ps := [p, q];
    assert Schedule(ps, init, []) && Replay(init, ps, []) == init;
    assert MayRegister(ps, init, [], 0);
    ScheduleExtend(ps, init, [], 0);
    assert [] + [0] == [0];
    assert MayRegister(ps, init, [0], 1);
    ScheduleExtend(ps, init, [0], 1);
    var order: seq<nat> := [0] + [1];
    assert order == [0, 1] && order[0] == 0 && order[1] == 1;
    assert 0 in order && 1 in order;
  }

  /** Each clause of `Unambiguous` is needed.  When two providers publish one key, the last
      registration wins. */
  lemma SharedKeyDependsOnOrder()
    ensures var k := TypeId(0);
            OrderMatters(Provider(Concrete, Singleton, k, []), Provider(AsDyn, Singleton, k, []), map[])
  {
    var k := TypeId(0);
    var p, q := Provider(Concrete, Singleton, k, []), Provider(AsDyn, Singleton, k, []);
    BothRegister(p, q, map[]);
    BothRegister(q, p, map[]);
    assert Registered(q, Registered(p, map[]))[k].provider == q;
    assert Registered(p, Registered(q, map[]))[k].provider == p;
  }

  /** When a provider shadows a key the container began with, its consumer gets the old value or the
      new one. */
  lemma ShadowedKeyDependsOnOrder()
    ensures var k := TypeId(0);
            OrderMatters(Provider(Concrete, Singleton, k, []), Provider(Concrete, Singleton, TypeId(1), [Inject(k)]),
                      map[k := Value(0)])
  {
    var k, c := TypeId(0), TypeId(1);
    var init: Container := map[k := Value(0)];
    var p, q := Provider(Concrete, Singleton, k, []), Provider(Concrete, Singleton, c, [Inject(k)]);
    SingleField(Inject(k));
    BothRegister(p, q, init);
    BothRegister(q, p, init);
    assert Registered(q, Registered(p, init))[c].fields[0] == Some(Built(p, Resolve([], init)));
    assert Registered(p, Registered(q, init))[c].fields[0] == Some(Value(0));
  }

  /** When a provider built without declared dependencies looks up an optional key of its own module,
      it finds a value or nothing. */
  lemma UndeclaredLookupDependsOnOrder()
    ensures var k := TypeId(0);
            OrderMatters(Provider(Concrete, Singleton, k, []),
                         Provider(AsDyn, Deferred, TypeId(1), [InjectOptional(k)]), map[])
  {
    var k, c := TypeId(0), TypeId(1);
    var p, q := Provider(Concrete, Singleton, k, []), Provider(AsDyn, Deferred, c, [InjectOptional(k)]);
    SingleField(InjectOptional(k));
    BothRegister(p, q, map[]);
    BothRegister(q, p, map[]);
    assert Registered(q, Registered(p, map[]))[c].fields[0] == Some(Built(p, Resolve([], map[])));
    assert Registered(p, Registered(q, map[]))[c].fields[0] == None;
  }
}
