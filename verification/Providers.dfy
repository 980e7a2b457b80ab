/** What a decorator macro emits for one provider: which `#[inject]` fields become register-phase
    dependencies, what is built at registration, and which container key results. */
module Providers {
  import opened Basics

  /** A Rust `TypeId`; as a container key it names what is injected. */
  datatype TypeId = TypeId(n: int)

  type Key = TypeId

  /** A field of the decorated struct: left to `Default`, `#[inject] Arc<T>`, or
      `#[inject] Option<Arc<T>>`. */
  datatype Field = Plain | Inject(key: Key) | InjectOptional(key: Key)

  /** Singleton: `#[injectable]`.  Interceptor: built eagerly, but published as metadata only.
      Deferred: request-scoped injectables, controllers, cron jobs, which are built later and
      so report no register-phase dependencies. */
  datatype Build = Singleton | Interceptor | Deferred

  /** How a module lists the provider: `P` or `P as dyn Trait`. */
  datatype Binding = Concrete | AsDyn

  function RequiredKeys(fields: seq<Field>): seq<Key> {
    if fields == [] then []
    else (if fields[0].Inject? then [fields[0].key] else []) + RequiredKeys(fields[1..])
  }

  function OptionalKeys(fields: seq<Field>): seq<Key> {
    if fields == [] then []
    else (if fields[0].InjectOptional? then [fields[0].key] else []) + OptionalKeys(fields[1..])
  }

  datatype Provider = Provider(binding: Binding, build: Build, key: Key, fields: seq<Field>) {

    function Dependencies(): seq<Key> {
      if build.Deferred? then [] else RequiredKeys(fields)
    }

    function OptionalDependencies(): seq<Key> {
      if build.Deferred? then [] else OptionalKeys(fields)
    }

    /** Registration calls `from_container` now. */
    predicate BuildsNow() {
      binding.AsDyn? || !build.Deferred?
    }

    /** Registration publishes `key` in the container. */
    predicate AddsKey() {
      binding.AsDyn? || build.Singleton?
    }

    /** Built now although its dependencies were never declared. */
    predicate BuildsUndeclared() {
      binding.AsDyn? && build.Deferred?
    }
  }

  /** An instance remembers what each field was resolved to, so equality of instances is
      equality of whole object graphs. */
  datatype Instance = Value(tag: int) | Built(provider: Provider, fields: seq<Option<Instance>>)

  type Container = map<Key, Instance>

  function Lookup(c: Container, k: Key): Option<Instance> {
    if k in c then Some(c[k]) else None
  }

  lemma SingleField(f: Field)
    ensures RequiredKeys([f]) == if f.Inject? then [f.key] else []
    ensures OptionalKeys([f]) == if f.InjectOptional? then [f.key] else []
  {
    assert [f][1..] == [];
  }

  lemma Regroup(x: seq<Key>, y: seq<Key>, z: seq<Key>)
    ensures x + (y + z) == (x + y) + z
  {
  }

  /** Both key vectors are what the fields contribute, one after another. */
  lemma {:induction false} KeysInFieldOrder(a: seq<Field>, b: seq<Field>)
    ensures RequiredKeys(a + b) == RequiredKeys(a) + RequiredKeys(b)
    ensures OptionalKeys(a + b) == OptionalKeys(a) + OptionalKeys(b)
  {
    if a == [] {
      assert a + b == b;
    } else {
      var more, f := a + b, a[0];
      assert more != [] && more[0] == f && more[1..] == a[1..] + b;
      KeysInFieldOrder(a[1..], b);
      Regroup(if f.Inject? then [f.key] else [], RequiredKeys(a[1..]), RequiredKeys(b));
      Regroup(if f.InjectOptional? then [f.key] else [], OptionalKeys(a[1..]), OptionalKeys(b));
    }
  }

  lemma {:induction false} RequiredKeysAt(fields: seq<Field>, k: Key)
    ensures k in RequiredKeys(fields) <==> Inject(k) in fields
  {
    if fields != [] {
      RequiredKeysAt(fields[1..], k);
      assert fields == [fields[0]] + fields[1..];
    }
  }

  lemma {:induction false} OptionalKeysAt(fields: seq<Field>, k: Key)
    ensures k in OptionalKeys(fields) <==> InjectOptional(k) in fields
  {
    if fields != [] {
      OptionalKeysAt(fields[1..], k);
      assert fields == [fields[0]] + fields[1..];
    }
  }

  /** The macro's pass over the fields of a struct, filling both key vectors. */
  method BuildInjectableBody(fields: seq<Field>) returns (depKeys: seq<Key>, optKeys: seq<Key>)
    ensures depKeys == RequiredKeys(fields)
    ensures optKeys == OptionalKeys(fields)
  {
    depKeys, optKeys := [], [];
    assert fields[0..] == fields;
    for i := 0 to |fields|
      invariant depKeys + RequiredKeys(fields[i..]) == RequiredKeys(fields)
      invariant optKeys + OptionalKeys(fields[i..]) == OptionalKeys(fields)
    {
      assert fields[i..][1..] == fields[i + 1..];
      match fields[i] {
        case Plain =>
        case Inject(k) => depKeys := depKeys + [k];
        case InjectOptional(k) => optKeys := optKeys + [k];
      }
    }
  }

  /** What one field resolves to; `None` stands for a missing optional value and for a default. */
  function FieldValue(f: Field, c: Container): Option<Instance> {
    if f.Plain? then None else Lookup(c, f.key)
  }

  function Resolve(fields: seq<Field>, c: Container): seq<Option<Instance>> {
    seq(|fields|, i requires 0 <= i < |fields| => FieldValue(fields[i], c))
  }

  /** `from_container`: fields are initialised in order and the first absent `Arc<T>` panics in
      its `.expect`, which is the outer `None` here. */
  function FromContainer(fields: seq<Field>, c: Container): Option<seq<Option<Instance>>> {
    if fields == [] then Some([])
    else if fields[0].Inject? && fields[0].key !in c then None
    else
      match FromContainer(fields[1..], c)
      case None => None
      case Some(rest) => Some([FieldValue(fields[0], c)] + rest)
  }

  predicate AllPresent(ks: seq<Key>, keys: set<Key>) {
    forall k :: k in ks ==> k in keys
  }

  /** `values` is what the fields come to over `c`: an injected field holds the very instance under its
      key, an optional one holds it if it is there, and a plain one is left to its default. */
  ghost predicate FieldsHold(fields: seq<Field>, c: Container, values: seq<Option<Instance>>) {
    |values| == |fields| && forall i :: 0 <= i < |fields| ==>
      match fields[i]
      case Plain => values[i] == None
      case Inject(k) => k in c && values[i] == Some(c[k])
      case InjectOptional(k) => if k in c then values[i] == Some(c[k]) else values[i] == None
  }

  lemma ResolvedFieldsHold(fields: seq<Field>, c: Container)
    requires forall k :: Inject(k) in fields ==> k in c
    ensures FieldsHold(fields, c, Resolve(fields, c))
  {
    assert forall i :: 0 <= i < |fields| ==> fields[i] in fields;
  }

  /** The declared keys are exactly those whose absence makes construction panic. */
  lemma {:induction false} ExpectFiresIffKeyMissing(fields: seq<Field>, c: Container)
    ensures FromContainer(fields, c).Some? <==> AllPresent(RequiredKeys(fields), c.Keys)
    ensures FromContainer(fields, c).Some? ==> FromContainer(fields, c).value == Resolve(fields, c)
  {
    if fields != [] {
      ExpectFiresIffKeyMissing(fields[1..], c);
      if fields[0].Inject? {
        assert fields[0].key in RequiredKeys(fields);
      }
      assert forall k :: k in RequiredKeys(fields[1..]) ==> k in RequiredKeys(fields);
      assert Resolve(fields, c) == [FieldValue(fields[0], c)] + Resolve(fields[1..], c);
    }
  }

  /** Construction panics exactly when the key of some `Arc` field is not there; otherwise every field
      holds what the container has for it. */
  lemma ConstructionExactly(fields: seq<Field>, c: Container)
    ensures FromContainer(fields, c).Some? <==> forall k :: Inject(k) in fields ==> k in c
    ensures FromContainer(fields, c).Some? ==> FieldsHold(fields, c, FromContainer(fields, c).value)
  {
    ExpectFiresIffKeyMissing(fields, c);
    forall k ensures k in RequiredKeys(fields) <==> Inject(k) in fields { RequiredKeysAt(fields, k); }
    if forall k :: Inject(k) in fields ==> k in c {
      ResolvedFieldsHold(fields, c);
    }
  }

  /** The readiness test of the `#[module]` loop. */
  predicate Ready(p: Provider, keys: set<Key>, pending: set<Key>) {
    && AllPresent(p.Dependencies(), keys)
    && forall k :: k in p.OptionalDependencies() ==> k in keys || k !in pending
  }

  lemma ReadyIsMonotone(p: Provider, keys: set<Key>, pending: set<Key>, keys': set<Key>, pending': set<Key>)
    requires Ready(p, keys, pending) && keys <= keys' && pending' <= pending
    ensures Ready(p, keys', pending')
  {
  }

  // ---------------------------------------------------------------- the declarative fixpoint

  ghost function KeysOf(init: set<Key>, d: set<Provider>): set<Key> {
    init + set p | p in d && p.AddsKey() :: p.key
  }

  ghost function PendingOf(s: set<Provider>, d: set<Provider>): set<Key> {
    set p | p in s && p !in d :: p.key
  }

  /** `d` is closed when the readiness rule adds nothing to it. */
  ghost predicate Closed(s: set<Provider>, init: set<Key>, d: set<Provider>) {
    forall p :: p in s && Ready(p, KeysOf(init, d), PendingOf(s, d)) ==> p in d
  }

  ghost predicate InEveryClosed(s: set<Provider>, init: set<Key>, d: set<Provider>) {
    forall c: set<Provider> :: Closed(s, init, c) ==> d <= c
  }

  /** The least fixpoint of the readiness rule, whatever order providers are listed in. */
  ghost predicate IsLeast(s: set<Provider>, init: set<Key>, d: set<Provider>) {
    d <= s && Closed(s, init, d) && InEveryClosed(s, init, d)
  }

  lemma OneMoreStaysInside(s: set<Provider>, init: set<Key>, d: set<Provider>, p: Provider)
    requires p in s && InEveryClosed(s, init, d) && Ready(p, KeysOf(init, d), PendingOf(s, d))
    ensures InEveryClosed(s, init, d + {p})
  {
    forall c: set<Provider> | Closed(s, init, c) ensures d + {p} <= c {
      ReadyIsMonotone(p, KeysOf(init, d), PendingOf(s, d), KeysOf(init, c), PendingOf(s, c));
    }
  }

  ghost function Saturate(s: set<Provider>, init: set<Key>, d: set<Provider>): (r: set<Provider>)
    requires d <= s && InEveryClosed(s, init, d)
    ensures IsLeast(s, init, r)
    decreases s - d
  {
    if Closed(s, init, d) then d
    else
      var p :| p in s && p !in d && Ready(p, KeysOf(init, d), PendingOf(s, d));
      OneMoreStaysInside(s, init, d, p);
      Saturate(s, init, d + {p})
  }

  ghost function Least(s: set<Provider>, init: set<Key>): (d: set<Provider>)
    ensures IsLeast(s, init, d)
  {
    Saturate(s, init, {})
  }

  lemma LeastIsUnique(s: set<Provider>, init: set<Key>, d: set<Provider>, e: set<Provider>)
    requires IsLeast(s, init, d) && IsLeast(s, init, e)
    ensures d == e
  {
  }

  /** No registration is premature: what the fixpoint registers is ready over all of it. */
  lemma LeastAreReady(s: set<Provider>, init: set<Key>, p: Provider)
    requires p in Least(s, init)
    ensures Ready(p, KeysOf(init, Least(s, init)), PendingOf(s, Least(s, init)))
  {
    var d := Least(s, init);
    var c := d - {p};
    if !Ready(p, KeysOf(init, d), PendingOf(s, d)) {
      forall q | q in s && Ready(q, KeysOf(init, c), PendingOf(s, c)) ensures q in c {
        ReadyIsMonotone(q, KeysOf(init, c), PendingOf(s, c), KeysOf(init, d), PendingOf(s, d));
      }
      assert Closed(s, init, c);
    }
  }

  /** Every dependency the provider still lacks is one a pending provider would supply, and it
      does lack one: the loop's test for a cyclic provider. */
  predicate WaitsOnPending(p: Provider, keys: set<Key>, pending: set<Key>) {
    && !AllPresent(p.Dependencies(), keys)
    && forall k :: k in p.Dependencies() && k !in keys ==> k in pending
  }

  /** How a module's registration ends, read off the least fixpoint alone. */
  datatype Verdict =
    | AllRegistered
    | CycleAmong(stuck: set<Provider>)
    | CannotRegister(culprits: set<Provider>)

  /** The stuck providers that do not merely wait on each other. */
  ghost function Culprits(s: set<Provider>, d: set<Provider>, keys: set<Key>, pending: set<Key>): set<Provider> {
    set p | p in s && p !in d && !WaitsOnPending(p, keys, pending)
  }

  ghost function VerdictOf(s: set<Provider>, init: set<Key>): Verdict {
    var d := Least(s, init);
    var culprits := Culprits(s, d, KeysOf(init, d), PendingOf(s, d));
    if s <= d then AllRegistered
    else if culprits == {} then CycleAmong(s - d)
    else CannotRegister(culprits)
  }
}
