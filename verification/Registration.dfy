/** The container builder and the fixpoint loop that `#[module]` emits for its providers. */
module Registration {
  import opened Basics
  import opened Providers
  import opened Schedules
  import opened Stalls
  import Graph

  type ModuleId = TypeId

  /** An async factory: its output key and what it makes of the container it is given, `None`
      being the `Err` that aborts the build. */
  datatype Factory = Factory(key: Key, run: Container -> Option<Instance>)

  /** How one module's loop ends; the last three are panics.  Indices point into `providers`. */
  datatype Outcome =
    | Completed
    | Cycle(cyclic: seq<nat>)
    | Unprovided(unprovided: seq<nat>)
    | ConstructorPanic(at: nat)

  /** The loop's outcome in terms of the providers alone. */
  ghost function Summary(ps: seq<Provider>, o: Outcome): Verdict
    requires !o.ConstructorPanic?
  {
    match o
    case Completed => AllRegistered
    case Cycle(ids) => CycleAmong(set i | i in ids && i < |ps| :: ps[i])
    case Unprovided(ids) => CannotRegister(set i | i in ids && i < |ps| :: ps[i])
  }

  /** What one step of the loop did with a provider. */
  datatype StepResult = Waits | Registers | Panics

  /** The flags mark exactly the registered indices. */
  ghost predicate Flags(done: array<bool>, n: nat, order: seq<nat>)
    reads done
  {
    done.Length == n && forall i :: 0 <= i < n ==> (done[i] <==> i in order)
  }

  // ---------------------------------------------------------------- constructor panics

  /** Built now, never declared what it injects, and some of that is not there. */
  predicate MustPanic(p: Provider, keys: set<Key>) {
    p.BuildsUndeclared() && !AllPresent(RequiredKeys(p.fields), keys)
  }

  /** A constructor `.expect` fires for the provider at `i`, which was ready to be registered. */
  ghost predicate PanicsAt(ps: seq<Provider>, init: Container, order: seq<nat>, i: nat) {
    && Indices(ps, order) && i < |ps| && i !in order
    && Ready(ps[i], Replay(init, ps, order).Keys, PendingKeys(ps, order))
    && ps[i].BuildsNow()
    && !AllPresent(RequiredKeys(ps[i].fields), Replay(init, ps, order).Keys)
  }

  /** The keys after one step over a provider that did not panic. */
  ghost function PassStep(p: Provider, keys: set<Key>, pending: set<Key>): set<Key> {
    if Ready(p, keys, pending) && p.AddsKey() then keys + {p.key} else keys
  }

  /** The keys held when the first round reaches position `n`, if nothing panicked before. */
  ghost function FirstPass(ps: seq<Provider>, keys: set<Key>, n: nat): (held: set<Key>)
    requires n <= |ps|
    ensures keys <= held
  {
    if n == 0 then keys
    else PassStep(ps[n - 1], FirstPass(ps, keys, n - 1), PendingKeys(ps, []))
  }

  ghost predicate PassPanics(ps: seq<Provider>, keys: set<Key>, n: nat) {
    n < |ps| && MustPanic(ps[n], FirstPass(ps, keys, n))
  }

  /** Whether this very listing panics in a constructor: one pass over it tells, because a provider
      without declared dependencies never waits for the second round. */
  ghost predicate ListingPanics(ps: seq<Provider>, keys: set<Key>) {
    exists n: nat :: PassPanics(ps, keys, n)
  }

  ghost predicate FirstPanic(ps: seq<Provider>, keys: set<Key>, n: nat) {
    PassPanics(ps, keys, n) && forall j: nat :: j < n ==> !PassPanics(ps, keys, j)
  }

  ghost predicate UndeclaredDone(ps: seq<Provider>, order: seq<nat>) {
    forall j :: 0 <= j < |ps| && ps[j].BuildsUndeclared() ==> j in order
  }

  lemma NoneMustPanic(ps: seq<Provider>, keys: set<Key>)
    requires forall p :: p in ps ==> !MustPanic(p, keys)
    ensures !ListingPanics(ps, keys)
  {
    forall n: nat ensures !PassPanics(ps, keys, n) {
      if n < |ps| {
        assert !MustPanic(ps[n], keys);
      }
    }
  }

  /** Only a provider listed `as dyn` whose own macro declared no dependencies can panic in its
      constructor, and only over a key the container did not hold when its module began. */
  lemma ConstructorPanicCause(ps: seq<Provider>, init: Container, order: seq<nat>, i: nat)
    requires InRange(ps, order) && PanicsAt(ps, init, order, i)
    ensures MustPanic(ps[i], init.Keys)
  {
    ReplayKeys(init, ps, order);
  }

  /** Some run of the loop, over this listing, has a constructor panic. */
  ghost predicate MayPanic(ps: seq<Provider>, init: Container) {
    exists order: seq<nat>, i: nat :: Schedule(ps, init, order) && PanicsAt(ps, init, order, i)
  }

  ghost predicate Permutes(qs: seq<Provider>, ps: seq<Provider>) {
    multiset(qs) == multiset(ps)
  }

  lemma MoveToFront(ps: seq<Provider>, p: Provider) returns (qs: seq<Provider>)
    requires p in ps
    ensures multiset(qs) == multiset(ps) && qs != [] && qs[0] == p
  {
    var i :| 0 <= i < |ps| && ps[i] == p;
    qs := [p] + (ps[..i] + ps[i + 1..]);
    assert ps == ps[..i] + [ps[i]] + ps[i + 1..];
  }

  lemma ListedFirstPanics(ps: seq<Provider>, init: Container, p: Provider) returns (qs: seq<Provider>)
    requires p in ps && MustPanic(p, init.Keys)
    ensures Permutes(qs, ps) && ListingPanics(qs, init.Keys) && MayPanic(qs, init)
  {
    qs := MoveToFront(ps, p);
    assert PassPanics(qs, init.Keys, 0);
    assert Schedule(qs, init, []) && PanicsAt(qs, init, [], 0);
  }

  lemma PanicHasCause(qs: seq<Provider>, init: Container) returns (p: Provider)
    requires ListingPanics(qs, init.Keys) || MayPanic(qs, init)
    ensures p in qs && MustPanic(p, init.Keys)
  {
    if ListingPanics(qs, init.Keys) {
      var n: nat :| PassPanics(qs, init.Keys, n);
      p := qs[n];
    } else {
      var order: seq<nat>, i: nat :| Schedule(qs, init, order) && PanicsAt(qs, init, order, i);
      ConstructorPanicCause(qs, init, order, i);
      p := qs[i];
    }
  }

  lemma SameMembers(qs: seq<Provider>, ps: seq<Provider>, p: Provider)
    requires multiset(qs) == multiset(ps) && p in qs
    ensures p in ps
  {
    assert p in multiset(qs);
  }

  /** The exact condition for a constructor panic in some listing of a module: a provider `as dyn`
      whose macro declares no dependencies injects a key the container does not hold beforehand.
      With one, the listing that puts it first panics; without, no run over any listing does. */
  lemma SomeListingPanicsExactly(ps: seq<Provider>, init: Container)
    ensures (exists p :: p in ps && MustPanic(p, init.Keys)) <==>
              exists qs :: Permutes(qs, ps) && ListingPanics(qs, init.Keys)
    ensures (exists p :: p in ps && MustPanic(p, init.Keys)) <==> exists qs :: Permutes(qs, ps) && MayPanic(qs, init)
  {
    if p :| p in ps && MustPanic(p, init.Keys) {
      var qs := ListedFirstPanics(ps, init, p);
      assert Permutes(qs, ps);
    }
    forall qs | Permutes(qs, ps) && (ListingPanics(qs, init.Keys) || MayPanic(qs, init))
      ensures exists p :: p in ps && MustPanic(p, init.Keys)
    {
      var p := PanicHasCause(qs, init);
      SameMembers(qs, ps, p);
    }
  }

  // ---------------------------------------------------------------- the verdict

  /** The numbers below `n` that satisfy `f`, ascending. */
  ghost function Where(n: nat, f: nat -> bool): seq<nat> {
    if n == 0 then []
    else if f(n - 1) then Where(n - 1, f) + [n - 1]
    else Where(n - 1, f)
  }

  lemma {:induction false} WhereMember(n: nat, f: nat -> bool, j: int)
    ensures j in Where(n, f) <==> 0 <= j < n && f(j)
  {
    if n > 0 {
      WhereMember(n - 1, f, j);
    }
  }

  ghost predicate Ascending(ids: seq<nat>) {
    forall i, j :: 0 <= i < j < |ids| ==> ids[i] < ids[j]
  }

  lemma {:induction false} WhereAscends(n: nat, f: nat -> bool)
    ensures Ascending(Where(n, f)) && forall j :: j in Where(n, f) ==> j < n
  {
    if n > 0 {
      WhereAscends(n - 1, f);
      var ids := Where(n - 1, f);
      assert forall i :: 0 <= i < |ids| ==> ids[i] in ids;
    }
  }

  /** Picks the stuck providers that do, or do not, merely wait on pending ones. */
  ghost function StuckAs(ps: seq<Provider>, order: seq<nat>, keys: set<Key>, pending: set<Key>,
                         waits: bool): nat -> bool {
    (j: nat) => j < |ps| && j !in order && WaitsOnPending(ps[j], keys, pending) == waits
  }

  /** The indices a stall reports, in listing order. */
  ghost predicate Diagnosis(ps: seq<Provider>, order: seq<nat>, keys: set<Key>, pending: set<Key>, o: Outcome) {
    var cyclic := Where(|ps|, StuckAs(ps, order, keys, pending, true));
    var unprovided := Where(|ps|, StuckAs(ps, order, keys, pending, false));
    o == if unprovided != [] then Unprovided(unprovided) else Cycle(cyclic)
  }

  /** `ids` lists, in listing order, the stuck providers that merely wait on pending ones, or those that
      do not. */
  ghost predicate ListsStuck(ps: seq<Provider>, order: seq<nat>, keys: set<Key>, pending: set<Key>, waits: bool,
                             ids: seq<nat>) {
    && Ascending(ids)
    && forall j: nat :: j in ids <==>
         && j < |ps| && j !in order
         && (waits <==> && (exists k :: k in ps[j].Dependencies() && k !in keys)
                        && forall k :: k in ps[j].Dependencies() && k !in keys ==> k in pending)
  }

  lemma StuckListed(ps: seq<Provider>, order: seq<nat>, keys: set<Key>, pending: set<Key>, waits: bool, ids: seq<nat>)
    requires ids == Where(|ps|, StuckAs(ps, order, keys, pending, waits))
    ensures forall j :: j in ids <==> 0 <= j < |ps| && j !in order && WaitsOnPending(ps[j], keys, pending) == waits
  {
    forall j: int ensures j in ids <==> 0 <= j < |ps| && j !in order && WaitsOnPending(ps[j], keys, pending) == waits {
      WhereMember(|ps|, StuckAs(ps, order, keys, pending, waits), j);
    }
  }

  /** A stall names providers that lack something for good whenever there are any, and only then. */
  lemma DiagnosisExactly(ps: seq<Provider>, order: seq<nat>, keys: set<Key>, pending: set<Key>, o: Outcome)
    requires Diagnosis(ps, order, keys, pending, o)
    ensures o.Unprovided? ==> o.unprovided != [] && ListsStuck(ps, order, keys, pending, false, o.unprovided)
    ensures o.Cycle? ==> ListsStuck(ps, order, keys, pending, false, [])
                         && ListsStuck(ps, order, keys, pending, true, o.cyclic)
    ensures o.Unprovided? || o.Cycle?
  {
    forall waits: bool
      ensures ListsStuck(ps, order, keys, pending, waits, Where(|ps|, StuckAs(ps, order, keys, pending, waits)))
    {
      WhereAscends(|ps|, StuckAs(ps, order, keys, pending, waits));
      StuckListed(ps, order, keys, pending, waits, Where(|ps|, StuckAs(ps, order, keys, pending, waits)));
    }
  }

  /** A run of the loop that ends without a constructor panic, and what it reports. */
  ghost predicate LoopEnds(ps: seq<Provider>, init: Container, order: seq<nat>, o: Outcome) {
    && Schedule(ps, init, order) && Settled(ps, init, order)
    && if forall i :: 0 <= i < |ps| ==> i in order then o == Completed
       else Diagnosis(ps, order, Replay(init, ps, order).Keys, PendingKeys(ps, order), o)
  }

  lemma CulpritsNamed(ps: seq<Provider>, order: seq<nat>, d: set<Provider>, keys: set<Key>, pending: set<Key>,
                      ids: seq<nat>)
    requires forall i :: 0 <= i < |ps| ==> (i in order <==> ps[i] in d)
    requires forall j :: j in ids <==> 0 <= j < |ps| && j !in order && WaitsOnPending(ps[j], keys, pending) == false
    ensures (set i | i in ids && i < |ps| :: ps[i]) == Culprits(Listed(ps), d, keys, pending)
    ensures forall j :: j in ids ==> ps[j] in Culprits(Listed(ps), d, keys, pending)
  {
    var named, culprits := set i | i in ids && i < |ps| :: ps[i], Culprits(Listed(ps), d, keys, pending);
    forall p | p in culprits ensures p in named {
      var i :| 0 <= i < |ps| && ps[i] == p;
      assert i in ids;
    }
  }

  lemma StuckNamed(ps: seq<Provider>, order: seq<nat>, d: set<Provider>, keys: set<Key>, pending: set<Key>,
                   ids: seq<nat>)
    requires forall i :: 0 <= i < |ps| ==> (i in order <==> ps[i] in d)
    requires forall j :: j in ids <==> 0 <= j < |ps| && j !in order && WaitsOnPending(ps[j], keys, pending) == true
    requires Culprits(Listed(ps), d, keys, pending) == {}
    ensures (set i | i in ids && i < |ps| :: ps[i]) == Listed(ps) - d
  {
    var named := set i | i in ids && i < |ps| :: ps[i];
    forall p | p in Listed(ps) - d ensures p in named {
      var i :| 0 <= i < |ps| && ps[i] == p;
      assert p !in Culprits(Listed(ps), d, keys, pending);
      assert i in ids;
    }
  }

  lemma ReportedSets(ps: seq<Provider>, order: seq<nat>, d: set<Provider>, keys: set<Key>, pending: set<Key>,
                     o: Outcome)
    requires forall i :: 0 <= i < |ps| ==> (i in order <==> ps[i] in d)
    requires Diagnosis(ps, order, keys, pending, o)
    ensures o.Cycle? ==> Culprits(Listed(ps), d, keys, pending) == {} && Summary(ps, o) == CycleAmong(Listed(ps) - d)
    ensures o.Unprovided? ==> Culprits(Listed(ps), d, keys, pending) != {}
                              && Summary(ps, o) == CannotRegister(Culprits(Listed(ps), d, keys, pending))
  {
    StuckListed(ps, order, keys, pending, true, Where(|ps|, StuckAs(ps, order, keys, pending, true)));
    StuckListed(ps, order, keys, pending, false, Where(|ps|, StuckAs(ps, order, keys, pending, false)));
    if o.Unprovided? {
      CulpritsNamed(ps, order, d, keys, pending, o.unprovided);
      assert o.unprovided[0] in o.unprovided;
    } else {
      CulpritsNamed(ps, order, d, keys, pending, []);
      StuckNamed(ps, order, d, keys, pending, o.cyclic);
    }
  }

  lemma VerdictFromSets(ps: seq<Provider>, order: seq<nat>, init: set<Key>, keys: set<Key>, pending: set<Key>,
                        o: Outcome)
    requires exists i :: 0 <= i < |ps| && i !in order
    requires var d := Least(Listed(ps), init);
      && keys == KeysOf(init, d) && pending == PendingOf(Listed(ps), d)
      && forall i :: 0 <= i < |ps| ==> (i in order <==> ps[i] in d)
    requires Diagnosis(ps, order, keys, pending, o)
    ensures Summary(ps, o) == VerdictOf(Listed(ps), init)
  {
    var i :| 0 <= i < |ps| && i !in order;
    assert ps[i] in Listed(ps);
    ReportedSets(ps, order, Least(Listed(ps), init), keys, pending, o);
  }

  lemma CompletedVerdict(ps: seq<Provider>, init: Container, order: seq<nat>)
    requires Schedule(ps, init, order) && Settled(ps, init, order)
    requires forall i :: 0 <= i < |ps| ==> i in order
    ensures VerdictOf(Listed(ps), init.Keys) == AllRegistered
    ensures Replay(init, ps, order).Keys == KeysOf(init.Keys, Least(Listed(ps), init.Keys))
  {
    SettledIsLeast(ps, init, order);
    forall p | p in Listed(ps) ensures p in DoneSet(ps, order) {
      var i :| 0 <= i < |ps| && ps[i] == p;
      assert i in order;
    }
  }

  /** The indices the loop reports are the verdict of the least fixpoint. */
  lemma StalledVerdict(ps: seq<Provider>, init: Container, order: seq<nat>, o: Outcome)
    requires Schedule(ps, init, order) && Settled(ps, init, order)
    requires exists i :: 0 <= i < |ps| && i !in order
    requires Diagnosis(ps, order, Replay(init, ps, order).Keys, PendingKeys(ps, order), o)
    ensures Summary(ps, o) == VerdictOf(Listed(ps), init.Keys)
    ensures Replay(init, ps, order).Keys == KeysOf(init.Keys, Least(Listed(ps), init.Keys))
  {
    SettledIsLeast(ps, init, order);
    SettledPending(ps, init, order);
    VerdictFromSets(ps, order, init.Keys, Replay(init, ps, order).Keys, PendingKeys(ps, order), o);
  }

  /** Whatever the loop did on the way, it ends in the verdict and with the keys of the least
      fixpoint. */
  lemma LoopVerdict(ps: seq<Provider>, init: Container, order: seq<nat>, o: Outcome)
    requires LoopEnds(ps, init, order, o)
    ensures Summary(ps, o) == VerdictOf(Listed(ps), init.Keys)
    ensures Replay(init, ps, order).Keys == KeysOf(init.Keys, Least(Listed(ps), init.Keys))
  {
    if forall i :: 0 <= i < |ps| ==> i in order {
      CompletedVerdict(ps, init, order);
    } else {
      StalledVerdict(ps, init, order, o);
    }
  }

  /** Listing order is irrelevant: two runs, over two listings of the same providers, report the same
      outcome, the same stuck providers and culprits, and leave the same keys. */
  lemma OrderIndependence(ps: seq<Provider>, o1: seq<nat>, r1: Outcome, qs: seq<Provider>, o2: seq<nat>, r2: Outcome,
                          init: Container)
    requires multiset(ps) == multiset(qs)
    requires LoopEnds(ps, init, o1, r1) && LoopEnds(qs, init, o2, r2)
    ensures Summary(ps, r1) == Summary(qs, r2)
    ensures DoneSet(ps, o1) == DoneSet(qs, o2)
    ensures Replay(init, ps, o1).Keys == Replay(init, qs, o2).Keys
  {
    SameListed(ps, qs);
    LoopVerdict(ps, init, o1, r1);
    LoopVerdict(qs, init, o2, r2);
    SettledIsLeast(ps, init, o1);
    SettledIsLeast(qs, init, o2);
  }

  /** What a module's loop reports, as a function of its listing and the keys it starts from. */
  ghost predicate Reports(ps: seq<Provider>, keys: set<Key>, o: Outcome) {
    if ListingPanics(ps, keys) then o.ConstructorPanic? && FirstPanic(ps, keys, o.at)
    else !o.ConstructorPanic? && Summary(ps, o) == VerdictOf(Listed(ps), keys)
  }

  /** The module's loop gets through. */
  ghost predicate BodyCompletes(ps: seq<Provider>, keys: set<Key>) {
    !ListingPanics(ps, keys) && VerdictOf(Listed(ps), keys) == AllRegistered
  }

  /** Whether it does can be read off the listing and the keys it starts from: no constructor panics in
      one pass, nothing required is missing, and nothing waits in a circle. */
  lemma BodyCompletesExactly(ps: seq<Provider>, keys: set<Key>)
    requires DistinctKeys(Listed(ps))
    ensures BodyCompletes(ps, keys) <==>
              && !ListingPanics(ps, keys)
              && LocallySupplied(Listed(ps), keys) && Graph.Acyclic(WaitsGraph(Listed(ps), keys))
  {
    CompletesExactly(Listed(ps), keys);
  }

  // ---------------------------------------------------------------- rounds

  ghost predicate NoneReady(ps: seq<Provider>, n: nat, order: seq<nat>, keys: set<Key>, pending: set<Key>)
    requires n <= |ps|
  {
    n > 0 ==> NoneReady(ps, n - 1, order, keys, pending) && (n - 1 in order || !Ready(ps[n - 1], keys, pending))
  }

  /** What the first round has established about the first `n` providers. */
  ghost predicate FirstRound(ps: seq<Provider>, n: nat, init: set<Key>, order: seq<nat>, keys: set<Key>)
    requires n <= |ps|
  {
    && keys == FirstPass(ps, init, n)
    && (forall j: nat :: j < n ==> !PassPanics(ps, init, j))
    && (forall j :: j in order ==> j < n)
    && (forall j :: 0 <= j < n && ps[j].BuildsUndeclared() ==> j in order)
  }

  /** Constructors panic in the first round or not at all. */
  ghost predicate PassState(ps: seq<Provider>, n: nat, init: set<Key>, order0: seq<nat>, order: seq<nat>,
                            keys: set<Key>)
    requires n <= |ps|
  {
    if order0 == [] then FirstRound(ps, n, init, order, keys) else UndeclaredDone(ps, order)
  }

  /** The two flags of a round. */
  datatype Flagged = Flagged(anyPending: bool, progressed: bool)

  /** What a round did, for the proof: the registrations so far and one provider left waiting. */
  datatype Trail = Trail(order: seq<nat>, stuck: nat)

  /** What a round has established about the first `n` providers. */
  ghost predicate RoundState(ps: seq<Provider>, n: nat, init: set<Key>, order0: seq<nat>, keys: set<Key>,
                             pending: set<Key>, state: Flagged, trail: Trail)
    requires n <= |ps|
  {
    var order := trail.order;
    && PassState(ps, n, init, order0, order, keys)
    && (if state.progressed then |order| > |order0| else order == order0 && NoneReady(ps, n, order, keys, pending))
    && (!state.anyPending ==> forall j :: 0 <= j < n ==> j in order)
    && (state.anyPending && !state.progressed ==> trail.stuck < n && trail.stuck !in order)
  }

  lemma StateSkips(ps: seq<Provider>, i: nat, init: set<Key>, order0: seq<nat>, keys: set<Key>, pending: set<Key>,
                   state: Flagged, trail: Trail)
    requires i < |ps| && i in trail.order && RoundState(ps, i, init, order0, keys, pending, state, trail)
    ensures RoundState(ps, i + 1, init, order0, keys, pending, state, trail)
  {
  }

  lemma StateWaits(ps: seq<Provider>, i: nat, init: set<Key>, order0: seq<nat>, keys: set<Key>, pending: set<Key>,
                   state: Flagged, trail: Trail)
    requires i < |ps| && i !in trail.order && RoundState(ps, i, init, order0, keys, pending, state, trail)
    requires order0 == [] ==> pending == PendingKeys(ps, [])
    requires !Ready(ps[i], keys, pending)
    ensures RoundState(ps, i + 1, init, order0, keys, pending, state.(anyPending := true), trail.(stuck := i))
  {
  }

  lemma FirstRoundKeys(ps: seq<Provider>, i: nat, init: set<Key>, keys: set<Key>)
    requires i < |ps| && keys == FirstPass(ps, init, i) && !MustPanic(ps[i], keys)
    requires forall j: nat :: j < i ==> !PassPanics(ps, init, j)
    ensures FirstPass(ps, init, i + 1) == PassStep(ps[i], keys, PendingKeys(ps, []))
    ensures forall j: nat :: j < i + 1 ==> !PassPanics(ps, init, j)
  {
    assert !PassPanics(ps, init, i);
    forall j: nat | j < i + 1 ensures !PassPanics(ps, init, j) {
      assert j < i || j == i;
    }
  }

  lemma OrderGrows(i: nat, order: seq<nat>)
    ensures forall j :: j in order + [i] <==> j in order || j == i
  {
  }

  lemma PassRegisters(ps: seq<Provider>, i: nat, init: set<Key>, order0: seq<nat>, order: seq<nat>, keys: set<Key>,
                      keys': set<Key>, pending: set<Key>)
    requires i < |ps| && PassState(ps, i, init, order0, order, keys)
    requires order0 == [] ==> pending == PendingKeys(ps, [])
    requires !MustPanic(ps[i], keys) && keys' == PassStep(ps[i], keys, pending)
    ensures PassState(ps, i + 1, init, order0, order + [i], keys')
  {
    OrderGrows(i, order);
    if order0 == [] {
      FirstRoundKeys(ps, i, init, keys);
      assert FirstRound(ps, i + 1, init, order + [i], keys');
    }
  }

  lemma StateRegisters(ps: seq<Provider>, i: nat, init: set<Key>, order0: seq<nat>, keys: set<Key>, keys': set<Key>,
                       pending: set<Key>, state: Flagged, trail: Trail)
    requires i < |ps| && RoundState(ps, i, init, order0, keys, pending, state, trail)
    requires order0 == [] ==> pending == PendingKeys(ps, [])
    requires !MustPanic(ps[i], keys) && keys' == PassStep(ps[i], keys, pending)
    ensures RoundState(ps, i + 1, init, order0, keys', pending, state.(progressed := true),
                       trail.(order := trail.order + [i]))
  {
    PassRegisters(ps, i, init, order0, trail.order, keys, keys', pending);
    assert forall j :: j in trail.order ==> j in trail.order + [i];
  }

  /** A constructor panic in a round: it is the first round, and the first such panic of the listing. */
  lemma StatePanics(ps: seq<Provider>, i: nat, init: set<Key>, order0: seq<nat>, keys: set<Key>, pending: set<Key>,
                    state: Flagged, trail: Trail)
    requires i < |ps| && i !in trail.order && RoundState(ps, i, init, order0, keys, pending, state, trail)
    requires MustPanic(ps[i], keys)
    ensures order0 == [] && FirstPanic(ps, init, i)
  {
  }

  lemma {:induction false} NoneReadyAt(ps: seq<Provider>, n: nat, order: seq<nat>, keys: set<Key>, pending: set<Key>,
                                       j: nat)
    requires n <= |ps| && NoneReady(ps, n, order, keys, pending) && j < n && j !in order
    ensures !Ready(ps[j], keys, pending)
  {
    if j < n - 1 { NoneReadyAt(ps, n - 1, order, keys, pending, j); }
  }

  lemma AbsentAt(ks: seq<Key>, i: nat, keys: set<Key>)
    requires i < |ks| && ks[i] !in keys
    ensures !AllPresent(ks, keys)
  {
    var k := ks[i];
    assert k in ks;
  }

  lemma NoneReadySettles(ps: seq<Provider>, init: Container, order: seq<nat>)
    requires Indices(ps, order) && NoneReady(ps, |ps|, order, Replay(init, ps, order).Keys, PendingKeys(ps, order))
    ensures Settled(ps, init, order)
  {
    forall i | 0 <= i < |ps| && i !in order
      ensures !Ready(ps[i], Replay(init, ps, order).Keys, PendingKeys(ps, order))
    {
      NoneReadyAt(ps, |ps|, order, Replay(init, ps, order).Keys, PendingKeys(ps, order), i);
    }
  }

  ghost function Below(n: nat): (r: set<nat>)
    ensures |r| == n && forall i: nat :: i in r <==> i < n
  {
    if n == 0 then {} else Below(n - 1) + {n - 1}
  }

  ghost function Members(order: seq<nat>): (r: set<nat>)
    ensures forall i :: i in r <==> i in order
  {
    set i | i in order
  }

  lemma {:induction false} DistinctSize(order: seq<nat>)
    requires Distinct(order)
    ensures |Members(order)| == |order|
  {
    if order != [] {
      var last := |order| - 1;
      DistinctSize(order[..last]);
      assert order == order[..last] + [order[last]];
      assert Members(order) == Members(order[..last]) + {order[last]};
    }
  }

  lemma OrderFits(ps: seq<Provider>, order: seq<nat>)
    requires Indices(ps, order)
    ensures |order| <= |ps|
  {
    DistinctSize(order);
    Graph.SubsetSize(Members(order), Below(|ps|));
  }

  lemma OrderCovers(ps: seq<Provider>, order: seq<nat>)
    requires Indices(ps, order) && forall i :: 0 <= i < |ps| ==> i in order
    ensures |order| == |ps|
  {
    OrderFits(ps, order);
    DistinctSize(order);
    Graph.SubsetSize(Below(|ps|), Members(order));
  }

  /** What comes of registering a provider that is ready: either its constructor finds everything, and
      the registration is allowed by the schedule, or it panics. */
  lemma ReadyOutcome(ps: seq<Provider>, init: Container, order: seq<nat>, pending: set<Key>, i: nat)
    requires Schedule(ps, init, order) && i < |ps| && i !in order && PendingKeys(ps, order) <= pending
    requires Ready(ps[i], Replay(init, ps, order).Keys, pending)
    ensures var keys := Replay(init, ps, order).Keys;
      if MustPanic(ps[i], keys) then PanicsAt(ps, init, order, i)
      else
        && MayRegister(ps, init, order, i)
        && Registered(ps[i], Replay(init, ps, order)).Keys == PassStep(ps[i], keys, pending)
    ensures MustPanic(ps[i], Replay(init, ps, order).Keys)
        <==> ps[i].BuildsNow() && !AllPresent(RequiredKeys(ps[i].fields), Replay(init, ps, order).Keys)
  {
    var keys := Replay(init, ps, order).Keys;
    ReadyIsMonotone(ps[i], keys, pending, keys, PendingKeys(ps, order));
  }

  // ---------------------------------------------------------------- the builder

  class ContainerBuilder {
    var providers: Container
    var registeredModules: set<ModuleId>
    var collectedModules: set<ModuleId>
    var factories: seq<Factory>

    constructor ()
      ensures providers == map[] && providers.Keys == {}
      ensures registeredModules == {} && collectedModules == {} && factories == []
    {
      providers, registeredModules, collectedModules, factories := map[], {}, {}, [];
    }

    /** Last registration of a key wins. */
    method Provide(k: Key, v: Instance)
      modifies this`providers
      ensures providers == old(providers)[k := v]
    {
      providers := providers[k := v];
    }

    /** True the first time only, so a module imported along several paths runs once. */
    method MarkRegistered(id: ModuleId) returns (first: bool)
      modifies this`registeredModules
      ensures first == (id !in old(registeredModules))
      ensures registeredModules == old(registeredModules) + {id}
    {
      first := id !in registeredModules;
      registeredModules := registeredModules + {id};
    }

    method MarkCollected(id: ModuleId) returns (first: bool)
      modifies this`collectedModules
      ensures first == (id !in old(collectedModules))
      ensures collectedModules == old(collectedModules) + {id}
    {
      first := id !in collectedModules;
      collectedModules := collectedModules + {id};
    }

    method TakeFactories() returns (queue: seq<Factory>)
      modifies this`factories
      ensures queue == old(factories) && factories == []
    {
      queue := factories;
      factories := [];
    }

    /** One provider's register action; `None` when its constructor panics. */
    method RegisterOne(p: Provider) returns (ok: bool)
      modifies this`providers
      ensures ok == (p.BuildsNow() ==> AllPresent(RequiredKeys(p.fields), old(providers).Keys))
      ensures providers == if ok then Registered(p, old(providers)) else old(providers)
      ensures ok <==> ((p.binding.Concrete? && p.build.Deferred?)
                       || forall k :: Inject(k) in p.fields ==> k in old(providers))
      ensures ok && (p.binding.AsDyn? || p.build.Singleton?) ==> Publishes(p, old(providers), providers)
    {
      RegistrationByKind(p, providers);
      ConstructionExactly(p.fields, providers);
      ok := true;
      if p.BuildsNow() {
        ExpectFiresIffKeyMissing(p.fields, providers);
        match FromContainer(p.fields, providers) {
          case None => ok := false;
          case Some(values) =>
            if p.AddsKey() {
              Provide(p.key, Built(p, values));
            }
        }
      }
    }

    ghost predicate Tracks(ps: seq<Provider>, done: array<bool>, init: Container, order: seq<nat>)
      reads this`providers, done
    {
      && Schedule(ps, init, order)
      && providers == Replay(init, ps, order)
      && Flags(done, |ps|, order)
    }

    /** The attempt to register the provider at `i`, not yet done. */
    method Attempt(ps: seq<Provider>, done: array<bool>, pending: set<Key>, i: nat,
                   ghost init: Container, ghost order: seq<nat>) returns (r: StepResult)
      requires Tracks(ps, done, init, order) && i < |ps| && i !in order
      requires PendingKeys(ps, order) <= pending
      modifies this`providers, done
      ensures r.Registers? ==> Tracks(ps, done, init, order + [i]) && PendingKeys(ps, order + [i]) <= pending
      ensures !r.Registers? ==> Tracks(ps, done, init, order)
      ensures r.Waits? ==> providers == old(providers) && !Ready(ps[i], providers.Keys, pending)
      ensures r.Panics? <==> MustPanic(ps[i], old(providers).Keys)
      ensures r.Panics? ==> PanicsAt(ps, init, order, i)
      ensures !r.Panics? ==> providers.Keys == PassStep(ps[i], old(providers).Keys, pending)
    {
      if !Ready(ps[i], providers.Keys, pending) {
        return Waits;
      }
      ReadyOutcome(ps, init, order, pending, i);
      var ok := RegisterOne(ps[i]);
      if !ok {
        return Panics;
      }
      ScheduleExtend(ps, init, order, i);
      done[i] := true;
      return Registers;
    }

    /** The emitted step of the provider at `i`; `None` when its constructor panics. */
    method Step(ps: seq<Provider>, done: array<bool>, pending: set<Key>, i: nat, state: Flagged,
                ghost init: Container, ghost order0: seq<nat>, ghost trail: Trail)
      returns (next: Option<Flagged>, ghost trail': Trail)
      requires i < |ps| && Tracks(ps, done, init, trail.order) && PendingKeys(ps, trail.order) <= pending
      requires order0 == [] ==> pending == PendingKeys(ps, [])
      requires RoundState(ps, i, init.Keys, order0, providers.Keys, pending, state, trail)
      modifies this`providers, done
      ensures Tracks(ps, done, init, trail'.order) && PendingKeys(ps, trail'.order) <= pending
      ensures next.None? ==> PanicsAt(ps, init, trail'.order, i) && order0 == [] && FirstPanic(ps, init.Keys, i)
      ensures next.Some? ==> RoundState(ps, i + 1, init.Keys, order0, providers.Keys, pending, next.value, trail')
    {
      ghost var keys := providers.Keys;
      trail' := trail;
      if done[i] {
        StateSkips(ps, i, init.Keys, order0, keys, pending, state, trail);
        return Some(state), trail;
      }
      var r := Attempt(ps, done, pending, i, init, trail.order);
      match r {
        case Waits =>
          StateWaits(ps, i, init.Keys, order0, keys, pending, state, trail);
          return Some(state.(anyPending := true)), trail.(stuck := i);
        case Registers =>
          StateRegisters(ps, i, init.Keys, order0, keys, providers.Keys, pending, state, trail);
          return Some(state.(progressed := true)), trail.(order := trail.order + [i]);
        case Panics =>
          StatePanics(ps, i, init.Keys, order0, keys, pending, state, trail);
          return None, trail;
      }
    }

    /** One round over every provider not yet done, against the keys pending when it began. */
    method Round(ps: seq<Provider>, done: array<bool>, pending: set<Key>, ghost init: Container, ghost order0: seq<nat>)
      returns (state: Flagged, panicked: Option<nat>, ghost trail: Trail)
      requires Tracks(ps, done, init, order0) && pending == PendingKeys(ps, order0)
      requires order0 == [] || UndeclaredDone(ps, order0)
      modifies this`providers, done
      ensures Tracks(ps, done, init, trail.order)
      ensures panicked.Some? ==> PanicsAt(ps, init, trail.order, panicked.value)
      ensures panicked.Some? ==> order0 == [] && FirstPanic(ps, init.Keys, panicked.value)
      ensures panicked.None? ==> RoundState(ps, |ps|, init.Keys, order0, providers.Keys, pending, state, trail)
    {
      state, panicked, trail := Flagged(false, false), None, Trail(order0, 0);
      for i := 0 to |ps|
        invariant Tracks(ps, done, init, trail.order) && PendingKeys(ps, trail.order) <= pending
        invariant RoundState(ps, i, init.Keys, order0, providers.Keys, pending, state, trail)
      {
        var next;
        next, trail := Step(ps, done, pending, i, state, init, order0, trail);
        if next.None? {
          panicked := Some(i);
          return;
        }
        state := next.value;
      }
    }

    method PendingOfRound(ps: seq<Provider>, done: array<bool>, ghost order: seq<nat>) returns (pending: set<Key>)
      requires Flags(done, |ps|, order)
      ensures pending == PendingKeys(ps, order)
    {
      pending := {};
      for i := 0 to |ps|
        invariant pending == set j | 0 <= j < i && j !in order :: ps[j].key
      {
        if !done[i] {
          pending := pending + {ps[i].key};
        }
      }
    }

    method ClassifyOne(p: Provider, pending: set<Key>) returns (waits: bool)
      ensures waits == WaitsOnPending(p, providers.Keys, pending)
    {
      var deps := p.Dependencies();
      var missing: seq<Key> := [];
      var k := 0;
      while k < |deps|
        invariant 0 <= k <= |deps|
        invariant forall n :: 0 <= n < |missing| ==> missing[n] in deps && missing[n] !in providers.Keys
        invariant forall j :: 0 <= j < k ==> deps[j] in providers.Keys || deps[j] in missing
        invariant missing != [] ==> !AllPresent(deps, providers.Keys)
      {
        if deps[k] !in providers.Keys {
          AbsentAt(deps, k, providers.Keys);
          missing := missing + [deps[k]];
        }
        k := k + 1;
      }
      waits := missing != [] && forall d | d in missing :: d in pending;
      assert forall d :: d in deps && d !in providers.Keys ==> d in missing;
    }

    /** The stall diagnosis: sort the stuck providers into cyclic ones and unprovided ones. */
    method Classify(ps: seq<Provider>, done: array<bool>, pending: set<Key>, ghost order: seq<nat>)
      returns (outcome: Outcome)
      requires Flags(done, |ps|, order)
      ensures Diagnosis(ps, order, providers.Keys, pending, outcome)
    {
      var cyclic: seq<nat>, unprovided: seq<nat> := [], [];
      ghost var waiting := StuckAs(ps, order, providers.Keys, pending, true);
      ghost var lacking := StuckAs(ps, order, providers.Keys, pending, false);
      for i := 0 to |ps|
        invariant cyclic == Where(i, waiting) && unprovided == Where(i, lacking)
      {
        if !done[i] {
          var waits := ClassifyOne(ps[i], pending);
          assert waiting(i) == waits && lacking(i) == !waits;
          if waits {
            cyclic := cyclic + [i];
          } else {
            unprovided := unprovided + [i];
          }
        }
      }
      outcome := if unprovided != [] then Unprovided(unprovided) else Cycle(cyclic);
    }

    /** The emitted loop: rounds until nothing is pending, or until a round makes no progress. */
    method RegisterProviders(ps: seq<Provider>) returns (outcome: Outcome, ghost order: seq<nat>)
      modifies this`providers
      ensures Schedule(ps, old(providers), order)
      ensures providers == Replay(old(providers), ps, order)
      ensures Reports(ps, old(providers).Keys, outcome)
      ensures outcome.ConstructorPanic? ==> PanicsAt(ps, old(providers), order, outcome.at)
      ensures !outcome.ConstructorPanic? ==> LoopEnds(ps, old(providers), order, outcome)
      ensures !outcome.ConstructorPanic? ==>
                providers.Keys == KeysOf(old(providers).Keys, Least(Listed(ps), old(providers).Keys))
      ensures outcome.Completed? ==> |order| == |ps| && forall i :: 0 <= i < |ps| ==> i in order
    {
      var done := new bool[|ps|](_ => false);
      order := [];
      ghost var init := providers;
      while true
        invariant fresh(done) && Tracks(ps, done, init, order)
        invariant order == [] || (UndeclaredDone(ps, order) && !ListingPanics(ps, init.Keys))
        decreases |ps| - |order|
      {
        var pending := PendingOfRound(ps, done, order);
        var state, panicked;
        ghost var trail;
        state, panicked, trail := Round(ps, done, pending, init, order);
        order := trail.order;
        OrderFits(ps, order);
        if panicked.Some? {
          return ConstructorPanic(panicked.value), order;
        }
        if !state.anyPending {
          OrderCovers(ps, order);
          LoopVerdict(ps, init, order, Completed);
          return Completed, order;
        }
        if !state.progressed {
          NoneReadySettles(ps, init, order);
          outcome := Classify(ps, done, pending, order);
          LoopVerdict(ps, init, order, outcome);
          return;
        }
      }
    }
  }
}
