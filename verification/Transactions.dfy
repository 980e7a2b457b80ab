/** The request transaction boundary, with handlers that may leak the executor into tasks that
    outlive them, as a transition system over any number of concurrent requests. */
module Transactions {
  datatype Verb = GET | HEAD | OPTIONS | TRACE | POST | PUT | PATCH | DELETE | CONNECT | Extension

  /** Section 9.2.1 of RFC 9110. */
  predicate IsSafe(v: Verb) {
    v.GET? || v.HEAD? || v.OPTIONS? || v.TRACE?
  }

  /** A response with its status, or an error that becomes one. */
  datatype Outcome = Response(status: nat) | Error(status: nat)

  const INTERNAL_ERROR := Error(500)

  /** Sections 15.3 and 15.4 of RFC 9110: 2xx and 3xx commit. */
  predicate ShouldCommit(o: Outcome) {
    o.Response? && (200 <= o.status < 300 || 300 <= o.status < 400)
  }

  /** Who holds a reference to the transaction. */
  datatype Holder = Interceptor | Ambient | Task(id: nat)

  /** What becomes of a commit: what it reports and what it does can differ, when the connection is lost
      after it took effect. */
  datatype CommitOutcome = Succeeds | FailsAfterEffect | Fails {
    predicate TakesEffect() { !Fails? }
  }

  datatype Txn = Open | Committed | RolledBack

  /** Where the interceptor stands in the request.  `Reclaimed` and `Settled` are either side of the
      moment the database commits or rolls back; the request may be dropped at both, and a commit
      that is in flight then may still take effect. */
  datatype Phase =
    | OnPool
    | Running
    | Returned(result: Outcome)
    | Reclaimed(result: Outcome)
    | Settled(answer: Outcome)
    | Answered(answer: Outcome)
    | Cancelled

  /** `sent` once a commit has reached the database. */
  datatype Request = Request(verb: Verb, phase: Phase, holders: set<Holder>, writes: seq<int>, txn: Txn, sent: bool)

  /** `store` is what is persisted, each write tagged with the request that made it. */
  datatype State = State(store: seq<(nat, int)>, requests: map<nat, Request>)

  const START := State([], map[])

  datatype Label =
    | Arrive(verb: Verb, begins: bool)
    | Write(holder: Holder, value: int)
    | Clone(holder: Holder, task: nat)
    | DropTask(task: nat)
    | Return(result: Outcome)
    | Cancel
    | TryUnwrap
    | Commit(outcome: CommitOutcome)
    | Rollback
    | Answer
    | PoolWrite(value: int)
    | PoolReturn(result: Outcome)

  /** The request was dropped while its commit was on the way to the database. */
  predicate InFlight(q: Request) {
    q.phase.Cancelled? && q.holders == {} && q.txn.Open?
  }

  predicate Enabled(s: State, r: nat, l: Label) {
    if l.Arrive? then r !in s.requests
    else if r !in s.requests then false
    else
      var q := s.requests[r];
      match l
      case Arrive(_, _) => false
      case Write(h, _) => h in q.holders && h != Interceptor
      case Clone(h, task) => h in q.holders && h != Interceptor && Task(task) !in q.holders
      case DropTask(task) => Task(task) in q.holders
      case Return(_) => q.phase.Running?
      case Cancel => q.phase.OnPool? || q.phase.Running? || q.phase.Reclaimed? || q.phase.Settled?
      case TryUnwrap => q.phase.Returned?
      case Commit(_) => (q.phase.Reclaimed? && ShouldCommit(q.phase.result)) || InFlight(q)
      case Rollback => q.phase.Reclaimed? && !ShouldCommit(q.phase.result)
      case Answer => q.phase.Settled?
      case PoolWrite(_) => IsSafe(q.verb)
      case PoolReturn(_) => q.phase.OnPool?
  }

  /** Dropping the last reference to an open transaction rolls it back. */
  function Released(q: Request, gone: set<Holder>): Request {
    var left := q.holders - gone;
    q.(holders := left, txn := if left == {} && q.txn.Open? then RolledBack else q.txn)
  }

  function Begun(verb: Verb, begins: bool): Request {
    if IsSafe(verb) then Request(verb, OnPool, {}, [], RolledBack, false)
    else if begins then Request(verb, Running, {Interceptor, Ambient}, [], Open, false)
    else Request(verb, Answered(INTERNAL_ERROR), {}, [], RolledBack, false)
  }

  /** The request after a step of its own. */
  function Stepped(q: Request, l: Label): Request
    requires !l.Arrive?
    requires l.TryUnwrap? ==> q.phase.Returned?
    requires l.Commit? ==> q.phase.Reclaimed? || InFlight(q)
    requires l.Rollback? ==> q.phase.Reclaimed?
    requires l.Answer? ==> q.phase.Settled?
  {
    match l
    case Write(_, v) => q.(writes := q.writes + [v])
    case Clone(_, task) => q.(holders := q.holders + {Task(task)})
    case DropTask(task) => Released(q, {Task(task)})
    case Return(result) => q.(holders := q.holders - {Ambient}, phase := Returned(result))
    case Cancel =>
      if q.phase.Reclaimed? && ShouldCommit(q.phase.result) then q.(phase := Cancelled)
      else Released(q, {Interceptor, Ambient}).(phase := Cancelled)
    case TryUnwrap =>
      if q.holders == {Interceptor} then q.(holders := {}, phase := Reclaimed(q.phase.result))
      else Released(q, {Interceptor}).(phase :=
             Answered(if ShouldCommit(q.phase.result) then INTERNAL_ERROR else q.phase.result))
    case Commit(outcome) =>
      var done := q.(txn := if outcome.TakesEffect() then Committed else RolledBack, sent := true);
      if q.phase.Cancelled? then done
      else done.(phase := Settled(if outcome.Succeeds? then q.phase.result else INTERNAL_ERROR))
    case Rollback => q.(txn := RolledBack, phase := Settled(q.phase.result))
    case Answer => q.(phase := Answered(q.phase.answer))
    case PoolWrite(_) => q
    case PoolReturn(result) => q.(phase := Answered(result))
  }

  function Tagged(r: nat, writes: seq<int>): seq<(nat, int)> {
    seq(|writes|, i requires 0 <= i < |writes| => (r, writes[i]))
  }

  function Next(s: State, r: nat, l: Label): State
    requires Enabled(s, r, l)
  {
    if l.Arrive? then s.(requests := s.requests[r := Begun(l.verb, l.begins)])
    else
      var q := s.requests[r];
      var store :=
        if l.Commit? && l.outcome.TakesEffect() then s.store + Tagged(r, q.writes)
        else if l.PoolWrite? then s.store + [(r, l.value)]
        else s.store;
      State(store, s.requests[r := Stepped(q, l)])
  }

  /** A run is any sequence of labelled steps of any requests, in any interleaving. */
  predicate Feasible(s: State, run: seq<(nat, Label)>)
    decreases run
  {
    run == [] || (Enabled(s, run[0].0, run[0].1) && Feasible(Next(s, run[0].0, run[0].1), run[1..]))
  }

  function After(s: State, run: seq<(nat, Label)>): State
    requires Feasible(s, run)
    decreases run
  {
    if run == [] then s else After(Next(s, run[0].0, run[0].1), run[1..])
  }

  lemma FirstStep(s: State, r: nat, l: Label, rest: seq<(nat, Label)>)
    requires Enabled(s, r, l) && Feasible(Next(s, r, l), rest)
    ensures Feasible(s, [(r, l)] + rest) && After(s, [(r, l)] + rest) == After(Next(s, r, l), rest)
  {
    assert ([(r, l)] + rest)[1..] == rest;
  }

  lemma Prepend(s: State, r: nat, l: Label, rest: seq<(nat, Label)>) returns (run: seq<(nat, Label)>)
    requires Enabled(s, r, l) && Feasible(Next(s, r, l), rest)
    ensures Feasible(s, run) && After(s, run) == After(Next(s, r, l), rest)
  {
    run := [(r, l)] + rest;
    FirstStep(s, r, l, rest);
  }

  // ---------------------------------------------------------------- the invariant

  /** The persisted writes of one request, in order. */
  function Persisted(store: seq<(nat, int)>, r: nat): seq<int> {
    if store == [] then []
    else
      var last := store[|store| - 1];
      Persisted(store[..|store| - 1], r) + (if last.0 == r then [last.1] else [])
  }

  /** Success is only answered once committed; and what a commit was sent for is answered with success,
      or with the interceptor's own error. */
  predicate AnswerFits(q: Request, answer: Outcome) {
    && (ShouldCommit(answer) ==> q.txn.Committed?)
    && (q.sent ==> ShouldCommit(answer) || answer == INTERNAL_ERROR)
  }

  predicate PhaseOk(q: Request) {
    match q.phase
    case OnPool => IsSafe(q.verb)
    case Running => !IsSafe(q.verb) && {Interceptor, Ambient} <= q.holders && q.txn.Open?
    case Returned(_) => !IsSafe(q.verb) && Interceptor in q.holders && Ambient !in q.holders && q.txn.Open?
    case Reclaimed(_) => !IsSafe(q.verb) && q.holders == {} && q.txn.Open?
    case Answered(a) => Interceptor !in q.holders && Ambient !in q.holders
                        && (!IsSafe(q.verb) ==> AnswerFits(q, a))
    case Settled(a) => !IsSafe(q.verb) && q.holders == {} && !q.txn.Open? && AnswerFits(q, a)
    case Cancelled => Interceptor !in q.holders && Ambient !in q.holders
  }

  predicate RequestOk(q: Request) {
    && PhaseOk(q)
    && (IsSafe(q.verb) ==> q.holders == {} && q.writes == [])
    && (q.txn.Committed? ==> q.sent && q.holders == {})
    && (q.sent ==> q.phase.Settled? || q.phase.Answered? || q.phase.Cancelled?)
    && (q.holders == {} && q.txn.Open? ==> q.phase.Reclaimed? || q.phase.Cancelled?)
  }

  /** Either none or all of a mutating request's writes are persisted, all exactly when committed. */
  predicate StoreOk(s: State, r: nat)
    requires r in s.requests
  {
    var q := s.requests[r];
    !IsSafe(q.verb) ==> Persisted(s.store, r) == if q.txn.Committed? then q.writes else []
  }

  ghost predicate Inv(s: State) {
    && (forall r :: r in s.requests ==> RequestOk(s.requests[r]) && StoreOk(s, r))
    && forall i :: 0 <= i < |s.store| ==> s.store[i].0 in s.requests
  }

  lemma {:induction false} PersistedAppend(a: seq<(nat, int)>, b: seq<(nat, int)>, r: nat)
    ensures Persisted(a + b, r) == Persisted(a, r) + Persisted(b, r)
  {
    if b == [] {
      assert a + b == a;
    } else {
      var last := |b| - 1;
      PersistedAppend(a, b[..last], r);
      assert (a + b)[..|a + b| - 1] == a + b[..last];
    }
  }

  lemma {:induction false} PersistedTagged(r: nat, writes: seq<int>, x: nat)
    ensures Persisted(Tagged(r, writes), x) == if x == r then writes else []
  {
    if writes != [] {
      var last := |writes| - 1;
      PersistedTagged(r, writes[..last], x);
      assert Tagged(r, writes)[..last] == Tagged(r, writes[..last]);
      assert writes == writes[..last] + [writes[last]];
    }
  }

  lemma {:induction false} PersistedAbsent(store: seq<(nat, int)>, r: nat)
    requires forall i :: 0 <= i < |store| ==> store[i].0 != r
    ensures Persisted(store, r) == []
  {
    if store != [] {
      PersistedAbsent(store[..|store| - 1], r);
    }
  }

  /** What one step adds to the store, seen from request `x`. */
  lemma StepStore(s: State, r: nat, l: Label, x: nat)
    requires Enabled(s, r, l)
    ensures Persisted(Next(s, r, l).store, x) == Persisted(s.store, x) +
              (if x != r then []
               else if l.Commit? && l.outcome.TakesEffect() then s.requests[r].writes
               else if l.PoolWrite? then [l.value] else [])
  {
    if l.Commit? && l.outcome.TakesEffect() {
      PersistedAppend(s.store, Tagged(r, s.requests[r].writes), x);
      PersistedTagged(r, s.requests[r].writes, x);
    } else if l.PoolWrite? {
      PersistedAppend(s.store, [(r, l.value)], x);
      assert Persisted([(r, l.value)], x) == Persisted([], x) + (if r == x then [l.value] else []) by {
        assert [(r, l.value)][..0] == [];
      }
    }
  }

  lemma StepRequest(q: Request, s: State, r: nat, l: Label)
    requires !l.Arrive? && r in s.requests && s.requests[r] == q && RequestOk(q) && Enabled(s, r, l)
    ensures RequestOk(Stepped(q, l))
    ensures Stepped(q, l).txn.Committed? <==> q.txn.Committed? || (l.Commit? && l.outcome.TakesEffect())
    ensures q.txn.Committed? ==> Stepped(q, l).writes == q.writes
    ensures l.Commit? ==> !q.txn.Committed? && Stepped(q, l).writes == q.writes
  {
  }

  /** Every step of every request keeps the invariant. */
  lemma StepKeepsInv(s: State, r: nat, l: Label)
    requires Inv(s) && Enabled(s, r, l)
    ensures Inv(Next(s, r, l))
  {
    var t := Next(s, r, l);
    if !l.Arrive? { StepRequest(s.requests[r], s, r, l); }
    forall x | x in t.requests ensures RequestOk(t.requests[x]) && StoreOk(t, x) {
      StepStore(s, r, l, x);
      if x == r && l.Arrive? {
        PersistedAbsent(s.store, r);
      }
    }
  }

  lemma {:induction false} RunKeepsInv(s: State, run: seq<(nat, Label)>)
    requires Inv(s) && Feasible(s, run)
    ensures Inv(After(s, run))
    decreases run
  {
    if run != [] {
      StepKeepsInv(s, run[0].0, run[0].1);
      RunKeepsInv(Next(s, run[0].0, run[0].1), run[1..]);
    }
  }

  function WriteOf(step: (nat, Label), r: nat): seq<int> {
    if step.0 == r && step.1.Write? then [step.1.value] else []
  }

  /** The writes a run makes through the transaction of request `r`, in order. */
  function Made(run: seq<(nat, Label)>, r: nat): seq<int> {
    if run == [] then []
    else WriteOf(run[0], r) + Made(run[1..], r)
  }

  function WritesSoFar(s: State, r: nat): seq<int> {
    if r in s.requests then s.requests[r].writes else []
  }

  lemma StepRecords(s: State, x: nat, l: Label, r: nat)
    requires Enabled(s, x, l)
    ensures WritesSoFar(Next(s, x, l), r) == WritesSoFar(s, r) + WriteOf((x, l), r)
  {
  }

  lemma {:induction false} WritesAreRecorded(s: State, run: seq<(nat, Label)>, r: nat)
    requires Feasible(s, run)
    ensures WritesSoFar(After(s, run), r) == WritesSoFar(s, r) + Made(run, r)
    decreases run
  {
    if run != [] {
      StepRecords(s, run[0].0, run[0].1, r);
      WritesAreRecorded(Next(s, run[0].0, run[0].1), run[1..], r);
      var had, step, rest := WritesSoFar(s, r), WriteOf(run[0], r), Made(run[1..], r);
      assert (had + step) + rest == had + (step + rest);
    }
  }

  lemma RecordedIsMade(run: seq<(nat, Label)>, r: nat)
    requires Feasible(START, run) && r in After(START, run).requests
    ensures After(START, run).requests[r].writes == Made(run, r)
  {
    WritesAreRecorded(START, run, r);
    assert WritesSoFar(START, r) == [];
  }

  /** What an answer tells the client: a 2xx or 3xx response, that everything was persisted; anything
      else, that nothing was, unless it is the interceptor's own error after a commit was sent, which
      leaves open whether everything was or nothing. */
  predicate AnswerTells(q: Request, answer: Outcome, persisted: seq<int>, made: seq<int>) {
    match answer
    case Response(s) => if 200 <= s < 400 then persisted == made else persisted == [] && !q.sent
    case Error(s) => if q.sent then s == 500 && (persisted == made || persisted == []) else persisted == []
  }

  /** What each phase says about the store. */
  lemma PersistedByPhase(s: State, r: nat)
    requires Inv(s) && r in s.requests && s.requests[r].verb !in {GET, HEAD, OPTIONS, TRACE}
    ensures var q := s.requests[r];
      var persisted := Persisted(s.store, r);
      && (q.phase.Answered? || q.phase.Settled? ==> AnswerTells(q, q.phase.answer, persisted, q.writes))
      && (q.phase.Cancelled? ==> persisted == q.writes || persisted == [])
      && (q.phase.Running? || q.phase.Returned? || q.phase.Reclaimed? ==> persisted == [])
  {
    assert RequestOk(s.requests[r]) && StoreOk(s, r);
  }

  /** Atomicity, over every interleaving with leaked tasks: a mutating request that answered 2xx or
      3xx has persisted exactly the writes made through its transaction, in order.  One that answered
      otherwise has persisted none, or, when its commit was sent and reported an error, all or none.
      One that never answers because it was dropped has persisted all or none, and none before its
      transaction was taken back. */
  lemma Atomicity(run: seq<(nat, Label)>, r: nat)
    requires Feasible(START, run) && r in After(START, run).requests
    requires After(START, run).requests[r].verb !in {GET, HEAD, OPTIONS, TRACE}
    ensures var s := After(START, run);
      var q := s.requests[r];
      var persisted := Persisted(s.store, r);
      && (q.phase.Answered? || q.phase.Settled? ==> AnswerTells(q, q.phase.answer, persisted, Made(run, r)))
      && (q.phase.Cancelled? ==> persisted == Made(run, r) || persisted == [])
      && (q.phase.Running? || q.phase.Returned? || q.phase.Reclaimed? ==> persisted == [])
  {
    RunKeepsInv(START, run);
    RecordedIsMade(run, r);
    PersistedByPhase(After(START, run), r);
  }

  lemma DroppedAfterCommit(s: State) returns (run: seq<(nat, Label)>)
    requires 0 in s.requests && s.requests[0].phase == Returned(Response(200)) && s.requests[0].holders == {Interceptor}
    requires Persisted(s.store, 0) == []
    ensures Feasible(s, run) && 0 in After(s, run).requests && After(s, run).requests[0].phase.Cancelled?
    ensures Persisted(After(s, run).store, 0) == s.requests[0].writes
  {
    var q := s.requests[0];
    var s1 := Next(s, 0, TryUnwrap);
    assert s1.requests[0] == q.(holders := {}, phase := Reclaimed(Response(200))) && s1.store == s.store;
    var s2 := Next(s1, 0, Commit(Succeeds));
    assert s2.requests[0].phase.Settled? && s2.store == s.store + Tagged(0, q.writes);
    StepStore(s1, 0, Commit(Succeeds), 0);
    run := Prepend(s2, 0, Cancel, []);
    run := Prepend(s1, 0, Commit(Succeeds), run);
    run := Prepend(s, 0, TryUnwrap, run);
  }

  /** The request may be dropped after the database has committed: then all its writes are persisted,
      and nobody is ever told. */
  lemma CommittedUnanswered() returns (run: seq<(nat, Label)>)
    ensures Feasible(START, run) && 0 in After(START, run).requests && After(START, run).requests[0].phase.Cancelled?
    ensures Persisted(After(START, run).store, 0) == [1]
  {
    var s1 := Next(START, 0, Arrive(POST, true));
    var s2 := Next(s1, 0, Write(Ambient, 1));
    var s3 := Next(s2, 0, Return(Response(200)));
    assert s3.requests[0].holders == {Interceptor};
    run := DroppedAfterCommit(s3);
    run := Prepend(s2, 0, Return(Response(200)), run);
    run := Prepend(s1, 0, Write(Ambient, 1), run);
    run := Prepend(START, 0, Arrive(POST, true), run);
  }

  lemma AnsweredAfterEffect(s: State) returns (run: seq<(nat, Label)>)
    requires 0 in s.requests && s.requests[0].phase == Returned(Response(200)) && s.requests[0].holders == {Interceptor}
    requires Persisted(s.store, 0) == []
    ensures Feasible(s, run) && 0 in After(s, run).requests
    ensures After(s, run).requests[0].phase == Answered(INTERNAL_ERROR)
    ensures Persisted(After(s, run).store, 0) == s.requests[0].writes
  {
    var q := s.requests[0];
    var s1 := Next(s, 0, TryUnwrap);
    assert s1.requests[0] == q.(holders := {}, phase := Reclaimed(Response(200))) && s1.store == s.store;
    var s2 := Next(s1, 0, Commit(FailsAfterEffect));
    assert s2.requests[0].phase.Settled? && s2.store == s.store + Tagged(0, q.writes);
    StepStore(s1, 0, Commit(FailsAfterEffect), 0);
    run := Prepend(s2, 0, Answer, []);
    run := Prepend(s1, 0, Commit(FailsAfterEffect), run);
    run := Prepend(s, 0, TryUnwrap, run);
  }

  /** A commit that took effect may still report an error: then the answer is an error, and all the
      writes are persisted. */
  lemma ErrorAfterEffect() returns (run: seq<(nat, Label)>)
    ensures Feasible(START, run) && 0 in After(START, run).requests
    ensures After(START, run).requests[0].phase == Answered(INTERNAL_ERROR)
    ensures Persisted(After(START, run).store, 0) == [1]
  {
    var s1 := Next(START, 0, Arrive(POST, true));
    var s2 := Next(s1, 0, Write(Ambient, 1));
    var s3 := Next(s2, 0, Return(Response(200)));
    assert s3.requests[0].holders == {Interceptor};
    run := AnsweredAfterEffect(s3);
    run := Prepend(s2, 0, Return(Response(200)), run);
    run := Prepend(s1, 0, Write(Ambient, 1), run);
    run := Prepend(START, 0, Arrive(POST, true), run);
  }

  /** Once the interceptor has the transaction back, nobody else can write to it, clone it or drop it. */
  lemma NobodyElseAfterReclaim(run: seq<(nat, Label)>, r: nat, l: Label)
    requires Feasible(START, run) && r in After(START, run).requests && After(START, run).requests[r].phase.Reclaimed?
    ensures Enabled(After(START, run), r, l) ==> l.Commit? || l.Rollback? || l.Cancel?
  {
    RunKeepsInv(START, run);
  }

  lemma AnswerableOnceReclaimed(s: State, r: nat) returns (rest: seq<(nat, Label)>)
    requires r in s.requests && s.requests[r].phase.Reclaimed?
    ensures Feasible(s, rest) && r in After(s, rest).requests && After(s, rest).requests[r].phase.Answered?
  {
    var l := if ShouldCommit(s.requests[r].phase.result) then Commit(Succeeds) else Rollback;
    rest := Prepend(Next(s, r, l), r, Answer, []);
    rest := Prepend(s, r, l, rest);
  }

  lemma AnswerableOnceReturned(s: State, r: nat) returns (rest: seq<(nat, Label)>)
    requires r in s.requests && s.requests[r].phase.Returned?
    ensures Feasible(s, rest) && r in After(s, rest).requests && After(s, rest).requests[r].phase.Answered?
  {
    var next := Next(s, r, TryUnwrap);
    rest := [];
    if next.requests[r].phase.Reclaimed? {
      rest := AnswerableOnceReclaimed(next, r);
    }
    rest := Prepend(s, r, TryUnwrap, rest);
  }

  /** Whatever tasks it leaked, a request is never stuck: it can still come to an answer. */
  lemma AlwaysAnswerable(s: State, r: nat) returns (rest: seq<(nat, Label)>)
    requires Inv(s) && r in s.requests && !s.requests[r].phase.Answered? && !s.requests[r].phase.Cancelled?
    ensures Feasible(s, rest) && r in After(s, rest).requests && After(s, rest).requests[r].phase.Answered?
  {
    var q := s.requests[r];
    match q.phase {
      case OnPool => rest := Prepend(s, r, PoolReturn(INTERNAL_ERROR), []);
      case Running =>
        var next := Next(s, r, Return(INTERNAL_ERROR));
        StepKeepsInv(s, r, Return(INTERNAL_ERROR));
        rest := AnswerableOnceReturned(next, r);
        rest := Prepend(s, r, Return(INTERNAL_ERROR), rest);
      case Returned(_) => rest := AnswerableOnceReturned(s, r);
      case Reclaimed(_) => rest := AnswerableOnceReclaimed(s, r);
      case Settled(_) => rest := Prepend(s, r, Answer, []);
      case _ =>
    }
  }

  /** It can be dropped wherever its code awaits, in the handler, in the commit and before the answer;
      in the handler that loses all its writes. */
  lemma Droppable(s: State, r: nat)
    requires Inv(s) && r in s.requests
    requires var phase := s.requests[r].phase; phase.OnPool? || phase.Running? || phase.Reclaimed? || phase.Settled?
    ensures Enabled(s, r, Cancel) && Next(s, r, Cancel).requests[r].phase.Cancelled?
    ensures s.requests[r].phase.Running? ==>
              Persisted(Next(s, r, Cancel).store, r) == [] && !InFlight(Next(s, r, Cancel).requests[r])
  {
    assert RequestOk(s.requests[r]) && StoreOk(s, r);
  }

  /** Nothing that happens to the request later can change what it persisted. */
  predicate Final(q: Request) {
    !IsSafe(q.verb) && (q.phase.Answered? || (q.phase.Cancelled? && !InFlight(q)))
  }

  lemma FinalRequest(q: Request, s: State, r: nat, l: Label)
    requires !l.Arrive? && r in s.requests && s.requests[r] == q && RequestOk(q) && Enabled(s, r, l) && Final(q)
    ensures Final(Stepped(q, l)) && Stepped(q, l).phase == q.phase && !l.Commit? && !l.PoolWrite?
  {
  }

  lemma FinalStep(s: State, r: nat, l: Label, x: nat)
    requires Inv(s) && Enabled(s, r, l) && x in s.requests && Final(s.requests[x])
    ensures var t := Next(s, r, l);
      && x in t.requests && Final(t.requests[x]) && t.requests[x].phase == s.requests[x].phase
      && Persisted(t.store, x) == Persisted(s.store, x)
  {
    StepStore(s, r, l, x);
    if r == x {
      FinalRequest(s.requests[x], s, r, l);
    }
  }

  /** An answer is final, and so is being dropped unless a commit is still in flight, and so is what is
      stored then: later steps, of leaked tasks included, never persist another write of that mutating
      request. */
  lemma {:induction false} AnswerIsFinal(s: State, run: seq<(nat, Label)>, r: nat)
    requires Inv(s) && Feasible(s, run) && r in s.requests && Final(s.requests[r])
    ensures var t := After(s, run);
      r in t.requests && t.requests[r].phase == s.requests[r].phase && Persisted(t.store, r) == Persisted(s.store, r)
    decreases run
  {
    if run != [] {
      StepKeepsInv(s, run[0].0, run[0].1);
      FinalStep(s, run[0].0, run[0].1, r);
      AnswerIsFinal(Next(s, run[0].0, run[0].1), run[1..], r);
    }
  }

  /** The loud failure is never spurious: at the unwrap, the handler's successful answer is withheld
      exactly when some task still holds a reference. */
  lemma EscapeExactly(run: seq<(nat, Label)>, r: nat)
    requires Feasible(START, run) && r in After(START, run).requests
    requires After(START, run).requests[r].phase.Returned?
    ensures var q := After(START, run).requests[r];
      (Stepped(q, TryUnwrap).phase.Answered? <==> exists t: nat :: Task(t) in q.holders)
      && (Stepped(q, TryUnwrap).phase.Answered? ==>
            Stepped(q, TryUnwrap).phase.answer ==
            match q.phase.result
            case Response(s) => if 200 <= s < 400 then Error(500) else Response(s)
            case Error(s) => Error(s))
  {
    RunKeepsInv(START, run);
    var q := After(START, run).requests[r];
    if q.holders != {Interceptor} {
      var h :| h in q.holders && h != Interceptor;
      assert h == Task(h.id);
    }
  }

  // ---------------------------------------------------------------- the interceptor, run alone

  /** What can happen to the executor while the handler runs: writes and clones by whoever holds it,
      and tasks that end. */
  predicate Allowed(holders: set<Holder>, l: Label) {
    match l
    case Write(h, _) => h in holders && h != Interceptor
    case Clone(h, task) => h in holders && h != Interceptor && Task(task) !in holders
    case DropTask(task) => Task(task) in holders
    case _ => false
  }

  function HoldersBy(holders: set<Holder>, l: Label): set<Holder> {
    if l.Clone? then holders + {Task(l.task)} else if l.DropTask? then holders - {Task(l.task)} else holders
  }

  predicate Scripted(holders: set<Holder>, script: seq<Label>)
    decreases script
  {
    script == [] || (Allowed(holders, script[0]) && Scripted(HoldersBy(holders, script[0]), script[1..]))
  }

  function HoldersAfter(holders: set<Holder>, script: seq<Label>): set<Holder>
    decreases script
  {
    if script == [] then holders else HoldersAfter(HoldersBy(holders, script[0]), script[1..])
  }

  lemma DropsRest(script: seq<Label>, t: nat)
    requires script != []
    ensures DropTask(t) in script <==> script[0] == DropTask(t) || DropTask(t) in script[1..]
  {
    assert script == [script[0]] + script[1..];
  }

  /** A task holds the executor at the end exactly when it was cloned to it and not dropped since. */
  lemma {:induction false} TaskHeldExactly(holders: set<Holder>, script: seq<Label>, t: nat)
    requires Scripted(holders, script)
    ensures Task(t) in HoldersAfter(holders, script) <==>
              || (Task(t) in holders && DropTask(t) !in script)
              || exists i :: 0 <= i < |script| && script[i].Clone? && script[i].task == t && DropTask(t) !in script[i..]
    decreases script
  {
    if script != [] {
      var l, rest := script[0], script[1..];
      TaskHeldExactly(HoldersBy(holders, l), rest, t);
      DropsRest(script, t);
      assert script[0..] == script;
      assert forall i :: 0 <= i < |rest| ==> script[i + 1] == rest[i] && script[i + 1..] == rest[i..];
      if i :| 0 <= i < |rest| && rest[i].Clone? && rest[i].task == t && DropTask(t) !in rest[i..] {
        assert script[i + 1].Clone?;
      }
      if i :| 0 <= i < |script| && script[i].Clone? && script[i].task == t && DropTask(t) !in script[i..] {
        if i > 0 { assert rest[i - 1] == script[i] && rest[i - 1..] == script[i..]; }
      }
    }
  }

  function WriteIn(l: Label): seq<int> {
    if l.Write? then [l.value] else []
  }

  function WritesIn(script: seq<Label>): seq<int> {
    if script == [] then [] else WriteIn(script[0]) + WritesIn(script[1..])
  }

  /** One handler: what happened to the executor meanwhile, and its result. */
  datatype HandlerRun = HandlerRun(script: seq<Label>, result: Outcome) {
    predicate Valid() { Scripted({Interceptor, Ambient}, script) }

    /** Some task it spawned has not ended. */
    predicate Escapes() { HoldersAfter({Interceptor, Ambient}, script) != {Interceptor, Ambient} }
  }

  /** What a mutating request answers, given what becomes of its commit. */
  function SoloAnswer(begins: bool, h: HandlerRun, commits: CommitOutcome): Outcome {
    if !begins then Error(500)
    else
      match h.result
      case Response(s) => if 200 <= s < 400 && (h.Escapes() || commits != Succeeds) then Error(500) else Response(s)
      case Error(s) => Error(s)
  }

  /** Whether its writes are persisted: a commit was sent and took effect. */
  predicate SoloPersists(begins: bool, h: HandlerRun, commits: CommitOutcome) {
    begins && h.result.Response? && 200 <= h.result.status < 400 && !h.Escapes() && commits != Fails
  }

  /** A database transaction behind its reference count. */
  class Transaction {
    var holders: set<Holder>
    var buffered: seq<int>

    constructor ()
      ensures holders == {Interceptor} && buffered == []
    {
      holders, buffered := {Interceptor}, [];
    }

    /** The handler, with the executor installed around it and dropped at the end. */
    method RunWith(h: HandlerRun) returns (result: Outcome)
      requires holders == {Interceptor} && h.Valid()
      modifies this
      ensures result == h.result
      ensures holders == HoldersAfter({Interceptor, Ambient}, h.script) - {Ambient}
      ensures buffered == old(buffered) + WritesIn(h.script)
    {
      holders := holders + {Ambient};
      ghost var had := buffered;
      assert h.script[0..] == h.script && holders == {Interceptor, Ambient};
      for i := 0 to |h.script|
        invariant Scripted(holders, h.script[i..])
        invariant HoldersAfter(holders, h.script[i..]) == HoldersAfter({Interceptor, Ambient}, h.script)
        invariant buffered + WritesIn(h.script[i..]) == had + WritesIn(h.script)
      {
        assert h.script[i..][1..] == h.script[i + 1..];
        WritesInRest(buffered, h.script[i..]);
        match h.script[i] {
          case Write(_, value) => buffered := buffered + [value];
          case Clone(_, task) => holders := holders + {Task(task)};
          case DropTask(task) => holders := holders - {Task(task)};
          case _ =>
        }
      }
      holders := holders - {Ambient};
      return h.result;
    }
  }

  lemma {:induction false} OwnersStay(holders: set<Holder>, script: seq<Label>)
    requires {Interceptor, Ambient} <= holders && Scripted(holders, script)
    ensures {Interceptor, Ambient} <= HoldersAfter(holders, script)
    decreases script
  {
    if script != [] {
      OwnersStay(HoldersBy(holders, script[0]), script[1..]);
    }
  }

  class Database {
    var log: seq<int>

    /** `DbContext::intercept`.  Whether the transaction opens and what becomes of the commit is up to the
        database. */
    method Intercept(verb: Verb, begins: bool, handler: HandlerRun, commits: CommitOutcome) returns (answer: Outcome)
      requires handler.Valid()
      modifies this
      ensures verb in {GET, HEAD, OPTIONS, TRACE} ==>
                answer == handler.result && log == old(log) + WritesIn(handler.script)
      ensures verb !in {GET, HEAD, OPTIONS, TRACE} ==> answer == SoloAnswer(begins, handler, commits)
      ensures verb !in {GET, HEAD, OPTIONS, TRACE} ==>
                log == if SoloPersists(begins, handler, commits) then old(log) + WritesIn(handler.script) else old(log)
      ensures verb !in {GET, HEAD, OPTIONS, TRACE} && answer.Response? && 200 <= answer.status < 400 ==>
                log == old(log) + WritesIn(handler.script)
    {
      if IsSafe(verb) {
        log := log + WritesIn(handler.script);
        return handler.result;
      }
      if !begins {
        return INTERNAL_ERROR;
      }
      var txn := new Transaction();
      var result := txn.RunWith(handler);
      OwnersStay({Interceptor, Ambient}, handler.script);
      if txn.holders != {Interceptor} {
        if ShouldCommit(result) {
          return INTERNAL_ERROR;
        }
        return result;
      }
      if ShouldCommit(result) {
        if commits.TakesEffect() {
          log := log + txn.buffered;
        }
        if !commits.Succeeds? {
          return INTERNAL_ERROR;
        }
      }
      return result;
    }
  }

  // ---------------------------------------------------------------- and in the transition system

  function StepsOf(r: nat, labels: seq<Label>): seq<(nat, Label)> {
    seq(|labels|, i requires 0 <= i < |labels| => (r, labels[i]))
  }

  /** The end of a solo run, from the handler's return. */
  function Ending(h: HandlerRun, commits: CommitOutcome): seq<(nat, Label)> {
    [(0, Return(h.result))] + ([(0, TryUnwrap)]
      + (if h.Escapes() then []
         else [(0, if ShouldCommit(h.result) then Commit(commits) else Rollback)] + ([(0, Answer)] + [])))
  }

  /** The run of a single mutating request whose transaction opens. */
  function SoloRun(verb: Verb, h: HandlerRun, commits: CommitOutcome): seq<(nat, Label)> {
    [(0, Arrive(verb, true))] + (StepsOf(0, h.script) + Ending(h, commits))
  }

  function WithRequest(s: State, r: nat, q: Request): State {
    s.(requests := s.requests[r := q])
  }

  /** What a script does to its request. */
  function AfterScript(q: Request, script: seq<Label>): Request {
    q.(holders := HoldersAfter(q.holders, script), writes := q.writes + WritesIn(script))
  }

  lemma StepInScript(q: Request, l: Label)
    requires Interceptor in q.holders && Allowed(q.holders, l)
    ensures Stepped(q, l) == q.(holders := HoldersBy(q.holders, l), writes := q.writes + WriteIn(l))
  {
    if l.DropTask? {
      assert Interceptor in q.holders - {Task(l.task)};
    }
  }

  lemma WritesInRest(had: seq<int>, script: seq<Label>)
    requires script != []
    ensures (had + WriteIn(script[0])) + WritesIn(script[1..]) == had + WritesIn(script)
  {
    var one, more := WriteIn(script[0]), WritesIn(script[1..]);
    assert (had + one) + more == had + (one + more);
  }

  lemma ScriptStep(q: Request, script: seq<Label>)
    requires Interceptor in q.holders && script != [] && Allowed(q.holders, script[0])
    ensures AfterScript(Stepped(q, script[0]), script[1..]) == AfterScript(q, script)
  {
    StepInScript(q, script[0]);
    WritesInRest(q.writes, script);
  }

  lemma ScriptNext(s: State, l: Label)
    requires 0 in s.requests && s.requests[0].phase.Running? && Allowed(s.requests[0].holders, l)
    ensures Enabled(s, 0, l) && Next(s, 0, l) == WithRequest(s, 0, Stepped(s.requests[0], l))
  {
  }

  lemma StepsOfCons(script: seq<Label>, rest: seq<(nat, Label)>)
    requires script != []
    ensures StepsOf(0, script) + rest == [(0, script[0])] + (StepsOf(0, script[1..]) + rest)
  {
    assert StepsOf(0, script) == [(0, script[0])] + StepsOf(0, script[1..]);
  }

  lemma NothingDone(s: State, rest: seq<(nat, Label)>)
    requires 0 in s.requests
    ensures StepsOf(0, []) + rest == rest && WithRequest(s, 0, AfterScript(s.requests[0], [])) == s
  {
    var q := s.requests[0];
    assert q.writes + [] == q.writes;
    assert s.requests[0 := q] == s.requests;
  }

  /** The handler's script, as steps of the system. */
  lemma {:induction false} ScriptRun(s: State, script: seq<Label>, rest: seq<(nat, Label)>)
    requires 0 in s.requests && s.requests[0].phase.Running? && {Interceptor, Ambient} <= s.requests[0].holders
    requires Scripted(s.requests[0].holders, script)
    requires Feasible(WithRequest(s, 0, AfterScript(s.requests[0], script)), rest)
    ensures Feasible(s, StepsOf(0, script) + rest)
    ensures After(s, StepsOf(0, script) + rest) == After(WithRequest(s, 0, AfterScript(s.requests[0], script)), rest)
    decreases |script|
  {
    var q := s.requests[0];
    if script == [] {
      NothingDone(s, rest);
    } else {
      var l, more := script[0], script[1..];
      ScriptNext(s, l);
      var next := WithRequest(s, 0, Stepped(q, l));
      ScriptStep(q, script);
      StepInScript(q, l);
      assert next.requests[0 := AfterScript(q, script)] == s.requests[0 := AfterScript(q, script)];
      ScriptRun(next, more, rest);
      StepsOfCons(script, rest);
      FirstStep(s, 0, l, StepsOf(0, more) + rest);
    }
  }

  /** Request 0 has answered, and persisted, as the interceptor's code says. */
  predicate Solo(s: State, h: HandlerRun, commits: CommitOutcome) {
    && 0 in s.requests && s.requests[0].phase == Answered(SoloAnswer(true, h, commits))
    && Persisted(s.store, 0) == if SoloPersists(true, h, commits) then WritesIn(h.script) else []
  }

  lemma SoloLast(s: State, h: HandlerRun, last: Label, commits: CommitOutcome)
    requires s.store == [] && 0 in s.requests && s.requests[0].phase == Reclaimed(h.result)
    requires s.requests[0].writes == WritesIn(h.script) && !h.Escapes()
    requires last == if ShouldCommit(h.result) then Commit(commits) else Rollback
    ensures Feasible(s, [(0, last)] + ([(0, Answer)] + []))
    ensures Solo(After(s, [(0, last)] + ([(0, Answer)] + [])), h, commits)
  {
    var settled := Next(s, 0, last);
    FirstStep(settled, 0, Answer, []);
    FirstStep(s, 0, last, [(0, Answer)] + []);
    StepStore(s, 0, last, 0);
  }

  lemma SoloEnding(s: State, h: HandlerRun, commits: CommitOutcome)
    requires s.store == [] && 0 in s.requests && s.requests[0].phase.Running? && s.requests[0].txn.Open?
    requires s.requests[0].holders == HoldersAfter({Interceptor, Ambient}, h.script)
    requires {Interceptor, Ambient} <= s.requests[0].holders && s.requests[0].writes == WritesIn(h.script)
    ensures Feasible(s, Ending(h, commits)) && Solo(After(s, Ending(h, commits)), h, commits)
  {
    var s1 := Next(s, 0, Return(h.result));
    var s2 := Next(s1, 0, TryUnwrap);
    if h.Escapes() {
      assert s1.requests[0].holders != {Interceptor};
      FirstStep(s1, 0, TryUnwrap, []);
      FirstStep(s, 0, Return(h.result), [(0, TryUnwrap)] + []);
    } else {
      assert s1.requests[0].holders == {Interceptor};
      var last := if ShouldCommit(h.result) then Commit(commits) else Rollback;
      SoloLast(s2, h, last, commits);
      FirstStep(s1, 0, TryUnwrap, [(0, last)] + ([(0, Answer)] + []));
      FirstStep(s, 0, Return(h.result), [(0, TryUnwrap)] + ([(0, last)] + ([(0, Answer)] + [])));
    }
  }

  ghost predicate OnPoolNow(s: State, persisted: seq<int>) {
    && 0 in s.requests && s.requests[0].phase.OnPool? && IsSafe(s.requests[0].verb)
    && Persisted(s.store, 0) == persisted
  }

  lemma PoolStep(s: State, persisted: seq<int>, value: int)
    requires OnPoolNow(s, persisted)
    ensures Enabled(s, 0, PoolWrite(value)) && OnPoolNow(Next(s, 0, PoolWrite(value)), persisted + [value])
  {
    StepStore(s, 0, PoolWrite(value), 0);
  }

  lemma {:induction false} PoolRun(s: State, persisted: seq<int>, writes: seq<int>) returns (run: seq<(nat, Label)>)
    requires OnPoolNow(s, persisted)
    ensures Feasible(s, run) && OnPoolNow(After(s, run), persisted + writes)
    decreases |writes|
  {
    if writes == [] {
      run := [];
      assert persisted + writes == persisted;
    } else {
      var next := Next(s, 0, PoolWrite(writes[0]));
      PoolStep(s, persisted, writes[0]);
      assert (persisted + [writes[0]]) + writes[1..] == persisted + writes;
      var rest := PoolRun(next, persisted + [writes[0]], writes[1..]);
      run := Prepend(s, 0, PoolWrite(writes[0]), rest);
      assert After(s, run) == After(next, rest);
    }
  }

  lemma {:induction false} Postpone(s: State, run: seq<(nat, Label)>, r: nat, l: Label)
    requires Feasible(s, run) && Enabled(After(s, run), r, l)
    ensures Feasible(s, run + [(r, l)]) && After(s, run + [(r, l)]) == Next(After(s, run), r, l)
    decreases |run|
  {
    if run == [] {
      FirstStep(s, r, l, []);
      assert [] + [(r, l)] == [(r, l)] + [];
    } else {
      var next := Next(s, run[0].0, run[0].1);
      Postpone(next, run[1..], r, l);
      FirstStep(s, run[0].0, run[0].1, run[1..] + [(r, l)]);
      assert run + [(r, l)] == [(run[0].0, run[0].1)] + (run[1..] + [(r, l)]);
    }
  }

  /** So does the code for a safe method, which persists each write at once and keeps the answer, whatever
      it is. */
  lemma SafeRunAgrees(verb: Verb, begins: bool, h: HandlerRun) returns (run: seq<(nat, Label)>)
    requires verb in {GET, HEAD, OPTIONS, TRACE}
    ensures Feasible(START, run) && 0 in After(START, run).requests
    ensures After(START, run).requests[0].phase == Answered(h.result)
    ensures Persisted(After(START, run).store, 0) == WritesIn(h.script)
  {
    var begun := Next(START, 0, Arrive(verb, begins));
    run := PoolRun(begun, [], WritesIn(h.script));
    StepStore(After(begun, run), 0, PoolReturn(h.result), 0);
    Postpone(begun, run, 0, PoolReturn(h.result));
    run := Prepend(START, 0, Arrive(verb, begins), run + [(0, PoolReturn(h.result))]);
    assert [] + WritesIn(h.script) == WritesIn(h.script);
  }

  /** The interceptor's straight-line code follows one of the runs above to the same answer and the
      same persisted writes, whatever the handler does with the executor, and also when the transaction
      does not open. */
  lemma SoloRunAgrees(verb: Verb, h: HandlerRun, commits: CommitOutcome)
    requires verb !in {GET, HEAD, OPTIONS, TRACE} && h.Valid()
    ensures Feasible(START, SoloRun(verb, h, commits))
    ensures Solo(After(START, SoloRun(verb, h, commits)), h, commits)
    ensures var failed := [(0, Arrive(verb, false))];
      && Feasible(START, failed) && 0 in After(START, failed).requests
      && After(START, failed).requests[0].phase == Answered(SoloAnswer(false, h, commits))
      && After(START, failed).store == []
  {
    FirstStep(START, 0, Arrive(verb, false), []);
    var begun := Next(START, 0, Arrive(verb, true));
    var held := HoldersAfter({Interceptor, Ambient}, h.script);
    var q := Begun(verb, true).(holders := held, writes := WritesIn(h.script));
    var running := WithRequest(begun, 0, q);
    assert [] + WritesIn(h.script) == WritesIn(h.script);
    OwnersStay({Interceptor, Ambient}, h.script);
    SoloEnding(running, h, commits);
    ScriptRun(begun, h.script, Ending(h, commits));
    FirstStep(START, 0, Arrive(verb, true), StepsOf(0, h.script) + Ending(h, commits));
  }
}
