/** Guards, filters and interceptors wrapped around a handler: what runs, in what order, and what
    comes back. */
module Layers {
  import opened Basics

  type Request = map<string, int>

  type Response = int

  /** A handler or interceptor may fail; the error reaches the innermost enclosing filter. */
  datatype Result = Ok(response: Response) | Err(error: int)

  /** A guard may change the request before it decides; `Some` is the denial it answers with. */
  datatype Guard = Guard(id: nat, check: Request -> (Request, Option<Response>))

  /** A filter sees the request as it entered the filter, and the error. */
  datatype Filter = Filter(id: nat, respond: (Request, int) -> Response)

  /** What an interceptor does with a request: hand one on to `next`, or answer without it. */
  datatype Proceed = Continue(request: Request) | Answer(result: Result)

  /** `next` can be called once at most, so an interceptor is what it does before, and what it makes of
      the result afterwards, knowing the request it was given. */
  datatype Interceptor = Interceptor(id: nat, before: Request -> Proceed, after: (Request, Result) -> Result)

  datatype Layer = G(guard: Guard) | F(filter: Filter) | I(interceptor: Interceptor)

  datatype Endpoint = Handler(run: Request -> Result) | Wrapped(layer: Layer, inner: Endpoint)

  datatype Event =
    | Checked(guard: nat)
    | Entered(interceptor: nat)
    | Handled
    | Left(interceptor: nat)
    | Filtered(filter: nat)

  datatype Reply = Reply(trace: seq<Event>, result: Result)

  /** `Endpoint::call` of the handler and of the three wrappers. */
  function Call(ep: Endpoint, req: Request): Reply {
    match ep
    case Handler(run) => Reply([Handled], run(req))
    case Wrapped(G(g), inner) =>
      var (req', denial) := g.check(req);
      (match denial
       case Some(response) => Reply([Checked(g.id)], Ok(response))
       case None =>
         var r := Call(inner, req');
         Reply([Checked(g.id)] + r.trace, r.result))
    case Wrapped(F(f), inner) =>
      var r := Call(inner, req);
      (match r.result
       case Ok(_) => r
       case Err(e) => Reply(r.trace + [Filtered(f.id)], Ok(f.respond(req, e))))
    case Wrapped(I(i), inner) =>
      (match i.before(req)
       case Answer(result) => Reply([Entered(i.id), Left(i.id)], result)
       case Continue(req') =>
         var r := Call(inner, req');
         Reply([Entered(i.id)] + r.trace + [Left(i.id)], i.after(req, r.result)))
  }

  // ---------------------------------------------------------------- wrapping

  /** First listed outermost. */
  function Around(layers: seq<Layer>, ep: Endpoint): Endpoint {
    if layers == [] then ep else Wrapped(layers[0], Around(layers[1..], ep))
  }

  /** `wrap_layer` and `controller_layers` wrap in reverse, so the first listed ends outermost. */
  method WrapLayer(ep: Endpoint, layers: seq<Layer>) returns (out: Endpoint)
    ensures out == Around(layers, ep)
  {
    out := ep;
    var n := |layers|;
    assert layers[n..] == [];
    while n > 0
      invariant 0 <= n <= |layers| && out == Around(layers[n..], ep)
    {
      n := n - 1;
      assert layers[n..][1..] == layers[n + 1..];
      out := Wrapped(layers[n], out);
    }
    assert layers[0..] == layers;
  }

  /** The layers bound at one level, a route or a controller. */
  datatype Level = Level(filters: seq<Filter>, guards: seq<Guard>, interceptors: seq<Interceptor>)

  function Guards(gs: seq<Guard>): seq<Layer> { seq(|gs|, n requires 0 <= n < |gs| => G(gs[n])) }
  function Filters(fs: seq<Filter>): seq<Layer> { seq(|fs|, n requires 0 <= n < |fs| => F(fs[n])) }
  function Interceptors(xs: seq<Interceptor>): seq<Layer> { seq(|xs|, n requires 0 <= n < |xs| => I(xs[n])) }

  function AtLevel(l: Level, ep: Endpoint): Endpoint {
    Around(Filters(l.filters), Around(Guards(l.guards), Around(Interceptors(l.interceptors), ep)))
  }

  /** Inner to outer: interceptors, guards, filters. */
  method WrapLevel(ep: Endpoint, l: Level) returns (out: Endpoint)
    ensures out == AtLevel(l, ep)
  {
    out := WrapLayer(ep, Interceptors(l.interceptors));
    out := WrapLayer(out, Guards(l.guards));
    out := WrapLayer(out, Filters(l.filters));
  }

  // ---------------------------------------------------------------- what a level means

  /** What a list of guards does: which are checked, the request they leave, the first denial. */
  datatype Verdict = Verdict(checked: seq<Event>, request: Request, denial: Option<Response>)

  function Check(gs: seq<Guard>, req: Request): Verdict {
    if gs == [] then Verdict([], req, None)
    else
      var (req', denial) := gs[0].check(req);
      if denial.Some? then Verdict([Checked(gs[0].id)], req', denial)
      else
        var rest := Check(gs[1..], req');
        Verdict([Checked(gs[0].id)] + rest.checked, rest.request, rest.denial)
  }

  lemma {:induction false} GuardsMeaning(gs: seq<Guard>, ep: Endpoint, req: Request)
    ensures var v := Check(gs, req);
      Call(Around(Guards(gs), ep), req) ==
        match v.denial
        case Some(response) => Reply(v.checked, Ok(response))
        case None => Reply(v.checked + Call(ep, v.request).trace, Call(ep, v.request).result)
  {
    if gs != [] {
      assert Guards(gs)[1..] == Guards(gs[1..]);
      var (req', denial) := gs[0].check(req);
      if denial.None? {
        GuardsMeaning(gs[1..], ep, req');
        var rest := Check(gs[1..], req');
        assert [Checked(gs[0].id)] + (rest.checked + Call(ep, rest.request).trace)
            == [Checked(gs[0].id)] + rest.checked + Call(ep, rest.request).trace;
      }
    }
  }

  /** The order itself: as listed, each once, and short of the end only for a denial. */
  lemma {:induction false} GuardOrder(gs: seq<Guard>, req: Request)
    ensures var v := Check(gs, req);
      && |v.checked| <= |gs| && (forall k :: 0 <= k < |v.checked| ==> v.checked[k] == Checked(gs[k].id))
      && (v.denial.None? ==> |v.checked| == |gs|)
      && (v.denial.Some? ==> |v.checked| > 0)
  {
    if gs != [] {
      var (req', denial) := gs[0].check(req);
      if denial.None? {
        GuardOrder(gs[1..], req');
      }
    }
  }

  /** `reqs` is the request as each of the first `n` guards receives it, and as the last leaves it: each
      guard gets what the one before it made of the request. */
  ghost predicate PassesAlong(gs: seq<Guard>, n: nat, req: Request, reqs: seq<Request>)
    requires n <= |gs|
  {
    && |reqs| == n + 1 && reqs[0] == req
    && forall k :: 0 <= k < n ==> reqs[k + 1] == gs[k].check(reqs[k]).0
  }

  /** What the verdict is made of: every guard checked but the last lets the request pass, and the last
      denies it if any does, with the answer that is given. */
  lemma {:induction false} GuardsThread(gs: seq<Guard>, req: Request) returns (reqs: seq<Request>)
    ensures var v := Check(gs, req);
      var n := |v.checked|;
      && n <= |gs| && PassesAlong(gs, n, req, reqs) && v.request == reqs[n]
      && (forall k :: 0 <= k < n ==> gs[k].check(reqs[k]).1 == if k == n - 1 then v.denial else None)
  {
    reqs := [req];
    if gs != [] {
      var (req', denial) := gs[0].check(req);
      if denial.None? {
        reqs := GuardsThread(gs[1..], req');
      } else {
        reqs := [req'];
      }
      reqs := [req] + reqs;
    }
  }

  /** Only the last-listed filter can fire: it is innermost, and answers before the others look. */
  lemma {:induction false} FiltersMeaning(fs: seq<Filter>, ep: Endpoint, req: Request)
    ensures var r := Call(ep, req);
      Call(Around(Filters(fs), ep), req) ==
        if fs == [] || r.result.Ok? then r
        else Reply(r.trace + [Filtered(fs[|fs| - 1].id)], Ok(fs[|fs| - 1].respond(req, r.result.error)))
  {
    if fs != [] {
      assert Filters(fs)[1..] == Filters(fs[1..]);
      FiltersMeaning(fs[1..], ep, req);
    }
  }

  /** On the way in: how many interceptors called `next`, what they came to, and the events. */
  datatype Descent = Descent(depth: nat, proceed: Proceed, events: seq<Event>)

  function Enter(xs: seq<Interceptor>, req: Request): (d: Descent)
    ensures d.depth <= |xs|
  {
    if xs == [] then Descent(0, Continue(req), [])
    else
      match xs[0].before(req)
      case Answer(result) => Descent(0, Answer(result), [Entered(xs[0].id), Left(xs[0].id)])
      case Continue(req') =>
        var d := Enter(xs[1..], req');
        Descent(d.depth + 1, d.proceed, [Entered(xs[0].id)] + d.events)
  }

  /** On the way out: the interceptors that called `next` make what they will of the result. */
  function Leave(xs: seq<Interceptor>, req: Request, r: Result): (Result, seq<Event>) {
    if xs == [] || xs[0].before(req).Answer? then (r, [])
    else
      var (r', es) := Leave(xs[1..], xs[0].before(req).request, r);
      (xs[0].after(req, r'), es + [Left(xs[0].id)])
  }

  lemma Regroup<T>(a: seq<T>, b: seq<T>, c: seq<T>, d: seq<T>, e: seq<T>)
    ensures a + (b + c + d) + e == (a + b) + c + (d + e)
    ensures c == [] ==> a + (b + d) + e == (a + b) + (d + e)
  {
  }

  /** Interceptors nest, whether they call `next` or not: the inner endpoint runs exactly when all of
      them do, between their entries and their exits. */
  lemma {:induction false} InterceptorsMeaning(xs: seq<Interceptor>, ep: Endpoint, req: Request)
    ensures var d := Enter(xs, req);
      Call(Around(Interceptors(xs), ep), req) ==
        match d.proceed
        case Answer(result) => Reply(d.events + Leave(xs, req, result).1, Leave(xs, req, result).0)
        case Continue(req') =>
          var r := Call(ep, req');
          Reply(d.events + r.trace + Leave(xs, req, r.result).1, Leave(xs, req, r.result).0)
  {
    if xs != [] {
      assert Interceptors(xs)[1..] == Interceptors(xs[1..]);
      match xs[0].before(req) {
        case Answer(result) =>
        case Continue(req') =>
          InterceptorsMeaning(xs[1..], ep, req');
          var d := Enter(xs[1..], req');
          match d.proceed {
            case Answer(result) =>
              var ls := Leave(xs[1..], req', result).1;
              Regroup([Entered(xs[0].id)], d.events, [], ls, [Left(xs[0].id)]);
            case Continue(last) =>
              var r := Call(ep, last);
              var ls := Leave(xs[1..], req', r.result).1;
              Regroup([Entered(xs[0].id)], d.events, r.trace, ls, [Left(xs[0].id)]);
          }
      }
    }
  }

  /** `d` enters the interceptors in listed order, and one more when that one answers. */
  ghost predicate EntersInOrder(xs: seq<Interceptor>, d: Descent) {
    && d.depth <= |xs| && |d.events| >= d.depth
    && (forall k :: 0 <= k < d.depth ==> d.events[k] == Entered(xs[k].id))
    && (if d.proceed.Continue? then d.depth == |xs| == |d.events|
        else d.depth < |xs| && d.events[d.depth..] == [Entered(xs[d.depth].id), Left(xs[d.depth].id)])
  }

  /** `leaving` leaves the first `depth` interceptors in the opposite order. */
  ghost predicate LeavesInReverse(xs: seq<Interceptor>, depth: nat, leaving: seq<Event>) {
    |leaving| == depth <= |xs| && forall k :: 0 <= k < depth ==> leaving[k] == Left(xs[depth - 1 - k].id)
  }

  lemma {:induction false} EntryOrder(xs: seq<Interceptor>, req: Request)
    ensures EntersInOrder(xs, Enter(xs, req))
  {
    if xs != [] && xs[0].before(req).Continue? {
      var d := Enter(xs[1..], xs[0].before(req).request);
      EntryOrder(xs[1..], xs[0].before(req).request);
      assert ([Entered(xs[0].id)] + d.events)[d.depth + 1..] == d.events[d.depth..];
    }
  }

  lemma {:induction false} ExitOrder(xs: seq<Interceptor>, req: Request, r: Result)
    ensures LeavesInReverse(xs, Enter(xs, req).depth, Leave(xs, req, r).1)
  {
    if xs != [] && xs[0].before(req).Continue? {
      ExitOrder(xs[1..], xs[0].before(req).request, r);
    }
  }

  /** `reqs` is the request as the first `n` interceptors receive it, and as the last hands it on. */
  ghost predicate HandedOn(xs: seq<Interceptor>, n: nat, req: Request, reqs: seq<Request>)
    requires n <= |xs|
  {
    && |reqs| == n + 1 && reqs[0] == req
    && forall k :: 0 <= k < n ==> xs[k].before(reqs[k]) == Continue(reqs[k + 1])
  }

  /** `results` is the result as it leaves each of them: each makes it of the result from within, and of
      the request it was given itself. */
  ghost predicate HandedBack(xs: seq<Interceptor>, n: nat, reqs: seq<Request>, results: seq<Result>)
    requires n <= |xs| && |reqs| == n + 1
  {
    |results| == n + 1 && forall k :: 0 <= k < n ==> results[k] == xs[k].after(reqs[k], results[k + 1])
  }

  /** What becomes of the request on the way in and of the result on the way out: the interceptors that
      call `next` hand the request on from one to the next, up to one that answers or the inner endpoint,
      and the result comes back through the same ones. */
  lemma {:induction false} InterceptorsThread(xs: seq<Interceptor>, req: Request, r: Result)
    returns (reqs: seq<Request>, results: seq<Result>)
    ensures var d := Enter(xs, req);
      && HandedOn(xs, d.depth, req, reqs) && HandedBack(xs, d.depth, reqs, results)
      && results[d.depth] == r && results[0] == Leave(xs, req, r).0
      && d.proceed == (if d.depth == |xs| then Continue(reqs[d.depth]) else xs[d.depth].before(reqs[d.depth]))
      && (d.depth < |xs| ==> d.proceed.Answer?)
  {
    reqs, results := [req], [r];
    if xs != [] && xs[0].before(req).Continue? {
      var req' := xs[0].before(req).request;
      reqs, results := InterceptorsThread(xs[1..], req', r);
      reqs, results := [req] + reqs, [xs[0].after(req, results[0])] + results;
    }
  }

  /** The order itself: entered as listed, one more when that one answers, and left in the opposite
      order. */
  lemma InterceptorOrder(xs: seq<Interceptor>, req: Request, r: Result)
    ensures EntersInOrder(xs, Enter(xs, req))
    ensures LeavesInReverse(xs, Enter(xs, req).depth, Leave(xs, req, r).1)
  {
    EntryOrder(xs, req);
    ExitOrder(xs, req, r);
  }

  /** One level around anything: the guards in listed order up to the first denial; past them the
      interceptors around the inner endpoint, which runs if all of them call `next`; an error then
      goes to the last-listed filter, whoever made it. */
  lemma LevelMeaning(l: Level, ep: Endpoint, req: Request)
    ensures Call(AtLevel(l, ep), req) ==
      var v := Check(l.guards, req);
      if v.denial.Some? then Reply(v.checked, Ok(v.denial.value))
      else
        var d := Enter(l.interceptors, v.request);
        var r := if d.proceed.Continue? then Call(ep, d.proceed.request) else Reply([], d.proceed.result);
        var (result, leaving) := Leave(l.interceptors, v.request, r.result);
        var trace := v.checked + (d.events + r.trace + leaving);
        if l.filters == [] || result.Ok? then Reply(trace, result)
        else
          var f := l.filters[|l.filters| - 1];
          Reply(trace + [Filtered(f.id)], Ok(f.respond(req, result.error)))
  {
    var v := Check(l.guards, req);
    var inner := Around(Interceptors(l.interceptors), ep);
    FiltersMeaning(l.filters, Around(Guards(l.guards), inner), req);
    GuardsMeaning(l.guards, inner, req);
    InterceptorsMeaning(l.interceptors, ep, v.request);
    assert Enter(l.interceptors, v.request).events + [] == Enter(l.interceptors, v.request).events;
  }

  // ---------------------------------------------------------------- controller and route

  /** It calls `next`, and passes its result through. */
  ghost predicate Passes(x: Interceptor) {
    && (forall req: Request :: x.before(req).Continue?)
    && (forall req: Request, r: Result :: x.after(req, r) == r)
  }

  ghost predicate PassThrough(xs: seq<Interceptor>) {
    forall x :: x in xs ==> Passes(x)
  }

  lemma {:induction false} LeavePassThrough(xs: seq<Interceptor>, req: Request, r: Result)
    requires PassThrough(xs)
    ensures Enter(xs, req).proceed.Continue? && Leave(xs, req, r).0 == r
  {
    if xs != [] {
      assert Passes(xs[0]) && forall x :: x in xs[1..] ==> x in xs;
      LeavePassThrough(xs[1..], xs[0].before(req).request, r);
    }
  }

  /** The request that comes through the interceptors. */
  function Received(xs: seq<Interceptor>, req: Request): Request {
    if Enter(xs, req).proceed.Continue? then Enter(xs, req).proceed.request else req
  }

  /** The events of one kind, in order. */
  function Only(trace: seq<Event>, keep: Event -> bool): seq<Event> {
    if trace == [] then []
    else (if keep(trace[0]) then [trace[0]] else []) + Only(trace[1..], keep)
  }

  lemma {:induction false} OnlyAppend(a: seq<Event>, b: seq<Event>, keep: Event -> bool)
    ensures Only(a + b, keep) == Only(a, keep) + Only(b, keep)
  {
    if a == [] {
      assert a + b == b;
    } else {
      OnlyAppend(a[1..], b, keep);
      assert (a + b)[0] == a[0] && (a + b)[1..] == a[1..] + b;
      var head := if keep(a[0]) then [a[0]] else [];
      assert head + (Only(a[1..], keep) + Only(b, keep)) == head + Only(a[1..], keep) + Only(b, keep);
    }
  }

  /** Dropping what an interceptor does leaves the checks, the handler and the filters. */
  function Essential(e: Event): bool {
    !e.Entered? && !e.Left?
  }

  lemma {:induction false} CheckedAreEssential(gs: seq<Guard>, req: Request)
    ensures Only(Check(gs, req).checked, Essential) == Check(gs, req).checked
    ensures forall e :: e in Check(gs, req).checked ==> e.Checked?
  {
    if gs != [] {
      var (req', denial) := gs[0].check(req);
      if denial.None? {
        CheckedAreEssential(gs[1..], req');
        OnlyAppend([Checked(gs[0].id)], Check(gs[1..], req').checked, Essential);
      }
      assert Only([Checked(gs[0].id)], Essential) == [Checked(gs[0].id)];
    }
  }

  lemma {:induction false} EnterIsInessential(xs: seq<Interceptor>, req: Request)
    requires Enter(xs, req).proceed.Continue?
    ensures Only(Enter(xs, req).events, Essential) == []
  {
    if xs != [] {
      EnterIsInessential(xs[1..], xs[0].before(req).request);
      var es := Enter(xs[1..], xs[0].before(req).request).events;
      assert ([Entered(xs[0].id)] + es)[1..] == es;
    }
  }

  lemma {:induction false} LeaveIsInessential(xs: seq<Interceptor>, req: Request, r: Result)
    ensures Only(Leave(xs, req, r).1, Essential) == []
  {
    if xs != [] && xs[0].before(req).Continue? {
      LeaveIsInessential(xs[1..], xs[0].before(req).request, r);
      OnlyAppend(Leave(xs[1..], xs[0].before(req).request, r).1, [Left(xs[0].id)], Essential);
    }
  }

  lemma EssenceOfParts(checked: seq<Event>, entering: seq<Event>, inner: seq<Event>, leaving: seq<Event>)
    requires Only(checked, Essential) == checked && Only(entering, Essential) == [] && Only(leaving, Essential) == []
    ensures Only(checked + (entering + inner + leaving), Essential) == checked + Only(inner, Essential)
  {
    OnlyAppend(entering, inner, Essential);
    OnlyAppend(entering + inner, leaving, Essential);
    OnlyAppend(checked, entering + inner + leaving, Essential);
  }

  lemma EssenceOfFiltered(trace: seq<Event>, f: nat)
    ensures Only(trace + [Filtered(f)], Essential) == Only(trace, Essential) + [Filtered(f)]
  {
    OnlyAppend(trace, [Filtered(f)], Essential);
    assert Only([Filtered(f)], Essential) == [Filtered(f)];
  }

  /** One level, reduced to what matters: the checks, then what the inner endpoint did, then the
      filter that fired if the inner result was an error. */
  lemma LevelEssence(l: Level, ep: Endpoint, req: Request)
    requires PassThrough(l.interceptors)
    ensures var v := Check(l.guards, req);
      var r := Call(ep, Received(l.interceptors, v.request));
      var out := Call(AtLevel(l, ep), req);
      if v.denial.Some? then Only(out.trace, Essential) == v.checked && out.result == Ok(v.denial.value)
      else if l.filters == [] || r.result.Ok? then
        Only(out.trace, Essential) == v.checked + Only(r.trace, Essential) && out.result == r.result
      else
        var f := l.filters[|l.filters| - 1];
        Only(out.trace, Essential) == v.checked + Only(r.trace, Essential) + [Filtered(f.id)]
        && out.result == Ok(f.respond(req, r.result.error))
  {
    var v := Check(l.guards, req);
    var entering := Enter(l.interceptors, v.request).events;
    var r := Call(ep, Received(l.interceptors, v.request));
    var leaving := Leave(l.interceptors, v.request, r.result).1;
    LevelMeaning(l, ep, req);
    LeavePassThrough(l.interceptors, v.request, r.result);
    CheckedAreEssential(l.guards, req);
    EnterIsInessential(l.interceptors, v.request);
    LeaveIsInessential(l.interceptors, v.request, r.result);
    EssenceOfParts(v.checked, entering, r.trace, leaving);
    if l.filters != [] {
      EssenceOfFiltered(v.checked + (entering + r.trace + leaving), l.filters[|l.filters| - 1].id);
    }
  }

  /** A handler behind its route level behind its controller level. */
  function Mounted(controller: Level, route: Level, run: Request -> Result): Endpoint {
    AtLevel(controller, AtLevel(route, Handler(run)))
  }

  /** The request as the route's guards, and as the handler, receive it. */
  function AtRoute(controller: Level, req: Request): Request {
    Received(controller.interceptors, Check(controller.guards, req).request)
  }

  function AtHandler(controller: Level, route: Level, req: Request): Request {
    Received(route.interceptors, Check(route.guards, AtRoute(controller, req)).request)
  }

  /** Exactly what a request to a mounted handler does: the controller's guards and then the
      route's, in listed order, up to the first denial, which is the answer and reaches no filter;
      the handler runs when none denies; its error goes to one filter only, the last listed at the
      route, or failing that at the controller. */
  lemma MountedMeaning(controller: Level, route: Level, run: Request -> Result, req: Request)
    requires PassThrough(controller.interceptors) && PassThrough(route.interceptors)
    ensures var outer := Check(controller.guards, req);
      var inner := Check(route.guards, AtRoute(controller, req));
      var result := run(AtHandler(controller, route, req));
      var out := Call(Mounted(controller, route, run), req);
      var did := Only(out.trace, Essential);
      if outer.denial.Some? then did == outer.checked && out.result == Ok(outer.denial.value)
      else if inner.denial.Some? then did == outer.checked + inner.checked && out.result == Ok(inner.denial.value)
      else
        var upTo := outer.checked + (inner.checked + [Handled]);
        if result.Ok? || (route.filters == [] && controller.filters == []) then did == upTo && out.result == result
        else if route.filters != [] then
          var f := route.filters[|route.filters| - 1];
          did == upTo + [Filtered(f.id)] && out.result == Ok(f.respond(AtRoute(controller, req), result.error))
        else
          var f := controller.filters[|controller.filters| - 1];
          did == upTo + [Filtered(f.id)] && out.result == Ok(f.respond(req, result.error))
  {
    var ep := Handler(run);
    LevelEssence(route, ep, AtRoute(controller, req));
    LevelEssence(controller, AtLevel(route, ep), req);
    assert Only([Handled], Essential) == [Handled];
    var outer := Check(controller.guards, req);
    var inner := Check(route.guards, AtRoute(controller, req));
    if route.filters != [] {
      var f := route.filters[|route.filters| - 1];
      assert outer.checked + (inner.checked + [Handled] + [Filtered(f.id)])
          == outer.checked + (inner.checked + [Handled]) + [Filtered(f.id)];
    }
  }

  // ---------------------------------------------------------------- the transport's global layers

  function Reversed<T>(s: seq<T>): seq<T> {
    if s == [] then [] else Reversed(s[1..]) + [s[0]]
  }

  lemma {:induction false} ReversedSnoc<T>(s: seq<T>, x: T)
    ensures Reversed(s + [x]) == [x] + Reversed(s)
  {
    if s != [] {
      ReversedSnoc(s[1..], x);
      assert (s + [x])[1..] == s[1..] + [x];
    }
  }

  /** The transport wraps in listed order, so here the last listed ends outermost. */
  method WrapGlobal(ep: Endpoint, layers: seq<Layer>) returns (out: Endpoint)
    ensures out == Around(Reversed(layers), ep)
  {
    out := ep;
    assert layers[..0] == [];
    for n := 0 to |layers|
      invariant out == Around(Reversed(layers[..n]), ep)
    {
      ReversedSnoc(layers[..n], layers[n]);
      assert layers[..n + 1] == layers[..n] + [layers[n]];
      out := Wrapped(layers[n], out);
    }
    assert layers[..|layers|] == layers;
  }

  lemma {:induction false} ReversedLayers(fs: seq<Filter>, gs: seq<Guard>, xs: seq<Interceptor>)
    ensures Reversed(Filters(fs)) == Filters(Reversed(fs))
    ensures Reversed(Guards(gs)) == Guards(Reversed(gs))
    ensures Reversed(Interceptors(xs)) == Interceptors(Reversed(xs))
    decreases |fs| + |gs| + |xs|
  {
    if fs != [] {
      ReversedLayers(fs[1..], gs, xs);
      assert Filters(fs)[1..] == Filters(fs[1..]);
    } else if gs != [] {
      ReversedLayers(fs, gs[1..], xs);
      assert Guards(gs)[1..] == Guards(gs[1..]);
    } else if xs != [] {
      ReversedLayers(fs, gs, xs[1..]);
      assert Interceptors(xs)[1..] == Interceptors(xs[1..]);
    }
  }

  lemma {:induction false} ReversedAppend<T>(a: seq<T>, b: seq<T>)
    ensures Reversed(a + b) == Reversed(b) + Reversed(a)
  {
    if a == [] {
      assert a + b == b;
    } else {
      ReversedAppend(a[1..], b);
      assert (a + b)[1..] == a[1..] + b;
    }
  }

  lemma {:induction false} AroundAppend(a: seq<Layer>, b: seq<Layer>, ep: Endpoint)
    ensures Around(a + b, ep) == Around(a, Around(b, ep))
  {
    if a == [] {
      assert a + b == b;
    } else {
      AroundAppend(a[1..], b, ep);
      assert (a + b)[1..] == a[1..] + b;
    }
  }

  /** `configure`: filters innermost, then guards, then the discovered and the explicit interceptors. */
  method Configure(ep: Endpoint, filters: seq<Filter>, guards: seq<Guard>, discovered: seq<Interceptor>,
                   explicit: seq<Interceptor>)
    returns (out: Endpoint)
    ensures out == Around(Interceptors(Reversed(discovered + explicit)),
                     Around(Guards(Reversed(guards)), Around(Filters(Reversed(filters)), ep)))
  {
    out := WrapGlobal(ep, Filters(filters));
    out := WrapGlobal(out, Guards(guards));
    out := WrapGlobal(out, Interceptors(discovered));
    out := WrapGlobal(out, Interceptors(explicit));
    ReversedLayers(filters, guards, discovered + explicit);
    ReversedLayers([], [], discovered);
    ReversedLayers([], [], explicit);
    ReversedAppend(discovered, explicit);
    AroundAppend(Reversed(Interceptors(explicit)), Reversed(Interceptors(discovered)),
                 Around(Guards(Reversed(guards)), Around(Filters(Reversed(filters)), ep)));
    assert Interceptors(Reversed(explicit) + Reversed(discovered))
        == Interceptors(Reversed(explicit)) + Interceptors(Reversed(discovered));
  }

  /** At the transport the order is the opposite of the declarative one: guards run last listed
      first, and of the filters only the first listed can fire. */
  lemma GlobalMeaning(ep: Endpoint, filters: seq<Filter>, guards: seq<Guard>, req: Request)
    ensures var v := Check(Reversed(guards), req);
      var r := Call(ep, v.request);
      Call(Around(Guards(Reversed(guards)), Around(Filters(Reversed(filters)), ep)), req) ==
        if v.denial.Some? then Reply(v.checked, Ok(v.denial.value))
        else if filters == [] || r.result.Ok? then Reply(v.checked + r.trace, r.result)
        else Reply(v.checked + (r.trace + [Filtered(filters[0].id)]), Ok(filters[0].respond(v.request, r.result.error)))
  {
    GuardsMeaning(Reversed(guards), Around(Filters(Reversed(filters)), ep), req);
    FiltersMeaning(Reversed(filters), ep, Check(Reversed(guards), req).request);
    if filters != [] {
      assert Reversed(filters)[|Reversed(filters)| - 1] == filters[0];
    }
  }
}
