/** The collect phase: the same deduplicated import walk, queueing async factories only. */
module Collecting {
  import opened Schedules
  import opened Registration
  import opened ModuleTree

  /** `log` visits every dynamic import of the modules `ms` once, and besides only those of `id`
      before position `n`. */
  ghost predicate Visited(tree: Tree, ms: set<ModuleId>, id: ModuleId, n: nat, log: seq<Site>) {
    && Distinct(log)
    && forall s {:trigger s in log} ::
      s in log <==> IsSite(tree, s) && (s.owner in ms || (s.owner == id && s.at < n))
  }

  /** `log` visits every dynamic import of the modules `ms`, each once. */
  ghost predicate VisitedAll(tree: Tree, ms: set<ModuleId>, log: seq<Site>) {
    Distinct(log) && forall s {:trigger s in log} :: s in log <==> IsSite(tree, s) && s.owner in ms
  }

  function FactoriesAt(tree: Tree, s: Site): seq<Factory> {
    if s.owner in tree && s.at < |tree[s.owner].imports| && tree[s.owner].imports[s.at].Dynamic?
    then tree[s.owner].imports[s.at].factories
    else []
  }

  /** The factories queued at the visited sites, in order. */
  ghost function QueueOf(tree: Tree, log: seq<Site>): seq<Factory> {
    if log == [] then [] else QueueOf(tree, log[..|log| - 1]) + FactoriesAt(tree, log[|log| - 1])
  }

  lemma {:induction false} QueueAppend(tree: Tree, a: seq<Site>, b: seq<Site>)
    ensures QueueOf(tree, a + b) == QueueOf(tree, a) + QueueOf(tree, b)
  {
    if b == [] {
      assert a + b == a;
    } else {
      QueueAppend(tree, a, b[..|b| - 1]);
      assert (a + b)[..|a + b| - 1] == a + b[..|b| - 1];
    }
  }

  lemma QueueOfOne(tree: Tree, s: Site)
    requires IsSite(tree, s)
    ensures QueueOf(tree, [s]) == tree[s.owner].imports[s.at].factories
  {
    assert [s][..0] == [];
  }

  /** The factories of a site come after those of the sites before it and ahead of the others, in the order
      its import lists them. */
  lemma QueueInOrder(tree: Tree, a: seq<Site>, s: Site, b: seq<Site>)
    requires IsSite(tree, s)
    ensures QueueOf(tree, a + [s] + b) == QueueOf(tree, a) + tree[s.owner].imports[s.at].factories + QueueOf(tree, b)
  {
    QueueAppend(tree, a + [s], b);
    QueueAppend(tree, a, [s]);
    QueueOfOne(tree, s);
  }

  ghost predicate Queues(tree: Tree, before: seq<Factory>, after: seq<Factory>, log: seq<Site>) {
    after == before + QueueOf(tree, log)
  }

  lemma QueuesChain(tree: Tree, q0: seq<Factory>, q1: seq<Factory>, q2: seq<Factory>, a: seq<Site>, b: seq<Site>)
    requires Queues(tree, q0, q1, a) && Queues(tree, q1, q2, b)
    ensures Queues(tree, q0, q2, a + b)
  {
    QueueAppend(tree, a, b);
  }

  lemma SiteQueued(tree: Tree, q0: seq<Factory>, q1: seq<Factory>, q2: seq<Factory>, id: ModuleId, n: nat,
                   log: seq<Site>)
    requires Queues(tree, q0, q1, log) && IsSite(tree, Site(id, n)) && q2 == q1 + tree[id].imports[n].factories
    ensures Queues(tree, q0, q2, log + [Site(id, n)])
  {
    assert (log + [Site(id, n)])[..|log|] == log;
  }

  lemma SiteVisited(tree: Tree, ms: set<ModuleId>, id: ModuleId, n: nat, log: seq<Site>)
    requires Visited(tree, ms, id, n, log) && IsSite(tree, Site(id, n)) && id !in ms
    ensures Visited(tree, ms, id, n + 1, log + [Site(id, n)])
  {
    var site := Site(id, n);
    assert site !in log;
    forall s ensures s in log + [site] <==> IsSite(tree, s) && (s.owner in ms || (s.owner == id && s.at < n + 1)) {
      if s.owner == id && s.at == n { assert s == site; }
    }
    assert forall i :: 0 <= i < |log| ==> log[i] in log;
  }

  lemma VisitedChain(tree: Tree, m0: set<ModuleId>, m1: set<ModuleId>, m2: set<ModuleId>, id: ModuleId, n: nat,
                     log: seq<Site>, visited: seq<Site>)
    requires m0 <= m1 <= m2 && id in m0 && id in tree && n < |tree[id].imports| && tree[id].imports[n].Static?
    requires Visited(tree, m1 - m0, id, n, log) && VisitedAll(tree, m2 - m1, visited)
    ensures Visited(tree, m2 - m0, id, n + 1, log + visited)
  {
    assert forall i :: 0 <= i < |log| ==> log[i] in log;
    assert forall i :: 0 <= i < |visited| ==> visited[i] in visited;
    forall s
      ensures s in log + visited <==> IsSite(tree, s) && (s.owner in m2 - m0 || (s.owner == id && s.at < n + 1))
    { }
  }

  lemma AllVisitedChain(tree: Tree, m0: set<ModuleId>, m1: set<ModuleId>, log: seq<Site>, visited: seq<Site>)
    requires m0 <= m1 && VisitedAll(tree, m0, log) && VisitedAll(tree, m1 - m0, visited)
    ensures VisitedAll(tree, m1, log + visited)
  {
    assert forall i :: 0 <= i < |log| ==> log[i] in log;
    assert forall i :: 0 <= i < |visited| ==> visited[i] in visited;
    forall s ensures s in log + visited <==> IsSite(tree, s) && s.owner in m1 { }
  }

  /** The dynamic imports a walk comes to, in order. */
  ghost function SitesOf(acts: seq<Act>): seq<Site> {
    if acts == [] then []
    else
      var last := acts[|acts| - 1];
      SitesOf(acts[..|acts| - 1]) + (if last.Configure? then [last.site] else [])
  }

  lemma {:induction false} SitesAppend(a: seq<Act>, b: seq<Act>)
    ensures SitesOf(a + b) == SitesOf(a) + SitesOf(b)
  {
    if b == [] {
      assert a + b == a;
    } else {
      SitesAppend(a, b[..|b| - 1]);
      assert (a + b)[..|a + b| - 1] == a + b[..|b| - 1];
    }
  }

  lemma SitesOne(act: Act)
    ensures SitesOf([act]) == if act.Configure? then [act.site] else []
  {
    assert [act][..0] == [];
  }

  // ---------------------------------------------------------------- each dynamic import once

  /** What a visit comes to: every dynamic import of the modules it runs, once. */
  ghost predicate SitesDone(tree: Tree, marked: set<ModuleId>, id: ModuleId, w: Walk) {
    match w
    case Walk(after, acts) => id in after && VisitedAll(tree, after - marked, SitesOf(acts))
  }

  ghost predicate ImportSitesDone(tree: Tree, marked: set<ModuleId>, id: ModuleId, n: nat, w: Walk) {
    match w
    case Walk(after, acts) => Visited(tree, after - marked, id, n, SitesOf(acts))
  }

  lemma OwnLoopSites(tree: Tree, marked: set<ModuleId>, id: ModuleId, w: Walk)
    requires id in tree && id !in marked && marked + {id} <= w.marked
    requires ImportSitesDone(tree, marked + {id}, id, |tree[id].imports|, w)
    ensures SitesDone(tree, marked, id, Walk(w.marked, w.acts + [Loop(id)]))
  {
    SitesAppend(w.acts, [Loop(id)]);
    SitesOne(Loop(id));
    assert SitesOf(w.acts) + [] == SitesOf(w.acts);
    assert w.marked - marked == (w.marked - (marked + {id})) + {id};
  }

  lemma DynamicSites(tree: Tree, marked: set<ModuleId>, id: ModuleId, n: nat, w: Walk)
    requires id in marked && IsSite(tree, Site(id, n)) && ImportSitesDone(tree, marked, id, n, w)
    ensures ImportSitesDone(tree, marked, id, n + 1, Walk(w.marked, w.acts + [Configure(Site(id, n))]))
  {
    SitesAppend(w.acts, [Configure(Site(id, n))]);
    SitesOne(Configure(Site(id, n)));
    SiteVisited(tree, w.marked - marked, id, n, SitesOf(w.acts));
  }

  lemma StaticSites(tree: Tree, marked: set<ModuleId>, id: ModuleId, n: nat, j: ModuleId, w: Walk, v: Walk)
    requires id in tree && id in marked && n < |tree[id].imports| && tree[id].imports[n] == Static(j)
    requires marked <= w.marked <= v.marked
    requires ImportSitesDone(tree, marked, id, n, w) && SitesDone(tree, w.marked, j, v)
    ensures ImportSitesDone(tree, marked, id, n + 1, Walk(v.marked, w.acts + v.acts))
  {
    SitesAppend(w.acts, v.acts);
    VisitedChain(tree, marked, w.marked, v.marked, id, n, SitesOf(w.acts), SitesOf(v.acts));
  }

  /** On any import graph the walk comes to every dynamic import of each module it runs, once. */
  lemma {:induction false} VisitSites(tree: Tree, marked: set<ModuleId>, id: ModuleId)
    requires WellFormed(tree) && id in tree && marked <= tree.Keys
    ensures SitesDone(tree, marked, id, Visit(tree, marked, id))
    decreases tree.Keys - marked, 0
  {
    if id !in marked {
      var n := |tree[id].imports|;
      ImportSites(tree, marked + {id}, id, n);
      OwnLoopSites(tree, marked, id, VisitImports(tree, marked + {id}, id, n));
    }
  }

  lemma {:induction false} ImportSites(tree: Tree, marked: set<ModuleId>, id: ModuleId, n: nat)
    requires WellFormed(tree) && id in tree && id in marked && marked <= tree.Keys && n <= |tree[id].imports|
    ensures ImportSitesDone(tree, marked, id, n, VisitImports(tree, marked, id, n))
    decreases tree.Keys - marked, n + 1
  {
    if n > 0 {
      var w, after := VisitImports(tree, marked, id, n - 1), VisitImports(tree, marked, id, n);
      ImportSites(tree, marked, id, n - 1);
      if tree[id].imports[n - 1].Dynamic? {
        DynamicSites(tree, marked, id, n - 1, w);
        assert after == Walk(w.marked, w.acts + [Configure(Site(id, n - 1))]);
      } else {
        var j := tree[id].imports[n - 1].id;
        var v := Visit(tree, w.marked, j);
        VisitSites(tree, w.marked, j);
        StaticSites(tree, marked, id, n - 1, j, w, v);
        assert after == Walk(v.marked, w.acts + v.acts);
      }
    }
  }

  // ---------------------------------------------------------------- the phase, as it runs

  lemma QueuesSite(tree: Tree, q0: seq<Factory>, q1: seq<Factory>, q2: seq<Factory>, id: ModuleId, n: nat,
                   acts: seq<Act>)
    requires Queues(tree, q0, q1, SitesOf(acts)) && IsSite(tree, Site(id, n))
    requires q2 == q1 + tree[id].imports[n].factories
    ensures Queues(tree, q0, q2, SitesOf(acts + [Configure(Site(id, n))]))
  {
    SiteQueued(tree, q0, q1, q2, id, n, SitesOf(acts));
    SitesAppend(acts, [Configure(Site(id, n))]);
    SitesOne(Configure(Site(id, n)));
  }

  lemma QueuesWalk(tree: Tree, q0: seq<Factory>, q1: seq<Factory>, q2: seq<Factory>, acts: seq<Act>, more: seq<Act>)
    requires Queues(tree, q0, q1, SitesOf(acts)) && Queues(tree, q1, q2, SitesOf(more))
    ensures Queues(tree, q0, q2, SitesOf(acts + more))
  {
    QueuesChain(tree, q0, q1, q2, SitesOf(acts), SitesOf(more));
    SitesAppend(acts, more);
  }

  /** The builder is where the walk of the imports, so far `w`, should have brought it. */
  ghost predicate Collects(tree: Tree, before: seq<Factory>, w: Walk, marked: set<ModuleId>, queue: seq<Factory>) {
    marked == w.marked && Queues(tree, before, queue, SitesOf(w.acts))
  }

  /** `<M as Module>::collect` makes the same walk as `register`, with marks of its own: the factories
      of each dynamic import it comes to are queued in the order of the walk. */
  method Collect(b: ContainerBuilder, tree: Tree, id: ModuleId)
    requires WellFormed(tree) && id in tree && b.collectedModules <= tree.Keys
    modifies b`collectedModules, b`factories
    ensures Collects(tree, old(b.factories), Visit(tree, old(b.collectedModules), id), b.collectedModules, b.factories)
    decreases tree.Keys - b.collectedModules, 0
  {
    ghost var marked := b.collectedModules;
    var first := b.MarkCollected(id);
    if !first {
      assert b.factories + [] == b.factories;
      return;
    }
    CollectImports(b, tree, id);
    ghost var w := VisitImports(tree, marked + {id}, id, |tree[id].imports|);
    SitesAppend(w.acts, [Loop(id)]);
    SitesOne(Loop(id));
    assert SitesOf(w.acts) + [] == SitesOf(w.acts);
  }

  /** The collect call emitted for one import. */
  method CollectImport(b: ContainerBuilder, tree: Tree, id: ModuleId, n: nat, ghost before: seq<Factory>,
                       ghost marked: set<ModuleId>)
    requires WellFormed(tree) && id in tree && n < |tree[id].imports| && marked <= b.collectedModules <= tree.Keys
    requires Collects(tree, before, VisitImports(tree, marked, id, n), b.collectedModules, b.factories)
    modifies b`collectedModules, b`factories
    ensures Collects(tree, before, VisitImports(tree, marked, id, n + 1), b.collectedModules, b.factories)
    decreases tree.Keys - b.collectedModules, 1
  {
    ghost var queue, w := b.factories, VisitImports(tree, marked, id, n);
    match tree[id].imports[n] {
      case Dynamic(_, fs) =>
        b.factories := b.factories + fs;
        QueuesSite(tree, before, queue, b.factories, id, n, w.acts);
      case Static(j) =>
        Collect(b, tree, j);
        QueuesWalk(tree, before, queue, b.factories, w.acts, Visit(tree, w.marked, j).acts);
    }
  }

  method CollectImports(b: ContainerBuilder, tree: Tree, id: ModuleId)
    requires WellFormed(tree) && id in tree && b.collectedModules <= tree.Keys
    modifies b`collectedModules, b`factories
    ensures var w := VisitImports(tree, old(b.collectedModules), id, |tree[id].imports|);
      Collects(tree, old(b.factories), w, b.collectedModules, b.factories)
    decreases tree.Keys - b.collectedModules, 2
  {
    ghost var marked, before := b.collectedModules, b.factories;
    for n := 0 to |tree[id].imports|
      invariant Collects(tree, before, VisitImports(tree, marked, id, n), b.collectedModules, b.factories)
    {
      CollectImport(b, tree, id, n, before, marked);
    }
  }
}
