/** Layered topological scheduling of sub-plans (app/executors/parallel_executor.py).

  The method at the end is Kahn's algorithm by layers with in-degree counters, in the source's own
  shape. What it returns is specified by dependency chains alone: which plans can run at all, when
  scheduling succeeds, and that layer k holds exactly the plans whose longest chain has k steps. */
module ParallelExecutor {
  import opened Common

  datatype SubPlan = SubPlan(id: string, dependsOn: seq<string>, question: string)

  datatype Outcome =
    | Layers(layers: seq<seq<SubPlan>>)
    | Unschedulable(planned: nat, total: nat)

  /** The ids of the plans, each with the ids it depends on. */
  type Graph = map<string, seq<string>>

  ghost predicate DistinctIds(plans: seq<SubPlan>) {
    forall i, j :: 0 <= i < j < |plans| ==> plans[i].id != plans[j].id
  }

  ghost function GraphOf(plans: seq<SubPlan>): Graph
    requires DistinctIds(plans)
  {
    map p | p in plans :: p.id := p.dependsOn
  }

  // ---------------------------------------------------------------- specification

  /** Every dependency names an existing plan. */
  ghost predicate Closed(g: Graph) {
    forall id, d :: id in g && d in g[id] ==> d in g
  }

  /** A dependency chain: existing plans, each depending on the one before it. */
  ghost predicate Chain(g: Graph, c: seq<string>) {
    && |c| > 0
    && (forall i :: 0 <= i < |c| ==> c[i] in g)
    && (forall i :: 0 < i < |c| ==> c[i-1] in g[c[i]])
  }

  ghost predicate ChainTo(g: Graph, c: seq<string>, id: string) {
    Chain(g, c) && c[|c|-1] == id
  }

  ghost predicate Acyclic(g: Graph) {
    forall c :: Chain(g, c) && |c| >= 2 ==> c[0] != c[|c|-1]
  }

  /** A plan that can never run: behind it lies a missing dependency or a cycle. */
  ghost predicate Blocked(g: Graph, id: string) {
    exists c ::
      && ChainTo(g, c, id)
      && ((exists d :: d in g[c[0]] && d !in g) || (exists j :: 0 < j < |c| && c[j] == c[0]))
  }

  /** The longest chain to id has exactly k steps. */
  ghost predicate LongestChain(g: Graph, id: string, k: nat) {
    && (exists c :: ChainTo(g, c, id) && |c| == k + 1)
    && (forall c :: ChainTo(g, c, id) ==> |c| <= k + 1)
  }

  // ---------------------------------------------------------------- rounds of readiness

  /** The plans that have run before round k, when every ready plan runs in every round. */
  ghost function Done(g: Graph, k: nat): set<string> {
    if k == 0 then {} else set id | id in g && forall d :: d in g[id] ==> d in Done(g, k - 1)
  }

  lemma {:induction false} DoneGrows(g: Graph, j: nat, k: nat)
    requires j <= k
    ensures Done(g, j) <= Done(g, k)
    decreases k
  {
    if 0 < j < k {
      DoneGrows(g, j - 1, k - 1);
    }
  }

  /** Once a round adds nothing, no later round does. */
  lemma {:induction false} DoneStays(g: Graph, n: nat, k: nat)
    requires Done(g, n + 1) == Done(g, n) && n <= k
    ensures Done(g, k) == Done(g, n)
    decreases k
  {
    if n < k {
      DoneStays(g, n, k - 1);
    }
  }

  /** A chain that starts outside round j is still outside, one round later per step. */
  lemma {:induction false} ChainOutlivesRounds(g: Graph, c: seq<string>, j: nat, i: nat)
    requires Chain(g, c) && i < |c|
    requires c[0] !in Done(g, j)
    ensures c[i] !in Done(g, j + i)
  {
    if i > 0 {
      ChainOutlivesRounds(g, c, j, i - 1);
    }
  }

  lemma {:induction false} CycleNeverDone(g: Graph, c: seq<string>, m: nat, j: nat)
    requires Chain(g, c) && 0 < m < |c| && c[m] == c[0]
    ensures c[0] !in Done(g, j)
    decreases j
  {
    if j >= m {
      CycleNeverDone(g, c, m, j - m);
      ChainOutlivesRounds(g, c, j - m, m);
    } else if c[0] in Done(g, j) {
      DoneGrows(g, j, m);
      ChainOutlivesRounds(g, c, 0, m);
    }
  }

  lemma MissingNeverDone(g: Graph, id: string, d: string, j: nat)
    requires id in g && d in g[id] && d !in g
    ensures id !in Done(g, j)
  {
  }

  lemma BlockedNeverDone(g: Graph, id: string, k: nat)
    requires Blocked(g, id)
    ensures id !in Done(g, k)
  {
    var c :| ChainTo(g, c, id)
      && ((exists d :: d in g[c[0]] && d !in g) || (exists j :: 0 < j < |c| && c[j] == c[0]));
    if d :| d in g[c[0]] && d !in g {
      MissingNeverDone(g, c[0], d, k);
    } else {
      var j :| 0 < j < |c| && c[j] == c[0];
      CycleNeverDone(g, c, j, k);
    }
    DoneGrows(g, k, k + |c| - 1);
    ChainOutlivesRounds(g, c, k, |c| - 1);
  }

  lemma {:induction false} Pigeonhole(c: seq<string>, s: set<string>)
    requires forall i :: 0 <= i < |c| ==> c[i] in s
    requires |c| > |s|
    ensures exists i, j :: 0 <= i < j < |c| && c[i] == c[j]
    decreases |c|
  {
    var last := c[|c|-1];
    var rest := c[..|c|-1];
    if last in rest {
      var i :| 0 <= i < |rest| && rest[i] == last;
      assert c[i] == c[|c|-1];
    } else {
      Pigeonhole(rest, s - {last});
      var i, j :| 0 <= i < j < |rest| && rest[i] == rest[j];
      assert c[i] == c[j];
    }
  }

  /** Walking back from a plan that the fixpoint leaves out, staying outside it. */
  lemma {:induction false} WalkBack(g: Graph, n: nat, id: string, len: nat) returns (c: seq<string>)
    requires Done(g, n + 1) == Done(g, n)
    requires id in g && id !in Done(g, n) && len > 0
    ensures ChainTo(g, c, id)
    ensures |c| <= len
    ensures |c| < len ==> exists d :: d in g[c[0]] && d !in g
    ensures forall i :: 0 <= i < |c| ==> c[i] in g.Keys
    decreases len
  {
    c := [id];
    if len > 1 {
      var d :| d in g[id] && d !in Done(g, n);
      if d in g {
        var c' := WalkBack(g, n, d, len - 1);
        c := c' + [id];
      }
    }
  }

  /** At the fixpoint the plans left out are exactly the blocked ones. */
  lemma FixpointIsUnblocked(g: Graph, n: nat, id: string)
    requires Done(g, n + 1) == Done(g, n) && id in g
    ensures id in Done(g, n) <==> !Blocked(g, id)
  {
    if id in Done(g, n) {
      if Blocked(g, id) {
        BlockedNeverDone(g, id, n);
      }
    } else {
      var c := WalkBack(g, n, id, |g.Keys| + 1);
      if |c| == |g.Keys| + 1 {
        Pigeonhole(c, g.Keys);
        var i, j :| 0 <= i < j < |c| && c[i] == c[j];
        var c' := c[i..];
        assert ChainTo(g, c', id) && c'[j-i] == c'[0];
      }
    }
  }

  lemma CutToCycle(g: Graph, c: seq<string>, j: nat)
    requires Chain(g, c) && 0 < j < |c| && c[j] == c[0]
    ensures !Acyclic(g)
  {
    assert Chain(g, c[..j+1]);
  }

  /** No plan is blocked exactly when every dependency exists and there is no cycle. */
  lemma UnblockedIffClosedAcyclic(g: Graph)
    ensures (forall id :: id in g ==> !Blocked(g, id)) <==> Closed(g) && Acyclic(g)
  {
    if !Closed(g) {
      var id, d :| id in g && d in g[id] && d !in g;
      assert ChainTo(g, [id], id) && [id][0] == id;
      assert Blocked(g, id);
    } else if !Acyclic(g) {
      var c :| Chain(g, c) && |c| >= 2 && c[0] == c[|c|-1];
      assert ChainTo(g, c, c[|c|-1]);
      assert Blocked(g, c[|c|-1]);
    } else if id :| id in g && Blocked(g, id) {
      var c :| ChainTo(g, c, id) && exists j :: 0 < j < |c| && c[j] == c[0];
      var j :| 0 < j < |c| && c[j] == c[0];
      CutToCycle(g, c, j);
      assert false;
    }
  }

  /** In a closed graph, missing round k means having a chain of k + 1 plans. */
  lemma {:induction false} OutsideHasChain(g: Graph, id: string, k: nat) returns (c: seq<string>)
    requires Closed(g) && id in g && id !in Done(g, k)
    ensures ChainTo(g, c, id) && |c| == k + 1
    decreases k
  {
    if k == 0 {
      c := [id];
    } else {
      var d :| d in g[id] && d !in Done(g, k - 1);
      var c' := OutsideHasChain(g, d, k - 1);
      c := c' + [id];
    }
  }

  /** The round in which a plan runs is the length of its longest chain. */
  lemma RoundIsLongestChain(g: Graph, id: string, k: nat)
    requires Closed(g) && id in g
    ensures id in Done(g, k + 1) - Done(g, k) <==> LongestChain(g, id, k)
  {
    if id in Done(g, k + 1) - Done(g, k) {
      var c := OutsideHasChain(g, id, k);
      forall c | ChainTo(g, c, id) ensures |c| <= k + 1 {
        if |c| > k + 1 {
          DoneGrows(g, k + 1, |c| - 1);
          ChainOutlivesRounds(g, c, 0, |c| - 1);
        }
      }
    } else if LongestChain(g, id, k) {
      var c :| ChainTo(g, c, id) && |c| == k + 1;
      ChainOutlivesRounds(g, c, 0, k);
      var c' := OutsideHasChain(g, id, k + 1);
    }
  }

  /** Listing the same dependency several times changes no round, hence no layer. */
  lemma {:induction false} RepetitionIsIrrelevant(g: Graph, h: Graph, k: nat)
    requires g.Keys == h.Keys
    requires forall id, d :: id in g ==> (d in g[id] <==> d in h[id])
    ensures Done(g, k) == Done(h, k)
  {
    if k > 0 {
      RepetitionIsIrrelevant(g, h, k - 1);
    }
  }

  // ---------------------------------------------------------------- in-degree counters

  /** The number of entries of deps that are not in done. */
  ghost function Remaining(deps: seq<string>, done: set<string>): nat {
    if deps == [] then 0
    else (if deps[0] in done then 0 else 1) + Remaining(deps[1..], done)
  }

  lemma {:induction false} RemainingZero(deps: seq<string>, done: set<string>)
    ensures Remaining(deps, done) == 0 <==> forall d :: d in deps ==> d in done
  {
    if deps != [] {
      RemainingZero(deps[1..], done);
      assert deps == [deps[0]] + deps[1..];
    }
  }

  lemma {:induction false} RemainingAll(deps: seq<string>)
    ensures Remaining(deps, {}) == |deps|
  {
    if deps != [] {
      RemainingAll(deps[1..]);
    }
  }

  lemma {:induction false} RemainingStep(deps: seq<string>, done: set<string>, x: string)
    requires x !in done
    ensures Remaining(deps, done) == Remaining(deps, done + {x}) + multiset(deps)[x]
  {
    if deps != [] {
      RemainingStep(deps[1..], done, x);
      assert deps == [deps[0]] + deps[1..];
    }
  }

  /** The plans that wait for d; none if nothing does. */
  function Lookup(dependents: map<string, seq<string>>, d: string): seq<string> {
    if d in dependents then dependents[d] else []
  }

  /** How often id is listed as a dependent of d. */
  ghost function Listed(dependents: map<string, seq<string>>, d: string, id: string): nat {
    multiset(Lookup(dependents, d))[id]
  }

  /** How often the plan id asks for d. */
  ghost function Needs(g: Graph, id: string, d: string): nat {
    if id in g then multiset(g[id])[d] else 0
  }

  ghost predicate Inverts(dependents: map<string, seq<string>>, g: Graph) {
    forall d, id :: Listed(dependents, d, id) == Needs(g, id, d)
  }

  lemma PrefixGraph(plans: seq<SubPlan>, i: nat)
    requires DistinctIds(plans) && i < |plans|
    ensures DistinctIds(plans[..i]) && DistinctIds(plans[..i+1])
    ensures plans[i].id !in GraphOf(plans[..i])
    ensures GraphOf(plans[..i+1]) == GraphOf(plans[..i])[plans[i].id := plans[i].dependsOn]
  {
    assert plans[..i+1] == plans[..i] + [plans[i]];
  }

  lemma ListedAppend(m: map<string, seq<string>>, d: string, id: string, d': string, id': string)
    ensures Listed(m[d := Lookup(m, d) + [id]], d', id')
         == Listed(m, d', id') + if d == d' && id == id' then 1 else 0
  {
    assert multiset(Lookup(m, d) + [id]) == multiset(Lookup(m, d)) + multiset{id};
  }

  lemma NeedsAppend(g: Graph, id: string, deps: seq<string>, j: nat, x: string, d: string)
    requires j < |deps|
    ensures Needs(g[id := deps[..j+1]], x, d)
         == Needs(g[id := deps[..j]], x, d) + if deps[j] == d && id == x then 1 else 0
  {
    assert deps[..j+1] == deps[..j] + [deps[j]];
  }

  lemma AddDependentStep(g: Graph, m: map<string, seq<string>>, id: string, deps: seq<string>, j: nat)
    requires j < |deps| && Inverts(m, g[id := deps[..j]])
    ensures Inverts(m[deps[j] := Lookup(m, deps[j]) + [id]], g[id := deps[..j+1]])
  {
    hide Listed, Needs, Lookup;
    var h, h' := g[id := deps[..j]], g[id := deps[..j+1]];
    var m' := m[deps[j] := Lookup(m, deps[j]) + [id]];
    forall d, x ensures Listed(m', d, x) == Needs(h', x, d) {
      ListedAppend(m, deps[j], id, d, x);
      NeedsAppend(g, id, deps, j, x, d);
      assert Listed(m, d, x) == Needs(h, x, d);
    }
  }

  method AddDependent(ghost g: Graph, before: map<string, seq<string>>, sp: SubPlan)
    returns (dependents: map<string, seq<string>>)
    requires Inverts(before, g) && sp.id !in g
    ensures Inverts(dependents, g[sp.id := sp.dependsOn])
  {
    dependents := before;
    for j := 0 to |sp.dependsOn|
      invariant Inverts(dependents, g[sp.id := sp.dependsOn[..j]])
    {
      var dep := sp.dependsOn[j];
      AddDependentStep(g, dependents, sp.id, sp.dependsOn, j);
      dependents := dependents[dep := Lookup(dependents, dep) + [sp.id]];
    }
    assert sp.dependsOn[..|sp.dependsOn|] == sp.dependsOn;
  }

  method BuildDependents(plans: seq<SubPlan>) returns (dependents: map<string, seq<string>>)
    requires DistinctIds(plans)
    ensures Inverts(dependents, GraphOf(plans))
  {
    dependents := map[];
    for i := 0 to |plans|
      invariant DistinctIds(plans[..i]) && Inverts(dependents, GraphOf(plans[..i]))
    {
      PrefixGraph(plans, i);
      dependents := AddDependent(GraphOf(plans[..i]), dependents, plans[i]);
    }
    assert plans[..|plans|] == plans;
  }

  ghost function Elements(q: seq<string>): set<string> { set x | x in q }

  ghost predicate Unique(q: seq<string>) {
    forall i, j :: 0 <= i < j < |q| ==> q[i] != q[j]
  }

  /** The counters are the unsettled dependencies, less the decrements already made in ds. */
  ghost predicate Counts(g: Graph, inDegree: map<string, int>, settled: set<string>, ds: seq<string>) {
    && inDegree.Keys == g.Keys
    && forall id :: id in g ==> inDegree[id] == Remaining(g[id], settled) - multiset(ds)[id]
  }

  /** The plans outside seen whose counter has reached zero, each once. */
  ghost predicate Ready(g: Graph, inDegree: map<string, int>, seen: set<string>, q: seq<string>)
    requires inDegree.Keys == g.Keys
  {
    && Unique(q)
    && forall id :: id in q <==> id in g && id !in seen && inDegree[id] == 0
  }

  /** Nothing left to wait for, for every plan in seen. */
  ghost predicate Satisfied(g: Graph, seen: set<string>, settled: set<string>) {
    forall id :: id in seen && id in g ==> Remaining(g[id], settled) == 0
  }

  lemma SatisfiedGrows(g: Graph, seen: set<string>, settled: set<string>, pid: string)
    requires Satisfied(g, seen, settled)
    ensures Satisfied(g, seen, settled + {pid})
  {
    forall id | id in seen && id in g ensures Remaining(g[id], settled + {pid}) == 0 {
      RemainingZero(g[id], settled);
      RemainingZero(g[id], settled + {pid});
    }
  }

  /** A plan about to be decremented has a positive counter and has not been queued before. */
  lemma StillWaiting(g: Graph, seen: set<string>, settled: set<string>, pid: string,
                     ds: seq<string>, j: nat)
    requires j < |ds| && pid !in settled && Satisfied(g, seen, settled)
    requires multiset(ds)[ds[j]] == Needs(g, ds[j], pid)
    ensures ds[j] in g && ds[j] !in seen
    ensures Remaining(g[ds[j]], settled) - multiset(ds[..j])[ds[j]] > 0
    ensures multiset(ds[..j+1]) == multiset(ds[..j]) + multiset{ds[j]}
  {
    var did := ds[j];
    assert did in multiset(ds);
    RemainingStep(g[did], settled, pid);
    assert ds == ds[..j] + ([did] + ds[j+1..]);
    assert multiset(ds) == multiset(ds[..j]) + (multiset{did} + multiset(ds[j+1..]));
    assert ds[..j+1] == ds[..j] + [did];
  }

  lemma InvertsAt(dependents: map<string, seq<string>>, g: Graph, pid: string, id: string)
    requires Inverts(dependents, g)
    ensures multiset(Lookup(dependents, pid))[id] == Needs(g, id, pid)
  {
    assert Listed(dependents, pid, id) == Needs(g, id, pid);
  }

  lemma AllDecremented(g: Graph, inDegree: map<string, int>, settled: set<string>,
                       dependents: map<string, seq<string>>, pid: string)
    requires Inverts(dependents, g) && pid !in settled
    requires Counts(g, inDegree, settled, Lookup(dependents, pid))
    ensures Counts(g, inDegree, settled + {pid}, [])
  {
    forall id | id in g ensures inDegree[id] == Remaining(g[id], settled + {pid}) {
      RemainingStep(g[id], settled, pid);
      InvertsAt(dependents, g, pid, id);
    }
  }

  /** The two inner loops' body for one finished plan: decrement its dependents. */
  method Settle(ghost g: Graph, ghost seen: set<string>, ghost settled: set<string>,
                dependents: map<string, seq<string>>, pid: string,
                degrees: map<string, int>, queue: seq<string>)
    returns (inDegree: map<string, int>, nextQueue: seq<string>)
    requires Inverts(dependents, g) && pid !in settled && Satisfied(g, seen, settled)
    requires Counts(g, degrees, settled, []) && Ready(g, degrees, seen, queue)
    ensures Counts(g, inDegree, settled + {pid}, []) && Ready(g, inDegree, seen, nextQueue)
  {
    hide Remaining, Needs, Listed, Satisfied, Inverts;
    inDegree, nextQueue := degrees, queue;
    var ds := Lookup(dependents, pid);
    for j := 0 to |ds|
      invariant Counts(g, inDegree, settled, ds[..j]) && Ready(g, inDegree, seen, nextQueue)
    {
      var did := ds[j];
      InvertsAt(dependents, g, pid, did);
      StillWaiting(g, seen, settled, pid, ds, j);
      inDegree := inDegree[did := inDegree[did] - 1];
      if inDegree[did] == 0 {
        nextQueue := nextQueue + [did];
      }
    }
    assert ds[..|ds|] == ds;
    AllDecremented(g, inDegree, settled, dependents, pid);
  }

  /** One pass of the while loop: finish the queue and collect the plans that become ready. */
  method ExpandLayer(ghost g: Graph, ghost done: set<string>, dependents: map<string, seq<string>>,
                     degrees: map<string, int>, queue: seq<string>)
    returns (inDegree: map<string, int>, nextQueue: seq<string>)
    requires Inverts(dependents, g) && Counts(g, degrees, done, [])
    requires Ready(g, degrees, done, queue) && Satisfied(g, done, done)
    ensures Counts(g, inDegree, done + Elements(queue), [])
    ensures Ready(g, inDegree, done + Elements(queue), nextQueue)
  {
    inDegree, nextQueue := degrees, [];
    ghost var seen, settled := done + Elements(queue), done;
    for i := 0 to |queue|
      invariant settled == done + Elements(queue[..i])
      invariant Counts(g, inDegree, settled, [])
      invariant Ready(g, inDegree, seen, nextQueue) && Satisfied(g, seen, settled)
    {
      assert queue[i] !in settled;
      inDegree, nextQueue := Settle(g, seen, settled, dependents, queue[i], inDegree, nextQueue);
      SatisfiedGrows(g, seen, settled, queue[i]);
      assert queue[..i+1] == queue[..i] + [queue[i]];
      settled := settled + {queue[i]};
    }
    assert queue[..|queue|] == queue;
  }

  /** The queue of round k is what round k adds. */
  lemma QueueIsRound(g: Graph, k: nat, inDegree: map<string, int>, queue: seq<string>)
    requires Counts(g, inDegree, Done(g, k), []) && Ready(g, inDegree, Done(g, k), queue)
    ensures Elements(queue) == Done(g, k + 1) - Done(g, k)
    ensures Done(g, k) + Elements(queue) == Done(g, k + 1)
    ensures Satisfied(g, Done(g, k), Done(g, k))
  {
    DoneGrows(g, k, k + 1);
    forall id | id in g
      ensures id in Done(g, k + 1) <==> Remaining(g[id], Done(g, k)) == 0
    {
      RemainingZero(g[id], Done(g, k));
    }
  }

  // ---------------------------------------------------------------- plans and layers

  ghost predicate LayerOf(plans: seq<SubPlan>, layer: seq<SubPlan>, ids: set<string>) {
    forall p :: p in layer <==> p in plans && p.id in ids
  }

  lemma {:induction false} UniqueCount(q: seq<SubPlan>)
    requires DistinctIds(q)
    ensures forall x :: multiset(q)[x] == if x in q then 1 else 0
  {
    if q != [] {
      var rest := q[..|q|-1];
      UniqueCount(rest);
      assert q == rest + [q[|q|-1]];
    }
  }

  lemma {:induction false} SameElements(p: seq<SubPlan>, q: seq<SubPlan>)
    requires DistinctIds(p) && DistinctIds(q) && forall x :: x in p <==> x in q
    ensures multiset(p) == multiset(q)
    decreases |p|
  {
    UniqueCount(p);
    UniqueCount(q);
    forall x ensures multiset(p)[x] == multiset(q)[x] {
      assert x in p <==> x in q;
    }
  }

  ghost predicate Ranked(plans: seq<SubPlan>, layers: seq<seq<SubPlan>>)
    requires DistinctIds(plans)
  {
    forall k, p :: 0 <= k < |layers| ==>
      (p in layers[k] <==> p in plans && LongestChain(GraphOf(plans), p.id, k))
  }

  /** The schedule the source promises: every plan once, layer k the plans with longest chain k. */
  ghost predicate IsSchedule(plans: seq<SubPlan>, layers: seq<seq<SubPlan>>)
    requires DistinctIds(plans)
  {
    && multiset(Flatten(layers)) == multiset(plans)
    && (forall k :: 0 <= k < |layers| ==> layers[k] != [])
    && Ranked(plans, layers)
  }

  ghost function Unblocked(g: Graph): set<string> { set id | id in g && !Blocked(g, id) }

  /** The plans placed so far are those with ids in done, each placed once. */
  ghost predicate Placed(plans: seq<SubPlan>, layers: seq<seq<SubPlan>>, done: set<string>) {
    && DistinctIds(Flatten(layers))
    && LayerOf(plans, Flatten(layers), done)
    && (forall k :: 0 <= k < |layers| ==> layers[k] != [])
  }

  /** The ids that round k adds. */
  ghost function Round(g: Graph, k: nat): set<string> { Done(g, k + 1) - Done(g, k) }

  ghost predicate InRounds(plans: seq<SubPlan>, g: Graph, layers: seq<seq<SubPlan>>) {
    forall k :: 0 <= k < |layers| ==> LayerOf(plans, layers[k], Round(g, k))
  }

  lemma SameId(plans: seq<SubPlan>, p: SubPlan, q: SubPlan)
    requires DistinctIds(plans) && p in plans && q in plans && p.id == q.id
    ensures p == q
  {
  }

  lemma LayerFromQueue(plans: seq<SubPlan>, queue: seq<string>, layer: seq<SubPlan>)
    requires DistinctIds(plans) && Unique(queue) && |layer| == |queue|
    requires forall i :: 0 <= i < |queue| ==> layer[i] in plans && layer[i].id == queue[i]
    ensures DistinctIds(layer) && LayerOf(plans, layer, Elements(queue))
  {
    forall p | p in plans && p.id in Elements(queue) ensures p in layer {
      var i :| 0 <= i < |queue| && queue[i] == p.id;
      SameId(plans, p, layer[i]);
    }
  }

  lemma JoinLayers(plans: seq<SubPlan>, p: seq<SubPlan>, a: set<string>, q: seq<SubPlan>, b: set<string>)
    requires DistinctIds(p) && LayerOf(plans, p, a) && DistinctIds(q) && LayerOf(plans, q, b) && a !! b
    ensures DistinctIds(p + q) && LayerOf(plans, p + q, a + b)
  {
    forall i, j | 0 <= i < |p| && 0 <= j < |q| ensures p[i].id != q[j].id {
      assert p[i] in p && q[j] in q;
    }
  }

  lemma BuildLayer(plans: seq<SubPlan>, layers: seq<seq<SubPlan>>, done: set<string>,
                   queue: seq<string>, layer: seq<SubPlan>)
    requires DistinctIds(plans) && Placed(plans, layers, done)
    requires Unique(queue) && queue != [] && done !! Elements(queue)
    requires |layer| == |queue|
    requires forall i :: 0 <= i < |queue| ==> layer[i] in plans && layer[i].id == queue[i]
    ensures Placed(plans, layers + [layer], done + Elements(queue))
    ensures LayerOf(plans, layer, Elements(queue))
  {
    FlattenAppend(layers, layer);
    LayerFromQueue(plans, queue, layer);
    JoinLayers(plans, Flatten(layers), done, layer, Elements(queue));
  }

  ghost function IdSet(q: seq<SubPlan>): set<string> { set p | p in q :: p.id }

  lemma IdSetAppend(q: seq<SubPlan>, p: SubPlan)
    ensures IdSet(q + [p]) == IdSet(q) + {p.id}
  {
  }

  lemma FreshId(q: seq<SubPlan>, p: SubPlan)
    requires DistinctIds(q + [p])
    ensures DistinctIds(q) && p.id !in IdSet(q)
  {
    forall i | 0 <= i < |q| ensures q[i].id != p.id {
      assert (q + [p])[i] == q[i] && (q + [p])[|q|] == p;
    }
    forall i, j | 0 <= i < j < |q| ensures q[i].id != q[j].id {
      assert (q + [p])[i] == q[i] && (q + [p])[j] == q[j];
    }
  }

  lemma {:induction false} IdsCount(q: seq<SubPlan>)
    requires DistinctIds(q)
    ensures |IdSet(q)| == |q|
  {
    if q != [] {
      var rest, last := q[..|q|-1], q[|q|-1];
      assert q == rest + [last];
      FreshId(rest, last);
      IdSetAppend(rest, last);
      hide IdSet, DistinctIds;
      IdsCount(rest);
    }
  }

  lemma IdsOfLayer(plans: seq<SubPlan>, layer: seq<SubPlan>, ids: set<string>)
    requires LayerOf(plans, layer, ids) && ids <= IdSet(plans)
    ensures IdSet(layer) == ids
  {
    forall id | id in ids ensures id in IdSet(layer) {
      var p :| p in plans && p.id == id;
      assert p in layer;
    }
  }

  lemma PlacedCount(plans: seq<SubPlan>, layers: seq<seq<SubPlan>>, g: Graph, done: set<string>)
    requires DistinctIds(plans) && g == GraphOf(plans) && done <= g.Keys
    requires Placed(plans, layers, done)
    ensures |Flatten(layers)| == |done| && |plans| == |g.Keys|
  {
    assert IdSet(plans) == g.Keys;
    hide IdSet;
    IdsCount(Flatten(layers));
    IdsCount(plans);
    IdsOfLayer(plans, Flatten(layers), done);
  }

  lemma PlacedAll(plans: seq<SubPlan>, layers: seq<seq<SubPlan>>, g: Graph)
    requires DistinctIds(plans) && g == GraphOf(plans) && Placed(plans, layers, g.Keys)
    ensures multiset(Flatten(layers)) == multiset(plans)
  {
    SameElements(Flatten(layers), plans);
  }

  /** At the fixpoint: how many plans were placed, and what that says about the graph. */
  lemma FinalCount(plans: seq<SubPlan>, layers: seq<seq<SubPlan>>, g: Graph, n: nat)
    requires DistinctIds(plans) && g == GraphOf(plans) && Placed(plans, layers, Done(g, n))
    requires Done(g, n + 1) == Done(g, n)
    ensures |Flatten(layers)| == |Unblocked(g)| <= |plans|
    ensures |Flatten(layers)| == |plans| <==> Closed(g) && Acyclic(g)
    ensures |Flatten(layers)| == |plans| ==> multiset(Flatten(layers)) == multiset(plans)
  {
    forall id | id in g ensures id in Done(g, n) <==> !Blocked(g, id) {
      FixpointIsUnblocked(g, n, id);
    }
    assert Done(g, n) == Unblocked(g);
    PlacedCount(plans, layers, g, Unblocked(g));
    UnblockedIffClosedAcyclic(g);
    SubsetCount(Unblocked(g), g.Keys);
    if Unblocked(g) == g.Keys {
      PlacedAll(plans, layers, g);
    }
  }

  lemma RoundsAreLongestChains(plans: seq<SubPlan>, layers: seq<seq<SubPlan>>, g: Graph)
    requires DistinctIds(plans) && g == GraphOf(plans) && Closed(g) && InRounds(plans, g, layers)
    ensures Ranked(plans, layers)
  {
    forall k, p | 0 <= k < |layers|
      ensures p in layers[k] <==> p in plans && LongestChain(g, p.id, k)
    {
      assert LayerOf(plans, layers[k], Round(g, k));
      if p in plans {
        RoundIsLongestChain(g, p.id, k);
      }
    }
  }

  /** The plans that wait for nothing, in input order. */
  method InitialQueue(plans: seq<SubPlan>, inDegree: map<string, int>) returns (queue: seq<string>)
    requires DistinctIds(plans) && inDegree.Keys == GraphOf(plans).Keys
    ensures Ready(GraphOf(plans), inDegree, {}, queue)
  {
    queue := [];
    for i := 0 to |plans|
      invariant Unique(queue)
      invariant forall id :: id in queue ==>
        exists j :: 0 <= j < i && plans[j].id == id && inDegree[id] == 0
      invariant forall j :: 0 <= j < i && inDegree[plans[j].id] == 0 ==> plans[j].id in queue
    {
      if inDegree[plans[i].id] == 0 {
        queue := queue + [plans[i].id];
      }
    }
  }

  /** The plans of a queue of ids, in its order. */
  function PlansOf(plans: seq<SubPlan>, planMap: map<string, SubPlan>, queue: seq<string>): (layer: seq<SubPlan>)
    requires forall id :: id in queue ==> id in planMap
    requires forall id :: id in planMap ==> planMap[id] in plans && planMap[id].id == id
    ensures |layer| == |queue|
    ensures forall i :: 0 <= i < |queue| ==> layer[i] in plans && layer[i].id == queue[i]
  {
    if queue == [] then [] else [planMap[queue[0]]] + PlansOf(plans, planMap, queue[1..])
  }

  /** The counters and the queue as they stand after k rounds. */
  ghost predicate AfterRounds(g: Graph, k: nat, inDegree: map<string, int>, queue: seq<string>) {
    Counts(g, inDegree, Done(g, k), []) && Ready(g, inDegree, Done(g, k), queue)
  }

  ghost predicate Indexes(plans: seq<SubPlan>, g: Graph, planMap: map<string, SubPlan>) {
    planMap.Keys == g.Keys && forall id :: id in planMap ==> planMap[id] in plans && planMap[id].id == id
  }

  /** The layers hold the plans of the first |layers| rounds. */
  ghost predicate Layered(plans: seq<SubPlan>, g: Graph, layers: seq<seq<SubPlan>>) {
    Placed(plans, layers, Done(g, |layers|)) && InRounds(plans, g, layers)
  }

  lemma RoundInGraph(g: Graph, k: nat, id: string)
    requires id in Round(g, k)
    ensures id in g
  {
  }

  /** The queued plans become the next layer. */
  method PlaceQueue(plans: seq<SubPlan>, ghost g: Graph, planMap: map<string, SubPlan>,
                    layers: seq<seq<SubPlan>>, queue: seq<string>)
    returns (layers': seq<seq<SubPlan>>)
    requires DistinctIds(plans) && Indexes(plans, g, planMap) && Layered(plans, g, layers)
    requires Unique(queue) && queue != [] && Elements(queue) == Round(g, |layers|)
    ensures |layers'| == |layers| + 1 && Layered(plans, g, layers')
  {
    hide Done;
    forall id | id in queue ensures id in planMap {
      assert id in Elements(queue);
      RoundInGraph(g, |layers|, id);
    }
    var layer := PlansOf(plans, planMap, queue);
    BuildLayer(plans, layers, Done(g, |layers|), queue, layer);
    DoneGrows(g, |layers|, |layers| + 1);
    assert Done(g, |layers|) + Round(g, |layers|) == Done(g, |layers| + 1);
    layers' := layers + [layer];
  }

  /** The rest of the loop body: finish the queue, round k. */
  method Advance(ghost g: Graph, ghost k: nat, dependents: map<string, seq<string>>,
                 degrees: map<string, int>, queue: seq<string>)
    returns (inDegree: map<string, int>, nextQueue: seq<string>)
    requires Inverts(dependents, g) && AfterRounds(g, k, degrees, queue)
    ensures AfterRounds(g, k + 1, inDegree, nextQueue)
  {
    hide Done, Inverts;
    QueueIsRound(g, k, degrees, queue);
    inDegree, nextQueue := ExpandLayer(g, Done(g, k), dependents, degrees, queue);
  }

  method SumLengths(layers: seq<seq<SubPlan>>) returns (planned: nat)
    ensures planned == |Flatten(layers)|
  {
    planned := 0;
    for i := 0 to |layers|
      invariant planned == |Flatten(layers[..i])|
    {
      assert layers[..i+1][..i] == layers[..i];
      planned := planned + |layers[i]|;
    }
    assert layers[..|layers|] == layers;
  }

  /** Finds a plan by its id. */
  function PlanMap(plans: seq<SubPlan>): (m: map<string, SubPlan>)
    requires DistinctIds(plans)
    ensures Indexes(plans, GraphOf(plans), m)
  {
    map p | p in plans :: p.id := p
  }

  /** At first every dependency entry of a plan is still to be counted down. */
  function InDegrees(plans: seq<SubPlan>): (m: map<string, int>)
    requires DistinctIds(plans)
    ensures m.Keys == GraphOf(plans).Keys && Counts(GraphOf(plans), m, {}, [])
  {
    var m: map<string, int> := map p | p in plans :: p.id := |p.dependsOn|;
    assert Counts(GraphOf(plans), m, {}, []) by {
      forall id | id in m ensures m[id] == Remaining(GraphOf(plans)[id], {}) {
        RemainingAll(GraphOf(plans)[id]);
      }
    }
    m
  }

  lemma Start(plans: seq<SubPlan>, g: Graph, inDegree: map<string, int>, queue: seq<string>)
    requires DistinctIds(plans) && g == GraphOf(plans)
    requires Counts(g, inDegree, {}, []) && Ready(g, inDegree, {}, queue)
    ensures AfterRounds(g, 0, inDegree, queue) && Layered(plans, g, [])
  {
  }

  lemma QueueRound(g: Graph, k: nat, inDegree: map<string, int>, queue: seq<string>)
    requires AfterRounds(g, k, inDegree, queue)
    ensures Unique(queue) && Elements(queue) == Round(g, k)
    ensures queue == [] ==> Round(g, k) == {}
  {
    QueueIsRound(g, k, inDegree, queue);
  }

  lemma EmptyRound(g: Graph, k: nat)
    requires Round(g, k) == {}
    ensures Done(g, k + 1) == Done(g, k)
  {
    DoneGrows(g, k, k + 1);
    forall id | id in Done(g, k + 1) ensures id in Done(g, k) {
      assert id !in Round(g, k);
    }
  }

  lemma Finish(plans: seq<SubPlan>, g: Graph, layers: seq<seq<SubPlan>>)
    requires DistinctIds(plans) && g == GraphOf(plans)
    requires Layered(plans, g, layers) && Round(g, |layers|) == {}
    ensures |Flatten(layers)| == |Unblocked(g)| <= |plans|
    ensures |Flatten(layers)| == |plans| <==> Closed(g) && Acyclic(g)
    ensures |Flatten(layers)| == |plans| ==> IsSchedule(plans, layers)
  {
    hide Done, DistinctIds, LayerOf, LongestChain, Blocked, Acyclic, GraphOf;
    EmptyRound(g, |layers|);
    FinalCount(plans, layers, g, |layers|);
    if |Flatten(layers)| == |plans| {
      RoundsAreLongestChains(plans, layers, g);
    }
  }

  lemma RoundsShrink(g: Graph, k: nat, queue: seq<string>)
    requires queue != [] && Elements(queue) == Round(g, k)
    ensures |g.Keys - Done(g, k + 1)| < |g.Keys - Done(g, k)|
  {
    DoneGrows(g, k, k + 1);
    var a, b := g.Keys - Done(g, k + 1), g.Keys - Done(g, k);
    assert queue[0] in Elements(queue);
    SubsetCount(a, b);
  }

  method TopologicalLayers(plans: seq<SubPlan>) returns (r: Outcome)
    requires DistinctIds(plans)
    ensures r.Layers? <==> Closed(GraphOf(plans)) && Acyclic(GraphOf(plans))
    ensures r.Layers? ==> IsSchedule(plans, r.layers)
    ensures r.Unschedulable? ==>
      r.total == |plans| && r.planned == |Unblocked(GraphOf(plans))| < r.total
  {
    hide *;
    ghost var g := GraphOf(plans);
    var planMap := PlanMap(plans);
    var inDegree := InDegrees(plans);
    var dependents := BuildDependents(plans);
    var layers: seq<seq<SubPlan>> := [];
    var queue := InitialQueue(plans, inDegree);
    Start(plans, g, inDegree, queue);
    while queue != []
      invariant AfterRounds(g, |layers|, inDegree, queue) && Layered(plans, g, layers)
      decreases |g.Keys - Done(g, |layers|)|
    {
      QueueRound(g, |layers|, inDegree, queue);
      RoundsShrink(g, |layers|, queue);
      layers := PlaceQueue(plans, g, planMap, layers, queue);
      inDegree, queue := Advance(g, |layers| - 1, dependents, inDegree, queue);
    }
    QueueRound(g, |layers|, inDegree, queue);
    var planned := SumLengths(layers);
    Finish(plans, g, layers);
    if planned != |plans| {
      return Unschedulable(planned, |plans|);
    }
    return Layers(layers);
  }

  // ---------------------------------------------------------------- what a schedule gives

  lemma ChainExtends(g: Graph, d: string, id: string, j: nat, k: nat)
    requires id in g && d in g[id] && LongestChain(g, d, j) && LongestChain(g, id, k)
    ensures j < k
  {
    var c :| ChainTo(g, c, d) && |c| == j + 1;
    assert ChainTo(g, c + [id], id);
  }

  /** A plan's dependency sits in a strictly earlier layer. */
  lemma DependenciesRunEarlier(plans: seq<SubPlan>, layers: seq<seq<SubPlan>>, k: nat, p: SubPlan, j: nat, q: SubPlan)
    requires DistinctIds(plans) && Ranked(plans, layers)
    requires k < |layers| && p in layers[k] && j < |layers| && q in layers[j]
    requires q.id in p.dependsOn
    ensures j < k
  {
    hide LongestChain;
    ChainExtends(GraphOf(plans), q.id, p.id, j, k);
  }

  lemma {:induction false} StagesClimb(g: Graph, stage: map<string, nat>, c: seq<string>, i: nat)
    requires stage.Keys == g.Keys
    requires forall x, d :: x in g && d in g[x] && d in g ==> stage[d] < stage[x]
    requires Chain(g, c) && i < |c|
    ensures stage[c[i]] >= i
  {
    if i > 0 {
      StagesClimb(g, stage, c, i - 1);
    }
  }

  /** No plan could run sooner: any staging that respects dependencies needs at least k stages first. */
  lemma NoSoonerStaging(g: Graph, stage: map<string, nat>, id: string, k: nat)
    requires stage.Keys == g.Keys
    requires forall x, d :: x in g && d in g[x] && d in g ==> stage[d] < stage[x]
    requires id in g && LongestChain(g, id, k)
    ensures stage[id] >= k
  {
    var c :| ChainTo(g, c, id) && |c| == k + 1;
    StagesClimb(g, stage, c, k);
  }
}
