/** The order in which the SQLite to PostgreSQL migration copies its tables:
    Kahn's algorithm over the tables' declared dependencies, proved against
    dependency chains rather than against in-degrees. */
module MigrationOrder {
  import opened Collections

  /** The dependsOn column of the table map; a table without an entry has no dependencies. */
  type Dependencies = map<string, seq<string>>

  function DependsOn(deps: Dependencies, t: string): seq<string> {
    if t in deps then deps[t] else []
  }

  /** Every entry follows all of its dependencies. */
  ghost predicate DependenciesFirst(deps: Dependencies, order: seq<string>) {
    forall i, d :: 0 <= i < |order| && d in DependsOn(deps, order[i]) ==> d in order[..i]
  }

  /** A chain of tables, each depending on the next. */
  ghost predicate IsChain(deps: Dependencies, chain: seq<string>) {
    forall i :: 0 <= i < |chain| - 1 ==> chain[i + 1] in DependsOn(deps, chain[i])
  }

  /** Some chain of dependencies starting at t visits a table twice or leaves the plan. */
  ghost predicate Blocked(tables: seq<string>, deps: Dependencies, t: string) {
    exists chain ::
      && IsChain(deps, chain) && chain != [] && chain[0] == t
      && (!Distinct(chain) || exists x :: x in chain && x !in tables)
  }

  /** How often x occurs in the list. */
  function Count(s: seq<string>, x: string): nat {
    if s == [] then 0
    else Count(s[..|s| - 1], x) + if s[|s| - 1] == x then 1 else 0
  }

  lemma CountSnoc(s: seq<string>, y: string, x: string)
    ensures Count(s + [y], x) == Count(s, x) + if y == x then 1 else 0
  {
  }

  lemma {:induction false} CountGrows(s: seq<string>, k: nat, x: string)
    requires k <= |s|
    ensures Count(s[..k], x) <= Count(s, x)
    decreases |s| - k
  {
    if k < |s| {
      assert s[..k + 1][..k] == s[..k];
      CountGrows(s, k + 1, x);
    } else {
      assert s[..k] == s;
    }
  }

  /** How many dependencies in the list are not done yet, repetitions included. */
  function Pending(ds: seq<string>, done: set<string>): nat {
    if ds == [] then 0
    else Pending(ds[..|ds| - 1], done) + if ds[|ds| - 1] in done then 0 else 1
  }

  lemma {:induction false} PendingAfter(ds: seq<string>, done: set<string>, d: string)
    requires d !in done
    ensures Pending(ds, done) == Pending(ds, done + {d}) + Count(ds, d)
  {
    if ds != [] {
      PendingAfter(ds[..|ds| - 1], done, d);
    }
  }

  lemma {:induction false} PendingZero(ds: seq<string>, done: set<string>)
    ensures Pending(ds, done) == 0 <==> forall d <- ds :: d in done
  {
    if ds != [] {
      PendingZero(ds[..|ds| - 1], done);
      assert ds == ds[..|ds| - 1] + [ds[|ds| - 1]];
    }
  }

  lemma {:induction false} PendingNothingDone(ds: seq<string>)
    ensures Pending(ds, {}) == |ds|
  {
    if ds != [] {
      PendingNothingDone(ds[..|ds| - 1]);
    }
  }

  lemma {:induction false} Pigeonhole<T>(s: seq<T>, from: set<T>)
    requires Distinct(s) && forall x :: x in s ==> x in from
    ensures |s| <= |from|
  {
    if s != [] {
      var front, last := s[..|s| - 1], s[|s| - 1];
      Pigeonhole(front, from - {last});
    }
  }

  lemma PrefixMembers<T>(s: seq<T>, a: nat, b: nat)
    requires a <= b <= |s|
    ensures forall x <- s[..a] :: x in s[..b]
  {
  }

  /** From a placed table, chains only go to strictly earlier places. */
  lemma {:induction false} ChainsDescend(deps: Dependencies, order: seq<string>, chain: seq<string>, k: nat)
    requires Distinct(order) && DependenciesFirst(deps, order)
    requires k < |order| && chain != [] && chain[0] == order[k] && IsChain(deps, chain)
    ensures Distinct(chain) && forall x <- chain :: x in order[..k + 1]
    decreases k
  {
    assert order[..k + 1][k] == order[k];
    if |chain| > 1 {
      var rest := chain[1..];
      assert chain[1] in DependsOn(deps, chain[0]);
      var j :| 0 <= j < k && order[..k][j] == chain[1];
      assert IsChain(deps, rest) by {
        forall i | 0 <= i < |rest| - 1 ensures rest[i + 1] in DependsOn(deps, rest[i]) {
          assert rest[i + 1] == chain[i + 2] && rest[i] == chain[i + 1];
        }
      }
      ChainsDescend(deps, order, rest, j);
      PrefixMembers(order, j + 1, k);
      PrefixMembers(order, j + 1, k + 1);
      assert order[k] !in order[..k];
      assert chain == [order[k]] + rest;
      assert chain[0] !in rest;
      forall i, j | 0 <= i < j < |chain| ensures chain[i] != chain[j] {
        assert chain[j] == rest[j - 1];
        if i > 0 {
          assert chain[i] == rest[i - 1];
        }
      }
    }
  }

  /** When every unplaced table waits for something unplaced, a chain that never
      reaches a placed table can be made as long as one likes, or leaves the plan. */
  lemma {:induction false} LongChain(tables: seq<string>, deps: Dependencies, placed: set<string>, t: string, n: nat)
    returns (chain: seq<string>)
    requires t in tables && t !in placed
    requires forall u :: u in tables && u !in placed ==> exists d :: d in DependsOn(deps, u) && d !in placed
    ensures IsChain(deps, chain) && chain != [] && chain[0] == t
    ensures |chain| == n + 1 || exists x :: x in chain && x !in tables
    decreases n
  {
    if n == 0 {
      chain := [t];
    } else {
      var d :| d in DependsOn(deps, t) && d !in placed;
      if d !in tables {
        chain := [t, d];
        assert d in chain;
      } else {
        var rest := LongChain(tables, deps, placed, d, n - 1);
        chain := [t] + rest;
        assert forall x :: x in rest ==> x in chain;
      }
    }
  }

  /** The placed tables are exactly those that are not blocked. */
  lemma {:induction false} PlacedExactlyUnblocked(tables: seq<string>, deps: Dependencies, order: seq<string>)
    requires Distinct(order) && DependenciesFirst(deps, order)
    requires forall t :: t in order ==> t in tables
    requires forall u :: u in tables && u !in order ==> exists d :: d in DependsOn(deps, u) && d !in order
    ensures forall t :: t in tables ==> (t in order <==> !Blocked(tables, deps, t))
  {
    forall t | t in tables ensures t in order <==> !Blocked(tables, deps, t) {
      if t in order {
        var k :| 0 <= k < |order| && order[k] == t;
        forall chain | IsChain(deps, chain) && chain != [] && chain[0] == t
          ensures Distinct(chain) && forall x :: x in chain ==> x in tables
        {
          ChainsDescend(deps, order, chain, k);
          assert forall x :: x in order[..k + 1] ==> x in order;
        }
      } else {
        var placed := SetOf(order);
        var chain := LongChain(tables, deps, placed, t, |tables|);
        if Distinct(chain) && forall x :: x in chain ==> x in tables {
          Pigeonhole(chain, SetOf(tables));
          SetOfSize(tables);
          assert false;
        }
        assert Blocked(tables, deps, t);
      }
    }
  }

  function Dependents(graph: map<string, seq<string>>, d: string): seq<string> {
    if d in graph then graph[d] else []
  }

  /** How often t is entered as a dependent of d. */
  ghost function Edges(graph: map<string, seq<string>>, d: string, t: string): nat {
    Count(Dependents(graph, d), t)
  }

  /** How often t names d as a dependency. */
  ghost function Needs(deps: Dependencies, t: string, d: string): nat {
    Count(DependsOn(deps, t), d)
  }

  /** graph is graph0 with t entered once for each occurrence in ds. */
  ghost predicate Entered(graph0: map<string, seq<string>>, graph: map<string, seq<string>>, t: string,
                          ds: seq<string>) {
    forall d, u :: Edges(graph, d, u) == Edges(graph0, d, u) + if u == t then Count(ds, d) else 0
  }

  lemma EnteredNothing(graph: map<string, seq<string>>, t: string)
    ensures Entered(graph, graph, t, [])
  {
    forall d ensures Count([], d) == 0 {
    }
  }

  lemma EnteredStep(graph0: map<string, seq<string>>, graph: map<string, seq<string>>, t: string, ds: seq<string>,
                    dep: string)
    requires Entered(graph0, graph, t, ds)
    ensures Entered(graph0, graph[dep := Dependents(graph, dep) + [t]], t, ds + [dep])
  {
  }

  /** The in-degree table and the reverse graph describe exactly the given tables. */
  ghost predicate Counted(deps: Dependencies, seen: seq<string>, inDegree: map<string, int>,
                          graph: map<string, seq<string>>) {
    && (forall t :: t in inDegree <==> t in seen)
    && (forall t :: t in inDegree ==> inDegree[t] == |DependsOn(deps, t)|)
    && (forall d, t :: Edges(graph, d, t) == if t in seen then Needs(deps, t, d) else 0)
  }

  lemma CountedStep(deps: Dependencies, seen: seq<string>, t: string, inDegree: map<string, int>,
                    graph0: map<string, seq<string>>, graph: map<string, seq<string>>)
    requires t !in seen && Counted(deps, seen, inDegree, graph0)
    requires Entered(graph0, graph, t, DependsOn(deps, t))
    ensures Counted(deps, seen + [t], inDegree[t := |DependsOn(deps, t)|], graph)
  {
  }

  /** The inner loop of the counting pass: enters t under each of its dependencies. */
  method AddDependencies(t: string, ds: seq<string>, inDegree0: map<string, int>, graph0: map<string, seq<string>>)
    returns (inDegree: map<string, int>, graph: map<string, seq<string>>)
    requires t in inDegree0
    ensures inDegree == inDegree0[t := inDegree0[t] + |ds|]
    ensures Entered(graph0, graph, t, ds)
  {
    inDegree, graph := inDegree0, graph0;
    EnteredNothing(graph, t);
    assert ds[..0] == [];
    for k := 0 to |ds|
      invariant inDegree == inDegree0[t := inDegree0[t] + k]
      invariant Entered(graph0, graph, t, ds[..k])
    {
      EnteredStep(graph0, graph, t, ds[..k], ds[k]);
      assert ds[..k + 1] == ds[..k] + [ds[k]];
      graph := graph[ds[k] := Dependents(graph, ds[k]) + [t]];
      inDegree := inDegree[t := inDegree[t] + 1];
    }
    assert ds[..|ds|] == ds;
  }

  /** The counting pass: in-degrees and the reverse dependency graph. */
  method BuildGraph(tables: seq<string>, deps: Dependencies)
    returns (inDegree: map<string, int>, graph: map<string, seq<string>>)
    requires Distinct(tables)
    ensures Counted(deps, tables, inDegree, graph)
  {
    inDegree, graph := map[], map[];
    for m := 0 to |tables|
      invariant Counted(deps, tables[..m], inDegree, graph)
    {
      var t := tables[m];
      ghost var inDegree0, graph0 := inDegree, graph;
      assert t !in tables[..m];
      if t !in inDegree {
        inDegree := inDegree[t := 0];
      }
      inDegree, graph := AddDependencies(t, DependsOn(deps, t), inDegree, graph);
      CountedStep(deps, tables[..m], t, inDegree0, graph0, graph);
      assert tables[..m + 1] == tables[..m] + [t];
    }
    assert tables[..|tables|] == tables;
  }

  /** The tables held, be they placed or queued, are exactly those whose in-degree is zero. */
  ghost predicate HeldAtZero(inDegree: map<string, int>, held: seq<string>) {
    Distinct(held) && forall t :: t in held <==> t in inDegree && inDegree[t] == 0
  }

  /** Midway through releasing a placed table's dependents, an in-degree counts the
      dependencies that are neither done nor released yet. */
  ghost predicate Remaining(deps: Dependencies, done: set<string>, released: seq<string>, t: string, degree: int) {
    0 <= degree == Pending(DependsOn(deps, t), done) - Count(released, t)
  }

  ghost predicate Releasing(tables: seq<string>, deps: Dependencies, done: set<string>, released: seq<string>,
                            inDegree: map<string, int>, held: seq<string>) {
    && HeldAtZero(inDegree, held)
    && (forall t :: t in tables <==> t in inDegree)
    && (forall t :: t in inDegree ==> Remaining(deps, done, released, t, inDegree[t]))
  }

  lemma HeldStep(inDegree: map<string, int>, held: seq<string>, n: string)
    requires HeldAtZero(inDegree, held) && n in inDegree && inDegree[n] > 0
    ensures HeldAtZero(inDegree[n := inDegree[n] - 1], if inDegree[n] == 1 then held + [n] else held)
  {
  }

  lemma ReleaseStep(tables: seq<string>, deps: Dependencies, done: set<string>, released: seq<string>,
                    inDegree: map<string, int>, held: seq<string>, node: string, n: string)
    requires Releasing(tables, deps, done, released, inDegree, held)
    requires n in tables && node !in done && Count(released, n) < Needs(deps, n, node)
    ensures n in inDegree && inDegree[n] > 0
    ensures Releasing(tables, deps, done, released + [n], inDegree[n := inDegree[n] - 1],
                      if inDegree[n] == 1 then held + [n] else held)
  {
    hide HeldAtZero, Count, Pending, DependsOn;
    PendingAfter(DependsOn(deps, n), done, node);
    assert Remaining(deps, done, released, n, inDegree[n]);
    HeldStep(inDegree, held, n);
    var next := inDegree[n := inDegree[n] - 1];
    forall t | t in next ensures Remaining(deps, done, released + [n], t, next[t]) {
      assert Remaining(deps, done, released, t, inDegree[t]);
      CountSnoc(released, n, t);
    }
  }

  lemma PlaceNode(tables: seq<string>, deps: Dependencies, inDegree: map<string, int>, result: seq<string>,
                  queue: seq<string>)
    requires queue != [] && Releasing(tables, deps, SetOf(result), [], inDegree, result + queue)
    requires DependenciesFirst(deps, result)
    ensures queue[0] in tables && queue[0] !in result
    ensures DependenciesFirst(deps, result + [queue[0]])
    ensures result + queue == (result + [queue[0]]) + queue[1..]
  {
    var node := queue[0];
    assert result + queue == (result + [node]) + queue[1..];
    assert (result + queue)[|result|] == node;
    assert node in result + queue;
    forall i | 0 <= i < |result| ensures result[i] != node {
      assert (result + queue)[i] == result[i];
    }
    PendingZero(DependsOn(deps, node), SetOf(result));
    var order := result + [node];
    forall i, d | 0 <= i < |order| && d in DependsOn(deps, order[i]) ensures d in order[..i] {
      if i < |result| {
        assert order[i] == result[i] && order[..i] == result[..i];
      } else {
        assert order[..i] == result;
      }
    }
  }

  lemma AllReleased(tables: seq<string>, deps: Dependencies, done: set<string>, node: string, ns: seq<string>,
                    inDegree: map<string, int>, held: seq<string>)
    requires node !in done && Releasing(tables, deps, done, ns, inDegree, held)
    requires forall t :: t in tables ==> Count(ns, t) == Needs(deps, t, node)
    ensures Releasing(tables, deps, done + {node}, [], inDegree, held)
  {
    forall t | t in inDegree ensures Remaining(deps, done + {node}, [], t, inDegree[t]) {
      assert Remaining(deps, done, ns, t, inDegree[t]);
      PendingAfter(DependsOn(deps, t), done, node);
    }
  }

  /** The tables without dependencies, in plan order. */
  method InitialQueue(tables: seq<string>, inDegree: map<string, int>) returns (queue: seq<string>)
    requires Distinct(tables) && forall t <- tables :: t in inDegree
    ensures Distinct(queue)
    ensures forall t :: t in queue <==> t in tables && inDegree[t] == 0
  {
    queue := [];
    for m := 0 to |tables|
      invariant Distinct(queue)
      invariant forall t :: t in queue <==> t in tables[..m] && inDegree[t] == 0
    {
      if inDegree[tables[m]] == 0 {
        assert tables[m] !in tables[..m];
        queue := queue + [tables[m]];
      }
    }
    assert tables[..|tables|] == tables;
  }

  /** The inner loop of the placing pass: releases every dependent of the table just placed. */
  method ReleaseDependents(ghost tables: seq<string>, ghost deps: Dependencies, ghost done: set<string>,
                           ghost node: string,
                           ns: seq<string>, inDegree0: map<string, int>, ghost result: seq<string>, queue0: seq<string>)
    returns (inDegree: map<string, int>, queue: seq<string>)
    requires Releasing(tables, deps, done, [], inDegree0, result + queue0)
    requires node !in done && forall n :: Count(ns, n) == if n in tables then Needs(deps, n, node) else 0
    ensures Releasing(tables, deps, done + {node}, [], inDegree, result + queue)
  {
    hide Releasing;
    inDegree, queue := inDegree0, queue0;
    for k := 0 to |ns|
      invariant Releasing(tables, deps, done, ns[..k], inDegree, result + queue)
    {
      var n := ns[k];
      UnreleasedRemain(ns, k);
      ReleaseStep(tables, deps, done, ns[..k], inDegree, result + queue, node, n);
      assert ns[..k + 1] == ns[..k] + [n];
      assert (result + queue) + [n] == result + (queue + [n]);
      inDegree := inDegree[n := inDegree[n] - 1];
      if inDegree[n] == 0 {
        queue := queue + [n];
      }
    }
    assert ns[..|ns|] == ns;
    AllReleased(tables, deps, done, node, ns, inDegree, result + queue);
  }

  /** Kahn's algorithm: the tables that no cycle and no foreign dependency blocks, each
      after all of its dependencies and each once. */
  method DependencyOrder(tables: seq<string>, deps: Dependencies) returns (result: seq<string>)
    requires Distinct(tables)
    ensures Distinct(result)
    ensures DependenciesFirst(deps, result)
    ensures forall i, d :: 0 <= i < |result| && result[i] in deps && d in deps[result[i]] ==> d in result[..i]
    ensures forall t <- result :: t in tables
    ensures forall t <- tables :: t in result <==> !Blocked(tables, deps, t)
    ensures (forall t <- tables :: !Blocked(tables, deps, t)) ==> multiset(result) == multiset(tables)
  {
    hide Releasing, DependenciesFirst, Blocked;
    var inDegree, graph := BuildGraph(tables, deps);
    var queue := InitialQueue(tables, inDegree);
    result := [];
    NothingPlaced(tables, deps, inDegree, queue);
    while queue != []
      invariant Releasing(tables, deps, SetOf(result), [], inDegree, result + queue)
      invariant DependenciesFirst(deps, result)
      decreases SetOf(tables) - SetOf(result)
    {
      PlaceNode(tables, deps, inDegree, result, queue);
      var node := queue[0];
      ghost var done := SetOf(result);
      queue := queue[1..];
      result := result + [node];
      assert forall n :: Count(Dependents(graph, node), n) == Edges(graph, node, n);
      inDegree, queue := ReleaseDependents(tables, deps, done, node, Dependents(graph, node), inDegree, result, queue);
      assert SetOf(result) == done + {node};
    }
    NothingQueued(tables, deps, inDegree, result);
    DeclaredFirst(deps, result);
    if forall t <- tables :: !Blocked(tables, deps, t) {
      SameMembersPermute(tables, result);
    }
  }

  lemma DeclaredFirst(deps: Dependencies, order: seq<string>)
    requires DependenciesFirst(deps, order)
    ensures forall i, d :: 0 <= i < |order| && order[i] in deps && d in deps[order[i]] ==> d in order[..i]
  {
  }

  lemma {:induction false} DistinctCount(s: seq<string>, x: string)
    requires Distinct(s)
    ensures multiset(s)[x] == if x in s then 1 else 0
  {
    if s != [] {
      var front, last := s[..|s| - 1], s[|s| - 1];
      assert s == front + [last];
      DistinctCount(front, x);
      assert last !in front;
    }
  }

  lemma SameMembersPermute(a: seq<string>, b: seq<string>)
    requires Distinct(a) && Distinct(b) && forall x :: x in a <==> x in b
    ensures multiset(a) == multiset(b)
  {
    forall x ensures multiset(a)[x] == multiset(b)[x] {
      DistinctCount(a, x);
      DistinctCount(b, x);
    }
  }

  /** The plan the command ships with, and what its tables depend on. */
  const DEFAULT_TABLES: seq<string> :=
    ["tenants", "users", "domains", "mailboxes", "api_keys", "sessions",
     "coremail_audit", "security_events", "feature_flags", "licenses"]
  const DEFAULT_DEPENDENCIES: Dependencies :=
    map["users" := ["tenants"], "domains" := ["tenants"], "mailboxes" := ["domains"],
        "api_keys" := ["users"], "sessions" := ["users"]]

  /** A plan listed with dependencies first has nothing to block: in particular the
      shipped plan, whose ten tables are therefore all migrated. */
  lemma ListedInOrderUnblocked(tables: seq<string>, deps: Dependencies)
    requires Distinct(tables) && DependenciesFirst(deps, tables)
    ensures forall t <- tables :: !Blocked(tables, deps, t)
  {
    PlacedExactlyUnblocked(tables, deps, tables);
  }

  lemma DefaultPlanUnblocked()
    ensures Distinct(DEFAULT_TABLES)
    ensures forall t <- DEFAULT_TABLES :: !Blocked(DEFAULT_TABLES, DEFAULT_DEPENDENCIES, t)
  {
    var s := DEFAULT_TABLES;
    assert |s[0]| == 7 && |s[1]| == 5 && |s[2]| == 7 && |s[3]| == 9 && |s[4]| == 8;
    assert |s[5]| == 8 && |s[6]| == 14 && |s[7]| == 15 && |s[8]| == 13 && |s[9]| == 8;
    assert s[0][0] != s[2][0] && s[4][0] != s[5][0] && s[4][0] != s[9][0] && s[5][0] != s[9][0];
    forall i, d | 0 <= i < |s| && d in DependsOn(DEFAULT_DEPENDENCIES, s[i]) ensures d in s[..i] {
      if i == 3 {
        assert s[..i][2] == d;
      } else if i == 4 || i == 5 {
        assert s[..i][1] == d;
      } else {
        assert s[..i][0] == d;
      }
    }
    ListedInOrderUnblocked(DEFAULT_TABLES, DEFAULT_DEPENDENCIES);
  }

  lemma UnreleasedRemain(ns: seq<string>, k: nat)
    requires k < |ns|
    ensures Count(ns[..k], ns[k]) < Count(ns, ns[k])
  {
    assert ns[..k + 1][..k] == ns[..k];
    CountGrows(ns, k + 1, ns[k]);
  }

  lemma NothingPlaced(tables: seq<string>, deps: Dependencies, inDegree: map<string, int>, queue: seq<string>)
    requires Distinct(queue) && forall t :: t in queue <==> t in tables && t in inDegree && inDegree[t] == 0
    requires forall t :: t in tables <==> t in inDegree
    requires forall t :: t in inDegree ==> inDegree[t] == |DependsOn(deps, t)|
    ensures Releasing(tables, deps, SetOf([]), [], inDegree, [] + queue)
    ensures DependenciesFirst(deps, [])
  {
    assert [] + queue == queue;
    forall t | t in inDegree ensures Remaining(deps, SetOf([]), [], t, inDegree[t]) {
      PendingNothingDone(DependsOn(deps, t));
      assert SetOf<string>([]) == {};
    }
  }

  lemma NothingQueued(tables: seq<string>, deps: Dependencies, inDegree: map<string, int>, result: seq<string>)
    requires Releasing(tables, deps, SetOf(result), [], inDegree, result + [])
    requires DependenciesFirst(deps, result)
    ensures Distinct(result)
    ensures forall t <- result :: t in tables
    ensures forall t <- tables :: t in result <==> !Blocked(tables, deps, t)
  {
    assert result + [] == result;
    forall u | u in tables && u !in result ensures exists d :: d in DependsOn(deps, u) && d !in result {
      PendingZero(DependsOn(deps, u), SetOf(result));
    }
    PlacedExactlyUnblocked(tables, deps, result);
  }
}
