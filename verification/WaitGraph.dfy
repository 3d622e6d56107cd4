/** deadlockdetect.c: the wait-for graph of single-unit resources, and the depth-first search with three colours
    that looks for a cycle in it. */
module WaitGraph {
  import opened Resources

  const WHITE := 0
  const GREY := 1
  const BLACK := 2

  /** There is an edge from u to v. */
  ghost predicate Edge(g: Mat, u: nat, v: nat) {
    u < |g| && v < |g[u]| && v < |g| && g[u][v] != 0
  }

  ghost predicate Hop(g: Mat, w: seq<nat>, i: nat)
    requires i + 1 < |w|
  {
    Edge(g, w[i], w[i + 1])
  }

  /** A sequence of nodes, each with an edge to the next. */
  ghost predicate Walk(g: Mat, w: seq<nat>) {
    && (forall i {:trigger w[i]} :: 0 <= i < |w| ==> w[i] < |g|)
    && (forall i {:trigger Hop(g, w, i)} :: 0 <= i < |w| - 1 ==> Hop(g, w, i))
  }

  /** A walk of at least one edge that returns to where it started. */
  ghost predicate Cycle(g: Mat, w: seq<nat>) {
    |w| >= 2 && Walk(g, w) && w[0] == w[|w| - 1]
  }

  ghost predicate HasCycle(g: Mat) {
    exists w :: Cycle(g, w)
  }

  /** construct_wait_graph: u waits for v if it requests a resource that v holds. */
  ghost predicate WaitsFor(alloc: Mat, request: Mat, u: nat, v: nat)
    requires u < |request| && v < |alloc| && |request[u]| == |alloc[v]|
  {
    exists r {:trigger request[u][r]} {:trigger alloc[v][r]} :: 0 <= r < |request[u]| && request[u][r] != 0 &&
        alloc[v][r] != 0
  }

  ghost predicate WaitForGraph(alloc: Mat, request: Mat, g: Mat) {
    && Shape(g, |alloc|, |alloc|) && |request| == |alloc|
    && forall u, v {:trigger g[u][v]} :: 0 <= u < |alloc| && 0 <= v < |alloc| ==>
         |request[u]| == |alloc[v]| && (g[u][v] != 0 <==> WaitsFor(alloc, request, u, v))
  }

  // ---------------------------------------------------------------- ranks

  /** A rank that falls along every edge out of the nodes that have one. */
  ghost predicate Ranked(g: Mat, rank: map<nat, nat>) {
    forall u: nat, v: nat {:trigger Edge(g, u, v)} :: u in rank && Edge(g, u, v) ==> v in rank && rank[v] < rank[u]
  }

  /** From a ranked node the rank only falls along a walk. */
  lemma {:induction false} RankFalls(g: Mat, rank: map<nat, nat>, w: seq<nat>, i: nat)
    requires Ranked(g, rank) && Walk(g, w) && i < |w| && w[0] in rank
    ensures w[i] in rank && rank[w[i]] + i <= rank[w[0]]
  {
    if i > 0 {
      RankFalls(g, rank, w, i - 1);
      assert Hop(g, w, i - 1) && Edge(g, w[i - 1], w[i]);
    }
  }

  /** No cycle passes through a ranked node. */
  lemma RankedNoCycle(g: Mat, rank: map<nat, nat>)
    requires Ranked(g, rank) && forall u: nat {:trigger u in rank} :: u < |g| ==> u in rank
    ensures !HasCycle(g)
  {
    forall w ensures !Cycle(g, w) {
      if |w| >= 2 && Walk(g, w) {
        RankFalls(g, rank, w, |w| - 1);
      }
    }
  }

  // ---------------------------------------------------------------- the search

  ghost function White(visited: seq<int>): (s: set<nat>)
    ensures forall u: nat {:trigger u in s} :: u in s <==> u < |visited| && visited[u] == WHITE
  {
    set u: nat {:trigger visited[u]} | u < |visited| && visited[u] == WHITE
  }

  /** The grey nodes are the current trace, which is a walk without repetitions. */
  ghost predicate Trail(g: Mat, visited: seq<int>, path: seq<nat>) {
    && |visited| == |g| && Walk(g, path)
    && (forall u: nat {:trigger u in path} :: u in path <==> u < |g| && visited[u] == GREY)
    && (forall i {:trigger path[i]} :: 0 <= i < |path| ==> path[i] !in path[..i])
  }

  /** The black nodes are ranked below the clock, and so lead only to black nodes. */
  ghost predicate Finished(g: Mat, visited: seq<int>, rank: map<nat, nat>, clock: nat) {
    && |visited| == |g|
    && (forall u {:trigger visited[u]} :: 0 <= u < |g| ==> WHITE <= visited[u] <= BLACK)
    && (forall u: nat {:trigger u in rank} :: u in rank <==> u < |g| && visited[u] == BLACK)
    && (forall u: nat {:trigger rank[u]} :: u in rank ==> rank[u] < clock)
    && Ranked(g, rank)
  }

  /** A white node is entered at the end of the trace. */
  lemma Enter(g: Mat, visited: seq<int>, path: seq<nat>, node: nat)
    requires Trail(g, visited, path) && node < |g| && visited[node] == WHITE
    requires path != [] ==> Edge(g, path[|path| - 1], node)
    ensures |path| < |g| && Trail(g, visited[node := GREY], path + [node])
    ensures White(visited[node := GREY]) < White(visited)
  {
    var path' := path + [node];
    assert node in White(visited) && node !in White(visited[node := GREY]);
    forall i | 0 <= i < |path'| ensures path'[i] !in path'[..i] {
      assert i < |path| ==> path'[..i] == path[..i] && path'[i] == path[i];
      assert i == |path| ==> path'[..i] == path;
    }
    ElementsCount(path');
    EveryoneCount(|g|);
    SubsetCount(Elements(path'), Everyone(|g|));
    assert Walk(g, path') by {
      forall i | 0 <= i < |path'| - 1 ensures Hop(g, path', i) {
        assert i < |path| - 1 ==> Hop(g, path, i);
      }
    }
  }

  /** The last node of the trace is left. */
  lemma Leave(g: Mat, visited: seq<int>, path: seq<nat>, node: nat)
    requires Trail(g, visited, path + [node]) && node < |visited|
    ensures Trail(g, visited[node := BLACK], path)
    ensures White(visited[node := BLACK]) <= White(visited)
  {
    var full := path + [node];
    assert full[|path|] == node && full[..|path|] == path && node in full;
    forall u: nat ensures u in path <==> u < |g| && visited[node := BLACK][u] == GREY {
      assert u in full <==> u in path || u == node;
    }
    forall i | 0 <= i < |path| ensures path[i] !in path[..i] {
      assert full[i] == path[i] && full[..i] == path[..i];
    }
    assert Walk(g, path) by {
      assert forall i {:trigger path[i]} :: 0 <= i < |path| ==> path[i] == full[i];
      forall i | 0 <= i < |path| - 1 ensures Hop(g, path, i) {
        assert Hop(g, full, i);
      }
    }
  }

  /** A node all of whose successors are black is finished last. */
  lemma Finish(g: Mat, visited: seq<int>, rank: map<nat, nat>, clock: nat, node: nat)
    requires Finished(g, visited, rank, clock) && node < |visited| && visited[node] == GREY
    requires forall v: nat {:trigger Edge(g, node, v)} :: Edge(g, node, v) ==> visited[v] == BLACK
    ensures Finished(g, visited[node := BLACK], rank[node := clock], clock + 1)
  {
    var rank' := rank[node := clock];
    forall u: nat, v: nat | u in rank' && Edge(g, u, v) ensures v in rank' && rank'[v] < rank'[u] {
      assert u != node ==> v in rank;
    }
  }

  /** From a grey node along the trace and back over one edge. */
  lemma Closes(g: Mat, path: seq<nat>, start: nat, next: nat)
    requires Walk(g, path) && start < |path| && path[start] == next && Edge(g, path[|path| - 1], next)
    ensures Cycle(g, path[start..] + [next])
  {
    var w := path[start..] + [next];
    forall i | 0 <= i < |w| - 1 ensures Hop(g, w, i) {
      assert start + i < |path| - 1 ==> Hop(g, path, start + i);
    }
  }

  /** A call that finds no cycle has visited at least what was visited before. */
  ghost predicate Advanced(visited: seq<int>, visited': seq<int>) {
    && |visited'| == |visited| && White(visited') <= White(visited)
    && forall u {:trigger visited'[u]} :: 0 <= u < |visited| && visited[u] == BLACK ==> visited'[u] == BLACK
  }

  class Detector {
    const n: nat
    const adj: array2<int>
    const visited: array<int>
    const trace: array<nat>
    const deadlockLoop: array<nat>
    var loopSize: nat
    ghost var rank: map<nat, nat>
    ghost var clock: nat

    ghost predicate Valid(level: nat)
      reads this, adj, visited, trace
    {
      && adj.Length0 == n && adj.Length1 == n && visited.Length == n && trace.Length == n &&
          deadlockLoop.Length == n + 1
      && trace != deadlockLoop && level <= n
      && Trail(Rows(adj), visited[..], trace[..level]) && Finished(Rows(adj), visited[..], rank, clock)
    }

    ghost predicate Reported()
      reads this, adj, deadlockLoop
    {
      2 <= loopSize <= n + 1 <= deadlockLoop.Length && Cycle(Rows(adj), deadlockLoop[..loopSize])
    }

    /** The extraction of the cycle when an edge leads back into the trace. */
    method Report(next: nat, level: nat)
      requires Valid(level) && level > 0 && next < n && visited[next] == GREY && Edge(Rows(adj), trace[level - 1], next)
      modifies this`loopSize, deadlockLoop
      ensures Reported()
    {
      ghost var path := trace[..level];
      assert next in path;
      var start := 0;
      while trace[start] != next
        invariant start < level && next in path[start..]
        decreases level - start
      {
        assert path[start..] == [path[start]] + path[start + 1..];
        start := start + 1;
      }
      loopSize := 0;
      for k := start to level
        invariant loopSize == k - start && deadlockLoop[..loopSize] == path[start..k] && trace[..level] == path
      {
        deadlockLoop[loopSize] := trace[k];
        loopSize := loopSize + 1;
        assert path[start..k + 1] == path[start..k] + [path[k]];
      }
      ghost var w := deadlockLoop[..loopSize];
      deadlockLoop[loopSize] := next;
      loopSize := loopSize + 1;
      assert deadlockLoop[..loopSize] == w + [next] == path[start..] + [next];
      Closes(Rows(adj), path, start, next);
    }

    /** detect_cycle_dfs: either reports a cycle, or finishes the node and everything it leads to. */
    method DetectCycleDfs(node: nat, depth: nat) returns (found: bool)
      requires Valid(depth) && node < n && visited[node] == WHITE
      requires depth > 0 ==> Edge(Rows(adj), trace[depth - 1], node)
      modifies this, visited, trace, deadlockLoop
      ensures found ==> Reported()
      ensures !found ==> Valid(depth) && trace[..depth] == old(trace[..depth]) && visited[node] == BLACK
      ensures !found ==> Advanced(old(visited[..]), visited[..])
      decreases White(visited[..]), 0
    {
      ghost var path, g := trace[..depth], Rows(adj);
      var level := Push(node, depth);
      ghost var v1 := visited[..];
      for next := 0 to n
        invariant Valid(level) && trace[..level] == path + [node] && Advanced(v1, visited[..])
        invariant forall v: nat {:trigger Edge(g, node, v)} :: v < next && Edge(g, node, v) ==> visited[v] == BLACK
      {
        if adj[node, next] == 0 {
          assert !Edge(g, node, next);
          continue;
        }
        assert trace[level - 1] == (path + [node])[depth];
        found := Visit(next, level);
        if found {
          return true;
        }
      }
      Retreat(path, node, depth);
      return false;
    }

    /** The beginning of detect_cycle_dfs: the node becomes grey and the last one of the trace. */
    method Push(node: nat, depth: nat) returns (level: nat)
      requires Valid(depth) && node < n && visited[node] == WHITE
      requires depth > 0 ==> Edge(Rows(adj), trace[depth - 1], node)
      modifies visited, trace
      ensures level == depth + 1 <= n && Valid(level) && trace[..level] == old(trace[..depth]) + [node]
      ensures White(visited[..]) < White(old(visited[..])) && Advanced(old(visited[..]), visited[..])
    {
      level := depth;
      ghost var path := trace[..depth];
      Enter(Rows(adj), visited[..], path, node);
      visited[node] := 1;
      trace[level] := node;
      level := level + 1;
      assert trace[..level] == path + [node];
    }

    /** One edge out of the last node of the trace. */
    method Visit(next: nat, level: nat) returns (found: bool)
      requires Valid(level) && level > 0 && next < n && Edge(Rows(adj), trace[level - 1], next)
      modifies this, visited, trace, deadlockLoop
      ensures found ==> Reported()
      ensures !found ==> Valid(level) && trace[..level] == old(trace[..level]) && visited[next] == BLACK
      ensures !found ==> Advanced(old(visited[..]), visited[..])
      decreases White(visited[..]), 1
    {
      if visited[next] == 0 {
        found := DetectCycleDfs(next, level);
        if found {
          return true;
        }
      }
      if visited[next] == 1 {
        Report(next, level);
        return true;
      }
      assert WHITE <= visited[..][next] <= BLACK;
      return false;
    }

    /** The end of detect_cycle_dfs: the node becomes black. */
    method Retreat(ghost path: seq<nat>, node: nat, depth: nat)
      requires depth < n && Valid(depth + 1) && trace[..depth + 1] == path + [node] && |path| == depth && node < n
      requires forall v: nat {:trigger Edge(Rows(adj), node, v)} :: Edge(Rows(adj), node, v) ==> visited[v] == BLACK
      modifies this, visited
      ensures Valid(depth) && trace[..depth] == path && visited[node] == BLACK
      ensures Advanced(old(visited[..]), visited[..])
    {
      ghost var g := Rows(adj);
      assert (path + [node])[depth] == node && node in trace[..depth + 1];
      Leave(g, visited[..], path, node);
      Finish(g, visited[..], rank, clock, node);
      visited[node] := 2;
      rank, clock := rank[node := clock], clock + 1;
      assert trace[..depth] == (path + [node])[..depth] == path;
    }

    /** The root loop of evaluate_scenario: a deadlock is reported if and only if the graph has a cycle. */
    method Search() returns (hasDeadlock: bool)
      requires Valid(0) && (forall u {:trigger visited[u]} :: 0 <= u < n ==> visited[u] == WHITE)
      modifies this, visited, trace, deadlockLoop
      ensures hasDeadlock <==> HasCycle(Rows(adj))
      ensures hasDeadlock ==> Reported()
    {
      hasDeadlock := false;
      var i := 0;
      while i < n && !hasDeadlock
        invariant 0 <= i <= n
        invariant hasDeadlock ==> Reported()
        invariant !hasDeadlock ==> Valid(0) && forall u {:trigger visited[u]} :: 0 <= u < i ==> visited[u] == BLACK
      {
        assert WHITE <= visited[..][i] <= BLACK && i !in trace[..0];
        if visited[i] == 0 {
          hasDeadlock := DetectCycleDfs(i, 0);
        }
        i := i + 1;
      }
      if !hasDeadlock {
        RankedNoCycle(Rows(adj), rank);
      }
    }

    /** evaluate_scenario's local arrays. */
    constructor (adj: array2<int>)
      requires adj.Length0 == adj.Length1
      ensures this.adj == adj && Valid(0) && n == adj.Length0 && fresh(visited) && fresh(trace) && fresh(deadlockLoop)
      ensures forall u {:trigger visited[u]} :: 0 <= u < n ==> visited[u] == WHITE
    {
      this.adj, n := adj, adj.Length0;
      visited := new int[adj.Length0](i => WHITE);
      trace := new nat[adj.Length0];
      deadlockLoop := new nat[adj.Length0 + 1];
      loopSize, rank, clock := 0, map[], 0;
    }
  }

  // ---------------------------------------------------------------- the graph

  /** construct_wait_graph. */
  method ConstructWaitGraph(alloc: array2<int>, request: array2<int>) returns (adj: array2<int>)
    requires alloc.Length0 == request.Length0 && alloc.Length1 == request.Length1
    ensures fresh(adj) && adj.Length0 == adj.Length1 == alloc.Length0
    ensures WaitForGraph(Rows(alloc), Rows(request), Rows(adj))
  {
    var n, m := alloc.Length0, alloc.Length1;
    ghost var a, q := Rows(alloc), Rows(request);
    adj := new int[n, n]((i, j) => 0);
    for u := 0 to n
      modifies adj
      invariant forall x, y :: 0 <= x < n && 0 <= y < n ==> (adj[x, y] != 0 <==> x < u && WaitsFor(a, q, x, y))
    {
      for r := 0 to m
        modifies adj
        invariant forall x, y :: 0 <= x < n && x != u && 0 <= y < n ==>
            (adj[x, y] != 0 <==> x < u && WaitsFor(a, q, x, y))
        invariant forall y :: 0 <= y < n ==> (adj[u, y] != 0 <==> WaitsForBelow(a, q, u, y, r))
      {
        if request[u, r] != 0 {
          for v := 0 to n
            modifies adj
            invariant forall x, y :: 0 <= x < n && x != u && 0 <= y < n ==>
                (adj[x, y] != 0 <==> x < u && WaitsFor(a, q, x, y))
            invariant forall y :: 0 <= y < n ==>
                        (adj[u, y] != 0 <==> WaitsForBelow(a, q, u, y, if y < v then r + 1 else r))
          {
            if alloc[v, r] != 0 {
              adj[u, v] := 1;
            }
          }
        }
      }
    }
  }

  ghost predicate WaitsForBelow(alloc: Mat, request: Mat, u: nat, v: nat, k: nat): (b: bool)
    requires u < |request| && v < |alloc| && k <= |request[u]| == |alloc[v]|
    ensures b <==> exists r {:trigger request[u][r]} {:trigger alloc[v][r]} ::
                     0 <= r < k && request[u][r] != 0 && alloc[v][r] != 0
  {
    k > 0 && (WaitsForBelow(alloc, request, u, v, k - 1) || (request[u][k - 1] != 0 && alloc[v][k - 1] != 0))
  }

  /** Processes that wait for each other in a circle. */
  ghost predicate CircularWait(alloc: Mat, request: Mat, w: seq<nat>)
    requires |request| == |alloc| && forall u, v {:trigger request[u], alloc[v]} ::
               0 <= u < |alloc| && 0 <= v < |alloc| ==> |request[u]| == |alloc[v]|
  {
    && |w| >= 2 && w[0] == w[|w| - 1]
    && (forall i {:trigger w[i]} :: 0 <= i < |w| ==> w[i] < |alloc|)
    && (forall i {:trigger Waits(alloc, request, w, i)} :: 0 <= i < |w| - 1 ==> Waits(alloc, request, w, i))
  }

  ghost predicate Waits(alloc: Mat, request: Mat, w: seq<nat>, i: nat)
    requires i + 1 < |w| && w[i] < |request| && w[i + 1] < |alloc| && |request[w[i]]| == |alloc[w[i + 1]]|
  {
    WaitsFor(alloc, request, w[i], w[i + 1])
  }

  lemma CycleIsCircularWait(alloc: Mat, request: Mat, g: Mat, w: seq<nat>)
    requires WaitForGraph(alloc, request, g)
    requires forall u, v {:trigger request[u], alloc[v]} ::
               0 <= u < |alloc| && 0 <= v < |alloc| ==> |request[u]| == |alloc[v]|
    ensures Cycle(g, w) <==> CircularWait(alloc, request, w)
  {
    if |w| >= 2 && forall i {:trigger w[i]} :: 0 <= i < |w| ==> w[i] < |alloc| {
      forall i | 0 <= i < |w| - 1 ensures Hop(g, w, i) <==> Waits(alloc, request, w, i) {
        assert g[w[i]][w[i + 1]] != 0 <==> WaitsFor(alloc, request, w[i], w[i + 1]);
      }
    }
  }

  /** evaluate_scenario: reports a deadlock exactly when some processes wait for each other in a circle, and then
      shows such a circle. */
  method EvaluateScenario(alloc: array2<int>, request: array2<int>) returns (hasDeadlock: bool, loop: seq<nat>)
    requires alloc.Length0 == request.Length0 && alloc.Length1 == request.Length1
    ensures hasDeadlock <==> exists w :: CircularWait(Rows(alloc), Rows(request), w)
    ensures hasDeadlock ==> |loop| <= alloc.Length0 + 1 && CircularWait(Rows(alloc), Rows(request), loop)
  {
    var adj := ConstructWaitGraph(alloc, request);
    var detector := new Detector(adj);
    ghost var g := Rows(adj);
    hasDeadlock := detector.Search();
    loop := if hasDeadlock then detector.deadlockLoop[..detector.loopSize] else [];
    forall w ensures Cycle(g, w) <==> CircularWait(Rows(alloc), Rows(request), w) {
      CycleIsCircularWait(Rows(alloc), Rows(request), g, w);
    }
  }
}
