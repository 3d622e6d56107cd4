/** The banker's algorithm, as bankers.c keeps it in its tables and as user/deadlock.c decides on copies. */
module Banker {
  import opened Resources

  /** What each process may still ask for: need = maximum - allocation. */
  ghost function Need(maximum: Mat, alloc: Mat, n: nat, m: nat): (need: Mat)
    requires Shape(maximum, n, m) && Shape(alloc, n, m)
    ensures Shape(need, n, m)
    ensures forall p, r {:trigger need[p][r]} :: 0 <= p < n && 0 <= r < m ==> need[p][r] == maximum[p][r] - alloc[p][r]
  {
    seq(n, p requires 0 <= p < n => seq(m, r requires 0 <= r < m => maximum[p][r] - alloc[p][r]))
  }

  // ---------------------------------------------------------------- the safety algorithm

  /** build_need_matrix. */
  method NeedMatrix(maximum: array2<int>, alloc: array2<int>) returns (need: array2<int>)
    requires maximum.Length0 == alloc.Length0 && maximum.Length1 == alloc.Length1
    ensures fresh(need) && need.Length0 == alloc.Length0 && need.Length1 == alloc.Length1
    ensures Rows(need) == Need(Rows(maximum), Rows(alloc), alloc.Length0, alloc.Length1)
  {
    var n, m := alloc.Length0, alloc.Length1;
    need := new int[n, m];
    for p := 0 to n
      invariant forall q, r :: 0 <= q < p && 0 <= r < m ==> need[q, r] == maximum[q, r] - alloc[q, r]
    {
      for r := 0 to m
        invariant forall q, t :: 0 <= q < p && 0 <= t < m ==> need[q, t] == maximum[q, t] - alloc[q, t]
        invariant forall t :: 0 <= t < r ==> need[p, t] == maximum[p, t] - alloc[p, t]
      {
        need[p, r] := maximum[p, r] - alloc[p, r];
      }
    }
    RowsEqual(Rows(need), Need(Rows(maximum), Rows(alloc), n, m), n, m);
  }

  /** can_execute and fits. */
  method CanExecute(p: nat, work: array<int>, need: array2<int>) returns (ok: bool)
    requires p < need.Length0 && need.Length1 == work.Length
    ensures ok <==> Fits(Rows(need)[p], work[..])
  {
    for r := 0 to work.Length
      invariant forall t :: 0 <= t < r ==> need[p, t] <= work[t]
    {
      if need[p, r] > work[r] {
        assert Rows(need)[p][r] > work[..][r];
        return false;
      }
    }
    return true;
  }

  /** What one process holds goes back to the pool. */
  method Reclaim(ghost avail: Vec, ghost d: set<nat>, alloc: array2<int>, p: nat, work: array<int>)
    requires p < alloc.Length0 && |avail| == work.Length == alloc.Length1 && p !in d
    requires work[..] == Pool(avail, Rows(alloc), d)
    modifies work
    ensures work[..] == Pool(avail, Rows(alloc), d + {p})
  {
    ghost var a, w := Rows(alloc), work[..];
    for r := 0 to work.Length
      invariant forall t {:trigger work[t]} :: 0 <= t < work.Length ==> work[t] == w[t] + if t < r then a[p][t] else 0
    {
      work[r] := work[r] + alloc[p, r];
    }
    PoolAdd(avail, a, d, p, work[..]);
  }

  /** The state of the search: `order` has finished safely and `work` is what is then available. */
  ghost predicate Searching(avail: Vec, a: Mat, need: Mat, work: Vec, done: seq<bool>, order: seq<nat>)
    requires Shape(a, |a|, |avail|) && Shape(need, |a|, |avail|)
  {
    && SafeOrder(avail, a, need, order) && |work| == |avail| && work == Pool(avail, a, Elements(order))
    && |done| == |a| && forall p: nat {:trigger p in order} {:trigger done[p]} :: p < |a| ==> (done[p] <==> p in order)
  }

  lemma SearchNext(avail: Vec, a: Mat, need: Mat, work: Vec, done: seq<bool>, order: seq<nat>, p: nat, work': Vec)
    requires Shape(a, |a|, |avail|) && Shape(need, |a|, |avail|) && Searching(avail, a, need, work, done, order)
    requires p < |a| && !done[p] && Fits(need[p], work) && work' == Pool(avail, a, Elements(order) + {p})
    ensures |order| < |a| && Searching(avail, a, need, work', done[p := true], order + [p])
  {
    SafeOrderAppend(avail, a, need, order, p);
    OrderLength(avail, a, need, order + [p]);
  }

  /** One pass of the search over all processes. */
  method Sweep(ghost avail: Vec, alloc: array2<int>, need: array2<int>, work: array<int>, done: array<bool>,
               order: array<nat>, count: nat) returns (found: bool, completed: nat)
    requires need.Length0 == alloc.Length0 == order.Length == done.Length && |avail| == need.Length1 == alloc.Length1
    requires work.Length == |avail| && count <= order.Length
    requires Searching(avail, Rows(alloc), Rows(need), work[..], done[..], order[..count])
    modifies work, done, order
    ensures count <= completed <= order.Length && (found <==> completed > count)
    ensures Searching(avail, Rows(alloc), Rows(need), work[..], done[..], order[..completed])
    ensures !found ==> forall q {:trigger Rows(need)[q]} :: 0 <= q < done.Length && !done[q] ==>
        !Fits(Rows(need)[q], work[..])
  {
    ghost var a, needs := Rows(alloc), Rows(need);
    found, completed := false, count;
    for p := 0 to done.Length
      invariant count <= completed <= order.Length && (found <==> completed > count)
      invariant Searching(avail, a, needs, work[..], done[..], order[..completed])
      invariant !found ==> forall q {:trigger needs[q]} :: 0 <= q < p && !done[q] ==> !Fits(needs[q], work[..])
    {
      if !done[p] {
        var fits := CanExecute(p, work, need);
        if fits {
          Finish(avail, alloc, need, work, done, order, completed, p);
          completed := completed + 1;
          found := true;
        }
      }
    }
  }

  /** Process p finishes next. */
  method Finish(ghost avail: Vec, alloc: array2<int>, need: array2<int>, work: array<int>, done: array<bool>,
                order: array<nat>, completed: nat, p: nat)
    requires need.Length0 == alloc.Length0 == order.Length == done.Length && |avail| == need.Length1 == alloc.Length1
    requires work.Length == |avail| && completed <= order.Length && p < done.Length && !done[p]
    requires Searching(avail, Rows(alloc), Rows(need), work[..], done[..], order[..completed])
    requires Fits(Rows(need)[p], work[..])
    modifies work, done, order
    ensures completed < order.Length
    ensures Searching(avail, Rows(alloc), Rows(need), work[..], done[..], order[..completed + 1])
  {
    ghost var w, d, o := work[..], done[..], order[..completed];
    Reclaim(avail, Elements(o), alloc, p, work);
    SearchNext(avail, Rows(alloc), Rows(need), w, d, o, p, work[..]);
    done[p] := true;
    order[completed] := p;
    assert done[..] == d[p := true] && order[..completed + 1] == o + [p];
  }

  /** check_safe_state and is_safe_state, from the point where the need matrix is known: what it finds is a safe order
      of all processes, and it finds one whenever there is one, unless some allocation is negative. */
  method FindOrder(alloc: array2<int>, need: array2<int>, available: array<int>, order: array<nat>) returns (safe: bool)
    requires need.Length0 == alloc.Length0 == order.Length && need.Length1 == alloc.Length1 == available.Length
    modifies order
    ensures NonNegative(Rows(alloc)) ==> (safe <==> Safe(available[..], Rows(alloc), Rows(need)))
    ensures safe ==> CompleteOrder(available[..], Rows(alloc), Rows(need), order[..])
  {
    var n, m := alloc.Length0, alloc.Length1;
    ghost var avail, a, needs := available[..], Rows(alloc), Rows(need);
    var work := new int[m];
    for r := 0 to m
      invariant forall t :: 0 <= t < r ==> work[t] == available[t]
    {
      work[r] := available[r];
    }
    var done := new bool[n](p => false);
    PoolNothing(avail, a);
    assert work[..] == avail && Elements([]) == {};
    var completed := 0;
    while completed < n
      invariant completed <= n
      invariant Searching(avail, a, needs, work[..], done[..], order[..completed])
    {
      var found;
      found, completed := Sweep(avail, alloc, need, work, done, order, completed);
      if !found {
        if NonNegative(a) {
          NotSafe(avail, a, needs, work[..], done[..], order[..completed]);
        }
        return false;
      }
    }
    OrderLength(avail, a, needs, order[..completed]);
    assert order[..completed] == order[..];
    return true;
  }

  lemma NotSafe(avail: Vec, a: Mat, need: Mat, work: Vec, done: seq<bool>, order: seq<nat>)
    requires Shape(a, |a|, |avail|) && Shape(need, |a|, |avail|) && Searching(avail, a, need, work, done, order)
    requires NonNegative(a) && |order| < |a|
    requires forall p {:trigger need[p]} :: 0 <= p < |a| && !done[p] ==> !Fits(need[p], work)
    ensures !Safe(avail, a, need)
  {
    LeftOverStuck(avail, a, need, Elements(order));
    OrderLength(avail, a, need, order);
    assert Everyone(|a|) - Elements(order) != {};
    StuckNotSafe(avail, a, need, Everyone(|a|) - Elements(order));
  }

  // ---------------------------------------------------------------- the tables of bankers.c

  /** The units of resource r in the whole system. */
  ghost function Total(avail: Vec, a: Mat, r: nat): int
    requires Shape(a, |a|, |avail|) && r < |avail|
  {
    avail[r] + HeldIn(a, Everyone(|a|), r, |a|)
  }

  /** Nobody holds more than declared, and nothing is negative. */
  ghost predicate Bounded(avail: Vec, a: Mat, maximum: Mat) {
    && Shape(a, |a|, |avail|) && Shape(maximum, |a|, |avail|)
    && (forall r {:trigger avail[r]} :: 0 <= r < |avail| ==> avail[r] >= 0)
    && (forall p, r {:trigger a[p][r]} :: 0 <= p < |a| && 0 <= r < |avail| ==> 0 <= a[p][r] <= maximum[p][r])
  }

  ghost predicate Shapes(avail: Vec, a: Mat, maximum: Mat) {
    Shape(a, |a|, |avail|) && Shape(maximum, |a|, |avail|)
  }

  ghost function SafeState(avail: Vec, a: Mat, maximum: Mat): bool
    requires Shapes(avail, a, maximum)
  {
    Safe(avail, a, Need(maximum, a, |a|, |avail|))
  }

  /** The state after granting a request. */
  ghost function GrantedAvail(avail: Vec, req: Vec): (v: Vec)
    requires |req| == |avail|
    ensures |v| == |avail|
  {
    seq(|avail|, r requires 0 <= r < |avail| => avail[r] - req[r])
  }

  ghost function GrantedAlloc(a: Mat, p: nat, req: Vec): (b: Mat)
    requires p < |a| && |a[p]| == |req|
    ensures |b| == |a| && (Shape(a, |a|, |req|) ==> Shape(b, |a|, |req|))
  {
    a[p := seq(|req|, r requires 0 <= r < |req| => a[p][r] + req[r])]
  }

  ghost predicate Admissible(avail: Vec, a: Mat, maximum: Mat, p: nat, req: Vec)
    requires Shapes(avail, a, maximum) && p < |a| && |req| == |avail|
  {
    Fits(req, Need(maximum, a, |a|, |avail|)[p]) && Fits(req, avail)
  }

  /** When a request deserves to be granted: it is within the declared need and what is available, and leaves the
      system safe. */
  ghost predicate Grantable(avail: Vec, a: Mat, maximum: Mat, p: nat, req: Vec)
    requires Shapes(avail, a, maximum) && p < |a| && |req| == |avail|
  {
    && Admissible(avail, a, maximum, p, req)
    && SafeState(GrantedAvail(avail, req), GrantedAlloc(a, p, req), maximum)
  }

  /** Negative entries give units back; the process has those units. */
  ghost predicate Returnable(a: Mat, p: nat, req: Vec)
    requires p < |a| && |a[p]| == |req|
  {
    forall r {:trigger req[r]} :: 0 <= r < |req| ==> a[p][r] + req[r] >= 0
  }

  /** How a request is decided: granting moves the units and only happens when it is deserved; a denial changes nothing
      and only happens to a request that is not, or that gives back more than the process holds. */
  ghost predicate Decided(avail: Vec, a: Mat, maximum: Mat, p: nat, req: Vec, granted: bool, avail': Vec, a': Mat) {
    && Shapes(avail, a, maximum) && p < |a| && |req| == |avail|
    && if granted
       then Grantable(avail, a, maximum, p, req) && avail' == GrantedAvail(avail, req) && a' == GrantedAlloc(a, p, req)
       else avail' == avail && a' == a && (Bounded(avail, a, maximum) && Returnable(a, p, req) ==>
              !Grantable(avail, a, maximum, p, req))
  }

  ghost predicate NonNegativeVec(v: Vec) {
    forall r {:trigger v[r]} :: 0 <= r < |v| ==> v[r] >= 0
  }

  /** The two checks do not look at the sign of a request: granting one that passes them keeps the tables within their
      bounds exactly when nobody gives back more than it holds. */
  lemma GrantBounded(avail: Vec, a: Mat, maximum: Mat, p: nat, req: Vec)
    requires Bounded(avail, a, maximum) && p < |a| && |req| == |avail| && Admissible(avail, a, maximum, p, req)
    ensures Bounded(GrantedAvail(avail, req), GrantedAlloc(a, p, req), maximum) <==> Returnable(a, p, req)
    ensures NonNegativeVec(req) ==> Returnable(a, p, req)
  {
    var b := GrantedAlloc(a, p, req);
    forall q, r | 0 <= q < |b| && 0 <= r < |avail|
      ensures b[q][r] <= maximum[q][r] && (q != p || req[r] >= 0 ==> b[q][r] >= 0)
    {
      assert 0 <= a[q][r] <= maximum[q][r];
      assert req[r] <= Need(maximum, a, |a|, |avail|)[p][r];
    }
    if Bounded(GrantedAvail(avail, req), b, maximum) {
      forall r | 0 <= r < |req| ensures a[p][r] + req[r] >= 0 {
        assert b[p][r] >= 0;
      }
    }
  }

  /** Such a request passes the checks and is safe to grant, but creates a unit out of nothing. */
  lemma NegativeRequest()
    ensures Bounded([0], [[0]], [[0]]) && Grantable([0], [[0]], [[0]], 0, [-1]) && !Returnable([[0]], 0, [-1])
    ensures !Bounded(GrantedAvail([0], [-1]), GrantedAlloc([[0]], 0, [-1]), [[0]])
  {
    var avail, a := GrantedAvail([0], [-1]), GrantedAlloc([[0]], 0, [-1]);
    assert avail == [1] && |a[0]| == 1 && a[0][0] == -1;
    var need := Need([[0]], a, 1, 1);
    assert need[0][0] == 1;
    PoolNothing(avail, a);
    assert Elements([0][..0]) == {} && Elements([0]) == {0} == Everyone(1) by {
      assert Everyone(1) == Everyone(0) + {0};
    }
    assert CompleteOrder(avail, a, need, [0]);
    assert [-1][0] == -1;
  }

  lemma {:induction false} HeldGrant(a: Mat, p: nat, req: Vec, d: set<nat>, r: nat, k: nat)
    requires Shape(a, |a|, |req|) && p < |a| && k <= |a| && r < |req|
    ensures HeldIn(GrantedAlloc(a, p, req), d, r, k) == HeldIn(a, d, r, k) + if p < k && p in d then req[r] else 0
  {
    if k > 0 {
      HeldGrant(a, p, req, d, r, k - 1);
    }
  }

  /** A request moves units between the pool and a process and creates none. */
  lemma GrantConserves(avail: Vec, a: Mat, p: nat, req: Vec, r: nat)
    requires Shape(a, |a|, |avail|) && p < |a| && |req| == |avail| && r < |avail|
    ensures Total(GrantedAvail(avail, req), GrantedAlloc(a, p, req), r) == Total(avail, a, r)
  {
    HeldGrant(a, p, req, Everyone(|a|), r, |a|);
  }

  /** Moves the requested units from the pool to process p. */
  method Grant(alloc: array2<int>, avail: array<int>, p: nat, req: array<int>)
    requires p < alloc.Length0 && req.Length == avail.Length == alloc.Length1 && req != avail
    modifies alloc, avail
    ensures avail[..] == GrantedAvail(old(avail[..]), req[..])
    ensures Rows(alloc) == GrantedAlloc(old(Rows(alloc)), p, req[..])
    ensures forall t :: 0 <= t < req.Length ==> avail[t] == old(avail[t]) - req[t]
    ensures forall q, t :: 0 <= q < alloc.Length0 && 0 <= t < alloc.Length1 ==>
              alloc[q, t] == old(alloc[q, t]) + if q == p then req[t] else 0
  {
    ghost var v, a := avail[..], Rows(alloc);
    for r := 0 to req.Length
      invariant forall t :: 0 <= t < req.Length ==> avail[t] == v[t] - if t < r then req[t] else 0
      invariant forall q, t :: 0 <= q < alloc.Length0 && 0 <= t < alloc.Length1 ==>
                  alloc[q, t] == a[q][t] + if q == p && t < r then req[t] else 0
    {
      avail[r] := avail[r] - req[r];
      alloc[p, r] := alloc[p, r] + req[r];
    }
    RowsEqual(Rows(alloc), GrantedAlloc(a, p, req[..]), |a|, req.Length);
  }

  /** The rollback: undoes a grant exactly. */
  method Revoke(ghost v: Vec, ghost a: Mat, alloc: array2<int>, avail: array<int>, p: nat, req: array<int>)
    requires p < alloc.Length0 && req.Length == avail.Length == alloc.Length1 && req != avail
    requires |v| == avail.Length && Shape(a, alloc.Length0, alloc.Length1)
    requires avail[..] == GrantedAvail(v, req[..]) && Rows(alloc) == GrantedAlloc(a, p, req[..])
    modifies alloc, avail
    ensures avail[..] == v && Rows(alloc) == a
  {
    ghost var b := Rows(alloc);
    for r := 0 to req.Length
      invariant forall t :: 0 <= t < req.Length ==> avail[t] == v[t] - if t >= r then req[t] else 0
      invariant forall q, t :: 0 <= q < alloc.Length0 && 0 <= t < alloc.Length1 ==>
                  alloc[q, t] == b[q][t] - if q == p && t < r then req[t] else 0
    {
      avail[r] := avail[r] + req[r];
      alloc[p, r] := alloc[p, r] - req[r];
    }
    RowsEqual(Rows(alloc), a, |a|, req.Length);
  }

  ghost predicate NoneNegative(requests: seq<(nat, seq<int>)>) {
    forall k {:trigger requests[k]} :: 0 <= k < |requests| ==> NonNegativeVec(requests[k].1)
  }

  class Tables {
    const allocTable: array2<int>
    const maxDemand: array2<int>
    const currentAvail: array<int>

    ghost predicate Shaped()
      reads this
    {
      && allocTable != maxDemand
      && allocTable.Length0 == maxDemand.Length0 && allocTable.Length1 == maxDemand.Length1 == currentAvail.Length
    }

    /** Nothing is negative, and nobody holds more than declared. */
    ghost predicate Valid()
      reads this, allocTable, maxDemand, currentAvail
    {
      Shaped() && Bounded(currentAvail[..], Rows(allocTable), Rows(maxDemand))
    }

    constructor (allocTable: array2<int>, maxDemand: array2<int>, currentAvail: array<int>)
      requires allocTable != maxDemand
      requires allocTable.Length0 == maxDemand.Length0 && allocTable.Length1 == maxDemand.Length1 == currentAvail.Length
      ensures Shaped() && (Valid() <==> Bounded(currentAvail[..], Rows(allocTable), Rows(maxDemand)))
      ensures this.allocTable == allocTable && this.maxDemand == maxDemand && this.currentAvail == currentAvail
    {
      this.allocTable, this.maxDemand, this.currentAvail := allocTable, maxDemand, currentAvail;
    }

    method CheckSafeState(order: array<nat>) returns (safe: bool)
      requires Shaped() && order.Length == allocTable.Length0
      modifies order
      ensures safe ==> SafeState(currentAvail[..], Rows(allocTable), Rows(maxDemand))
      ensures NonNegative(Rows(allocTable)) && SafeState(currentAvail[..], Rows(allocTable), Rows(maxDemand)) ==> safe
      ensures safe ==> CompleteOrder(currentAvail[..], Rows(allocTable),
                         Need(Rows(maxDemand), Rows(allocTable), allocTable.Length0, currentAvail.Length), order[..])
    {
      var need := NeedMatrix(maxDemand, allocTable);
      safe := FindOrder(allocTable, need, currentAvail, order);
    }

    /** The validation phase of process_request. */
    method Validate(p: nat, req: array<int>) returns (ok: bool)
      requires Shaped() && p < allocTable.Length0 && req.Length == currentAvail.Length
      ensures ok <==> Admissible(currentAvail[..], Rows(allocTable), Rows(maxDemand), p, req[..])
    {
      var need := NeedMatrix(maxDemand, allocTable);
      for r := 0 to req.Length
        invariant forall t :: 0 <= t < r ==> req[t] <= need[p, t] && req[t] <= currentAvail[t]
      {
        assert need[p, r] == Rows(need)[p][r];
        if req[r] > need[p, r] {
          assert req[..][r] > Rows(need)[p][r];
          return false;
        }
        if req[r] > currentAvail[r] {
          assert req[..][r] > currentAvail[..][r];
          return false;
        }
      }
      assert Fits(req[..], Rows(need)[p]);
      return true;
    }

    /** process_request: what it grants is within bounds and leaves the system safe, and it grants every such request
        unless the process would give back more than it holds; a denied request changes nothing. */
    method ProcessRequest(p: nat, req: array<int>) returns (granted: bool)
      requires Shaped() && p < allocTable.Length0 && req.Length == currentAvail.Length && req != currentAvail
      modifies allocTable, currentAvail
      ensures Rows(maxDemand) == old(Rows(maxDemand))
      ensures granted ==> old(Grantable(currentAvail[..], Rows(allocTable), Rows(maxDemand), p, req[..]))
      ensures old(Valid() && Returnable(Rows(allocTable), p, req[..])) ==>
                (granted <==> old(Grantable(currentAvail[..], Rows(allocTable), Rows(maxDemand), p, req[..])))
      ensures granted ==> currentAvail[..] == GrantedAvail(old(currentAvail[..]), req[..])
      ensures granted ==> Rows(allocTable) == GrantedAlloc(old(Rows(allocTable)), p, req[..])
      ensures granted ==> SafeState(currentAvail[..], Rows(allocTable), Rows(maxDemand))
      ensures !granted ==> currentAvail[..] == old(currentAvail[..]) && Rows(allocTable) == old(Rows(allocTable))
      ensures old(Valid()) ==> (Valid() <==> !granted || old(Returnable(Rows(allocTable), p, req[..])))
    {
      ghost var avail, a, maximum := currentAvail[..], Rows(allocTable), Rows(maxDemand);
      granted := Validate(p, req);
      if granted {
        if Bounded(avail, a, maximum) {
          GrantBounded(avail, a, maximum, p, req[..]);
        }
        granted := Try(p, req);
      }
    }

    /** The trial allocation, the safety check and the rollback. */
    method Try(p: nat, req: array<int>) returns (granted: bool)
      requires Shaped() && p < allocTable.Length0 && req.Length == currentAvail.Length && req != currentAvail
      modifies allocTable, currentAvail
      ensures Rows(maxDemand) == old(Rows(maxDemand))
      ensures granted ==> currentAvail[..] == GrantedAvail(old(currentAvail[..]), req[..])
      ensures granted ==> Rows(allocTable) == GrantedAlloc(old(Rows(allocTable)), p, req[..])
      ensures granted ==> SafeState(currentAvail[..], Rows(allocTable), Rows(maxDemand))
      ensures old(NonNegative(GrantedAlloc(Rows(allocTable), p, req[..]))) ==>
                (granted <==> old(SafeState(GrantedAvail(currentAvail[..], req[..]),
                                            GrantedAlloc(Rows(allocTable), p, req[..]), Rows(maxDemand))))
      ensures !granted ==> currentAvail[..] == old(currentAvail[..]) && Rows(allocTable) == old(Rows(allocTable))
    {
      ghost var avail, a, maximum := currentAvail[..], Rows(allocTable), Rows(maxDemand);
      Grant(allocTable, currentAvail, p, req);
      RowsEqual(Rows(maxDemand), maximum, |a|, |avail|);
      var order := new nat[allocTable.Length0];
      granted := CheckSafeState(order);
      if !granted {
        Revoke(avail, a, allocTable, currentAvail, p, req);
        RowsEqual(Rows(maxDemand), maximum, |a|, |avail|);
      }
    }

    /** Any sequence of requests, of any sign, is decided one by one on the tables that the ones before left: from a
        safe state the system stays safe, and the units of every resource that are available or held add up to the
        same.  If no request is negative, the tables stay within their bounds. */
    method ProcessAll(requests: seq<(nat, seq<int>)>) returns (granted: seq<bool>, ghost tables: seq<(Vec, Mat)>)
      requires Shaped() && SafeState(currentAvail[..], Rows(allocTable), Rows(maxDemand))
      requires forall k {:trigger requests[k]} :: 0 <= k < |requests| ==>
                 requests[k].0 < allocTable.Length0 && |requests[k].1| == currentAvail.Length
      modifies allocTable, currentAvail
      ensures |granted| == |requests| && |tables| == |requests| + 1 && Rows(maxDemand) == old(Rows(maxDemand))
      ensures tables[0] == old((currentAvail[..], Rows(allocTable)))
      ensures tables[|requests|] == (currentAvail[..], Rows(allocTable))
      ensures forall k {:trigger granted[k]} :: 0 <= k < |requests| ==>
                Decided(tables[k].0, tables[k].1, Rows(maxDemand), requests[k].0, requests[k].1, granted[k],
                        tables[k + 1].0, tables[k + 1].1)
      ensures SafeState(currentAvail[..], Rows(allocTable), Rows(maxDemand))
      ensures forall r: nat {:trigger Total(currentAvail[..], Rows(allocTable), r)} :: r < currentAvail.Length ==>
                Total(currentAvail[..], Rows(allocTable), r) == old(Total(currentAvail[..], Rows(allocTable), r))
      ensures old(Valid()) && NoneNegative(requests) ==> Valid()
    {
      granted, tables := [], [(currentAvail[..], Rows(allocTable))];
      for k := 0 to |requests|
        invariant |granted| == k && |tables| == k + 1 && Rows(maxDemand) == old(Rows(maxDemand))
        invariant tables[0] == old((currentAvail[..], Rows(allocTable)))
        invariant tables[k] == (currentAvail[..], Rows(allocTable))
        invariant forall j {:trigger granted[j]} :: 0 <= j < k ==>
                    Decided(tables[j].0, tables[j].1, Rows(maxDemand), requests[j].0, requests[j].1, granted[j],
                            tables[j + 1].0, tables[j + 1].1)
        invariant SafeState(currentAvail[..], Rows(allocTable), Rows(maxDemand))
        invariant forall r: nat {:trigger Total(currentAvail[..], Rows(allocTable), r)} :: r < currentAvail.Length ==>
                    Total(currentAvail[..], Rows(allocTable), r) == old(Total(currentAvail[..], Rows(allocTable), r))
        invariant old(Valid()) && NoneNegative(requests) ==> Valid()
      {
        var g := ProcessNext(requests[k].0, requests[k].1);
        granted, tables := granted + [g], tables + [(currentAvail[..], Rows(allocTable))];
      }
    }

    /** One request of a sequence. */
    method ProcessNext(p: nat, vec: seq<int>) returns (granted: bool)
      requires Shaped() && SafeState(currentAvail[..], Rows(allocTable), Rows(maxDemand))
      requires p < allocTable.Length0 && |vec| == currentAvail.Length
      modifies allocTable, currentAvail
      ensures Rows(maxDemand) == old(Rows(maxDemand))
      ensures Decided(old(currentAvail[..]), old(Rows(allocTable)), Rows(maxDemand), p, vec, granted,
                      currentAvail[..], Rows(allocTable))
      ensures SafeState(currentAvail[..], Rows(allocTable), Rows(maxDemand))
      ensures forall r: nat {:trigger Total(currentAvail[..], Rows(allocTable), r)} :: r < currentAvail.Length ==>
                Total(currentAvail[..], Rows(allocTable), r) == old(Total(currentAvail[..], Rows(allocTable), r))
      ensures old(Valid()) && NonNegativeVec(vec) ==> Valid()
    {
      var req := new int[|vec|](r requires 0 <= r < |vec| => vec[r]);
      assert req[..] == vec;
      ghost var avail, a := currentAvail[..], Rows(allocTable);
      assert Valid() && NonNegativeVec(vec) ==> Returnable(a, p, vec) by {
        assert forall r :: 0 <= r < |vec| && Valid() ==> a[p][r] >= 0;
      }
      granted := ProcessRequest(p, req);
      if granted {
        forall r: nat | r < currentAvail.Length
          ensures Total(currentAvail[..], Rows(allocTable), r) == Total(avail, a, r)
        {
          GrantConserves(avail, a, p, req[..], r);
        }
      }
    }
  }

  // ---------------------------------------------------------------- the decision of user/deadlock.c

  method CopyMatrix(a: array2<int>) returns (b: array2<int>)
    ensures fresh(b) && b.Length0 == a.Length0 && b.Length1 == a.Length1 && Rows(b) == Rows(a)
  {
    b := new int[a.Length0, a.Length1]((p, r) requires 0 <= p < a.Length0 && 0 <= r < a.Length1 reads a => a[p, r]);
    RowsEqual(Rows(b), Rows(a), a.Length0, a.Length1);
  }

  /** is_safe_state. */
  method IsSafeState(allocation: array2<int>, maximum: array2<int>, available: array<int>) returns (safe: bool)
    requires allocation.Length0 == maximum.Length0 && allocation.Length1 == maximum.Length1 == available.Length
    ensures safe ==> SafeState(available[..], Rows(allocation), Rows(maximum))
    ensures NonNegative(Rows(allocation)) && SafeState(available[..], Rows(allocation), Rows(maximum)) ==> safe
  {
    var sequence := new nat[allocation.Length0];
    var need := NeedMatrix(maximum, allocation);
    safe := FindOrder(allocation, need, available, sequence);
  }

  /** The checks of banker_request against the declared need and what is available, copying `available` on the
      way. */
  method CheckRequest(pid: nat, request: array<int>, allocation: array2<int>, maximum: array2<int>,
      available: array<int>,
                      nextAvailable: array<int>) returns (ok: bool)
    requires allocation.Length0 == maximum.Length0 && allocation.Length1 == maximum.Length1 == available.Length
    requires pid < allocation.Length0 && request.Length == nextAvailable.Length == available.Length
    requires nextAvailable != available && nextAvailable != request
    modifies nextAvailable
    ensures ok <==> Admissible(available[..], Rows(allocation), Rows(maximum), pid, request[..])
    ensures ok ==> nextAvailable[..] == available[..]
  {
    ghost var needs := Need(Rows(maximum), Rows(allocation), allocation.Length0, available.Length);
    for r := 0 to available.Length
      invariant forall t :: 0 <= t < r ==> nextAvailable[t] == available[t]
      invariant forall t :: 0 <= t < r ==>
          request[t] <= maximum[pid, t] - allocation[pid, t] && request[t] <= available[t]
    {
      nextAvailable[r] := available[r];
      var need := maximum[pid, r] - allocation[pid, r];
      assert need == needs[pid][r];
      if request[r] > need || request[r] > available[r] {
        assert request[..][r] > needs[pid][r] || request[..][r] > available[..][r];
        return false;
      }
    }
    return true;
  }

  /** banker_request decides on copies, exactly as process_request does. */
  method BankerRequest(pid: nat, request: array<int>, allocation: array2<int>, maximum: array2<int>,
      available: array<int>)
    returns (granted: bool)
    requires allocation.Length0 == maximum.Length0 && allocation.Length1 == maximum.Length1 == available.Length
    requires pid < allocation.Length0 && request.Length == available.Length
    ensures granted ==> Grantable(available[..], Rows(allocation), Rows(maximum), pid, request[..])
    ensures Bounded(available[..], Rows(allocation), Rows(maximum)) ==>
              Returnable(Rows(allocation), pid, request[..]) ==>
                (granted <==> Grantable(available[..], Rows(allocation), Rows(maximum), pid, request[..]))
  {
    ghost var avail, a, maxima := available[..], Rows(allocation), Rows(maximum);
    var nextAllocation := CopyMatrix(allocation);
    var nextMaximum := CopyMatrix(maximum);
    var nextAvailable := new int[available.Length];
    granted := CheckRequest(pid, request, allocation, maximum, available, nextAvailable);
    if granted {
      if Bounded(avail, a, maxima) {
        GrantBounded(avail, a, maxima, pid, request[..]);
      }
      Grant(nextAllocation, nextAvailable, pid, request);
      RowsEqual(Rows(nextMaximum), maxima, |a|, |avail|);
      granted := IsSafeState(nextAllocation, nextMaximum, nextAvailable);
    }
  }
}
