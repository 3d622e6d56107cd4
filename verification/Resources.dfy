/** Resource vectors and matrices, stuck sets of processes and safe states. */
module Resources {
  // The specifications that the banker and the deadlock detectors are proved against.

  type Vec = seq<int>
  type Mat = seq<seq<int>>

  /** n processes by m resources. */
  ghost predicate Shape(a: Mat, n: nat, m: nat) {
    |a| == n && forall p {:trigger a[p]} :: 0 <= p < n ==> |a[p]| == m
  }

  /** The contents of a two-dimensional array. */
  ghost function Rows(a: array2<int>): (m: Mat)
    reads a
    ensures Shape(m, a.Length0, a.Length1)
    ensures forall p, r {:trigger m[p][r]} :: 0 <= p < a.Length0 && 0 <= r < a.Length1 ==> m[p][r] == a[p, r]
  {
    seq(a.Length0, p requires 0 <= p < a.Length0 reads a =>
      seq(a.Length1, r requires 0 <= r < a.Length1 reads a => a[p, r]))
  }

  lemma RowsEqual(a: Mat, b: Mat, n: nat, m: nat)
    requires Shape(a, n, m) && Shape(b, n, m)
    requires forall p, r {:trigger a[p][r]} {:trigger b[p][r]} :: 0 <= p < n && 0 <= r < m ==> a[p][r] == b[p][r]
    ensures a == b
  {
    forall p | 0 <= p < n ensures a[p] == b[p] {
    }
  }

  ghost predicate NonNegative(a: Mat) {
    forall p, r {:trigger a[p][r]} :: 0 <= p < |a| && 0 <= r < |a[p]| ==> a[p][r] >= 0
  }

  /** need <= work in every resource. */
  ghost predicate Fits(need: Vec, work: Vec)
    requires |need| == |work|
  {
    forall r {:trigger need[r]} {:trigger work[r]} :: 0 <= r < |need| ==> need[r] <= work[r]
  }

  /** What the first k processes hold of resource r, counting only those in d. */
  ghost function HeldIn(a: Mat, d: set<nat>, r: nat, k: nat): int
    requires k <= |a| && forall p {:trigger a[p]} :: 0 <= p < |a| ==> r < |a[p]|
  {
    if k == 0 then 0 else HeldIn(a, d, r, k - 1) + if k - 1 in d then a[k - 1][r] else 0
  }

  /** The available resources together with everything the processes in d hold. */
  ghost function Pool(avail: Vec, a: Mat, d: set<nat>): (w: Vec)
    requires Shape(a, |a|, |avail|)
    ensures |w| == |avail|
    ensures forall r {:trigger w[r]} :: 0 <= r < |w| ==> w[r] == avail[r] + HeldIn(a, d, r, |a|)
  {
    seq(|avail|, r requires 0 <= r < |avail| => avail[r] + HeldIn(a, d, r, |a|))
  }

  ghost function Everyone(n: nat): (e: set<nat>)
    ensures forall p: nat {:trigger p in e} :: p in e <==> p < n
  {
    if n == 0 then {} else Everyone(n - 1) + {n - 1}
  }

  lemma {:induction false} HeldMonotone(a: Mat, d: set<nat>, e: set<nat>, r: nat, k: nat)
    requires k <= |a| && forall p {:trigger a[p]} :: 0 <= p < |a| ==> r < |a[p]|
    requires NonNegative(a) && forall p: nat {:trigger p in d} :: p in d && p < k ==> p in e
    ensures HeldIn(a, d, r, k) <= HeldIn(a, e, r, k)
  {
    if k > 0 {
      HeldMonotone(a, d, e, r, k - 1);
      assert a[k - 1][r] >= 0;
    }
  }

  lemma PoolMonotone(avail: Vec, a: Mat, d: set<nat>, e: set<nat>, need: Vec)
    requires Shape(a, |a|, |avail|) && NonNegative(a) && |need| == |avail|
    requires forall p: nat {:trigger p in d} :: p in d && p < |a| ==> p in e
    ensures Fits(need, Pool(avail, a, d)) ==> Fits(need, Pool(avail, a, e))
  {
    forall r | 0 <= r < |avail| ensures Pool(avail, a, d)[r] <= Pool(avail, a, e)[r] {
      HeldMonotone(a, d, e, r, |a|);
    }
    if Fits(need, Pool(avail, a, d)) {
      forall r | 0 <= r < |need| ensures need[r] <= Pool(avail, a, e)[r] {
        assert need[r] <= Pool(avail, a, d)[r];
      }
    }
  }

  lemma {:induction false} HeldAdd(a: Mat, d: set<nat>, p: nat, r: nat, k: nat)
    requires k <= |a| && p < |a| && p !in d && forall q {:trigger a[q]} :: 0 <= q < |a| ==> r < |a[q]|
    ensures HeldIn(a, d + {p}, r, k) == HeldIn(a, d, r, k) + if p < k then a[p][r] else 0
  {
    if k > 0 {
      HeldAdd(a, d, p, r, k - 1);
    }
  }

  /** Letting one more process finish adds exactly what it holds. */
  lemma PoolAdd(avail: Vec, a: Mat, d: set<nat>, p: nat, work: Vec)
    requires Shape(a, |a|, |avail|) && p < |a| && p !in d && |work| == |avail|
    requires forall r {:trigger work[r]} :: 0 <= r < |work| ==> work[r] == Pool(avail, a, d)[r] + a[p][r]
    ensures work == Pool(avail, a, d + {p})
  {
    forall r | 0 <= r < |work| ensures work[r] == Pool(avail, a, d + {p})[r] {
      HeldAdd(a, d, p, r, |a|);
    }
  }

  lemma {:induction false} HeldNothing(a: Mat, r: nat, k: nat)
    requires k <= |a| && forall q {:trigger a[q]} :: 0 <= q < |a| ==> r < |a[q]|
    ensures HeldIn(a, {}, r, k) == 0
  {
    if k > 0 {
      HeldNothing(a, r, k - 1);
    }
  }

  lemma PoolNothing(avail: Vec, a: Mat)
    requires Shape(a, |a|, |avail|)
    ensures Pool(avail, a, {}) == avail
  {
    forall r | 0 <= r < |avail| ensures Pool(avail, a, {})[r] == avail[r] {
      HeldNothing(a, r, |a|);
    }
  }

  // ---------------------------------------------------------------- stuck sets

  /** None of the processes in s could go on even if all the others finished and returned what they hold. */
  ghost predicate Stuck(avail: Vec, a: Mat, need: Mat, s: set<nat>)
    requires Shape(a, |a|, |avail|) && Shape(need, |a|, |avail|)
  {
    && s <= Everyone(|a|)
    && forall p {:trigger need[p]} :: p in s ==> !Fits(need[p], Pool(avail, a, Everyone(|a|) - s))
  }

  /** A process that can go on after processes outside s have finished is itself outside s. */
  lemma OutsideStuck(avail: Vec, a: Mat, need: Mat, s: set<nat>, d: set<nat>, p: nat)
    requires Shape(a, |a|, |avail|) && Shape(need, |a|, |avail|) && NonNegative(a) && Stuck(avail, a, need, s)
    requires d !! s && p < |a| && Fits(need[p], Pool(avail, a, d))
    ensures p !in s
  {
    PoolMonotone(avail, a, d, Everyone(|a|) - s, need[p]);
  }

  // ---------------------------------------------------------------- safe orders

  ghost function Elements(s: seq<nat>): set<nat> {
    set p | p in s
  }

  /** Each process in turn can finish with what is available and what its predecessors have returned. */
  ghost predicate SafeOrder(avail: Vec, a: Mat, need: Mat, order: seq<nat>)
    requires Shape(a, |a|, |avail|) && Shape(need, |a|, |avail|)
  {
    && (forall i {:trigger order[i]} :: 0 <= i < |order| ==>
         order[i] < |a| && order[i] !in order[..i] && Fits(need[order[i]], Pool(avail, a, Elements(order[..i]))))
  }

  /** A safe order of all processes: the definition of a safe state. */
  ghost predicate CompleteOrder(avail: Vec, a: Mat, need: Mat, order: seq<nat>)
    requires Shape(a, |a|, |avail|) && Shape(need, |a|, |avail|)
  {
    SafeOrder(avail, a, need, order) && Elements(order) == Everyone(|a|)
  }

  ghost predicate Safe(avail: Vec, a: Mat, need: Mat)
    requires Shape(a, |a|, |avail|) && Shape(need, |a|, |avail|)
  {
    exists order :: CompleteOrder(avail, a, need, order)
  }

  /** A safe order never reaches a stuck set. */
  lemma {:induction false} OrderAvoidsStuck(avail: Vec, a: Mat, need: Mat, order: seq<nat>, s: set<nat>, i: nat)
    requires Shape(a, |a|, |avail|) && Shape(need, |a|, |avail|) && NonNegative(a)
    requires SafeOrder(avail, a, need, order) && Stuck(avail, a, need, s) && i <= |order|
    ensures Elements(order[..i]) !! s
  {
    if i > 0 {
      OrderAvoidsStuck(avail, a, need, order, s, i - 1);
      OutsideStuck(avail, a, need, s, Elements(order[..i - 1]), order[i - 1]);
      assert order[..i] == order[..i - 1] + [order[i - 1]];
    }
  }

  /** A state with a non-empty stuck set is not safe. */
  lemma StuckNotSafe(avail: Vec, a: Mat, need: Mat, s: set<nat>)
    requires Shape(a, |a|, |avail|) && Shape(need, |a|, |avail|) && NonNegative(a)
    requires Stuck(avail, a, need, s) && s != {}
    ensures !Safe(avail, a, need)
  {
    forall order ensures !CompleteOrder(avail, a, need, order) {
      if SafeOrder(avail, a, need, order) {
        OrderAvoidsStuck(avail, a, need, order, s, |order|);
        assert order[..|order|] == order;
        var p :| p in s;
        assert p in Everyone(|a|);
      }
    }
  }

  /** The processes that a greedy search leaves over when nobody fits any more are stuck. */
  lemma LeftOverStuck(avail: Vec, a: Mat, need: Mat, d: set<nat>)
    requires Shape(a, |a|, |avail|) && Shape(need, |a|, |avail|) && d <= Everyone(|a|)
    requires forall p {:trigger need[p]} :: 0 <= p < |a| && p !in d ==> !Fits(need[p], Pool(avail, a, d))
    ensures Stuck(avail, a, need, Everyone(|a|) - d)
  {
    assert Everyone(|a|) - (Everyone(|a|) - d) == d;
  }

  /** Appending a process that fits keeps an order safe. */
  lemma SafeOrderAppend(avail: Vec, a: Mat, need: Mat, order: seq<nat>, p: nat)
    requires Shape(a, |a|, |avail|) && Shape(need, |a|, |avail|) && SafeOrder(avail, a, need, order)
    requires p < |a| && p !in order && Fits(need[p], Pool(avail, a, Elements(order)))
    ensures SafeOrder(avail, a, need, order + [p])
    ensures Elements(order + [p]) == Elements(order) + {p}
  {
    var order' := order + [p];
    forall i | 0 <= i < |order'|
      ensures order'[i] < |a| && order'[i] !in order'[..i]
      ensures Fits(need[order'[i]], Pool(avail, a, Elements(order'[..i])))
    {
      if i < |order| {
        assert order'[..i] == order[..i] && order'[i] == order[i];
      } else {
        assert order'[..i] == order;
      }
    }
  }

  lemma {:induction false} EveryoneCount(n: nat)
    ensures |Everyone(n)| == n
  {
    if n > 0 {
      EveryoneCount(n - 1);
      assert n - 1 !in Everyone(n - 1) && Everyone(n) == Everyone(n - 1) + {n - 1};
    }
  }

  lemma {:induction false} ElementsCount(s: seq<nat>)
    requires forall i {:trigger s[i]} :: 0 <= i < |s| ==> s[i] !in s[..i]
    ensures |Elements(s)| == |s|
  {
    if s != [] {
      var t := s[..|s| - 1];
      forall i | 0 <= i < |t| ensures t[i] !in t[..i] {
        assert t[..i] == s[..i] && t[i] == s[i];
      }
      ElementsCount(t);
      assert s == t + [s[|s| - 1]];
      assert Elements(s) == Elements(t) + {s[|s| - 1]};
    }
  }

  lemma SubsetCount(x: set<nat>, y: set<nat>)
    requires x <= y
    ensures |x| <= |y| && (|x| == |y| ==> x == y)
  {
    assert y == x + (y - x);
    assert |y| == |x| + |y - x|;
  }

  /** A safe order is complete exactly when it is as long as there are processes. */
  lemma OrderLength(avail: Vec, a: Mat, need: Mat, order: seq<nat>)
    requires Shape(a, |a|, |avail|) && Shape(need, |a|, |avail|) && SafeOrder(avail, a, need, order)
    ensures |order| <= |a| && (|order| == |a| <==> CompleteOrder(avail, a, need, order))
  {
    ElementsCount(order);
    EveryoneCount(|a|);
    SubsetCount(Elements(order), Everyone(|a|));
  }

  /** Extending a safe order as long as somebody fits ends with a stuck rest. */
  lemma {:induction false} Greedy(avail: Vec, a: Mat, need: Mat, order: seq<nat>) returns (full: seq<nat>)
    requires Shape(a, |a|, |avail|) && Shape(need, |a|, |avail|) && SafeOrder(avail, a, need, order)
    ensures SafeOrder(avail, a, need, full) && Stuck(avail, a, need, Everyone(|a|) - Elements(full))
    decreases Everyone(|a|) - Elements(order)
  {
    if p: nat :| p < |a| && p !in order && Fits(need[p], Pool(avail, a, Elements(order))) {
      SafeOrderAppend(avail, a, need, order, p);
      assert p in Everyone(|a|) - Elements(order);
      full := Greedy(avail, a, need, order + [p]);
    } else {
      full := order;
      LeftOverStuck(avail, a, need, Elements(order));
    }
  }

  /** A state is safe exactly when no non-empty set of processes is stuck. */
  lemma SafeIffNothingStuck(avail: Vec, a: Mat, need: Mat)
    requires Shape(a, |a|, |avail|) && Shape(need, |a|, |avail|) && NonNegative(a)
    ensures Safe(avail, a, need) <==> forall s {:trigger Stuck(avail, a, need, s)} :: Stuck(avail, a, need, s) ==>
        s == {}
  {
    if s :| Stuck(avail, a, need, s) && s != {} {
      StuckNotSafe(avail, a, need, s);
    } else {
      var full := Greedy(avail, a, need, []);
      assert Elements(full) == Everyone(|a|);
      assert CompleteOrder(avail, a, need, full);
    }
  }
}
