/** With single-unit resources the wait-for graph of deadlockdetect.c and the reduction of user/deadlock.c find
    the same deadlocks. */
module DetectorsAgree {
  import opened Resources
  import opened Banker
  import opened DeadlockDetection
  import opened WaitGraph

  /** One unit of each resource, held by somebody or available, and requests for at most one unit. */
  ghost predicate SingleUnit(avail: Vec, a: Mat, request: Mat) {
    && Shape(a, |a|, |avail|) && Shape(request, |a|, |avail|) && NonNegative(a) && NonNegative(request)
    && (forall r: nat {:trigger Total(avail, a, r)} :: r < |avail| ==> avail[r] >= 0 && Total(avail, a, r) == 1)
    && (forall p, r {:trigger request[p][r]} :: 0 <= p < |a| && 0 <= r < |avail| ==> request[p][r] <= 1)
  }

  /** What everybody holds is what the members of a set hold and what the others hold. */
  lemma {:induction false} HeldSplit(a: Mat, s: set<nat>, n: nat, r: nat, k: nat)
    requires k <= n == |a| && forall p {:trigger a[p]} :: 0 <= p < |a| ==> r < |a[p]|
    ensures HeldIn(a, Everyone(n), r, k) == HeldIn(a, s, r, k) + HeldIn(a, Everyone(n) - s, r, k)
  {
    if k > 0 {
      HeldSplit(a, s, n, r, k - 1);
    }
  }

  lemma {:induction false} HeldAtLeast(a: Mat, s: set<nat>, q: nat, r: nat, k: nat)
    requires k <= |a| && NonNegative(a) && forall p {:trigger a[p]} :: 0 <= p < |a| ==> r < |a[p]|
    ensures HeldIn(a, s, r, k) >= if q < k && q in s then a[q][r] else 0
    decreases k
  {
    if k > 0 {
      HeldAtLeast(a, s, q, r, k - 1);
      HeldAtLeast(a, s, k, r, k - 1);
      assert a[k - 1][r] >= 0;
    }
  }

  lemma {:induction false} SomebodyHolds(a: Mat, s: set<nat>, r: nat, k: nat) returns (q: nat)
    requires k <= |a| && forall p {:trigger a[p]} :: 0 <= p < |a| ==> r < |a[p]|
    requires HeldIn(a, s, r, k) > 0
    ensures q < k && q in s && a[q][r] > 0
  {
    if k - 1 in s && a[k - 1][r] > 0 {
      q := k - 1;
    } else {
      q := SomebodyHolds(a, s, r, k - 1);
    }
  }

  /** A resource held inside s is not in the pool of the others. */
  lemma NotInPool(avail: Vec, a: Mat, request: Mat, s: set<nat>, q: nat, r: nat)
    requires SingleUnit(avail, a, request) && q < |a| && q in s && r < |avail| && a[q][r] != 0
    ensures Pool(avail, a, Everyone(|a|) - s)[r] <= 0
  {
    assert Total(avail, a, r) == 1 && a[q][r] >= 0;
    HeldSplit(a, s, |a|, r, |a|);
    HeldAtLeast(a, s, q, r, |a|);
  }

  /** Processes that wait for each other in a circle are deadlocked. */
  lemma CircleDeadlocked(avail: Vec, a: Mat, request: Mat, w: seq<nat>)
    requires SingleUnit(avail, a, request) && CircularWait(a, request, w)
    ensures Deadlocked(avail, a, request, Elements(w))
  {
    var s := Elements(w);
    forall p | p in s ensures !Fits(request[p], Pool(avail, a, Everyone(|a|) - s)) && Holding(a, p) {
      var i := IndexWithNext(w, p);
      assert Waits(a, request, w, i);
      var r :| 0 <= r < |request[p]| && request[p][r] != 0 && a[w[i + 1]][r] != 0;
      assert request[p][r] >= 0;
      NotInPool(avail, a, request, s, w[i + 1], r);
      var j := IndexWithPrevious(w, p);
      assert Waits(a, request, w, j);
      var t :| 0 <= t < |request[w[j]]| && request[w[j]][t] != 0 && a[p][t] != 0;
    }
  }

  lemma IndexWithNext(w: seq<nat>, p: nat) returns (i: nat)
    requires |w| >= 2 && w[0] == w[|w| - 1] && p in w
    ensures i + 1 < |w| && w[i] == p
  {
    i :| 0 <= i < |w| && w[i] == p;
    if i + 1 == |w| {
      i := 0;
    }
  }

  lemma IndexWithPrevious(w: seq<nat>, p: nat) returns (i: nat)
    requires |w| >= 2 && w[0] == w[|w| - 1] && p in w
    ensures i + 1 < |w| && w[i + 1] == p
  {
    var j :| 0 <= j < |w| && w[j] == p;
    i := if j == 0 then |w| - 2 else j - 1;
  }

  /** Inside a stuck set everybody waits for somebody. */
  lemma WaitsInside(avail: Vec, a: Mat, request: Mat, s: set<nat>, p: nat) returns (q: nat)
    requires SingleUnit(avail, a, request) && Stuck(avail, a, request, s) && p in s
    ensures p < |a| && q < |a| && q in s && WaitsFor(a, request, p, q)
  {
    assert p in Everyone(|a|);
    var pool := Pool(avail, a, Everyone(|a|) - s);
    assert !Fits(request[p], pool);
    var r :| 0 <= r < |avail| && request[p][r] > pool[r];
    assert Total(avail, a, r) == 1;
    HeldSplit(a, s, |a|, r, |a|);
    HeldAtLeast(a, Everyone(|a|) - s, |a|, r, |a|);
    q := SomebodyHolds(a, s, r, |a|);
  }

  /** So one can follow the waiting for as long as one likes. */
  lemma {:induction false} Follow(avail: Vec, a: Mat, request: Mat, s: set<nat>, p: nat, k: nat) returns (w: seq<nat>)
    requires SingleUnit(avail, a, request) && Stuck(avail, a, request, s) && p in s
    ensures |w| == k + 1
    ensures forall i {:trigger w[i]} :: 0 <= i < |w| ==> w[i] in s && w[i] < |a|
    ensures forall i {:trigger Waits(a, request, w, i)} :: 0 <= i < |w| - 1 ==> Waits(a, request, w, i)
  {
    assert p in Everyone(|a|);
    if k == 0 {
      w := [p];
    } else {
      var v := Follow(avail, a, request, s, p, k - 1);
      var q := WaitsInside(avail, a, request, s, v[|v| - 1]);
      w := v + [q];
      forall i | 0 <= i < |w| - 1 ensures Waits(a, request, w, i) {
        assert i < |v| - 1 ==> Waits(a, request, v, i);
      }
    }
  }

  /** A walk with more steps than there are nodes comes back to one of them. */
  lemma Repeats(w: seq<nat>, n: nat) returns (i: nat, j: nat)
    requires |w| > n && forall k {:trigger w[k]} :: 0 <= k < |w| ==> w[k] < n
    ensures i < j < |w| && w[i] == w[j]
  {
    if forall k {:trigger w[k]} :: 0 <= k < |w| ==> w[k] !in w[..k] {
      ElementsCount(w);
      EveryoneCount(n);
      SubsetCount(Elements(w), Everyone(n));
      assert false;
    } else {
      j :| 0 <= j < |w| && w[j] in w[..j];
      i :| 0 <= i < j && w[..j][i] == w[j];
    }
  }

  /** A non-empty stuck set contains a circle. */
  lemma StuckHasCircle(avail: Vec, a: Mat, request: Mat, s: set<nat>) returns (w: seq<nat>)
    requires SingleUnit(avail, a, request) && Stuck(avail, a, request, s) && s != {}
    ensures CircularWait(a, request, w)
  {
    var p :| p in s;
    var v := Follow(avail, a, request, s, p, |a|);
    var i, j := Repeats(v, |a|);
    w := v[i..j + 1];
    forall k | 0 <= k < |w| - 1 ensures Waits(a, request, w, k) {
      assert Waits(a, request, v, i + k);
    }
  }

  /** The two detectors agree: detect_deadlock returns a non-empty set exactly when the wait-for graph has a
      cycle, and every process on a cycle is in that set. */
  lemma Agreement(avail: Vec, a: Mat, request: Mat, s: set<nat>)
    requires SingleUnit(avail, a, request) && Greatest(avail, a, request, s)
    ensures s != {} <==> exists w :: CircularWait(a, request, w)
    ensures forall w {:trigger CircularWait(a, request, w)} :: CircularWait(a, request, w) ==> Elements(w) <= s
  {
    forall w | CircularWait(a, request, w) ensures Elements(w) <= s {
      CircleDeadlocked(avail, a, request, w);
    }
    if s != {} {
      var w := StuckHasCircle(avail, a, request, s);
    }
    if w :| CircularWait(a, request, w) {
      assert w[0] in Elements(w);
    }
  }
}
