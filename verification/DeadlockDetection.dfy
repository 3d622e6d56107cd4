/** detect_deadlock of user/deadlock.c: the processes that hold something and can never finish. */
module DeadlockDetection {
  import opened Resources
  import opened Banker

  ghost predicate Holding(a: Mat, p: nat)
    requires p < |a|
  {
    exists r {:trigger a[p][r]} :: 0 <= r < |a[p]| && a[p][r] != 0
  }

  /** A stuck set of processes that all hold something. */
  ghost predicate Deadlocked(avail: Vec, a: Mat, request: Mat, s: set<nat>)
    requires Shape(a, |a|, |avail|) && Shape(request, |a|, |avail|)
  {
    Stuck(avail, a, request, s) && forall p {:trigger Holding(a, p)} :: p in s ==> Holding(a, p)
  }

  ghost predicate Greatest(avail: Vec, a: Mat, request: Mat, s: set<nat>)
    requires Shape(a, |a|, |avail|) && Shape(request, |a|, |avail|)
  {
    && Deadlocked(avail, a, request, s)
    && forall t {:trigger Deadlocked(avail, a, request, t)} :: Deadlocked(avail, a, request, t) ==> t <= s
  }

  ghost function Finished(done: seq<bool>): (d: set<nat>)
    ensures forall p: nat {:trigger p in d} :: p in d <==> p < |done| && done[p]
  {
    set p: nat {:trigger done[p]} | p < |done| && done[p]
  }

  /** The state of the search: everybody who holds nothing has finished, and no deadlocked set contains a finished
      process, provided that allocations are not negative. */
  ghost predicate Detecting(avail: Vec, a: Mat, request: Mat, work: Vec, done: seq<bool>)
    requires Shape(a, |a|, |avail|) && Shape(request, |a|, |avail|)
  {
    && |done| == |a| && |work| == |avail| && work == Pool(avail, a, Finished(done))
    && (forall p {:trigger Holding(a, p)} :: 0 <= p < |a| && !done[p] ==> Holding(a, p))
    && (NonNegative(a) ==> forall t {:trigger Deadlocked(avail, a, request, t)} ::
         Deadlocked(avail, a, request, t) ==> t !! Finished(done))
  }

  lemma {:induction false} HeldByHolders(a: Mat, d: set<nat>, r: nat, k: nat)
    requires k <= |a| && forall q {:trigger a[q]} :: 0 <= q < |a| ==> r < |a[q]|
    requires forall p: nat {:trigger Holding(a, p)} :: p < |a| && p in d ==> !Holding(a, p)
    ensures HeldIn(a, d, r, k) == 0
  {
    if k > 0 {
      HeldByHolders(a, d, r, k - 1);
      assert k - 1 in d ==> !Holding(a, k - 1);
    }
  }

  lemma DetectStart(avail: Vec, a: Mat, request: Mat, done: seq<bool>)
    requires Shape(a, |a|, |avail|) && Shape(request, |a|, |avail|) && |done| == |a|
    requires forall p {:trigger done[p]} :: 0 <= p < |a| ==> (done[p] <==> !Holding(a, p))
    ensures Detecting(avail, a, request, avail, done)
  {
    forall r | 0 <= r < |avail| ensures avail[r] == Pool(avail, a, Finished(done))[r] {
      HeldByHolders(a, Finished(done), r, |a|);
    }
    forall t | Deadlocked(avail, a, request, t) ensures t !! Finished(done) {
      forall p | p in t ensures p !in Finished(done) {
        assert Holding(a, p);
      }
    }
  }

  lemma DetectNext(avail: Vec, a: Mat, request: Mat, work: Vec, done: seq<bool>, p: nat, work': Vec)
    requires Shape(a, |a|, |avail|) && Shape(request, |a|, |avail|)
    requires Detecting(avail, a, request, work, done) && p < |a| && !done[p] && Fits(request[p], work)
    requires work' == Pool(avail, a, Finished(done) + {p})
    ensures Detecting(avail, a, request, work', done[p := true])
  {
    assert Finished(done[p := true]) == Finished(done) + {p};
    forall t | NonNegative(a) && Deadlocked(avail, a, request, t) ensures t !! Finished(done) + {p} {
      OutsideStuck(avail, a, request, t, Finished(done), p);
    }
  }

  lemma DetectEnd(avail: Vec, a: Mat, request: Mat, work: Vec, done: seq<bool>)
    requires Shape(a, |a|, |avail|) && Shape(request, |a|, |avail|)
    requires Detecting(avail, a, request, work, done)
    requires forall p {:trigger request[p]} :: 0 <= p < |a| && !done[p] ==> !Fits(request[p], work)
    ensures Deadlocked(avail, a, request, Everyone(|a|) - Finished(done))
    ensures NonNegative(a) ==> Greatest(avail, a, request, Everyone(|a|) - Finished(done))
  {
    LeftOverStuck(avail, a, request, Finished(done));
  }

  /** The deadlocked set is determined by the state, so the order of the scan does not matter. */
  lemma GreatestIsUnique(avail: Vec, a: Mat, request: Mat, s: set<nat>, t: set<nat>)
    requires Shape(a, |a|, |avail|) && Shape(request, |a|, |avail|)
    requires Greatest(avail, a, request, s) && Greatest(avail, a, request, t)
    ensures s == t
  {
    assert s <= t && t <= s;
  }

  /** The process holds nothing. */
  method HoldsNothing(allocation: array2<int>, p: nat) returns (none: bool)
    requires p < allocation.Length0
    ensures none <==> !Holding(Rows(allocation), p)
  {
    none := true;
    for r := 0 to allocation.Length1
      invariant none ==> forall t :: 0 <= t < r ==> allocation[p, t] == 0
      invariant !none ==> Holding(Rows(allocation), p)
    {
      if allocation[p, r] != 0 {
        assert Rows(allocation)[p][r] != 0;
        none := false;
      }
    }
  }

  /** One pass over all processes. */
  method DetectSweep(ghost avail: Vec, allocation: array2<int>, request: array2<int>, work: array<int>,
      finished: array<bool>)
    returns (progress: bool)
    requires request.Length0 == allocation.Length0 == finished.Length &&
        |avail| == request.Length1 == allocation.Length1
    requires work.Length == |avail|
    requires Detecting(avail, Rows(allocation), Rows(request), work[..], finished[..])
    modifies work, finished
    ensures Detecting(avail, Rows(allocation), Rows(request), work[..], finished[..])
    ensures progress ==> Finished(finished[..]) > old(Finished(finished[..]))
    ensures !progress ==> forall p {:trigger Rows(request)[p]} ::
                            0 <= p < finished.Length && !finished[p] ==> !Fits(Rows(request)[p], work[..])
  {
    ghost var a, req, before := Rows(allocation), Rows(request), Finished(finished[..]);
    progress := false;
    for p := 0 to finished.Length
      invariant Detecting(avail, a, req, work[..], finished[..])
      invariant if progress then Finished(finished[..]) > before else Finished(finished[..]) == before
      invariant !progress ==> forall q {:trigger req[q]} :: 0 <= q < p && !finished[q] ==> !Fits(req[q], work[..])
    {
      if !finished[p] {
        var fits := CanExecute(p, work, request);
        if fits {
          ghost var w, f := work[..], finished[..];
          Reclaim(avail, Finished(f), allocation, p, work);
          DetectNext(avail, a, req, w, f, p, work[..]);
          finished[p] := true;
          assert finished[..] == f[p := true] && Finished(finished[..]) == Finished(f) + {p};
          progress := true;
        }
      }
    }
  }

  /** detect_deadlock: lists, in ascending order, a deadlocked set, and the greatest one unless some allocation is
      negative. */
  method DetectDeadlock(allocation: array2<int>, request: array2<int>, available: array<int>, deadlocked: array<nat>)
    returns (count: nat)
    requires request.Length0 == allocation.Length0 == deadlocked.Length
    requires available.Length == request.Length1 == allocation.Length1
    modifies deadlocked
    ensures count <= deadlocked.Length && forall i, j :: 0 <= i < j < count ==> deadlocked[i] < deadlocked[j]
    ensures Deadlocked(available[..], Rows(allocation), Rows(request), Elements(deadlocked[..count]))
    ensures NonNegative(Rows(allocation)) ==>
              Greatest(available[..], Rows(allocation), Rows(request), Elements(deadlocked[..count]))
  {
    ghost var avail, a, req := available[..], Rows(allocation), Rows(request);
    var work := new int[available.Length](r requires 0 <= r < available.Length reads available => available[r]);
    assert work[..] == avail;
    var n := allocation.Length0;
    var finished := new bool[n];
    for p := 0 to n
      modifies finished
      invariant forall q {:trigger finished[q]} :: 0 <= q < p ==> (finished[q] <==> !Holding(a, q))
    {
      finished[p] := HoldsNothing(allocation, p);
    }
    DetectStart(avail, a, req, finished[..]);
    while true
      modifies work, finished
      invariant Detecting(avail, a, req, work[..], finished[..])
      decreases Everyone(n) - Finished(finished[..])
    {
      var progress := DetectSweep(avail, allocation, request, work, finished);
      if !progress {
        break;
      }
    }
    DetectEnd(avail, a, req, work[..], finished[..]);
    count := Collect(finished, deadlocked);
  }

  /** The last loop of detect_deadlock. */
  method Collect(finished: array<bool>, deadlocked: array<nat>) returns (count: nat)
    requires finished.Length == deadlocked.Length
    modifies deadlocked
    ensures count <= deadlocked.Length && forall i, j :: 0 <= i < j < count ==> deadlocked[i] < deadlocked[j]
    ensures Elements(deadlocked[..count]) == Everyone(finished.Length) - Finished(finished[..])
  {
    count := 0;
    for p := 0 to finished.Length
      invariant count <= p
      invariant forall i, j :: 0 <= i < j < count ==> deadlocked[i] < deadlocked[j]
      invariant forall i :: 0 <= i < count ==> deadlocked[i] < p && !finished[deadlocked[i]]
      invariant forall q: nat :: q < p && !finished[q] ==> q in deadlocked[..count]
    {
      if !finished[p] {
        ghost var d := deadlocked[..count];
        deadlocked[count] := p;
        count := count + 1;
        assert deadlocked[..count] == d + [p];
      }
    }
  }
}
