// Following links from key to key: when it ends, and when it never does.

module Walks {
  import opened Wrappers
  import opened Arithmetic

  /** The walk from `k` runs out of links within n rounds. */
  ghost predicate Stops<K>(next: map<K, K>, k: K, n: nat)
    decreases n
  {
    k in next ==> n > 0 && Stops(next, next[k], n - 1)
  }

  /** The key reached after n links, if the walk gets that far. */
  ghost function Reach<K>(next: map<K, K>, k: K, n: nat): Option<K> {
    if n == 0 then Some(k)
    else
      match Reach(next, k, n - 1)
      case Some(x) => if x in next then Some(next[x]) else None
      case None => None
  }

  ghost predicate Revisits<K>(next: map<K, K>, k: K) {
    exists i: nat, j: nat :: i < j && Reach(next, k, i).Some? && Reach(next, k, i) == Reach(next, k, j)
  }

  lemma {:induction false} ReachShifts<K>(next: map<K, K>, k: K, n: nat)
    requires k in next
    ensures Reach(next, next[k], n) == Reach(next, k, n + 1)
  {
    if n > 0 {
      ReachShifts(next, k, n - 1);
    }
  }

  lemma {:induction false} ReachRepeats<K>(next: map<K, K>, k: K, i: nat, j: nat, m: nat)
    requires Reach(next, k, i) == Reach(next, k, j)
    ensures Reach(next, k, i + m) == Reach(next, k, j + m)
  {
    if m > 0 {
      ReachRepeats(next, k, i, j, m - 1);
    }
  }

  lemma {:induction false} EndedStaysEnded<K>(next: map<K, K>, k: K, m: nat, n: nat)
    requires m <= n && Reach(next, k, m) == None
    ensures Reach(next, k, n) == None
    decreases n
  {
    if m < n {
      EndedStaysEnded(next, k, m, n - 1);
    }
  }

  /** A walk that comes back never ends. */
  lemma {:induction false} RevisitingNeverEnds<K>(next: map<K, K>, k: K, i: nat, j: nat, n: nat)
    requires i < j && Reach(next, k, i).Some? && Reach(next, k, i) == Reach(next, k, j)
    ensures Reach(next, k, n).Some?
    decreases n
  {
    if n < j {
      if Reach(next, k, n) == None {
        EndedStaysEnded(next, k, n, j);
      }
    } else {
      RevisitingNeverEnds(next, k, i, j, n - (j - i));
      ReachRepeats(next, k, i, j, n - j);
    }
  }

  lemma {:induction false} StopsMeansEnded<K>(next: map<K, K>, k: K, n: nat)
    ensures Stops(next, k, n) <==> Reach(next, k, n + 1) == None
    decreases n
  {
    if k !in next {
      assert Reach(next, k, 1) == None;
      EndedStaysEnded(next, k, 1, n + 1);
    } else if n > 0 {
      StopsMeansEnded(next, next[k], n - 1);
      ReachShifts(next, k, n);
    } else {
      assert Reach(next, k, 0) == Some(k);
    }
  }

  ghost function Keys<K>(next: map<K, K>, k: K, n: nat): set<K> {
    set i: nat | i < n && Reach(next, k, i).Some? :: Reach(next, k, i).value
  }

  /** A walk that goes on and never comes back meets a new key each time. */
  lemma {:induction false} KeysAreNew<K>(next: map<K, K>, k: K, n: nat)
    requires Reach(next, k, n).Some? && !Revisits(next, k)
    ensures |Keys(next, k, n)| == n && Keys(next, k, n) <= next.Keys
  {
    if n == 0 {
      assert Keys(next, k, n) == {};
    } else {
      var x := Reach(next, k, n - 1).value;
      KeysAreNew(next, k, n - 1);
      assert Keys(next, k, n) == Keys(next, k, n - 1) + {x};
      assert x !in Keys(next, k, n - 1);
    }
  }

  lemma RevisitingNeverStops<K>(next: map<K, K>, k: K, n: nat)
    requires Revisits(next, k)
    ensures !Stops(next, k, n)
  {
    var i: nat, j: nat :| i < j && Reach(next, k, i).Some? && Reach(next, k, i) == Reach(next, k, j);
    StopsMeansEnded(next, k, n);
    RevisitingNeverEnds(next, k, i, j, n + 1);
  }

  /** Otherwise it ends after as many rounds as there are links. */
  lemma NotRevisitingStops<K>(next: map<K, K>, k: K)
    requires !Revisits(next, k)
    ensures Stops(next, k, |next|)
  {
    var n := |next|;
    StopsMeansEnded(next, k, n);
    if Reach(next, k, n + 1).Some? {
      KeysAreNew(next, k, n + 1);
      SubsetSize(Keys(next, k, n + 1), next.Keys);
    }
  }
}
