// Two replicas exchanging snapshots, as peers do when they connect.
module GroupConvergence {
  import opened GroupMerge
  import opened Enforcement
  import opened GroupRuns

  /** Each replica applies the snapshot the other had before the exchange. */
  ghost predicate Exchange(A: Groups, B: Groups, A': Groups, B': Groups, n: int, m: int) {
    && n > 0 && m > 0
    && Step(A, Event(ApplySnapshot(B), n, n), A')
    && Step(B, Event(ApplySnapshot(A), m, m), B')
  }

  /** Either way a replica ends up with the enforced merge of the two stores. */
  lemma SnapshotIsEnforcedMerge(A: Groups, B: Groups, A': Groups, n: int)
    requires Good(A) && AllStamped(B) && n > 0 && Step(A, Event(ApplySnapshot(B), n, n), A')
    ensures Enforced(Absorb(A, B), A', n, "")
  {
    if NothingNew(A, B) {
      AbsorbNothingNew(A, B);
      SettledIsEnforced(A, n, "");
    }
  }

  /**
   * One exchange: both replicas hold the same ids, live in both or in neither,
   * with the same trees, names and ranks. Only stamps written by enforcement may
   * differ, and nothing differs if the merged stores were already settled.
   */
  lemma OneExchangeAgrees(A: Groups, B: Groups, A': Groups, B': Groups, n: int, m: int)
    requires Good(A) && Good(B) && AllAgree(A, B) && Exchange(A, B, A', B', n, m)
    ensures A'.Keys == B'.Keys && forall id :: id in A' ==> SameShape(A'[id], B'[id])
    ensures Settled(Absorb(A, B)) ==> A' == B' == Absorb(A, B)
  {
    var J := Absorb(A, B);
    AbsorbCommutes(A, B);
    SnapshotIsEnforcedMerge(A, B, A', n);
    SnapshotIsEnforcedMerge(B, A, B', m);
    EnforcedUnique(J, A', n, B', m, "");
    if Settled(J) {
      EnforcedIdempotent(J, A', n, "");
      EnforcedIdempotent(J, B', m, "");
    }
  }

  /** A record merged with one of the same shape. */
  lemma SameShapeMerge(a: Group, b: Group)
    requires SameShape(a, b) && Stamped(a) && Stamped(b)
    ensures Agree(a, b)
    ensures Merge(a, b).tree == a.tree && Live(Merge(a, b)) == Live(a)
  {}

  /** Settling is a matter of trees and liveness only. */
  lemma SettledAlike(A: Groups, K: Groups)
    requires Settled(A) && A.Keys == K.Keys
    requires forall id :: id in A ==> K[id].tree == A[id].tree && Live(K[id]) == Live(A[id])
    ensures Settled(K)
  {}

  lemma SameShapeMergeSettles(A: Groups, B: Groups)
    requires Good(A) && Good(B)
    requires A.Keys == B.Keys && forall id :: id in A ==> SameShape(A[id], B[id])
    ensures AllAgree(A, B) && Settled(Absorb(A, B))
  {
    var K := Absorb(A, B);
    forall id | id in A
      ensures Agree(Get(A, id), Get(B, id))
      ensures id in K && K[id].tree == A[id].tree && Live(K[id]) == Live(A[id])
    {
      SameShapeMerge(A[id], B[id]);
      AbsorbGet(A, B, id);
    }
    SettledAlike(A, K);
  }

  /**
   * Two exchanges leave good replicas whose equal stamps carry equal values
   * identical, whatever contested keys had to be resolved and whatever the four
   * clocks read.
   */
  lemma TwoExchangesConverge(A: Groups, B: Groups, A': Groups, B': Groups, A'': Groups, B'': Groups,
                             n: int, m: int, n': int, m': int)
    requires Good(A) && Good(B) && AllAgree(A, B)
    requires Exchange(A, B, A', B', n, m) && Exchange(A', B', A'', B'', n', m')
    ensures A'' == B''
    ensures Good(A'')
  {
    OneExchangeAgrees(A, B, A', B', n, m);
    StepsKeepGood(A, Event(ApplySnapshot(B), n, n), A');
    StepsKeepGood(B, Event(ApplySnapshot(A), m, m), B');
    SameShapeMergeSettles(A', B');
    OneExchangeAgrees(A', B', A'', B'', n', m');
    StepsKeepGood(A', Event(ApplySnapshot(B'), n', n'), A'');
  }
}
