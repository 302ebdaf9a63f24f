// The membership rule enforced after every tree write: live groups are taken in
// priority order, each keeps the keys no higher-priority survivor holds, and a
// group left with fewer than two keys is tombstoned.
//
// `Enforced` states the outcome without saying how it is reached; the rest of
// the module proves what that outcome guarantees and that it is unique.
module Enforcement {
  import opened StringOrder
  import opened PaneTree
  import opened GroupMerge

  /** Priority: the winner, then the most recent tree, then the smaller id. */
  predicate Before(G: Groups, winner: string, i: string, j: string) {
    if i == winner || j == winner then i == winner && j != winner
    else if Get(G, i).treeAt != Get(G, j).treeAt then Get(G, i).treeAt > Get(G, j).treeAt
    else Less(i, j)
  }

  function ByPriority(G: Groups, winner: string): (string, string) -> bool {
    (i, j) => Before(G, winner, i, j)
  }

  lemma BeforeIsStrictTotal(G: Groups, winner: string)
    ensures StrictTotal(ByPriority(G, winner))
  {
    LessIsStrictTotal();
  }

  /** The live groups of `G` with priority over `id`. */
  function Ahead(G: Groups, winner: string, id: string): set<string> {
    set j | j in G && Live(G[j]) && Before(G, winner, j, id)
  }

  /** The keys held by those of `ids` that are live in `G`. */
  function OwnedBy(ids: set<string>, G: Groups): set<string> {
    set j, k | j in ids && j in G && Live(G[j]) && k in KeysIn(G[j]) :: k
  }

  /** What becomes of one record when the keys in `owned` are taken. */
  function Verdict(g: Group, owned: set<string>, now: int): Group {
    if !Placed(g) then g
    else if !Plural(KeysIn(g) - owned) then g.(deletedAt := now)
    else if KeysIn(g) !! owned then g
    else g.(tree := Without(g.tree.value, owned), treeAt := now)
  }

  /** Each record of `H` is the verdict on that of `G`, given the survivors of higher priority. */
  ghost predicate Enforced(G: Groups, H: Groups, now: int, winner: string) {
    && H.Keys == G.Keys
    && forall id :: id in G ==> H[id] == Verdict(G[id], OwnedBy(Ahead(G, winner, id), H), now)
  }

  /** Exclusive membership: placed groups hold two keys or more, and share none. */
  ghost predicate Settled(G: Groups) {
    && (forall id :: id in G && Placed(G[id]) ==> Plural(KeysIn(G[id])))
    && (forall i, j :: i in G && j in G && i != j && Placed(G[i]) && Placed(G[j]) ==>
          KeysIn(G[i]) !! KeysIn(G[j]))
  }

  lemma VerdictKeys(g: Group, owned: set<string>, now: int)
    requires now != 0
    ensures var h := Verdict(g, owned, now);
            && (Placed(h) ==> Placed(g) && KeysIn(h) == KeysIn(g) - owned && Plural(KeysIn(h)))
            && (Placed(g) ==> (Live(h) <==> Plural(KeysIn(g) - owned)) && h.tree.Some?)
            && (Placed(h) ==> (h == g <==> KeysIn(g) !! owned))
            && (Placed(h) && h != g ==> h.tree != g.tree)
  {
    if g.tree.Some? {
      WithoutFiltersLeaves(g.tree.value, owned);
      WithoutUnchanged(g.tree.value, owned);
      if KeysIn(g) !! owned {
        assert KeysIn(g) - owned == KeysIn(g);
      }
    }
  }

  lemma EnforcedKeys(G: Groups, H: Groups, now: int, winner: string, id: string)
    requires Enforced(G, H, now, winner) && now != 0 && id in G
    ensures Placed(H[id]) ==> Placed(G[id]) && Plural(KeysIn(H[id]))
    ensures Placed(H[id]) ==> KeysIn(H[id]) == KeysIn(G[id]) - OwnedBy(Ahead(G, winner, id), H)
  {
    VerdictKeys(G[id], OwnedBy(Ahead(G, winner, id), H), now);
  }

  /** Enforcement establishes exclusive membership, whatever the store looked like. */
  lemma EnforcedSettles(G: Groups, H: Groups, now: int, winner: string)
    requires Enforced(G, H, now, winner) && now != 0
    ensures Settled(H)
  {
    forall id | id in H && Placed(H[id]) ensures Plural(KeysIn(H[id])) {
      EnforcedKeys(G, H, now, winner, id);
    }
    forall i, j | i in H && j in H && i != j && Placed(H[i]) && Placed(H[j])
      ensures KeysIn(H[i]) !! KeysIn(H[j])
    {
      EnforcedKeys(G, H, now, winner, i);
      EnforcedKeys(G, H, now, winner, j);
      LessTrichotomy(i, j);
      if Before(G, winner, i, j) {
        HeldByHigher(G, H, winner, i, j);
      } else {
        HeldByHigher(G, H, winner, j, i);
      }
    }
  }

  lemma HeldByHigher(G: Groups, H: Groups, winner: string, i: string, j: string)
    requires i in G && i in H && Live(G[i]) && Live(H[i]) && Before(G, winner, i, j)
    ensures KeysIn(H[i]) <= OwnedBy(Ahead(G, winner, j), H)
  {
    assert i in Ahead(G, winner, j);
  }

  /** The same record up to the stamps enforcement writes. */
  predicate SameShape(a: Group, b: Group) {
    && Live(a) == Live(b)
    && b == a.(treeAt := b.treeAt, deletedAt := b.deletedAt)
  }

  lemma {:induction false} EnforcedSameShape(G: Groups, X: Groups, n: int, Y: Groups, m: int,
                                             winner: string, id: string)
    requires Enforced(G, X, n, winner) && Enforced(G, Y, m, winner) && n != 0 && m != 0
    requires id in G
    ensures SameShape(X[id], Y[id])
    ensures OwnedBy(Ahead(G, winner, id), X) == OwnedBy(Ahead(G, winner, id), Y)
    decreases |Ahead(G, winner, id)|
  {
    var ahead := Ahead(G, winner, id);
    forall j | j in ahead ensures SameShape(X[j], Y[j]) {
      AheadShrinks(G, winner, j, id);
      EnforcedSameShape(G, X, n, Y, m, winner, j);
    }
    OwnedBySameShape(ahead, X, Y);
  }

  lemma OwnedBySameShape(ids: set<string>, X: Groups, Y: Groups)
    requires forall j :: j in ids ==> j in X && j in Y && SameShape(X[j], Y[j])
    ensures OwnedBy(ids, X) == OwnedBy(ids, Y)
  {
    forall k ensures k in OwnedBy(ids, X) <==> k in OwnedBy(ids, Y) {
      if k in OwnedBy(ids, X) {
        var j :| j in ids && Live(X[j]) && k in KeysIn(X[j]);
        assert Live(Y[j]) && k in KeysIn(Y[j]);
      }
      if k in OwnedBy(ids, Y) {
        var j :| j in ids && Live(Y[j]) && k in KeysIn(Y[j]);
        assert Live(X[j]) && k in KeysIn(X[j]);
      }
    }
  }

  lemma AheadShrinks(G: Groups, winner: string, j: string, id: string)
    requires j in Ahead(G, winner, id)
    ensures |Ahead(G, winner, j)| < |Ahead(G, winner, id)|
  {
    LessIsStrictTotal();
    var a, b := Ahead(G, winner, j), Ahead(G, winner, id);
    assert a <= b && j in b && j !in a;
    SubsetSize(a, b - {j});
  }

  /** The outcome is unique; two clock readings differ in the stamps written and nothing else. */
  lemma EnforcedUnique(G: Groups, X: Groups, n: int, Y: Groups, m: int, winner: string)
    requires Enforced(G, X, n, winner) && Enforced(G, Y, m, winner) && n != 0 && m != 0
    ensures forall id :: id in G ==> SameShape(X[id], Y[id])
    ensures n == m ==> X == Y
  {
    forall id | id in G
      ensures SameShape(X[id], Y[id])
      ensures n == m ==> X[id] == Y[id]
    {
      EnforcedSameShape(G, X, n, Y, m, winner, id);
    }
  }

  lemma SettledIsEnforced(G: Groups, now: int, winner: string)
    requires Settled(G)
    ensures Enforced(G, G, now, winner)
  {
    forall id | id in G ensures Verdict(G[id], OwnedBy(Ahead(G, winner, id), G), now) == G[id] {
      var owned := OwnedBy(Ahead(G, winner, id), G);
      if Placed(G[id]) {
        LessIsStrictTotal();
        assert KeysIn(G[id]) !! owned;
        assert KeysIn(G[id]) - owned == KeysIn(G[id]);
      }
    }
  }

  /** On a settled store enforcement does nothing, whoever the winner: it is idempotent. */
  lemma EnforcedIdempotent(G: Groups, H: Groups, now: int, winner: string)
    requires Settled(G) && Enforced(G, H, now, winner) && now != 0
    ensures H == G
  {
    SettledIsEnforced(G, now, winner);
    EnforcedUnique(G, H, now, G, now, winner);
  }

  /** A live winner with two keys or more keeps its record untouched. */
  lemma WinnerKeepsTree(G: Groups, H: Groups, now: int, winner: string)
    requires Enforced(G, H, now, winner)
    requires winner in G && Placed(G[winner]) && Plural(KeysIn(G[winner]))
    ensures H[winner] == G[winner]
  {
    assert Ahead(G, winner, winner) == {};
    assert OwnedBy({}, H) == {};
    assert KeysIn(G[winner]) - {} == KeysIn(G[winner]);
  }

  /** A survivor's leaves are its old leaves, in order, minus the keys of higher-priority survivors. */
  lemma SurvivorLeaves(G: Groups, H: Groups, now: int, winner: string, id: string)
    requires Enforced(G, H, now, winner) && now != 0
    requires id in G && Placed(H[id])
    ensures LeavesOf(H[id].tree) == FilterOut(LeavesOf(G[id].tree), OwnedBy(Ahead(G, winner, id), H))
  {
    var owned := OwnedBy(Ahead(G, winner, id), H);
    VerdictKeys(G[id], owned, now);
    WithoutFiltersLeaves(G[id].tree.value, owned);
    WithoutUnchanged(G[id].tree.value, owned);
  }

  /** A key is taken from a group exactly when a higher-priority holder of it survives. */
  lemma OwnedAheadIff(G: Groups, H: Groups, now: int, winner: string, k: string, id: string)
    requires Enforced(G, H, now, winner) && now != 0
    ensures k in OwnedBy(Ahead(G, winner, id), H) <==>
              exists j :: j in Ahead(G, winner, id) && Placed(G[j]) && Live(H[j]) && k in KeysIn(G[j])
  {
    if k in OwnedBy(Ahead(G, winner, id), H) {
      var j :| j in Ahead(G, winner, id) && j in H && Live(H[j]) && k in KeysIn(H[j]);
      EnforcedKeys(G, H, now, winner, j);
      assert j in Ahead(G, winner, id) && Placed(G[j]) && Live(H[j]) && k in KeysIn(G[j]);
    }
    if j :| j in Ahead(G, winner, id) && Placed(G[j]) && Live(H[j]) && k in KeysIn(G[j]) {
      var h := FirstHolder(G, H, now, winner, k, j);
      LessIsStrictTotal();
      assert h in Ahead(G, winner, id);
    }
  }

  lemma FirstHolder(G: Groups, H: Groups, now: int, winner: string, k: string, j: string) returns (h: string)
    requires Enforced(G, H, now, winner) && now != 0
    requires j in G && Placed(G[j]) && Live(H[j]) && k in KeysIn(G[j])
    ensures h in Ahead(G, winner, j) + {j} && Placed(H[h]) && k in KeysIn(H[h])
  {
    VerdictKeys(G[j], OwnedBy(Ahead(G, winner, j), H), now);
    EnforcedKeys(G, H, now, winner, j);
    if k in OwnedBy(Ahead(G, winner, j), H) {
      h :| h in Ahead(G, winner, j) && h in H && Live(H[h]) && k in KeysIn(H[h]);
    } else {
      h := j;
    }
  }

  /**
   * Who gets a key. A surviving holder keeps it unless a higher-priority holder
   * survives too, so each key goes to its highest-priority surviving holder, and
   * a key nobody holds afterwards had every one of its holders tombstoned.
   */
  lemma KeyGoesToFirstSurvivor(G: Groups, H: Groups, now: int, winner: string, k: string, id: string)
    requires Enforced(G, H, now, winner) && now != 0
    requires id in G && Placed(G[id]) && k in KeysIn(G[id]) && Live(H[id])
    ensures k in KeysIn(H[id]) <==>
              !exists j :: j in Ahead(G, winner, id) && Placed(G[j]) && Live(H[j]) && k in KeysIn(G[j])
    ensures exists j :: j in H && Placed(H[j]) && k in KeysIn(H[j])
  {
    VerdictKeys(G[id], OwnedBy(Ahead(G, winner, id), H), now);
    EnforcedKeys(G, H, now, winner, id);
    OwnedAheadIff(G, H, now, winner, k, id);
    var h := FirstHolder(G, H, now, winner, k, id);
  }

  /**
   * The order of precedence, spelled out: of two groups that hold a key, the
   * winner of the call comes first, then the one with the later tree stamp, then
   * the one with the smaller id. If that one survives, the other loses the key.
   */
  lemma HigherKeepsKey(G: Groups, H: Groups, now: int, winner: string, i: string, j: string, k: string)
    requires Enforced(G, H, now, winner) && now != 0
    requires i in G && j in G && i != j && Placed(G[i]) && Placed(G[j]) && Live(H[i])
    requires k in KeysIn(G[i]) && k in KeysIn(G[j])
    requires i == winner
             || (j != winner && (G[i].treeAt > G[j].treeAt || (G[i].treeAt == G[j].treeAt && Less(i, j))))
    ensures Placed(H[j]) ==> k !in KeysIn(H[j])
  {
    assert i in Ahead(G, winner, j);
    OwnedAheadIff(G, H, now, winner, k, j);
    EnforcedKeys(G, H, now, winner, j);
  }

  /** And nothing else costs a survivor a key. */
  lemma KeyLostToHigher(G: Groups, H: Groups, now: int, winner: string, j: string, k: string)
    requires Enforced(G, H, now, winner) && now != 0
    requires j in G && Placed(H[j]) && k in KeysIn(G[j]) && k !in KeysIn(H[j])
    ensures exists i :: i in G && i != j && Placed(G[i]) && Live(H[i]) && k in KeysIn(G[i])
              && (i == winner
                  || (j != winner && (G[i].treeAt > G[j].treeAt || (G[i].treeAt == G[j].treeAt && Less(i, j)))))
  {
    EnforcedKeys(G, H, now, winner, j);
    OwnedAheadIff(G, H, now, winner, k, j);
    var i :| i in Ahead(G, winner, j) && Placed(G[i]) && Live(H[i]) && k in KeysIn(G[i]);
    LessTrichotomy(i, j);
  }

  /** A group with a tree survives exactly when two keys remain that no surviving group of precedence held. */
  lemma SurvivesIff(G: Groups, H: Groups, now: int, winner: string, id: string)
    requires Enforced(G, H, now, winner) && now != 0 && id in G && Placed(G[id])
    ensures Live(H[id]) <==> exists k, l :: k != l && Unclaimed(G, H, winner, id, k) && Unclaimed(G, H, winner, id, l)
  {
    var owned := OwnedBy(Ahead(G, winner, id), H);
    VerdictKeys(G[id], owned, now);
    forall k ensures k in KeysIn(G[id]) - owned <==> Unclaimed(G, H, winner, id, k) {
      OwnedAheadIff(G, H, now, winner, k, id);
    }
  }

  /** Of the keys of `id`, one that no surviving group ahead of it held. */
  ghost predicate Unclaimed(G: Groups, H: Groups, winner: string, id: string, k: string)
    requires id in G && H.Keys == G.Keys
  {
    k in KeysIn(G[id]) && !exists j :: j in Ahead(G, winner, id) && Placed(G[j]) && Live(H[j]) && k in KeysIn(G[j])
  }

  /** A record is left as it was, tombstoned now, or given a smaller tree stamped now; no other field is touched. */
  lemma EnforcedRecords(G: Groups, H: Groups, now: int, winner: string)
    requires Enforced(G, H, now, winner) && now != 0
    ensures forall id :: id in G ==>
              H[id] == G[id] || H[id] == G[id].(deletedAt := now)
              || (H[id].tree != G[id].tree && H[id] == G[id].(tree := H[id].tree, treeAt := now))
  {
    forall id | id in G
      ensures H[id] == G[id] || H[id] == G[id].(deletedAt := now)
              || (H[id].tree != G[id].tree && H[id] == G[id].(tree := H[id].tree, treeAt := now))
    {
      VerdictKeys(G[id], OwnedBy(Ahead(G, winner, id), H), now);
    }
  }

  /** Enforcement never adds a key to a group and never touches a tombstone. */
  lemma EnforcedOnlyPrunes(G: Groups, H: Groups, now: int, winner: string)
    requires Enforced(G, H, now, winner) && now != 0
    ensures forall id :: id in G && !Live(G[id]) ==> H[id] == G[id]
    ensures forall id :: id in G && Placed(H[id]) ==> Placed(G[id]) && KeysIn(H[id]) <= KeysIn(G[id])
  {
    forall id | id in G && Placed(H[id]) ensures Placed(G[id]) && KeysIn(H[id]) <= KeysIn(G[id]) {
      EnforcedKeys(G, H, now, winner, id);
    }
  }
}
