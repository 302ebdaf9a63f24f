// The group store: a mutable map of records and the operations that rewrite it.
// Every operation is proved to take the step `GroupRuns.Step` names for it.
module GroupStore {
  import opened Options
  import opened StringOrder
  import opened PaneTree
  import opened GroupMerge
  import opened Enforcement
  import opened GroupRuns

  datatype StoreError = UnknownGroup | Tombstoned

  /** The records of `H` that are new or different, with their new values. */
  function Altered(G: Groups, H: Groups): Groups {
    map id | id in H && (id !in G || G[id] != H[id]) :: H[id]
  }

  /** The altered records with their old values. */
  function PriorOf(G: Groups, H: Groups): Groups {
    map id | id in G && id in H && G[id] != H[id] :: G[id]
  }

  lemma ReportNext(G: Groups, H: Groups, id: string, g: Group)
    requires id in G && id in H && H[id] == G[id] && g != G[id]
    ensures Altered(G, H[id := g]) == Altered(G, H)[id := g]
    ensures PriorOf(G, H[id := g]) == PriorOf(G, H)[id := G[id]]
  {}

  // ---- the enforcement loop ----

  function IdsOf(order: seq<string>): set<string> { set id | id in order }

  ghost predicate SettledAt(G: Groups, H: Groups, winner: string, now: int, id: string) {
    id in G && id in H && H[id] == Verdict(G[id], OwnedBy(Ahead(G, winner, id), H), now)
  }

  /**
   * The loop has settled the groups in `done`, which hold priority over all the
   * others; those are as in `G`, and `owned` holds the keys of the survivors so far.
   */
  ghost predicate Settling(G: Groups, H: Groups, winner: string, now: int, done: set<string>, owned: set<string>) {
    && H.Keys == G.Keys
    && done <= G.Keys
    && (forall id :: id in G && id !in done ==> H[id] == G[id])
    && (forall id :: id in done ==>
          Ahead(G, winner, id) <= done && SettledAt(G, H, winner, now, id))
    && owned == OwnedBy(done, H)
  }

  lemma AheadIsPrefix(G: Groups, winner: string, order: seq<string>, n: nat)
    requires n < |order|
    requires Lists(order, set id | id in G && Live(G[id]))
    requires SortedBy(ByPriority(G, winner), order)
    ensures order[n] !in order[..n] && Ahead(G, winner, order[n]) == IdsOf(order[..n])
    ensures IdsOf(order[..n + 1]) == IdsOf(order[..n]) + {order[n]}
  {
    BeforeIsStrictTotal(G, winner);
    var less := ByPriority(G, winner);
    assert order[..n + 1] == order[..n] + [order[n]];
    forall j ensures j in Ahead(G, winner, order[n]) <==> j in order[..n] {
      if j in order {
        var m :| 0 <= m < |order| && order[m] == j;
        if m < n {
          assert order[..n][m] == j && less(j, order[n]);
        } else {
          assert !less(j, order[n]);
        }
      }
    }
    assert order[n] !in Ahead(G, winner, order[n]);
  }

  lemma OwnedByAdd(ids: set<string>, id: string, H: Groups)
    requires id in H
    ensures OwnedBy(ids + {id}, H) == OwnedBy(ids, H) + LiveKeys(H[id])
  {
    forall k ensures k in OwnedBy(ids + {id}, H) <==> k in OwnedBy(ids, H) + LiveKeys(H[id]) {
      if k in OwnedBy(ids + {id}, H) {
        var j :| j in ids + {id} && j in H && Live(H[j]) && k in KeysIn(H[j]);
      }
      if k in OwnedBy(ids, H) {
        var j :| j in ids && j in H && Live(H[j]) && k in KeysIn(H[j]);
        assert j in ids + {id};
      }
      if k in LiveKeys(H[id]) {
        assert id in ids + {id};
      }
    }
  }

  /** The keys a record owns: those of its tree while it is live. */
  function LiveKeys(g: Group): set<string> { if Live(g) then KeysIn(g) else {} }

  lemma SettledAtKept(G: Groups, H: Groups, winner: string, now: int, j: string, id: string, g: Group)
    requires H.Keys == G.Keys && SettledAt(G, H, winner, now, j)
    requires id != j && id !in Ahead(G, winner, j)
    ensures SettledAt(G, H[id := g], winner, now, j)
  {
    OwnedBySameShape(Ahead(G, winner, j), H, H[id := g]);
  }

  lemma SettledAtNext(G: Groups, H: Groups, winner: string, now: int, id: string)
    requires H.Keys == G.Keys && id in G && id !in Ahead(G, winner, id)
    ensures SettledAt(G, H[id := Verdict(G[id], OwnedBy(Ahead(G, winner, id), H), now)], winner, now, id)
  {
    OwnedBySameShape(Ahead(G, winner, id), H, H[id := Verdict(G[id], OwnedBy(Ahead(G, winner, id), H), now)]);
  }

  lemma OwnedNext(H: Groups, done: set<string>, id: string, g: Group)
    requires id !in done && done <= H.Keys
    ensures OwnedBy(done + {id}, H[id := g]) == OwnedBy(done, H) + LiveKeys(g)
  {
    OwnedBySameShape(done, H, H[id := g]);
    OwnedByAdd(done, id, H[id := g]);
  }

  lemma SettleNext(G: Groups, H: Groups, winner: string, now: int, done: set<string>, owned: set<string>,
                   id: string, g: Group)
    requires Settling(G, H, winner, now, done, owned)
    requires id in G && id !in done && Ahead(G, winner, id) == done
    requires g == Verdict(G[id], owned, now)
    ensures Settling(G, H[id := g], winner, now, done + {id}, owned + LiveKeys(g))
  {
    OwnedNext(H, done, id, g);
    SettledAtNext(G, H, winner, now, id);
    forall j | j in done ensures SettledAt(G, H[id := g], winner, now, j) {
      SettledAtKept(G, H, winner, now, j, id, g);
    }
  }

  lemma SettledAll(G: Groups, H: Groups, winner: string, now: int, done: set<string>, owned: set<string>)
    requires Settling(G, H, winner, now, done, owned)
    requires forall id :: id in G && Live(G[id]) ==> id in done
    ensures Enforced(G, H, now, winner)
  {
    forall id | id in G ensures SettledAt(G, H, winner, now, id) {
      if id !in done {
        assert !Live(G[id]);
      }
    }
  }

  /** One key more pruned: the leaf is found unless the key was pruned before. */
  lemma PruneStep(tree: Pane, done: set<string>, key: string)
    requires key in Keys(tree)
    ensures var rest, next := Without(tree, done), Without(tree, done + {key});
            && (rest.None? ==> next.None? && key in done)
            && (rest.Some? ==> RemoveLeaf(rest.value, key).tree == next)
            && (rest.Some? && !RemoveLeaf(rest.value, key).removed ==> rest == next && key in done)
  {
    var rest := Without(tree, done);
    WithoutCompose(tree, done, {key});
    WithoutFiltersLeaves(tree, done);
    if rest.Some? {
      RemoveLeafMeaning(rest.value, key);
      WithoutUnchanged(rest.value, {key});
    }
  }

  /** Drop from `tree` those of its `keys` that match, one key at a time. */
  method PruneWhere(tree: Pane, keys: seq<string>, drop: string -> bool)
    returns (rest: Option<Pane>, modified: bool)
    requires forall k :: k in keys <==> k in Keys(tree)
    ensures rest == Without(tree, set k | k in Keys(tree) && drop(k))
    ensures modified <==> (set k | k in Keys(tree) && drop(k)) != {}
  {
    rest, modified := Some(tree), false;
    ghost var done: set<string> := {};
    WithoutUnchanged(tree, {});
    for i := 0 to |keys|
      invariant done == set k | k in keys[..i] && drop(k)
      invariant rest == Without(tree, done)
      invariant modified <==> done != {}
    {
      assert keys[..i + 1] == keys[..i] + [keys[i]];
      if drop(keys[i]) {
        PruneStep(tree, done, keys[i]);
        if rest.Some? {
          var cut := RemoveLeaf(rest.value, keys[i]);
          if cut.removed {
            rest, modified := cut.tree, true;
          }
        }
        done := done + {keys[i]};
      }
    }
    assert keys[..|keys|] == keys;
    assert done == set k | k in Keys(tree) && drop(k);
  }

  // ---- reports of the pruning operations ----

  lemma PruneAlters(g: Group, gone: string -> bool, now: int)
    requires now > 0
    ensures PruneRecord(g, gone, now) != g <==> Placed(g) && GoneIn(g, gone) != {}
  {
    if Placed(g) && GoneIn(g, gone) != {} {
      WithoutUnchanged(g.tree.value, GoneIn(g, gone));
    }
  }

  /** A pruned record stays altered: enforcement cannot give the gone key back. */
  lemma PrunedStaysAltered(G: Groups, gone: string -> bool, now: int, H: Groups, id: string)
    requires now > 0 && Enforced(Pruned(G, gone, now), H, now, "")
    requires id in G && PruneRecord(G[id], gone, now) != G[id]
    ensures H[id] != G[id]
  {
    PruneAlters(G[id], gone, now);
    var k :| k in GoneIn(G[id], gone);
    if Placed(H[id]) && k in KeysIn(H[id]) {
      PurgedAfterEnforce(G, gone, now, H, id, k);
    }
  }

  /** Two rewrites one after the other, the second undoing none of the first, report as one. */
  lemma ReportsChain(G: Groups, P: Groups, H: Groups)
    requires G.Keys == P.Keys == H.Keys
    requires forall id :: id in G && P[id] != G[id] ==> H[id] != G[id]
    ensures Altered(G, P) + Altered(P, H) == Altered(G, H)
    ensures PriorOf(P, H) + PriorOf(G, P) == PriorOf(G, H)
  {}

  /** The reports of the pruning and of the enforcement after it combine to one report. */
  lemma ReportsCombine(G: Groups, gone: string -> bool, now: int, H: Groups)
    requires now > 0 && Enforced(Pruned(G, gone, now), H, now, "")
    ensures var P := Pruned(G, gone, now);
            && Altered(G, P) + Altered(P, H) == Altered(G, H)
            && PriorOf(P, H) + PriorOf(G, P) == PriorOf(G, H)
  {
    var P := Pruned(G, gone, now);
    forall id | id in G && P[id] != G[id] ensures H[id] != G[id] {
      PrunedStaysAltered(G, gone, now, H, id);
    }
    ReportsChain(G, P, H);
  }

  /** First phase of RemoveSessionKey on one record: the leaf removed, sizes not yet checked. */
  function CutRecord(g: Group, key: string, now: int): Group {
    if !Placed(g) || key !in KeysIn(g) then g
    else
      var rest := Without(g.tree.value, {key});
      if rest.None? then g.(deletedAt := now) else g.(tree := rest, treeAt := now)
  }

  /** Cutting a key and then checking sizes is pruning it. */
  lemma CutIsPrune(g: Group, key: string, now: int)
    requires now > 0
    ensures if Placed(g) && key in KeysIn(g)
            then Dissolved(CutRecord(g, key, now), false, now) == PruneRecord(g, IsKey(key), now) != g
            else PruneRecord(g, IsKey(key), now) == g
  {
    PruneAlters(g, IsKey(key), now);
    if Placed(g) && key in KeysIn(g) {
      assert GoneIn(g, IsKey(key)) == {key};
    }
  }

  /** The second pass on one record. */
  function Dissolved(g: Group, touched: bool, now: int): Group {
    if Placed(g) && !touched && !Plural(KeysIn(g)) then g.(deletedAt := now) else g
  }

  /** The outcome for a tree pruned to `rest`, in the terms the loop computes it. */
  lemma VerdictFromRest(g: Group, owned: set<string>, now: int, rest: Option<Pane>)
    requires Placed(g) && now > 0 && rest == Without(g.tree.value, owned * KeysIn(g))
    ensures var v := Verdict(g, owned, now);
            && (!Plural(KeysOf(rest)) ==> v == g.(deletedAt := now))
            && (Plural(KeysOf(rest)) ==> rest.Some?)
            && (Plural(KeysOf(rest)) && KeysIn(g) * owned == {} ==> v == g)
            && (Plural(KeysOf(rest)) && KeysIn(g) * owned != {} ==> v == g.(tree := rest, treeAt := now) && v != g)
            && LiveKeys(v) == if Plural(KeysOf(rest)) then KeysOf(rest) else {}
  {
    WithoutOnlyOwnKeys(g.tree.value, owned);
    WithoutFiltersLeaves(g.tree.value, owned);
    WithoutUnchanged(g.tree.value, owned);
    VerdictKeys(g, owned, now);
  }

  lemma OwnedHere(g: Group, ownedKeys: set<string>, owned: string -> bool)
    requires g.tree.Some? && forall k :: owned(k) <==> k in ownedKeys
    ensures (set k | k in Keys(g.tree.value) && owned(k)) == ownedKeys * KeysIn(g)
  {}

  /** The body of the enforcement loop for one live record: its fate and the keys it owns from now on. */
  method Judge(g: Group, ownedKeys: set<string>, now: int) returns (g': Group, kept: set<string>, touched: bool)
    requires Live(g) && now > 0
    ensures g' == Verdict(g, ownedKeys, now)
    ensures kept == LiveKeys(g')
    ensures touched <==> g' != g
  {
    g', kept, touched := g, {}, false;
    if g.tree.Some? {
      var keys := MemberKeys(g.tree);
      var owned := (k: string) => k in ownedKeys;
      var tree, modified := PruneWhere(g.tree.value, keys, owned);
      OwnedHere(g, ownedKeys, owned);
      VerdictFromRest(g, ownedKeys, now, tree);
      var finalKeys := MemberKeys(tree);
      var survivor := |finalKeys| >= 2;
      if survivor {
        kept := set k | k in finalKeys;
        assert kept == KeysOf(tree);
      }
      if modified || !survivor {
        touched := true;
        if tree.None? || !survivor {
          g' := g.(deletedAt := now);
        } else {
          g' := g.(tree := tree, treeAt := now);
        }
      }
    }
  }

  /** The body of the pruning loop for one record. */
  method PruneOne(g: Group, gone: string -> bool, now: int) returns (g': Group, touched: bool)
    requires now > 0
    ensures g' == PruneRecord(g, gone, now)
    ensures touched <==> g' != g
  {
    g', touched := g, false;
    PruneAlters(g, gone, now);
    if Placed(g) {
      var keys := MemberKeys(g.tree);
      var tree;
      tree, touched := PruneWhere(g.tree.value, keys, gone);
      if touched {
        if tree.None? {
          g' := g.(deletedAt := now);
        } else {
          g' := g.(tree := tree, treeAt := now);
          var prunedKeys := MemberKeys(tree);
          if |prunedKeys| < 2 {
            g' := g'.(deletedAt := now);
          }
        }
      }
    }
  }

  /** The body of the rewriting loop for one record. */
  method RenameOne(g: Group, oldKeys: seq<string>, newKeys: seq<string>, ghost f: string -> string, now: int)
    returns (g': Group, hit: bool)
    requires |oldKeys| == |newKeys| && forall i :: 0 <= i < |oldKeys| ==> oldKeys[i] != newKeys[i]
    requires NoKinds(oldKeys) && forall s :: f(s) == ReplaceOne(s, oldKeys, newKeys)
    ensures g' == MigrateRecord(g, f, now)
    ensures hit <==> g' != g
  {
    g', hit := g, false;
    if g.tree.Some? {
      ReplaceStringsMeaning(g.tree.value, oldKeys, newKeys, f);
      var (updated, replaced) := ReplaceStrings(g.tree.value, oldKeys, newKeys);
      hit := replaced;
      if hit {
        g' := g.(tree := Some(updated), treeAt := now);
      }
    }
  }

  function CutStore(G: Groups, key: string, now: int): Groups {
    map id | id in G && Placed(G[id]) && key in KeysIn(G[id]) :: CutRecord(G[id], key, now)
  }

  function DissolvedStore(cut: Groups, now: int): Groups {
    map id | id in cut :: Dissolved(cut[id], false, now)
  }

  lemma CutOrSame(G: Groups, key: string, now: int)
    requires now > 0
    ensures forall id :: id in G ==>
              if id in CutStore(G, key, now)
              then Dissolved(CutStore(G, key, now)[id], false, now) == Pruned(G, IsKey(key), now)[id] != G[id]
              else Pruned(G, IsKey(key), now)[id] == G[id]
  {
    forall id | id in G
      ensures if id in CutStore(G, key, now)
              then Dissolved(CutStore(G, key, now)[id], false, now) == Pruned(G, IsKey(key), now)[id] != G[id]
              else Pruned(G, IsKey(key), now)[id] == G[id]
    {
      CutIsPrune(G[id], key, now);
    }
  }

  /** New values for some records, all different from the old ones, are the report of the rewrite. */
  lemma PatchReports(G: Groups, patch: Groups, P: Groups)
    requires G.Keys == P.Keys && patch.Keys <= G.Keys
    requires forall id :: id in G ==> if id in patch then patch[id] == P[id] != G[id] else P[id] == G[id]
    ensures patch == Altered(G, P)
    ensures (map id | id in patch :: G[id]) == PriorOf(G, P)
    ensures patch == map[] <==> P == G
  {
    if patch != map[] {
      var id :| id in patch;
      assert P[id] != G[id];
    }
  }

  lemma CutReports(G: Groups, key: string, now: int)
    requires now > 0
    ensures DissolvedStore(CutStore(G, key, now), now) == Altered(G, Pruned(G, IsKey(key), now))
    ensures (map id | id in CutStore(G, key, now) :: G[id]) == PriorOf(G, Pruned(G, IsKey(key), now))
    ensures CutStore(G, key, now) == map[] <==> Pruned(G, IsKey(key), now) == G
  {
    var P, cut := Pruned(G, IsKey(key), now), CutStore(G, key, now);
    var patch := DissolvedStore(cut, now);
    CutOrSame(G, key, now);
    PatchReports(G, patch, P);
    assert patch.Keys == cut.Keys;
  }

  lemma AlteredCompletes(G: Groups, H: Groups)
    requires G.Keys <= H.Keys
    ensures G + Altered(G, H) == H
  {}

  // ---- the store ----

  class Store {
    var groups: Groups

    constructor ()
      ensures groups == map[]
    {
      groups := map[];
    }

    /** The second pass: tombstone untouched live groups below two keys. */
    method DissolveDegenerate(now: int, changed: Groups, prior: Groups) returns (changed': Groups, prior': Groups)
      requires now > 0
      modifies this
      ensures groups.Keys == old(groups).Keys
      ensures forall id :: id in groups ==> groups[id] == Dissolved(old(groups)[id], id in changed, now)
      ensures groups == old(groups) ==> changed' == changed && prior' == prior
    {
      changed', prior' := changed, prior;
      var todo := groups.Keys;
      while todo != {}
        invariant todo <= groups.Keys == old(groups).Keys
        invariant forall id :: id in groups ==>
                    groups[id] == if id in todo then old(groups)[id] else Dissolved(old(groups)[id], id in changed, now)
        invariant forall id :: id in todo ==> (id in changed' <==> id in changed)
        invariant groups == old(groups) ==> changed' == changed && prior' == prior
      {
        var id :| id in todo;
        todo := todo - {id};
        var g := groups[id];
        if Placed(g) && id !in changed' {
          var keys := MemberKeys(g.tree);
          if |keys| < 2 {
            if id !in prior' {
              prior' := prior'[id := g];
            }
            g := g.(deletedAt := now);
            groups := groups[id := g];
            changed' := changed'[id := g];
          }
        }
      }
    }

    /** The first pass: settle the live groups in the given order of priority. */
    method SettleInOrder(order: seq<string>, now: int, winner: string) returns (changed: Groups, prior: Groups)
      requires now > 0
      requires Lists(order, set id | id in groups && Live(groups[id]))
      requires SortedBy(ByPriority(groups, winner), order)
      modifies this
      ensures Enforced(old(groups), groups, now, winner)
      ensures changed == Altered(old(groups), groups)
      ensures prior == PriorOf(old(groups), groups)
    {
      ghost var G := groups;
      changed, prior := map[], map[];
      var ownedKeys: set<string> := {};
      assert IdsOf(order[..0]) == {};
      for n := 0 to |order|
        invariant Settling(G, groups, winner, now, IdsOf(order[..n]), ownedKeys)
        invariant changed == Altered(G, groups)
        invariant prior == PriorOf(G, groups)
      {
        AheadIsPrefix(G, winner, order, n);
        var id := order[n];
        assert id in order;
        var g := groups[id];
        var g', kept, touched := Judge(g, ownedKeys, now);
        SettleNext(G, groups, winner, now, IdsOf(order[..n]), ownedKeys, id, g');
        ownedKeys := ownedKeys + kept;
        if touched {
          ReportNext(G, groups, id, g');
          prior := prior[id := g];
          changed := changed[id := g'];
          groups := groups[id := g'];
        } else {
          assert groups == groups[id := g'];
        }
      }
      assert order[..|order|] == order;
      SettledAll(G, groups, winner, now, IdsOf(order), ownedKeys);
    }

    /**
     * Enforce exclusive membership. `changed` and `prior` are exactly the
     * altered records, with their new and their old values.
     */
    method Enforce(now: int, winner: string) returns (changed: Groups, prior: Groups)
      requires now > 0
      modifies this
      ensures Enforced(old(groups), groups, now, winner)
      ensures changed == Altered(old(groups), groups)
      ensures prior == PriorOf(old(groups), groups)
    {
      ghost var G := groups;
      var before := groups;
      BeforeIsStrictTotal(before, winner);
      var liveIds := set id | id in before && Live(before[id]);
      var order := SortSet(liveIds, ByPriority(before, winner));
      changed, prior := SettleInOrder(order, now, winner);
      ghost var H := groups;
      EnforcedSettles(G, H, now, winner);
      changed, prior := DissolveDegenerate(now, changed, prior);
      assert groups == H;
    }

    /** A local tree write. Tombstones are permanent: a dead id is refused. */
    method SetTree(id: string, tree: Option<Pane>, now: int)
      returns (g: Group, changed: Groups, prior: Groups, err: Option<StoreError>)
      requires now > 0
      modifies this
      ensures Step(old(groups), Event(Op.SetTree(id, tree), now, now), groups)
      ensures g == Get(groups, id)
      ensures err == if Dead(old(groups), id) then Some(Tombstoned) else None
      ensures err.None? ==>
                var written := old(groups)[id := Get(old(groups), id).(tree := tree, treeAt := now)];
                changed == Altered(written, groups) && prior == PriorOf(written, groups)
      ensures err.Some? ==> changed == map[] && prior == map[]
    {
      g := Get(groups, id);
      if !Live(g) {
        return g, map[], map[], Some(Tombstoned);
      }
      g := g.(tree := tree, treeAt := now);
      g := g.(deletedAt := 0);
      groups := groups[id := g];
      changed, prior := Enforce(g.treeAt, id);
      return groups[id], changed, prior, None;
    }

    method SetName(id: string, name: string, mode: string, now: int, later: int)
      returns (g: Group, err: Option<StoreError>)
      modifies this
      ensures Step(old(groups), Event(Op.SetName(id, name, mode), now, later), groups)
      ensures err == if id in old(groups) then None else Some(UnknownGroup)
      ensures g == Get(groups, id)
    {
      if id !in groups {
        return ZERO_GROUP, Some(UnknownGroup);
      }
      g := groups[id].(name := name, nameAt := now);
      g := g.(mode := mode, modeAt := later);
      groups := groups[id := g];
      err := None;
    }

    method SetRank(id: string, rank: string, now: int) returns (g: Group, err: Option<StoreError>)
      modifies this
      ensures Step(old(groups), Event(Op.SetRank(id, rank), now, now), groups)
      ensures err == if id in old(groups) then None else Some(UnknownGroup)
      ensures g == Get(groups, id)
    {
      if id !in groups {
        return ZERO_GROUP, Some(UnknownGroup);
      }
      g := groups[id].(rank := rank, rankAt := now);
      groups := groups[id := g];
      err := None;
    }

    /** Deleting stamps a tombstone, also on an id never seen before. */
    method Delete(id: string, now: int) returns (g: Group)
      modifies this
      ensures Step(old(groups), Event(Op.Delete(id), now, now), groups)
      ensures g == groups[id]
    {
      g := Get(groups, id);
      g := g.(deletedAt := now);
      groups := groups[id := g];
    }

    /** Merge one remote record; the writer of an accepted tree is the winner. */
    method ApplyRemote(id: string, inc: Group, now: int)
      returns (g: Group, accepted: bool, changed: Groups, prior: Groups)
      requires now > 0
      modifies this
      ensures Step(old(groups), Event(Op.ApplyRemote(id, inc), now, now), groups)
      ensures accepted <==> Accepts(Get(old(groups), id), inc)
      ensures g == Get(groups, id)
      ensures accepted ==> changed == Altered(AbsorbOne(old(groups), id, inc), groups)
      ensures accepted ==> prior == PriorOf(AbsorbOne(old(groups), id, inc), groups)
      ensures !accepted ==> changed == map[] && prior == map[]
    {
      var cur := Get(groups, id);
      var merged, treeAccepted;
      merged, accepted, treeAccepted := MergeRecord(cur, inc);
      if !accepted {
        return cur, false, map[], map[];
      }
      groups := groups[id := merged];
      var winner := "";
      if treeAccepted {
        winner := id;
      }
      changed, prior := Enforce(now, winner);
      g := groups[id];
    }

    /** The merge loop of a snapshot, its ids taken in any order. */
    method MergeAll(snap: Groups) returns (accepted: set<string>)
      modifies this
      ensures groups == Absorb(old(groups), snap)
      ensures accepted == set id | id in snap && Accepts(Get(old(groups), id), snap[id])
    {
      ghost var G := groups;
      accepted := {};
      var todo := snap.Keys;
      assert Absorb(G, Only(snap, {})) == G;
      while todo != {}
        invariant todo <= snap.Keys
        invariant groups == Absorb(G, Only(snap, snap.Keys - todo))
        invariant accepted == set id | id in snap && id !in todo && Accepts(Get(G, id), snap[id])
      {
        var id :| id in todo;
        AbsorbNext(G, snap, snap.Keys - todo, id);
        assert snap.Keys - (todo - {id}) == (snap.Keys - todo) + {id};
        todo := todo - {id};
        var merged, ok, _ := MergeRecord(Get(groups, id), snap[id]);
        if ok {
          groups := groups[id := merged];
          accepted := accepted + {id};
        }
      }
      assert Only(snap, snap.Keys - todo) == snap;
    }

    /** Merge a whole snapshot, then enforce once. */
    method ApplySnapshot(snap: Groups, now: int) returns (ids: seq<string>, changed: Groups, prior: Groups)
      requires now > 0
      modifies this
      ensures Step(old(groups), Event(Op.ApplySnapshot(snap), now, now), groups)
      ensures changed == Altered(Absorb(old(groups), snap), groups)
      ensures prior == PriorOf(Absorb(old(groups), snap), groups)
      ensures SortedBy(Less, ids)
      ensures Lists(ids, (set id | id in snap && Accepts(Get(old(groups), id), snap[id])) + changed.Keys)
    {
      ghost var G := groups;
      var accepted := MergeAll(snap);
      assert accepted == {} <==> NothingNew(G, snap) by {
        if id :| id in snap && Accepts(Get(G, id), snap[id]) {
          assert id in accepted;
        }
      }
      if accepted == {} {
        AbsorbNothingNew(G, snap);
        return [], map[], map[];
      }
      changed, prior := Enforce(now, "");
      LessIsStrictTotal();
      ids := SortSet(accepted + changed.Keys, Less);
    }

    /**
     * Rewrite the owned session key in every stored tree, tombstoned ones
     * included. The names of the tree's own node kinds are not session names.
     */
    method MigrateKey(host: string, oldName: string, newName: string, now: int, later: int)
      returns (ids: seq<string>)
      requires 0 < now <= later
      requires !IsKind(oldName)
      modifies this
      ensures Step(old(groups), Event(Op.MigrateKey(host, oldName, newName), now, later), groups)
      ensures oldName == "" || newName == "" || oldName == newName ==> ids == []
      ensures oldName != "" && newName != "" && oldName != newName ==>
                SortedBy(Less, ids)
                && var moved := Migrated(old(groups), RenameKey(host, oldName, newName), now);
                   Lists(ids, Altered(old(groups), moved).Keys + Altered(moved, groups).Keys)
    {
      if oldName == "" || newName == "" || oldName == newName {
        return [];
      }
      ghost var G := groups;
      var moved := RenameEverywhere(host, oldName, newName, now);
      assert moved == {} <==> groups == G by {
        if id :| id in G && groups[id] != G[id] {
          assert id in Altered(G, groups);
        }
      }
      if moved == {} {
        assert Altered(G, G).Keys == {};
        return [];
      }
      var changed, _ := Enforce(later, "");
      LessIsStrictTotal();
      ids := SortSet(moved + changed.Keys, Less);
    }

    /** The rewriting loop of MigrateKey. */
    method RenameEverywhere(host: string, oldName: string, newName: string, now: int) returns (moved: set<string>)
      requires now > 0 && oldName != newName && !IsKind(oldName)
      modifies this
      ensures groups == Migrated(old(groups), RenameKey(host, oldName, newName), now)
      ensures moved == Altered(old(groups), groups).Keys
    {
      ghost var G := groups;
      ghost var f := RenameKey(host, oldName, newName);
      var oldKeys, newKeys := [oldName], [newName];
      if host != "" {
        oldKeys := oldKeys + [host + "/" + oldName];
        newKeys := newKeys + [host + "/" + newName];
      }
      assert oldKeys == KeyForms(host, oldName) && newKeys == KeyForms(host, newName);
      FormsPair(host, oldName, newName);
      FormsAreKinds(host, oldName);
      moved := {};
      var todo := groups.Keys;
      while todo != {}
        invariant todo <= G.Keys == groups.Keys
        invariant forall id :: id in G ==> groups[id] == if id in todo then G[id] else MigrateRecord(G[id], f, now)
        invariant moved == set id | id in G && id !in todo && groups[id] != G[id]
      {
        var id :| id in todo;
        todo := todo - {id};
        var g, hit := RenameOne(groups[id], oldKeys, newKeys, f, now);
        if hit {
          groups := groups[id := g];
          moved := moved + {id};
        }
      }
    }

    /** First pass of RemoveSessionKey: compute the cut records without storing them. */
    method CutEverywhere(key: string, now: int) returns (cut: Groups, prior: Groups)
      ensures cut == CutStore(groups, key, now)
      ensures prior == map id | id in cut :: groups[id]
    {
      cut, prior := map[], map[];
      var todo := groups.Keys;
      while todo != {}
        invariant todo <= groups.Keys
        invariant cut == map id | id in groups && id !in todo && Placed(groups[id]) && key in KeysIn(groups[id]) ::
                           CutRecord(groups[id], key, now)
        invariant prior == map id | id in cut :: groups[id]
      {
        var id :| id in todo;
        todo := todo - {id};
        var g := groups[id];
        if Placed(g) {
          RemoveLeafMeaning(g.tree.value, key);
          var removal := RemoveLeaf(g.tree.value, key);
          if removal.removed {
            prior := prior[id := g];
            if removal.tree.None? {
              g := g.(deletedAt := now);
            } else {
              g := g.(tree := removal.tree, treeAt := now);
            }
            cut := cut[id := g];
          }
        }
      }
    }

    /** Second pass: store the cut records, then tombstone those left below two keys. */
    method StoreCut(cut: Groups, now: int) returns (pruned: Groups)
      requires now > 0 && cut.Keys <= groups.Keys
      modifies this
      ensures pruned == DissolvedStore(cut, now)
      ensures groups == old(groups) + pruned
    {
      groups := groups + cut;
      pruned := cut;
      var todo := cut.Keys;
      while todo != {}
        invariant todo <= cut.Keys == pruned.Keys
        invariant forall id :: id in cut ==> pruned[id] == if id in todo then cut[id] else Dissolved(cut[id], false, now)
        invariant groups == old(groups) + pruned
      {
        var id :| id in todo;
        todo := todo - {id};
        var g := pruned[id];
        if Placed(g) {
          var keys := MemberKeys(g.tree);
          if |keys| < 2 {
            g := g.(deletedAt := now);
            groups := groups[id := g];
            pruned := pruned[id := g];
          }
        }
      }
    }

    /** Prune one session key everywhere. The report is exactly what changed. */
    method RemoveSessionKey(key: string, now: int) returns (changed: Groups, prior: Groups)
      requires now > 0
      modifies this
      ensures Step(old(groups), Event(Op.RemoveSessionKey(key), now, now), groups)
      ensures changed == Altered(old(groups), groups)
      ensures prior == PriorOf(old(groups), groups)
    {
      ghost var G := groups;
      var cut, before := CutEverywhere(key, now);
      CutReports(G, key, now);
      AlteredCompletes(G, Pruned(G, IsKey(key), now));
      if cut == map[] {
        return map[], map[];
      }
      changed := StoreCut(cut, now);
      prior := before;
      assert groups == Pruned(G, IsKey(key), now);
      var enforcedChanged, enforcedPrior := Enforce(now, "");
      ReportsCombine(G, IsKey(key), now, groups);
      changed := changed + enforcedChanged;
      prior := enforcedPrior + prior;
    }

    /** Prune every key that is gone, then enforce. The report is exactly what changed. */
    method Reconcile(gone: string -> bool, now: int) returns (changed: Groups, prior: Groups)
      requires now > 0
      modifies this
      ensures Step(old(groups), Event(Op.Reconcile(gone), now, now), groups)
      ensures changed == Altered(old(groups), groups)
      ensures prior == PriorOf(old(groups), groups)
    {
      ghost var G := groups;
      changed, prior := map[], map[];
      var todo := groups.Keys;
      while todo != {}
        invariant todo <= G.Keys == groups.Keys
        invariant forall id :: id in G ==> groups[id] == if id in todo then G[id] else PruneRecord(G[id], gone, now)
        invariant changed == Altered(G, groups) && prior == PriorOf(G, groups)
      {
        var id :| id in todo;
        todo := todo - {id};
        var g := groups[id];
        var g', pruneChanged := PruneOne(g, gone, now);
        if pruneChanged {
          ReportNext(G, groups, id, g');
          prior := prior[id := g];
          groups := groups[id := g'];
          changed := changed[id := g'];
        }
      }
      assert groups == Pruned(G, gone, now);
      var enforcedChanged, enforcedPrior := Enforce(now, "");
      ReportsCombine(G, gone, now, groups);
      changed := changed + enforcedChanged;
      prior := enforcedPrior + prior;
    }
  }
}
