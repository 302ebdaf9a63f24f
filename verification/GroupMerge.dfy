// Group records and the field-level last-writer-wins merge.
//
// A stamp is an integer reading of the clock; 0 is Go's zero time. Each field
// of a record travels with its own stamp, and `deletedAt` is itself a stamp:
// 0 means live, anything else is a tombstone.
module GroupMerge {
  import opened Options
  import opened PaneTree

  datatype Group = Group(
    tree: Option<Pane>, treeAt: int,
    name: string, nameAt: int,
    mode: string, modeAt: int,
    rank: string, rankAt: int,
    deletedAt: int)

  type Groups = map<string, Group>

  /** What reading an absent id from the map gives. */
  const ZERO_GROUP := Group(None, 0, "", 0, "", 0, "", 0, 0)

  function Get(G: Groups, id: string): Group {
    if id in G then G[id] else ZERO_GROUP
  }

  predicate Live(g: Group) { g.deletedAt == 0 }

  /** Live and holding a tree: the records that own session keys. */
  predicate Placed(g: Group) { Live(g) && g.tree.Some? }

  function KeysIn(g: Group): set<string> { KeysOf(g.tree) }

  /** Some field of `inc` is newer than the same field of `cur`. */
  predicate Accepts(cur: Group, inc: Group) {
    || inc.treeAt > cur.treeAt || inc.nameAt > cur.nameAt || inc.modeAt > cur.modeAt
    || inc.rankAt > cur.rankAt || inc.deletedAt > cur.deletedAt
  }

  /** Reference merge: every field from the side with the later stamp, ties to `cur`. */
  function Merge(cur: Group, inc: Group): Group {
    Group(
      if inc.treeAt > cur.treeAt then inc.tree else cur.tree, Later(cur.treeAt, inc.treeAt),
      if inc.nameAt > cur.nameAt then inc.name else cur.name, Later(cur.nameAt, inc.nameAt),
      if inc.modeAt > cur.modeAt then inc.mode else cur.mode, Later(cur.modeAt, inc.modeAt),
      if inc.rankAt > cur.rankAt then inc.rank else cur.rank, Later(cur.rankAt, inc.rankAt),
      Later(cur.deletedAt, inc.deletedAt))
  }

  function Later(a: int, b: int): int { if b > a then b else a }

  /** Equal stamps carry equal values. */
  predicate Agree(a: Group, b: Group) {
    && (a.treeAt == b.treeAt ==> a.tree == b.tree)
    && (a.nameAt == b.nameAt ==> a.name == b.name)
    && (a.modeAt == b.modeAt ==> a.mode == b.mode)
    && (a.rankAt == b.rankAt ==> a.rank == b.rank)
  }

  /** A stamped record: no stamp before the zero time, and at least one after it. */
  predicate Stamped(g: Group) {
    && g.treeAt >= 0 && g.nameAt >= 0 && g.modeAt >= 0 && g.rankAt >= 0 && g.deletedAt >= 0
    && Accepts(ZERO_GROUP, g)
  }

  lemma MergeAssociative(a: Group, b: Group, c: Group)
    ensures Merge(Merge(a, b), c) == Merge(a, Merge(b, c))
  {}

  /** One of two stamped values, the newer one. */
  predicate Newest<T(==)>(m: (T, int), a: (T, int), b: (T, int)) {
    (m == a || m == b) && m.1 >= a.1 && m.1 >= b.1
  }

  /** Every field of the merge is the newer of the two, with its stamp. */
  lemma MergeTakesNewest(a: Group, b: Group)
    ensures var m := Merge(a, b);
            && Newest((m.tree, m.treeAt), (a.tree, a.treeAt), (b.tree, b.treeAt))
            && Newest((m.name, m.nameAt), (a.name, a.nameAt), (b.name, b.nameAt))
            && Newest((m.mode, m.modeAt), (a.mode, a.modeAt), (b.mode, b.modeAt))
            && Newest((m.rank, m.rankAt), (a.rank, a.rankAt), (b.rank, b.rankAt))
            && Newest(((), m.deletedAt), ((), a.deletedAt), ((), b.deletedAt))
  {}

  /** Commutative exactly on records whose equal stamps carry equal values. */
  lemma MergeCommutes(a: Group, b: Group)
    ensures Merge(a, b) == Merge(b, a) <==> Agree(a, b)
  {}

  /** The input that shows it: two trees written at the same time; each side keeps its own. */
  lemma TieStaysApart(t: Pane, u: Pane, at: int)
    requires t != u
    ensures var a, b := ZERO_GROUP.(tree := Some(t), treeAt := at), ZERO_GROUP.(tree := Some(u), treeAt := at);
            Merge(a, b) == a && Merge(b, a) == b && a != b
  {}

  /** `cur` absorbs `inc` exactly when nothing in `inc` is newer. */
  lemma MergeIdle(cur: Group, inc: Group)
    ensures Merge(cur, inc) == cur <==> !Accepts(cur, inc)
  {
    if Accepts(cur, inc) {
      assert Merge(cur, inc) != cur by {
        assert Later(cur.treeAt, inc.treeAt) != cur.treeAt || Later(cur.nameAt, inc.nameAt) != cur.nameAt
            || Later(cur.modeAt, inc.modeAt) != cur.modeAt || Later(cur.rankAt, inc.rankAt) != cur.rankAt
            || Later(cur.deletedAt, inc.deletedAt) != cur.deletedAt;
      }
    }
  }

  /** The merge of one remote record, field by field. */
  method MergeRecord(cur: Group, inc: Group) returns (merged: Group, accepted: bool, treeAccepted: bool)
    ensures merged == Merge(cur, inc)
    ensures accepted <==> Accepts(cur, inc)
    ensures treeAccepted <==> inc.treeAt > cur.treeAt
  {
    merged, accepted, treeAccepted := cur, false, false;
    if inc.treeAt > cur.treeAt {
      merged := merged.(tree := inc.tree, treeAt := inc.treeAt);
      accepted, treeAccepted := true, true;
    }
    if inc.nameAt > cur.nameAt {
      merged, accepted := merged.(name := inc.name, nameAt := inc.nameAt), true;
    }
    if inc.modeAt > cur.modeAt {
      merged, accepted := merged.(mode := inc.mode, modeAt := inc.modeAt), true;
    }
    if inc.rankAt > cur.rankAt {
      merged, accepted := merged.(rank := inc.rank, rankAt := inc.rankAt), true;
    }
    if inc.deletedAt > cur.deletedAt {
      merged, accepted := merged.(deletedAt := inc.deletedAt), true;
    }
  }

  /** One id of a snapshot merged into a store. */
  function AbsorbOne(G: Groups, id: string, inc: Group): Groups {
    if Accepts(Get(G, id), inc) then G[id := Merge(Get(G, id), inc)] else G
  }

  /** Reference for the merge phase of a whole snapshot: every id on its own. */
  function Absorb(G: Groups, snap: Groups): Groups {
    map id | id in G.Keys + snap.Keys && (id in G || Accepts(ZERO_GROUP, snap[id])) ::
      if id in snap then Merge(Get(G, id), snap[id]) else G[id]
  }

  /** The part of a snapshot with these ids. */
  function Only(snap: Groups, ids: set<string>): Groups {
    map id | id in snap && id in ids :: snap[id]
  }

  /** The ids of a snapshot can be merged one by one, in any order. */
  lemma AbsorbNext(G: Groups, snap: Groups, done: set<string>, id: string)
    requires id in snap && id !in done
    ensures Absorb(G, Only(snap, done + {id})) == AbsorbOne(Absorb(G, Only(snap, done)), id, snap[id])
    ensures Get(Absorb(G, Only(snap, done)), id) == Get(G, id)
  {
    MergeIdle(Get(G, id), snap[id]);
    var next, one := Absorb(G, Only(snap, done + {id})), AbsorbOne(Absorb(G, Only(snap, done)), id, snap[id]);
    forall x ensures (x in next <==> x in one) && Get(next, x) == Get(one, x) {}
    SameLookups(next, one);
  }

  predicate AllStamped(G: Groups) { forall id :: id in G ==> Stamped(G[id]) }

  predicate AllAgree(G: Groups, H: Groups) {
    forall id :: id in G.Keys + H.Keys ==> Agree(Get(G, id), Get(H, id))
  }

  /** Merging two stores is commutative as a whole. */
  lemma AbsorbCommutes(G: Groups, H: Groups)
    requires AllStamped(G) && AllStamped(H) && AllAgree(G, H)
    ensures Absorb(G, H) == Absorb(H, G)
  {
    forall id | id in G.Keys + H.Keys
      ensures id in Absorb(G, H) && id in Absorb(H, G) && Absorb(G, H)[id] == Absorb(H, G)[id]
    {
      MergeCommutes(Get(G, id), Get(H, id));
    }
  }

  /** Merging a store already absorbed changes nothing, on either side. */
  lemma AbsorbAgain(G: Groups, H: Groups)
    ensures Absorb(Absorb(G, H), H) == Absorb(G, H)
    ensures Absorb(Absorb(G, H), G) == Absorb(G, H)
  {}

  lemma AbsorbGet(G: Groups, H: Groups, id: string)
    requires AllStamped(G) && AllStamped(H)
    ensures Get(Absorb(G, H), id) == Merge(Get(G, id), Get(H, id))
    ensures id in Absorb(G, H) <==> id in G || id in H
    ensures id in Absorb(G, H) ==> Stamped(Absorb(G, H)[id])
  {}

  lemma AbsorbStamped(G: Groups, H: Groups)
    requires AllStamped(G) && AllStamped(H)
    ensures AllStamped(Absorb(G, H))
  {
    forall id | id in Absorb(G, H) ensures Stamped(Absorb(G, H)[id]) {
      AbsorbGet(G, H, id);
    }
  }

  lemma AbsorbAssociative(G: Groups, H: Groups, K: Groups)
    requires AllStamped(G) && AllStamped(H) && AllStamped(K)
    ensures Absorb(Absorb(G, H), K) == Absorb(G, Absorb(H, K))
  {
    var L, R := Absorb(Absorb(G, H), K), Absorb(G, Absorb(H, K));
    AbsorbStamped(G, H);
    AbsorbStamped(H, K);
    forall id ensures (id in L <==> id in R) && Get(L, id) == Get(R, id) {
      AbsorbGet(G, H, id);
      AbsorbGet(H, K, id);
      AbsorbGet(Absorb(G, H), K, id);
      AbsorbGet(G, Absorb(H, K), id);
      MergeAssociative(Get(G, id), Get(H, id), Get(K, id));
    }
    SameLookups(L, R);
  }

  lemma SameLookups(L: Groups, R: Groups)
    requires forall id :: (id in L <==> id in R) && Get(L, id) == Get(R, id)
    ensures L == R
  {
    forall id | id in L ensures id in R && L[id] == R[id] {
      assert Get(L, id) == Get(R, id);
    }
    forall id | id in R ensures id in L {
      assert Get(L, id) == Get(R, id);
    }
  }

  /** The records a snapshot merge changes are the ones it accepts a field of. */
  lemma AbsorbChanges(G: Groups, snap: Groups, id: string)
    requires id in snap
    ensures Get(Absorb(G, snap), id) != Get(G, id) <==> Accepts(Get(G, id), snap[id])
  {
    MergeIdle(Get(G, id), snap[id]);
  }
}
