// What each store operation does, as a relation between the records before and
// after it, and what holds in every run of operations.
module GroupRuns {
  import opened Options
  import opened PaneTree
  import opened GroupMerge
  import opened Enforcement

  datatype Op =
    | SetTree(id: string, tree: Option<Pane>)
    | SetName(id: string, name: string, mode: string)
    | SetRank(id: string, rank: string)
    | Delete(id: string)
    | ApplyRemote(id: string, inc: Group)
    | ApplySnapshot(snap: Groups)
    | MigrateKey(host: string, oldName: string, newName: string)
    | RemoveSessionKey(key: string)
    | Reconcile(gone: string -> bool)

  /** An operation with the clock readings it takes, in order. */
  datatype Event = Event(op: Op, now: int, later: int) {
    /**
     * The clock is past the zero time and does not run backwards inside one
     * call, and no session bears the name of a node kind of the tree.
     */
    predicate Proper() {
      0 < now <= later && (op.MigrateKey? ==> !IsKind(op.oldName))
    }
  }

  /** The two ways a session of this host is written in a tree. */
  function KeyForms(host: string, name: string): seq<string> {
    if host == "" then [name] else [name, host + "/" + name]
  }

  function RenameKey(host: string, oldName: string, newName: string): string -> string {
    (s: string) => ReplaceOne(s, KeyForms(host, oldName), KeyForms(host, newName))
  }

  function MigrateRecord(g: Group, f: string -> string, now: int): Group {
    if g.tree.Some? && Rename(g.tree.value, f) != g.tree.value
    then g.(tree := Some(Rename(g.tree.value, f)), treeAt := now)
    else g
  }

  function Migrated(G: Groups, f: string -> string, now: int): Groups {
    map id | id in G :: MigrateRecord(G[id], f, now)
  }

  function IsKey(key: string): string -> bool { k => k == key }

  function GoneIn(g: Group, gone: string -> bool): set<string> {
    set k | k in KeysIn(g) && gone(k)
  }

  /** One record with its gone keys pruned; fewer than two keys left means a tombstone. */
  function PruneRecord(g: Group, gone: string -> bool, now: int): Group {
    if !Placed(g) || GoneIn(g, gone) == {} then g
    else
      var rest := Without(g.tree.value, GoneIn(g, gone));
      if rest.None? then g.(deletedAt := now)
      else g.(tree := rest, treeAt := now, deletedAt := if !Plural(Keys(rest.value)) then now else 0)
  }

  function Pruned(G: Groups, gone: string -> bool, now: int): Groups {
    map id | id in G :: PruneRecord(G[id], gone, now)
  }

  /** No id of the snapshot has a newer field. */
  predicate NothingNew(G: Groups, snap: Groups) {
    forall id :: id in snap ==> !Accepts(Get(G, id), snap[id])
  }

  /** One operation, from `G` to `H`. */
  ghost predicate Step(G: Groups, e: Event, H: Groups) {
    match e.op
    case SetTree(id, tree) =>
      if !Live(Get(G, id)) then H == G
      else Enforced(G[id := Get(G, id).(tree := tree, treeAt := e.now)], H, e.now, id)
    case SetName(id, name, mode) =>
      if id !in G then H == G
      else H == G[id := G[id].(name := name, nameAt := e.now, mode := mode, modeAt := e.later)]
    case SetRank(id, rank) =>
      if id !in G then H == G else H == G[id := G[id].(rank := rank, rankAt := e.now)]
    case Delete(id) =>
      H == G[id := Get(G, id).(deletedAt := e.now)]
    case ApplyRemote(id, inc) =>
      if !Accepts(Get(G, id), inc) then H == G
      else Enforced(AbsorbOne(G, id, inc), H, e.now, if inc.treeAt > Get(G, id).treeAt then id else "")
    case ApplySnapshot(snap) =>
      if NothingNew(G, snap) then H == G else Enforced(Absorb(G, snap), H, e.now, "")
    case MigrateKey(host, oldName, newName) =>
      var moved := Migrated(G, RenameKey(host, oldName, newName), e.now);
      if oldName == "" || newName == "" || oldName == newName || moved == G then H == G
      else Enforced(moved, H, e.later, "")
    case RemoveSessionKey(key) =>
      var pruned := Pruned(G, IsKey(key), e.now);
      if pruned == G then H == G else Enforced(pruned, H, e.now, "")
    case Reconcile(gone) =>
      Enforced(Pruned(G, gone, e.now), H, e.now, "")
  }

  /** The store invariant. */
  ghost predicate Good(G: Groups) {
    AllStamped(G) && Settled(G)
  }

  predicate Dead(G: Groups, id: string) { id in G && !Live(G[id]) }

  lemma AbsorbNothingNew(G: Groups, snap: Groups)
    requires NothingNew(G, snap)
    ensures Absorb(G, snap) == G
  {
    forall id | id in snap && id in G ensures Merge(G[id], snap[id]) == G[id] {
      assert !Accepts(Get(G, id), snap[id]);
      MergeIdle(G[id], snap[id]);
    }
    forall id | id in snap && id !in G ensures !Accepts(ZERO_GROUP, snap[id]) {
      assert !Accepts(Get(G, id), snap[id]);
    }
  }

  lemma EnforcedKeepsStamps(G: Groups, H: Groups, now: int, winner: string)
    requires AllStamped(G) && Enforced(G, H, now, winner) && now > 0
    ensures AllStamped(H)
  {}

  /** Tombstones of `G` are still tombstones in `H`. */
  ghost predicate TombstonesKept(G: Groups, H: Groups) {
    forall id :: Dead(G, id) ==> Dead(H, id)
  }

  /** Writing `mid` over `G` and enforcing gives a good store, if `mid` is stamped and keeps tombstones. */
  lemma EnforcedGood(G: Groups, mid: Groups, H: Groups, now: int, winner: string)
    requires AllStamped(mid) && TombstonesKept(G, mid) && Enforced(mid, H, now, winner) && now > 0
    ensures Good(H) && TombstonesKept(G, H)
  {
    EnforcedKeepsStamps(mid, H, now, winner);
    EnforcedSettles(mid, H, now, winner);
    EnforcedOnlyPrunes(mid, H, now, winner);
  }

  lemma MergedKeepsStamps(G: Groups, id: string, inc: Group)
    requires AllStamped(G) && Accepts(Get(G, id), inc)
    ensures Stamped(Merge(Get(G, id), inc))
    ensures Dead(G, id) ==> !Live(Merge(Get(G, id), inc))
  {}

  lemma AbsorbKeepsStamps(G: Groups, snap: Groups)
    requires AllStamped(G)
    ensures AllStamped(Absorb(G, snap)) && TombstonesKept(G, Absorb(G, snap))
  {
    forall id | id in Absorb(G, snap)
      ensures Stamped(Absorb(G, snap)[id]) && (Dead(G, id) ==> !Live(Absorb(G, snap)[id]))
    {
      if id in snap && Accepts(Get(G, id), snap[id]) {
        MergedKeepsStamps(G, id, snap[id]);
      } else if id in snap {
        MergeIdle(Get(G, id), snap[id]);
      }
    }
  }

  lemma MigratedKeepsStamps(G: Groups, f: string -> string, now: int)
    requires AllStamped(G) && now > 0
    ensures AllStamped(Migrated(G, f, now)) && TombstonesKept(G, Migrated(G, f, now))
  {}

  lemma PrunedKeepsStamps(G: Groups, gone: string -> bool, now: int)
    requires AllStamped(G) && now > 0
    ensures AllStamped(Pruned(G, gone, now)) && TombstonesKept(G, Pruned(G, gone, now))
  {}

  lemma FieldUpdateKeepsSettled(G: Groups, id: string, g: Group)
    requires Settled(G) && (Placed(g) ==> id in G && Placed(G[id]) && g.tree == G[id].tree)
    ensures Settled(G[id := g])
  {
    var H := G[id := g];
    forall i | i in H && Placed(H[i]) ensures i in G && Placed(G[i]) && KeysIn(H[i]) == KeysIn(G[i]) {}
  }

  /** Operations that change one record and do not enforce. */
  lemma EditsKeepGood(G: Groups, e: Event, H: Groups)
    requires Good(G) && e.Proper() && Step(G, e, H)
    requires e.op.SetName? || e.op.SetRank? || e.op.Delete?
    ensures Good(H) && TombstonesKept(G, H)
  {
    if H != G {
      FieldUpdateKeepsSettled(G, e.op.id, H[e.op.id]);
    }
  }

  lemma MergesKeepGood(G: Groups, e: Event, H: Groups)
    requires Good(G) && e.Proper() && Step(G, e, H)
    requires e.op.ApplyRemote? || e.op.ApplySnapshot?
    ensures Good(H) && TombstonesKept(G, H)
  {
    if H != G {
      match e.op
      case ApplyRemote(id, inc) =>
        MergedKeepsStamps(G, id, inc);
        EnforcedGood(G, AbsorbOne(G, id, inc), H, e.now, if inc.treeAt > Get(G, id).treeAt then id else "");
      case ApplySnapshot(snap) =>
        AbsorbKeepsStamps(G, snap);
        EnforcedGood(G, Absorb(G, snap), H, e.now, "");
    }
  }

  lemma TreeWritesKeepGood(G: Groups, e: Event, H: Groups)
    requires Good(G) && e.Proper() && Step(G, e, H)
    requires e.op.SetTree? || e.op.MigrateKey?
    ensures Good(H) && TombstonesKept(G, H)
  {
    if H != G {
      match e.op
      case SetTree(id, tree) =>
        EnforcedGood(G, G[id := Get(G, id).(tree := tree, treeAt := e.now)], H, e.now, id);
      case MigrateKey(host, oldName, newName) =>
        MigratedKeepsStamps(G, RenameKey(host, oldName, newName), e.now);
        EnforcedGood(G, Migrated(G, RenameKey(host, oldName, newName), e.now), H, e.later, "");
    }
  }

  lemma PrunesKeepGood(G: Groups, e: Event, H: Groups)
    requires Good(G) && e.Proper() && Step(G, e, H)
    requires e.op.RemoveSessionKey? || e.op.Reconcile?
    ensures Good(H) && TombstonesKept(G, H)
  {
    if H != G {
      var gone := if e.op.Reconcile? then e.op.gone else IsKey(e.op.key);
      PrunedKeepsStamps(G, gone, e.now);
      EnforcedGood(G, Pruned(G, gone, e.now), H, e.now, "");
    }
  }

  /** Every operation keeps the store good and every tombstone in place. */
  lemma StepsKeepGood(G: Groups, e: Event, H: Groups)
    requires Good(G) && e.Proper() && Step(G, e, H)
    ensures Good(H) && TombstonesKept(G, H)
  {
    match e.op
    case SetTree(_, _) => TreeWritesKeepGood(G, e, H);
    case MigrateKey(_, _, _) => TreeWritesKeepGood(G, e, H);
    case SetName(_, _, _) => EditsKeepGood(G, e, H);
    case SetRank(_, _) => EditsKeepGood(G, e, H);
    case Delete(_) => EditsKeepGood(G, e, H);
    case ApplyRemote(_, _) => MergesKeepGood(G, e, H);
    case ApplySnapshot(_) => MergesKeepGood(G, e, H);
    case RemoveSessionKey(_) => PrunesKeepGood(G, e, H);
    case Reconcile(_) => PrunesKeepGood(G, e, H);
  }

  ghost predicate StepAt(states: seq<Groups>, events: seq<Event>, i: nat) {
    && i < |events| && |states| == |events| + 1
    && events[i].Proper() && Step(states[i], events[i], states[i + 1])
  }

  /** `states` is a run of `events`. */
  ghost predicate Run(states: seq<Groups>, events: seq<Event>) {
    && |states| == |events| + 1
    && (forall i :: 0 <= i < |events| ==> StepAt(states, events, i))
  }

  /**
   * In every run from a good store, every store is good: no two live groups
   * share a key and every live tree has two keys or more. A tombstone, once
   * there, is there for the rest of the run.
   */
  lemma {:induction false} RunsStayGood(states: seq<Groups>, events: seq<Event>, i: nat, j: nat)
    requires Run(states, events) && Good(states[0]) && i <= j < |states|
    ensures forall k :: 0 <= k <= j ==> Good(states[k]) && (i <= k ==> TombstonesKept(states[i], states[k]))
    decreases j
  {
    if j > 0 {
      RunsStayGood(states, events, if i < j then i else j - 1, j - 1);
      assert StepAt(states, events, j - 1);
      StepsKeepGood(states[j - 1], events[j - 1], states[j]);
    }
  }

  /** In particular at all points of every run from the empty store. */
  lemma RunsFromEmpty(states: seq<Groups>, events: seq<Event>)
    requires Run(states, events) && states[0] == map[]
    ensures forall j :: 0 <= j < |states| ==> Good(states[j])
    ensures forall i, j :: 0 <= i <= j < |states| ==> TombstonesKept(states[i], states[j])
  {
    forall i, j | 0 <= i <= j < |states| ensures Good(states[j]) && TombstonesKept(states[i], states[j]) {
      RunsStayGood(states, events, i, j);
    }
  }

  /**
   * A later tree stamp does not bring a tombstoned group back, locally or from
   * a peer: the write is refused, and the merged tree stays under the tombstone.
   */
  lemma LaterStampStaysDead(tree: Pane, other: Pane, H: Groups)
    ensures var dead := ZERO_GROUP.(tree := Some(tree), treeAt := 1, deletedAt := 2);
            var G: Groups := map["g" := dead];
            && (Step(G, Event(SetTree("g", Some(other)), 9, 9), H) ==> H == G)
            && (Step(G, Event(ApplyRemote("g", ZERO_GROUP.(tree := Some(other), treeAt := 8)), 9, 9), H) ==>
                  H == map["g" := dead.(tree := Some(other), treeAt := 8)])
  {
    var dead := ZERO_GROUP.(tree := Some(tree), treeAt := 1, deletedAt := 2);
    var G: Groups := map["g" := dead];
    var inc := ZERO_GROUP.(tree := Some(other), treeAt := 8);
    if Step(G, Event(ApplyRemote("g", inc), 9, 9), H) {
      var merged := dead.(tree := Some(other), treeAt := 8);
      assert AbsorbOne(G, "g", inc) == map["g" := merged];
      assert H["g"] == merged && H.Keys == {"g"};
    }
  }

  /** The group just written wins: it keeps exactly the tree given, and no other live group shares a key. */
  lemma SetTreeWins(G: Groups, id: string, tree: Pane, now: int, H: Groups)
    requires Good(G) && now > 0 && Live(Get(G, id)) && Plural(Keys(tree))
    requires Step(G, Event(SetTree(id, Some(tree)), now, now), H)
    ensures id in H && Placed(H[id]) && H[id].tree == Some(tree)
    ensures forall j :: j in H && j != id && Placed(H[j]) ==> KeysIn(H[j]) !! Keys(tree)
  {
    var M := G[id := Get(G, id).(tree := Some(tree), treeAt := now)];
    WinnerKeepsTree(M, H, now, id);
    StepsKeepGood(G, Event(SetTree(id, Some(tree)), now, now), H);
  }

  /** A tree a peer sends, newer than the one here, survives whole as well. */
  lemma RemoteTreeWins(G: Groups, id: string, inc: Group, now: int, H: Groups)
    requires Good(G) && now > 0 && inc.treeAt > Get(G, id).treeAt && Placed(Merge(Get(G, id), inc))
    requires Plural(KeysIn(inc)) && Step(G, Event(ApplyRemote(id, inc), now, now), H)
    ensures id in H && Placed(H[id]) && H[id].tree == inc.tree
    ensures forall j :: j in H && j != id && Placed(H[j]) ==> KeysIn(H[j]) !! KeysIn(inc)
  {
    WinnerKeepsTree(AbsorbOne(G, id, inc), H, now, id);
    StepsKeepGood(G, Event(ApplyRemote(id, inc), now, now), H);
  }

  /** `H` differs from `G` at `id` only. */
  ghost predicate OnlyAt(G: Groups, H: Groups, id: string) {
    forall j :: j != id ==> Get(H, j) == Get(G, j)
  }

  /** Names written here reach a peer whose own are older, with their mode; nothing else is written. */
  lemma NameReachesPeer(G: Groups, id: string, name: string, mode: string, now: int, later: int, H: Groups, b: Group)
    requires id in G && Step(G, Event(SetName(id, name, mode), now, later), H)
    ensures id in H && OnlyAt(G, H, id)
    ensures H[id] == G[id].(name := H[id].name, nameAt := H[id].nameAt, mode := H[id].mode, modeAt := H[id].modeAt)
    ensures b.nameAt < now ==> Merge(b, H[id]).name == name
    ensures b.modeAt < later ==> Merge(b, H[id]).mode == mode
  {}

  lemma RankReachesPeer(G: Groups, id: string, rank: string, now: int, H: Groups, b: Group)
    requires id in G && Step(G, Event(SetRank(id, rank), now, now), H)
    ensures id in H && OnlyAt(G, H, id)
    ensures H[id] == G[id].(rank := H[id].rank, rankAt := H[id].rankAt)
    ensures b.rankAt < now ==> Merge(b, H[id]).rank == rank
  {}

  /** A deletion kills the group here and at every peer that hears of it, and keeps its fields. */
  lemma DeleteReachesPeer(G: Groups, id: string, now: int, H: Groups, b: Group)
    requires now > 0 && Step(G, Event(Delete(id), now, now), H)
    ensures Dead(H, id) && OnlyAt(G, H, id)
    ensures H[id] == Get(G, id).(deletedAt := H[id].deletedAt)
    ensures !Live(Merge(b, H[id]))
  {}

  /** A tree written here replaces an older one at a peer. */
  lemma TreeReachesPeer(G: Groups, id: string, tree: Pane, now: int, H: Groups, b: Group)
    requires Good(G) && now > 0 && Live(Get(G, id)) && Plural(Keys(tree))
    requires Step(G, Event(SetTree(id, Some(tree)), now, now), H)
    ensures id in H && H[id] == Get(G, id).(tree := Some(tree), treeAt := H[id].treeAt)
    ensures b.treeAt < now ==> Merge(b, H[id]).tree == Some(tree)
  {
    WinnerKeepsTree(G[id := Get(G, id).(tree := Some(tree), treeAt := now)], H, now, id);
  }

  lemma RenameKeyMeaning(host: string, oldName: string, newName: string, s: string)
    ensures RenameKey(host, oldName, newName)(s) ==
              if s == oldName then newName
              else if host != "" && s == host + "/" + oldName then host + "/" + newName
              else s
  {
    var olds, news := KeyForms(host, oldName), KeyForms(host, newName);
    assert ReplaceOne(s, olds[1..], news[1..]) ==
             if host != "" && s == host + "/" + oldName then host + "/" + newName else s;
  }

  /** Both forms of the new name are absent from the live trees. */
  ghost predicate Fresh(G: Groups, host: string, newName: string) {
    forall id, k :: id in G && Placed(G[id]) && k in KeysIn(G[id]) ==> k !in KeyForms(host, newName)
  }

  lemma FreshRenameInjective(host: string, oldName: string, newName: string, k: string, l: string)
    requires k !in KeyForms(host, newName) && l !in KeyForms(host, newName)
    requires RenameKey(host, oldName, newName)(k) == RenameKey(host, oldName, newName)(l)
    ensures k == l
  {
    RenameKeyMeaning(host, oldName, newName, k);
    RenameKeyMeaning(host, oldName, newName, l);
    assert newName in KeyForms(host, newName) && (host != "" ==> KeyForms(host, newName)[1] == host + "/" + newName);
    assert |host + "/" + newName| != |newName|;
  }

  /** The forms of different names differ, one by one. */
  lemma FormsPair(host: string, oldName: string, newName: string)
    requires oldName != newName
    ensures var olds, news := KeyForms(host, oldName), KeyForms(host, newName);
            |olds| == |news| && forall i :: 0 <= i < |olds| ==> olds[i] != news[i]
  {
    assert (host + "/" + oldName)[|host| + 1..] == oldName && (host + "/" + newName)[|host| + 1..] == newName;
  }

  lemma FormsAreKinds(host: string, name: string)
    ensures LEAF in KeyForms(host, name) <==> name == LEAF
    ensures SPLIT in KeyForms(host, name) <==> name == SPLIT
  {
    if host != "" {
      assert (host + "/" + name)[|host|] == '/';
      assert KeyForms(host, name)[1] == host + "/" + name;
    }
    assert KeyForms(host, name)[0] == name;
  }

  lemma MigratedKeys(g: Group, f: string -> string, now: int)
    ensures KeysIn(MigrateRecord(g, f, now)) == set k | k in KeysIn(g) :: f(k)
    ensures Placed(MigrateRecord(g, f, now)) == Placed(g)
  {
    if g.tree.Some? {
      RenameKeys(g.tree.value, f);
    }
  }

  lemma MigratedPair(G: Groups, host: string, oldName: string, newName: string, now: int, i: string, j: string)
    requires Settled(G) && Fresh(G, host, newName)
    requires i in G && j in G && Placed(G[i]) && Placed(G[j])
    ensures var M := Migrated(G, RenameKey(host, oldName, newName), now);
            Plural(KeysIn(M[i])) && (i != j ==> KeysIn(M[i]) !! KeysIn(M[j]))
  {
    var f := RenameKey(host, oldName, newName);
    var M := Migrated(G, f, now);
    MigratedKeys(G[i], f, now);
    MigratedKeys(G[j], f, now);
    var a, b :| a in KeysIn(G[i]) && b in KeysIn(G[i]) && a != b;
    if f(a) == f(b) {
      FreshRenameInjective(host, oldName, newName, a, b);
    }
    assert f(a) in KeysIn(M[i]) && f(b) in KeysIn(M[i]);
    if i != j && !(KeysIn(M[i]) !! KeysIn(M[j])) {
      var x :| x in KeysIn(M[i]) && x in KeysIn(M[j]);
      var k :| k in KeysIn(G[i]) && f(k) == x;
      var l :| l in KeysIn(G[j]) && f(l) == x;
      FreshRenameInjective(host, oldName, newName, k, l);
      assert false;
    }
  }

  /**
   * Renaming a session to a name no live group uses loses nothing: no group is
   * tombstoned or pruned, and the keys are the old ones renamed. The session
   * must not bear the name of a node kind; see `PaneNodes` for those.
   */
  lemma MigrateToFreshName(G: Groups, host: string, oldName: string, newName: string, now: int, later: int, H: Groups)
    requires Good(G) && 0 < now <= later && Fresh(G, host, newName)
    requires oldName != "" && newName != "" && oldName != newName && !IsKind(oldName)
    requires Step(G, Event(MigrateKey(host, oldName, newName), now, later), H)
    ensures H == Migrated(G, RenameKey(host, oldName, newName), now)
    ensures forall id :: id in G && Placed(G[id]) ==>
              Placed(H[id]) && KeysIn(H[id]) == set k | k in KeysIn(G[id]) :: RenameKey(host, oldName, newName)(k)
    ensures forall id :: id in G ==> H[id] == G[id] || H[id] == G[id].(tree := H[id].tree, treeAt := now)
  {
    var f := RenameKey(host, oldName, newName);
    var M := Migrated(G, f, now);
    forall id | id in G
      ensures Placed(M[id]) == Placed(G[id]) && KeysIn(M[id]) == set k | k in KeysIn(G[id]) :: f(k)
    {
      MigratedKeys(G[id], f, now);
    }
    forall i, j | i in M && j in M && Placed(M[i]) && Placed(M[j])
      ensures Plural(KeysIn(M[i])) && (i != j ==> KeysIn(M[i]) !! KeysIn(M[j]))
    {
      MigratedPair(G, host, oldName, newName, now, i, j);
    }
    if M != G {
      EnforcedIdempotent(M, H, later, "");
    }
  }

  lemma PrunedHoldsNone(g: Group, gone: string -> bool, now: int, k: string)
    requires now > 0 && Placed(PruneRecord(g, gone, now)) && k in KeysIn(PruneRecord(g, gone, now))
    ensures !gone(k)
  {
    WithoutFiltersLeaves(g.tree.value, GoneIn(g, gone));
    GoneInMeaning(g, gone, k);
  }

  lemma GoneInMeaning(g: Group, gone: string -> bool, k: string)
    ensures k in GoneIn(g, gone) <==> k in KeysIn(g) && gone(k)
  {}

  lemma PurgedAfterEnforce(G: Groups, gone: string -> bool, now: int, H: Groups, id: string, k: string)
    requires now > 0 && Enforced(Pruned(G, gone, now), H, now, "")
    requires id in H && Placed(H[id]) && k in KeysIn(H[id])
    ensures !gone(k)
  {
    EnforcedOnlyPrunes(Pruned(G, gone, now), H, now, "");
    PrunedHoldsNone(G[id], gone, now, k);
  }

  /** The keys of a record that are not gone. */
  function KeptIn(g: Group, gone: string -> bool): set<string> {
    set k | k in KeysIn(g) && !gone(k)
  }

  lemma PrunedKeys(g: Group, gone: string -> bool, now: int)
    requires now > 0 && Placed(g) && Plural(KeysIn(g))
    ensures var h := PruneRecord(g, gone, now);
            && (Placed(h) <==> Plural(KeptIn(g, gone)))
            && (Placed(h) ==> KeysIn(h) == KeptIn(g, gone))
            && (h == g <==> GoneIn(g, gone) == {})
            && (h != g ==> h.treeAt == now || h.deletedAt == now)
  {
    assert KeptIn(g, gone) == KeysIn(g) - GoneIn(g, gone);
    WithoutFiltersLeaves(g.tree.value, GoneIn(g, gone));
    WithoutUnchanged(g.tree.value, GoneIn(g, gone));
  }

  /** On a good store there is nothing left to enforce after pruning. */
  lemma PrunedSettled(G: Groups, gone: string -> bool, now: int)
    requires Good(G) && now > 0
    ensures Settled(Pruned(G, gone, now))
  {
    var P := Pruned(G, gone, now);
    forall id | id in P && Placed(P[id]) ensures Placed(G[id]) && Plural(KeysIn(P[id])) && KeysIn(P[id]) <= KeysIn(G[id]) {
      PrunedKeys(G[id], gone, now);
    }
  }

  /** What pruning the gone keys must leave of one live group: the other keys, if there are two; and a new stamp. */
  ghost predicate PrunedTo(g: Group, h: Group, gone: string -> bool, now: int) {
    && (Placed(h) <==> Plural(KeptIn(g, gone)))
    && (Placed(h) ==> KeysIn(h) == KeptIn(g, gone))
    && (h == g <==> GoneIn(g, gone) == {})
    && (h != g ==> h.treeAt == now || h.deletedAt == now)
  }

  lemma PruneExact(G: Groups, gone: string -> bool, now: int, H: Groups)
    requires Good(G) && now > 0
    requires H == Pruned(G, gone, now) || Enforced(Pruned(G, gone, now), H, now, "")
    ensures H.Keys == G.Keys
    ensures forall id :: id in G ==> if Placed(G[id]) then PrunedTo(G[id], H[id], gone, now) else H[id] == G[id]
  {
    PrunedSettled(G, gone, now);
    if H != Pruned(G, gone, now) {
      EnforcedIdempotent(Pruned(G, gone, now), H, now, "");
    }
    forall id | id in G && Placed(G[id]) ensures PrunedTo(G[id], H[id], gone, now) {
      PrunedKeys(G[id], gone, now);
    }
  }

  /** A reconciliation takes the gone keys out of the live groups, dissolves those left with fewer than two, and touches nothing else. */
  lemma ReconcileExact(G: Groups, gone: string -> bool, now: int, H: Groups)
    requires Good(G) && now > 0 && Step(G, Event(Reconcile(gone), now, now), H)
    ensures H.Keys == G.Keys
    ensures forall id :: id in G ==> if Placed(G[id]) then PrunedTo(G[id], H[id], gone, now) else H[id] == G[id]
  {
    PruneExact(G, gone, now, H);
  }

  /** And so does the removal of one key. */
  lemma RemoveSessionKeyExact(G: Groups, key: string, now: int, H: Groups)
    requires Good(G) && now > 0 && Step(G, Event(RemoveSessionKey(key), now, now), H)
    ensures H.Keys == G.Keys
    ensures forall id :: id in G ==> if Placed(G[id]) then PrunedTo(G[id], H[id], k => k == key, now) else H[id] == G[id]
  {
    PruneExact(G, IsKey(key), now, H);
    forall id | id in G && Placed(G[id]) ensures PrunedTo(G[id], H[id], k => k == key, now) {
      assert KeptIn(G[id], k => k == key) == KeptIn(G[id], IsKey(key));
      assert GoneIn(G[id], k => k == key) == GoneIn(G[id], IsKey(key));
    }
  }

  /** After a reconciliation no live group holds a gone key. */
  lemma ReconcilePurges(G: Groups, gone: string -> bool, now: int, H: Groups)
    requires now > 0 && Step(G, Event(Reconcile(gone), now, now), H)
    ensures forall id, k :: id in H && Placed(H[id]) && k in KeysIn(H[id]) ==> !gone(k)
  {
    forall id, k | id in H && Placed(H[id]) && k in KeysIn(H[id]) ensures !gone(k) {
      PurgedAfterEnforce(G, gone, now, H, id, k);
    }
  }

  /** After RemoveSessionKey no live group holds the key. */
  lemma RemoveSessionKeyPurges(G: Groups, key: string, now: int, H: Groups)
    requires now > 0 && Step(G, Event(RemoveSessionKey(key), now, now), H)
    ensures forall id :: id in H && Placed(H[id]) ==> key !in KeysIn(H[id])
  {
    var gone := IsKey(key);
    forall id | id in H && Placed(H[id]) ensures key !in KeysIn(H[id]) {
      if Pruned(G, gone, now) == G {
        assert Pruned(G, gone, now)[id] == G[id];
        if key in KeysIn(G[id]) {
          PrunedHoldsNone(G[id], gone, now, key);
        }
      } else if key in KeysIn(H[id]) {
        PurgedAfterEnforce(G, gone, now, H, id, key);
      }
    }
  }
}
