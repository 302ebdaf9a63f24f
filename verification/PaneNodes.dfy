// Pane trees as they are stored: every node names its kind in a string. The
// rewriting behind a session rename replaces any string, kinds included, so a
// session called like a node kind turns nodes into something else.
//
// For all other names the stored form behaves as `PaneTree.Pane` does, which is
// what the group store works on. This module proves that, and exactly what
// happens for the two names for which it fails.
module PaneNodes {
  import opened Options
  import opened PaneTree
  import opened GroupRuns

  datatype Node =
    | LeafNode(kind: string, key: string)
    | SplitNode(kind: string, dir: string, ratio: real, first: Node, second: Node)

  function Stored(p: Pane): Node {
    match p
    case Leaf(k) => LeafNode(LEAF, k)
    case Split(dir, ratio, a, b) => SplitNode(SPLIT, dir, ratio, Stored(a), Stored(b))
  }

  function StoredOf(p: Option<Pane>): Option<Node> {
    if p.None? then None else Some(Stored(p.value))
  }

  predicate WellFormed(n: Node) {
    match n
    case LeafNode(kind, _) => kind == LEAF
    case SplitNode(kind, _, _, a, b) => kind == SPLIT && WellFormed(a) && WellFormed(b)
  }

  function Read(n: Node): Pane
    requires WellFormed(n)
  {
    match n
    case LeafNode(_, key) => Leaf(key)
    case SplitNode(_, dir, ratio, a, b) => Split(dir, ratio, Read(a), Read(b))
  }

  lemma {:induction false} StoredRead(n: Node)
    requires WellFormed(n)
    ensures Stored(Read(n)) == n
  {
    if n.SplitNode? {
      StoredRead(n.first);
      StoredRead(n.second);
    }
  }

  /** Well-formed nodes are exactly the stored panes. */
  lemma WellFormedIsStored(n: Node)
    ensures WellFormed(n) <==> exists p :: n == Stored(p)
  {
    if WellFormed(n) {
      StoredRead(n);
      assert n == Stored(Read(n));
    } else {
      forall p ensures n != Stored(p) {
        StoredWellFormed(p);
      }
    }
  }

  lemma {:induction false} StoredWellFormed(p: Pane)
    ensures WellFormed(Stored(p))
  {
    if p.Split? {
      StoredWellFormed(p.first);
      StoredWellFormed(p.second);
    }
  }

  /** collectMemberKeys: leaves count, anything else is searched; a leaf without a key is an error. */
  function Members(n: Node): Option<set<string>> {
    match n
    case LeafNode(kind, key) => Some(if kind == LEAF then {key} else {})
    case SplitNode(kind, _, _, first, second) =>
      if kind == LEAF then None
      else
        var a, b := Members(first), Members(second);
        if a.None? || b.None? then None else Some(a.value + b.value)
  }

  datatype NodeRemoval = NodeRemoval(tree: Option<Node>, removed: bool)

  /** removeLeafAny: only nodes of the kind split are searched. */
  function RemoveNode(n: Node, key: string): NodeRemoval {
    match n
    case LeafNode(kind, k) =>
      if kind == LEAF && k == key then NodeRemoval(None, true) else NodeRemoval(Some(n), false)
    case SplitNode(kind, dir, ratio, first, second) =>
      if kind != SPLIT then NodeRemoval(Some(n), false)
      else
        var a, b := RemoveNode(first, key), RemoveNode(second, key);
        if !a.removed && !b.removed then NodeRemoval(Some(n), false)
        else if a.tree.None? && b.tree.None? then NodeRemoval(None, true)
        else if a.tree.None? then NodeRemoval(b.tree, true)
        else if b.tree.None? then NodeRemoval(a.tree, true)
        else NodeRemoval(Some(SplitNode(kind, dir, ratio, a.tree.value, b.tree.value)), true)
  }

  /** replaceStrings, on every string of every node. */
  function Rewrite(n: Node, olds: seq<string>, news: seq<string>): (Node, bool)
    requires |olds| == |news|
  {
    match n
    case LeafNode(kind, key) =>
      (LeafNode(ReplaceOne(kind, olds, news), ReplaceOne(key, olds, news)), kind in olds || key in olds)
    case SplitNode(kind, dir, ratio, first, second) =>
      var a, b := Rewrite(first, olds, news), Rewrite(second, olds, news);
      (SplitNode(ReplaceOne(kind, olds, news), ReplaceOne(dir, olds, news), ratio, a.0, b.0),
       kind in olds || dir in olds || a.1 || b.1)
  }

  // ---- panes stand for their stored form ----

  lemma {:induction false} StoredMembers(p: Pane)
    ensures Members(Stored(p)) == Some(Keys(p))
  {
    if p.Split? {
      StoredMembers(p.first);
      StoredMembers(p.second);
    }
  }

  lemma {:induction false} StoredRemove(p: Pane, key: string)
    ensures RemoveNode(Stored(p), key) == NodeRemoval(StoredOf(RemoveLeaf(p, key).tree), RemoveLeaf(p, key).removed)
  {
    if p.Split? {
      StoredRemove(p.first, key);
      StoredRemove(p.second, key);
    }
  }

  lemma {:induction false} ReplaceOneMisses(s: string, olds: seq<string>, news: seq<string>)
    requires |olds| == |news| && s !in olds
    ensures ReplaceOne(s, olds, news) == s
  {
    if olds != [] {
      ReplaceOneMisses(s, olds[1..], news[1..]);
    }
  }

  /** Rewriting names that are no node kind is rewriting the pane. */
  lemma {:induction false} StoredRewrite(p: Pane, olds: seq<string>, news: seq<string>)
    requires |olds| == |news| && NoKinds(olds)
    ensures Rewrite(Stored(p), olds, news) ==
              (Stored(ReplaceStrings(p, olds, news).0), ReplaceStrings(p, olds, news).1)
  {
    ReplaceOneMisses(LEAF, olds, news);
    ReplaceOneMisses(SPLIT, olds, news);
    if p.Split? {
      StoredRewrite(p.first, olds, news);
      StoredRewrite(p.second, olds, news);
    }
  }

  // ---- names that are node kinds ----

  /** A rewritten tree is a pane again exactly when none of its nodes' kinds was rewritten. */
  lemma {:induction false} RewrittenIsPaneIff(p: Pane, olds: seq<string>, news: seq<string>)
    requires |olds| == |news| && forall i :: 0 <= i < |olds| ==> olds[i] != news[i]
    ensures WellFormed(Rewrite(Stored(p), olds, news).0) <==> LEAF !in olds && (p.Split? ==> SPLIT !in olds)
  {
    ReplaceOneHits(LEAF, olds, news);
    ReplaceOneHits(SPLIT, olds, news);
    if p.Split? {
      RewrittenIsPaneIff(p.first, olds, news);
      RewrittenIsPaneIff(p.second, olds, news);
    }
  }

  /** A stored tree after a session of this host was renamed. */
  function Renamed(p: Pane, host: string, oldName: string, newName: string): Node {
    Rewrite(Stored(p), KeyForms(host, oldName), KeyForms(host, newName)).0
  }

  /** Exactly the names that are no node kind can be renamed without spoiling a tree. */
  lemma RenameSafeIff(host: string, oldName: string, newName: string)
    requires oldName != newName
    ensures (forall p :: WellFormed(Renamed(p, host, oldName, newName))) <==> !IsKind(oldName)
  {
    var olds, news := KeyForms(host, oldName), KeyForms(host, newName);
    FormsAreKinds(host, oldName);
    FormsPair(host, oldName, newName);
    forall p ensures WellFormed(Renamed(p, host, oldName, newName)) <==>
                     oldName != LEAF && (p.Split? ==> oldName != SPLIT) {
      RewrittenIsPaneIff(p, olds, news);
    }
    var p := Split("h", 0.5, Leaf("a"), Leaf("b"));
    assert WellFormed(Renamed(p, host, oldName, newName)) <==> !IsKind(oldName);
  }

  /** Renaming a session called leaf leaves no tree with a member. */
  lemma {:induction false} LeafRenameEmpties(p: Pane, olds: seq<string>, news: seq<string>)
    requires |olds| == |news| && forall i :: 0 <= i < |olds| ==> olds[i] != news[i]
    requires LEAF in olds && SPLIT !in olds
    ensures Members(Rewrite(Stored(p), olds, news).0) == Some({})
  {
    ReplaceOneHits(LEAF, olds, news);
    ReplaceOneMisses(SPLIT, olds, news);
    if p.Split? {
      LeafRenameEmpties(p.first, olds, news);
      LeafRenameEmpties(p.second, olds, news);
      var none: set<string> := {};
      assert none + none == none;
    }
  }

  /**
   * Renaming a session called split keeps the keys of a tree but makes it
   * unreadable if the new name is leaf, and for any other name keeps every
   * leaf of it from being removed.
   */
  lemma {:induction false} SplitRenameFreezes(p: Pane, olds: seq<string>, news: seq<string>, f: string -> string)
    requires |olds| == |news| && forall i :: 0 <= i < |olds| ==> olds[i] != news[i]
    requires forall s :: f(s) == ReplaceOne(s, olds, news)
    requires SPLIT in olds && LEAF !in olds
    ensures var m := Rewrite(Stored(p), olds, news).0;
            && (p.Leaf? || f(SPLIT) != LEAF ==> Members(m) == Some(set k | k in Keys(p) :: f(k)))
            && (p.Split? && f(SPLIT) == LEAF ==> Members(m) == None)
            && (p.Split? ==> forall key :: RemoveNode(m, key) == NodeRemoval(Some(m), false))
  {
    ReplaceOneHits(SPLIT, olds, news);
    ReplaceOneMisses(LEAF, olds, news);
    if p.Split? {
      SplitRenameFreezes(p.first, olds, news, f);
      SplitRenameFreezes(p.second, olds, news, f);
      assert f(SPLIT) != LEAF ==>
               (set k | k in Keys(p) :: f(k)) == (set k | k in Keys(p.first) :: f(k)) + (set k | k in Keys(p.second) :: f(k));
    } else {
      assert (set k | k in Keys(p) :: f(k)) == {f(p.key)};
    }
  }

  // ---- what enforcement makes of stored trees ----

  /** One key after the other removed, as the loop does. */
  function Cut(n: Option<Node>, keys: seq<string>): Option<Node>
    decreases |keys|
  {
    if keys == [] || n.None? then n else Cut(RemoveNode(n.value, keys[0]).tree, keys[1..])
  }

  function MembersOf(n: Option<Node>): set<string> {
    if n.None? || Members(n.value).None? then {} else Members(n.value).value
  }

  /**
   * What is left of a live group's tree once `taken` of its keys, in some order,
   * are removed; None when the group is tombstoned, by the loop or, for a tree
   * whose members cannot be read, by the second pass.
   */
  function Outcome(n: Node, taken: seq<string>): Option<Node> {
    if Members(n).None? then None
    else
      var rest := Cut(Some(n), taken);
      if Plural(MembersOf(rest)) then rest else None
  }

  lemma {:induction false} CutStored(p: Option<Pane>, keys: seq<string>)
    ensures Cut(StoredOf(p), keys) == StoredOf(WithoutOf(p, set k | k in keys))
    decreases |keys|
  {
    if p.Some? {
      var t := p.value;
      if keys == [] {
        assert (set k | k in keys) == {};
        WithoutUnchanged(t, {});
      } else {
        StoredRemove(t, keys[0]);
        RemoveLeafMeaning(t, keys[0]);
        CutStored(Without(t, {keys[0]}), keys[1..]);
        WithoutCompose(t, {keys[0]}, set k | k in keys[1..]);
        assert (set k | k in keys) == {keys[0]} + set k | k in keys[1..];
      }
    }
  }

  /** For a pane the outcome is that of the pane: pruned, and gone below two keys. */
  lemma StoredOutcome(p: Pane, taken: seq<string>)
    ensures Outcome(Stored(p), taken) ==
              if Plural(Keys(p) - set k | k in taken) then StoredOf(Without(p, set k | k in taken)) else None
  {
    var gone := set k | k in taken;
    StoredMembers(p);
    CutStored(Some(p), taken);
    WithoutFiltersLeaves(p, gone);
    var rest := Without(p, gone);
    if rest.Some? {
      StoredMembers(rest.value);
    }
    assert MembersOf(Cut(Some(Stored(p)), taken)) == Keys(p) - gone;
  }

  /** After renaming leaf, enforcement tombstones every live group with a tree, whatever keys are taken from it. */
  lemma LeafRenameKillsAll(p: Pane, host: string, newName: string, taken: seq<string>)
    requires newName != LEAF
    ensures Outcome(Renamed(p, host, LEAF, newName), taken) == None
  {
    FormsAreKinds(host, LEAF);
    FormsPair(host, LEAF, newName);
    var m := Renamed(p, host, LEAF, newName);
    LeafRenameEmpties(p, KeyForms(host, LEAF), KeyForms(host, newName));
    CutKeepsEmpty(m, taken);
  }

  lemma {:induction false} RemoveKeepsEmpty(n: Node, key: string)
    requires Members(n) == Some({})
    ensures RemoveNode(n, key) == NodeRemoval(Some(n), false)
  {
    if n.SplitNode? {
      var a, b := Members(n.first).value, Members(n.second).value;
      assert a <= a + b && b <= a + b;
      assert a == {} && b == {};
      RemoveKeepsEmpty(n.first, key);
      RemoveKeepsEmpty(n.second, key);
    }
  }

  lemma {:induction false} CutKeepsEmpty(n: Node, keys: seq<string>)
    requires Members(n) == Some({})
    ensures Cut(Some(n), keys) == Some(n)
    decreases |keys|
  {
    if keys != [] {
      RemoveKeepsEmpty(n, keys[0]);
      CutKeepsEmpty(n, keys[1..]);
    }
  }

  lemma {:induction false} CutFrozen(n: Node, keys: seq<string>)
    requires forall key :: RemoveNode(n, key) == NodeRemoval(Some(n), false)
    ensures Cut(Some(n), keys) == Some(n)
    decreases |keys|
  {
    if keys != [] {
      CutFrozen(n, keys[1..]);
    }
  }

  /** The keys of a pane renamed. */
  function RenamedKeys(p: Pane, host: string, oldName: string, newName: string): set<string> {
    var f := RenameKey(host, oldName, newName);
    set k | k in Keys(p) :: f(k)
  }

  /**
   * After renaming split to a name that is no kind, a group keeps all its keys
   * even when every one of them is taken: enforcement no longer separates it
   * from a group of higher priority with the same keys.
   */
  lemma SplitRenameShares(p: Pane, host: string, newName: string, taken: seq<string>)
    requires !IsKind(newName) && Plural(RenamedKeys(p, host, SPLIT, newName))
    ensures var m := Renamed(p, host, SPLIT, newName);
            Outcome(m, taken) == Some(m) && Members(m) == Some(RenamedKeys(p, host, SPLIT, newName))
  {
    var olds, news := KeyForms(host, SPLIT), KeyForms(host, newName);
    FormsAreKinds(host, SPLIT);
    FormsPair(host, SPLIT, newName);
    RenameKeyMeaning(host, SPLIT, newName, SPLIT);
    SplitRenameFreezes(p, olds, news, RenameKey(host, SPLIT, newName));
    assert p.Split?;
    CutFrozen(Renamed(p, host, SPLIT, newName), taken);
  }

  /** The example: a group with keys a and b loses to one with the same keys, and keeps them all the same. */
  lemma SharedAfterSplitRename()
    ensures var p := Split("h", 0.5, Leaf("a"), Leaf("b"));
            var m := Renamed(p, "", SPLIT, "x");
            Outcome(m, ["a", "b"]) == Some(m) && Members(m) == Some({"a", "b"})
  {
    var p := Split("h", 0.5, Leaf("a"), Leaf("b"));
    var keys := RenamedKeys(p, "", SPLIT, "x");
    RenameKeyMeaning("", SPLIT, "x", "a");
    RenameKeyMeaning("", SPLIT, "x", "b");
    assert "a" in Keys(p) && "b" in Keys(p);
    assert keys == {"a", "b"};
    SplitRenameShares(p, "", "x", ["a", "b"]);
  }

  /**
   * A rename to a name new to the tree keeps the group, when no key is taken
   * from it, exactly when the old name is not leaf and not split renamed to leaf.
   */
  lemma RenameKeepsGroupIff(p: Pane, host: string, oldName: string, newName: string)
    requires oldName != newName && Plural(Keys(p))
    requires forall k :: k in Keys(p) ==> k !in KeyForms(host, newName)
    ensures Outcome(Renamed(p, host, oldName, newName), []).Some?
            <==> oldName != LEAF && !(oldName == SPLIT && newName == LEAF)
  {
    RenamedStayPlural(p, host, oldName, newName);
    if oldName == LEAF {
      LeafRenameKillsAll(p, host, newName, []);
    } else if oldName == SPLIT {
      SplitCase(p, host, newName);
    } else {
      OrdinaryCase(p, host, oldName, newName);
    }
  }

  lemma OrdinaryCase(p: Pane, host: string, oldName: string, newName: string)
    requires oldName != newName && !IsKind(oldName) && Plural(RenamedKeys(p, host, oldName, newName))
    ensures Outcome(Renamed(p, host, oldName, newName), []).Some?
  {
    var olds, news := KeyForms(host, oldName), KeyForms(host, newName);
    var f := RenameKey(host, oldName, newName);
    FormsAreKinds(host, oldName);
    FormsPair(host, oldName, newName);
    StoredRewrite(p, olds, news);
    ReplaceStringsMeaning(p, olds, news, f);
    RenameKeys(p, f);
    StoredMembers(Rename(p, f));
  }

  lemma SplitCase(p: Pane, host: string, newName: string)
    requires newName != SPLIT && Plural(RenamedKeys(p, host, SPLIT, newName))
    ensures Outcome(Renamed(p, host, SPLIT, newName), []).Some? <==> newName != LEAF
  {
    if newName == LEAF {
      FormsAreKinds(host, SPLIT);
      FormsPair(host, SPLIT, newName);
      RenameKeyMeaning(host, SPLIT, newName, SPLIT);
      SplitRenameFreezes(p, KeyForms(host, SPLIT), KeyForms(host, newName), RenameKey(host, SPLIT, newName));
    } else {
      SplitRenameShares(p, host, newName, []);
    }
  }

  lemma RenamedStayPlural(p: Pane, host: string, oldName: string, newName: string)
    requires oldName != newName && Plural(Keys(p))
    requires forall k :: k in Keys(p) ==> k !in KeyForms(host, newName)
    ensures Plural(RenamedKeys(p, host, oldName, newName))
  {
    var f := RenameKey(host, oldName, newName);
    var a, b :| a in Keys(p) && b in Keys(p) && a != b;
    if f(a) == f(b) {
      FreshRenameInjective(host, oldName, newName, a, b);
    }
    assert f(a) in RenamedKeys(p, host, oldName, newName) && f(b) in RenamedKeys(p, host, oldName, newName);
  }
}
