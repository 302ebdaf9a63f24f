// Pane trees: the binary layout trees stored inside a group, the recursive
// leaf removal that prunes them, and the set of session keys they hold.
module PaneTree {
  import opened Options
  import opened StringOrder

  datatype Pane =
    | Leaf(key: string)
    | Split(dir: string, ratio: real, first: Pane, second: Pane)

  /** Session keys from left to right. */
  function Leaves(t: Pane): seq<string> {
    match t
    case Leaf(k) => [k]
    case Split(_, _, a, b) => Leaves(a) + Leaves(b)
  }

  function Keys(t: Pane): set<string> {
    match t
    case Leaf(k) => {k}
    case Split(_, _, a, b) => Keys(a) + Keys(b)
  }

  function KeysOf(t: Option<Pane>): set<string> {
    if t.None? then {} else Keys(t.value)
  }

  function LeavesOf(t: Option<Pane>): seq<string> {
    if t.None? then [] else Leaves(t.value)
  }

  /** Result of a removal: what is left, and whether anything was removed. */
  datatype Removal = Removal(tree: Option<Pane>, removed: bool)

  /** removeLeafAny: drop every leaf holding `key`, splits collapse to the side that is left. */
  function RemoveLeaf(t: Pane, key: string): Removal {
    match t
    case Leaf(k) => if k == key then Removal(None, true) else Removal(Some(t), false)
    case Split(dir, ratio, first, second) =>
      var a := RemoveLeaf(first, key);
      var b := RemoveLeaf(second, key);
      if !a.removed && !b.removed then Removal(Some(t), false)
      else if a.tree.None? && b.tree.None? then Removal(None, true)
      else if a.tree.None? then Removal(b.tree, true)
      else if b.tree.None? then Removal(a.tree, true)
      else Removal(Some(Split(dir, ratio, a.tree.value, b.tree.value)), true)
  }

  /** Reference: the tree without the leaves whose key is in `gone`, in one pass. */
  function Without(t: Pane, gone: set<string>): Option<Pane> {
    match t
    case Leaf(k) => if k in gone then None else Some(t)
    case Split(dir, ratio, first, second) =>
      var a := Without(first, gone);
      var b := Without(second, gone);
      if a.None? then b
      else if b.None? then a
      else Some(Split(dir, ratio, a.value, b.value))
  }

  function WithoutOf(t: Option<Pane>, gone: set<string>): Option<Pane> {
    if t.None? then None else Without(t.value, gone)
  }

  /** Two distinct keys or more. */
  predicate Plural(s: set<string>) {
    exists a, b :: a in s && b in s && a != b
  }

  lemma PluralIsTwoOrMore(s: set<string>)
    ensures Plural(s) <==> |s| >= 2
  {
    if Plural(s) {
      var a, b :| a in s && b in s && a != b;
      assert |s - {a} - {b}| == |s| - 2;
    }
    if |s| >= 2 {
      TwoMembers(s);
    }
  }

  lemma TwoMembers(s: set<string>)
    requires |s| >= 2
    ensures Plural(s)
  {
    var a :| a in s;
    assert |s - {a}| == |s| - 1;
    var b :| b in s - {a};
  }

  function FilterOut(s: seq<string>, gone: set<string>): seq<string> {
    if s == [] then []
    else if s[0] in gone then FilterOut(s[1..], gone)
    else [s[0]] + FilterOut(s[1..], gone)
  }

  lemma {:induction false} FilterOutAppend(s: seq<string>, t: seq<string>, gone: set<string>)
    ensures FilterOut(s + t, gone) == FilterOut(s, gone) + FilterOut(t, gone)
  {
    if s == [] {
      assert s + t == t;
    } else {
      FilterOutAppend(s[1..], t, gone);
      assert (s + t)[0] == s[0] && (s + t)[1..] == s[1..] + t;
    }
  }

  lemma {:induction false} KeysAreTheLeaves(t: Pane)
    ensures forall k :: k in Keys(t) <==> k in Leaves(t)
  {
    match t
    case Leaf(_) =>
    case Split(_, _, a, b) => KeysAreTheLeaves(a); KeysAreTheLeaves(b);
  }

  /** Pruning keeps the in-order leaf sequence, minus the pruned keys. */
  lemma {:induction false} WithoutFiltersLeaves(t: Pane, gone: set<string>)
    ensures LeavesOf(Without(t, gone)) == FilterOut(Leaves(t), gone)
    ensures KeysOf(Without(t, gone)) == Keys(t) - gone
    ensures Without(t, gone).None? <==> Keys(t) <= gone
  {
    match t
    case Leaf(k) => assert k in Keys(t);
    case Split(_, _, a, b) =>
      WithoutFiltersLeaves(a, gone);
      WithoutFiltersLeaves(b, gone);
      FilterOutAppend(Leaves(a), Leaves(b), gone);
  }

  /** The tree is left alone exactly when it holds none of the pruned keys. */
  lemma {:induction false} WithoutUnchanged(t: Pane, gone: set<string>)
    ensures Without(t, gone) == Some(t) <==> Keys(t) !! gone
  {
    WithoutFiltersLeaves(t, gone);
    match t
    case Leaf(_) =>
    case Split(_, _, a, b) =>
      WithoutUnchanged(a, gone);
      WithoutUnchanged(b, gone);
  }

  /** removeLeafAny is one-key pruning, and reports a removal exactly when the key was there. */
  lemma {:induction false} RemoveLeafMeaning(t: Pane, key: string)
    ensures RemoveLeaf(t, key).tree == Without(t, {key})
    ensures RemoveLeaf(t, key).removed <==> key in Keys(t)
  {
    WithoutUnchanged(t, {key});
    match t
    case Leaf(_) =>
    case Split(_, _, a, b) =>
      RemoveLeafMeaning(a, key);
      RemoveLeafMeaning(b, key);
  }

  /** Pruning in two passes is pruning the union at once, so the order of keys cannot matter. */
  lemma {:induction false} WithoutCompose(t: Pane, g: set<string>, h: set<string>)
    ensures WithoutOf(Without(t, g), h) == Without(t, g + h)
  {
    match t
    case Leaf(_) =>
    case Split(_, _, a, b) =>
      WithoutCompose(a, g, h);
      WithoutCompose(b, g, h);
  }

  lemma {:induction false} WithoutOnlyOwnKeys(t: Pane, g: set<string>)
    ensures Without(t, g * Keys(t)) == Without(t, g)
  {
    WithoutCompose(t, g * Keys(t), g - Keys(t));
    assert g * Keys(t) + (g - Keys(t)) == g;
    var u := Without(t, g * Keys(t));
    if u.Some? {
      WithoutFiltersLeaves(t, g * Keys(t));
      WithoutUnchanged(u.value, g - Keys(t));
    }
  }

  /** A split with the keys on its two sides. */
  datatype Frame = Frame(dir: string, ratio: real, first: set<string>, second: set<string>)

  /** The splits of a tree, from the outside in and from left to right. */
  function Frames(t: Pane): seq<Frame> {
    match t
    case Leaf(_) => []
    case Split(dir, ratio, a, b) => [Frame(dir, ratio, Keys(a), Keys(b))] + (Frames(a) + Frames(b))
  }

  function FramesOf(t: Option<Pane>): seq<Frame> {
    if t.None? then [] else Frames(t.value)
  }

  /** What is left of one split: it collapses unless both sides keep a key. */
  function KeptFrame(f: Frame, gone: set<string>): seq<Frame> {
    if f.first <= gone || f.second <= gone then []
    else [f.(first := f.first - gone, second := f.second - gone)]
  }

  /** The splits that keep a key on both sides, with the keys they keep. */
  function KeptFrames(fs: seq<Frame>, gone: set<string>): seq<Frame> {
    if fs == [] then [] else KeptFrame(fs[0], gone) + KeptFrames(fs[1..], gone)
  }

  lemma KeptFramesFirst(f: Frame, rest: seq<Frame>, gone: set<string>)
    ensures KeptFrames([f] + rest, gone) == KeptFrame(f, gone) + KeptFrames(rest, gone)
  {
    assert ([f] + rest)[1..] == rest;
  }

  lemma {:induction false} KeptFramesAppend(a: seq<Frame>, b: seq<Frame>, gone: set<string>)
    ensures KeptFrames(a + b, gone) == KeptFrames(a, gone) + KeptFrames(b, gone)
  {
    if a == [] {
      assert a + b == b;
    } else {
      KeptFramesAppend(a[1..], b, gone);
      KeptFramesFirst(a[0], a[1..] + b, gone);
      assert a + b == [a[0]] + (a[1..] + b);
      assert KeptFrame(a[0], gone) + (KeptFrames(a[1..], gone) + KeptFrames(b, gone))
          == (KeptFrame(a[0], gone) + KeptFrames(a[1..], gone)) + KeptFrames(b, gone);
    }
  }

  lemma KeptFramesSplit(t: Pane, gone: set<string>)
    requires t.Split?
    ensures KeptFrames(Frames(t), gone) == KeptFrame(Frame(t.dir, t.ratio, Keys(t.first), Keys(t.second)), gone)
              + (KeptFrames(Frames(t.first), gone) + KeptFrames(Frames(t.second), gone))
  {
    KeptFramesFirst(Frame(t.dir, t.ratio, Keys(t.first), Keys(t.second)), Frames(t.first) + Frames(t.second), gone);
    KeptFramesAppend(Frames(t.first), Frames(t.second), gone);
  }

  lemma {:induction false} NothingKept(t: Pane, gone: set<string>)
    requires Keys(t) <= gone
    ensures KeptFrames(Frames(t), gone) == []
  {
    if t.Split? {
      KeptFramesSplit(t, gone);
      NothingKept(t.first, gone);
      NothingKept(t.second, gone);
    }
  }

  /** Pruning keeps the direction and ratio of every split that keeps both sides, in place; the others collapse. */
  lemma {:induction false} WithoutKeepsSplits(t: Pane, gone: set<string>)
    ensures FramesOf(Without(t, gone)) == KeptFrames(Frames(t), gone)
  {
    if t.Split? {
      KeptFramesSplit(t, gone);
      WithoutKeepsSplits(t.first, gone);
      WithoutKeepsSplits(t.second, gone);
      WithoutFiltersLeaves(t.first, gone);
      WithoutFiltersLeaves(t.second, gone);
      if Keys(t.first) <= gone {
        NothingKept(t.first, gone);
      } else if Keys(t.second) <= gone {
        NothingKept(t.second, gone);
      }
    }
  }

  /** removeLeafAny commutes across keys. */
  lemma RemoveLeafCommutes(t: Pane, k: string, l: string)
    ensures WithoutOf(RemoveLeaf(t, k).tree, {l}) == WithoutOf(RemoveLeaf(t, l).tree, {k})
    ensures RemoveLeaf(t, k).tree.Some? && RemoveLeaf(t, l).tree.Some? ==>
              RemoveLeaf(RemoveLeaf(t, k).tree.value, l).tree
              == RemoveLeaf(RemoveLeaf(t, l).tree.value, k).tree
  {
    RemoveLeafMeaning(t, k);
    RemoveLeafMeaning(t, l);
    WithoutCompose(t, {k}, {l});
    WithoutCompose(t, {l}, {k});
    assert {k} + {l} == {l} + {k};
    if RemoveLeaf(t, k).tree.Some? && RemoveLeaf(t, l).tree.Some? {
      RemoveLeafMeaning(RemoveLeaf(t, k).tree.value, l);
      RemoveLeafMeaning(RemoveLeaf(t, l).tree.value, k);
    }
  }

  /** collectMemberKeys: add the keys below `t` to the set built so far. */
  method CollectMemberKeys(t: Pane, seen: set<string>) returns (all: set<string>)
    ensures all == seen + Keys(t)
    decreases t
  {
    match t
    case Leaf(k) => all := seen + {k};
    case Split(_, _, a, b) =>
      all := CollectMemberKeys(a, seen);
      all := CollectMemberKeys(b, all);
  }

  /** MemberKeys: the distinct keys of a stored tree, sorted. */
  method MemberKeys(tree: Option<Pane>) returns (keys: seq<string>)
    ensures Lists(keys, KeysOf(tree))
    ensures SortedBy(Less, keys)
    ensures |keys| >= 2 <==> Plural(KeysOf(tree))
  {
    if tree.None? {
      return [];
    }
    var seen := CollectMemberKeys(tree.value, {});
    LessIsStrictTotal();
    keys := SortSet(seen, Less);
    PluralIsTwoOrMore(seen);
  }

  /** The strings that say what a stored node is. A session can bear them as a name, too. */
  const LEAF := "leaf"
  const SPLIT := "split"

  predicate IsKind(s: string) { s == LEAF || s == SPLIT }

  ghost predicate NoKinds(names: seq<string>) { LEAF !in names && SPLIT !in names }

  /** The first old name equal to `s` gives its replacement. */
  function ReplaceOne(s: string, olds: seq<string>, news: seq<string>): string
    requires |olds| == |news|
  {
    if olds == [] then s
    else if s == olds[0] then news[0]
    else ReplaceOne(s, olds[1..], news[1..])
  }

  /**
   * replaceStrings: rewrite every matching string below a tree, directions
   * included, and report a hit. For names that are no node kind; those two
   * names are the subject of `PaneNodes`.
   */
  function ReplaceStrings(t: Pane, olds: seq<string>, news: seq<string>): (Pane, bool)
    requires |olds| == |news|
  {
    match t
    case Leaf(k) => (Leaf(ReplaceOne(k, olds, news)), k in olds)
    case Split(dir, ratio, first, second) =>
      var a := ReplaceStrings(first, olds, news);
      var b := ReplaceStrings(second, olds, news);
      (Split(ReplaceOne(dir, olds, news), ratio, a.0, b.0), dir in olds || a.1 || b.1)
  }

  /** Reference: one function applied to every string of the tree. */
  function Rename(t: Pane, f: string -> string): Pane {
    match t
    case Leaf(k) => Leaf(f(k))
    case Split(dir, ratio, a, b) => Split(f(dir), ratio, Rename(a, f), Rename(b, f))
  }

  lemma {:induction false} ReplaceOneHits(s: string, olds: seq<string>, news: seq<string>)
    requires |olds| == |news| && forall i :: 0 <= i < |olds| ==> olds[i] != news[i]
    ensures ReplaceOne(s, olds, news) != s <==> s in olds
  {
    if olds != [] && s != olds[0] {
      ReplaceOneHits(s, olds[1..], news[1..]);
    }
  }

  /** replaceStrings renames every string and reports a hit exactly when the tree changes. */
  lemma {:induction false} ReplaceStringsMeaning(t: Pane, olds: seq<string>, news: seq<string>, f: string -> string)
    requires |olds| == |news| && forall i :: 0 <= i < |olds| ==> olds[i] != news[i]
    requires forall s :: f(s) == ReplaceOne(s, olds, news)
    ensures ReplaceStrings(t, olds, news).0 == Rename(t, f)
    ensures ReplaceStrings(t, olds, news).1 <==> Rename(t, f) != t
  {
    match t
    case Leaf(k) => ReplaceOneHits(k, olds, news);
    case Split(dir, _, a, b) =>
      ReplaceOneHits(dir, olds, news);
      ReplaceStringsMeaning(a, olds, news, f);
      ReplaceStringsMeaning(b, olds, news, f);
  }

  function Directions(t: Pane): set<string> {
    match t
    case Leaf(_) => {}
    case Split(dir, _, a, b) => {dir} + Directions(a) + Directions(b)
  }

  /** A tree is touched exactly when an old name is among its keys or its directions. */
  lemma {:induction false} ReplaceStringsTouches(t: Pane, olds: seq<string>, news: seq<string>)
    requires |olds| == |news|
    ensures ReplaceStrings(t, olds, news).1 <==> exists s :: s in olds && s in Keys(t) + Directions(t)
  {
    match t
    case Leaf(k) => assert k in Keys(t);
    case Split(dir, _, a, b) =>
      ReplaceStringsTouches(a, olds, news);
      ReplaceStringsTouches(b, olds, news);
      assert dir in Directions(t);
  }

  lemma {:induction false} RenameKeys(t: Pane, f: string -> string)
    ensures Keys(Rename(t, f)) == set k | k in Keys(t) :: f(k)
  {
    match t
    case Leaf(_) =>
    case Split(_, _, a, b) => RenameKeys(a, f); RenameKeys(b, f);
  }
}
