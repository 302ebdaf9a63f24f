// The files a session has touched: one entry per path, moved to the end each
// time it is stored again, at most a hundred kept.
module ArtifactLru {
  import opened Bytes

  const MAX_ARTIFACTS: nat := 100

  datatype Artifact = Artifact(
    path: string, displayPath: string, name: string, tool: string, source: string, size: int, modTime: int)

  function Paths(list: seq<Artifact>): seq<string> {
    if list == [] then [] else [list[0].path] + Paths(list[1..])
  }

  /** A stored entry met again: sizes and times replaced, texts only by non-empty ones. */
  function Refreshed(existing: Artifact, art: Artifact): Artifact {
    existing.(size := art.size, modTime := art.modTime,
              displayPath := if art.displayPath != "" then art.displayPath else existing.displayPath,
              name := if art.name != "" then art.name else existing.name,
              tool := if art.tool != "" then art.tool else existing.tool,
              source := if art.source != "" then art.source else existing.source)
  }

  /** Index of the first entry for `path`, or the length. */
  function IndexOf(list: seq<Artifact>, path: string): (i: nat)
    ensures i <= |list|
    ensures i < |list| ==> list[i].path == path
    ensures forall k :: 0 <= k < i ==> list[k].path != path
  {
    if list == [] || list[0].path == path then 0 else 1 + IndexOf(list[1..], path)
  }

  function StoreOne(list: seq<Artifact>, art: Artifact): seq<Artifact> {
    var i := IndexOf(list, art.path);
    if i < |list| then list[..i] + list[i + 1..] + [Refreshed(list[i], art)]
    else Last(list + [art], MAX_ARTIFACTS)
  }

  /** Entries without a path are ignored. */
  function StoreAll(list: seq<Artifact>, arts: seq<Artifact>): seq<Artifact>
    decreases |arts|
  {
    if arts == [] then list
    else StoreAll(if arts[0].path == "" then list else StoreOne(list, arts[0]), arts[1..])
  }

  /** One entry stored: found, refreshed and moved to the end, or appended. */
  method StoreEntry(list: seq<Artifact>, art: Artifact) returns (cur: seq<Artifact>)
    ensures cur == StoreOne(list, art)
  {
    cur := list;
    var i := 0;
    while i < |cur| && cur[i].path != art.path
      invariant i <= |cur|
      invariant forall k :: 0 <= k < i ==> cur[k].path != art.path
    {
      i := i + 1;
    }
    assert i == IndexOf(cur, art.path);
    if i < |cur| {
      var existing := cur[i];
      existing := existing.(size := art.size, modTime := art.modTime);
      if art.displayPath != "" {
        existing := existing.(displayPath := art.displayPath);
      }
      if art.name != "" {
        existing := existing.(name := art.name);
      }
      if art.tool != "" {
        existing := existing.(tool := art.tool);
      }
      if art.source != "" {
        existing := existing.(source := art.source);
      }
      cur := cur[..i] + cur[i + 1..];
      cur := cur + [existing];
    } else {
      cur := cur + [art];
      if |cur| > MAX_ARTIFACTS {
        cur := cur[|cur| - MAX_ARTIFACTS..];
      }
    }
  }

  class Tracker {
    var artifacts: map<string, seq<Artifact>>

    constructor ()
      ensures artifacts == map[]
    {
      artifacts := map[];
    }

    /** One session's entries; none when it has no key. */
    function Of(key: string): seq<Artifact>
      reads this
    {
      if key in artifacts then artifacts[key] else []
    }

    method StoreArtifacts(host: string, session: string, arts: seq<Artifact>)
      modifies this
      ensures Of(host + "\0" + session) == StoreAll(old(Of(host + "\0" + session)), arts)
      ensures arts == [] ==> artifacts == old(artifacts)
      ensures arts != [] ==>
                var key := host + "\0" + session;
                var list := StoreAll(old(Of(key)), arts);
                artifacts == if list == [] then old(artifacts) - {key} else old(artifacts)[key := list]
    {
      if |arts| == 0 {
        return;
      }
      var key := host + "\0" + session;
      var cur := if key in artifacts then artifacts[key] else [];
      for n := 0 to |arts|
        invariant artifacts == old(artifacts)
        invariant StoreAll(cur, arts[n..]) == StoreAll(old(Of(key)), arts)
      {
        var art := arts[n];
        assert arts[n..][0] == art && arts[n..][1..] == arts[n + 1..];
        if art.path == "" {
          continue;
        }
        cur := StoreEntry(cur, art);
      }
      assert arts[|arts|..] == [];
      if |cur| == 0 {
        artifacts := artifacts - {key};
        return;
      }
      artifacts := artifacts[key := cur];
    }
  }

  // ---- against the history of stores ----

  /** The elements of `s` without those that occur again later: distinct, in order of last occurrence. */
  function LastOccurrences(s: seq<string>): seq<string> {
    if s == [] then []
    else if s[0] in s[1..] then LastOccurrences(s[1..])
    else [s[0]] + LastOccurrences(s[1..])
  }

  function Minus(s: seq<string>, x: string): seq<string> {
    if s == [] then []
    else if s[0] == x then Minus(s[1..], x)
    else [s[0]] + Minus(s[1..], x)
  }

  ghost predicate Distinct(s: seq<string>) { forall i, j :: 0 <= i < j < |s| ==> s[i] != s[j] }

  lemma {:induction false} LastOccurrencesDistinct(s: seq<string>)
    ensures Distinct(LastOccurrences(s))
    ensures forall x :: x in LastOccurrences(s) <==> x in s
  {
    if s != [] {
      LastOccurrencesDistinct(s[1..]);
      assert forall x :: x in s <==> x == s[0] || x in s[1..];
    }
  }

  lemma {:induction false} MinusAbsent(s: seq<string>, x: string)
    requires x !in s
    ensures Minus(s, x) == s
  {
    if s != [] {
      MinusAbsent(s[1..], x);
      assert s == [s[0]] + s[1..];
    }
  }

  lemma {:induction false} MinusAppend(s: seq<string>, t: seq<string>, x: string)
    ensures Minus(s + t, x) == Minus(s, x) + Minus(t, x)
  {
    if s == [] {
      assert s + t == t;
    } else {
      MinusAppend(s[1..], t, x);
      assert (s + t)[0] == s[0] && (s + t)[1..] == s[1..] + t;
      AppendAssoc([s[0]], Minus(s[1..], x), Minus(t, x));
    }
  }

  /** Storing `x` once more moves it to the end. */
  lemma {:induction false} LastOccurrencesNext(s: seq<string>, x: string)
    ensures LastOccurrences(s + [x]) == Minus(LastOccurrences(s), x) + [x]
  {
    if s == [] {
      assert s + [x] == [x] && [x][1..] == [];
    } else {
      LastOccurrencesNext(s[1..], x);
      FirstOfAppend(s, x);
      LastOccurrencesDistinct(s[1..]);
      var rest := LastOccurrences(s[1..]);
      if s[0] !in s[1..] {
        assert ([s[0]] + rest)[1..] == rest;
        if s[0] == x {
          MinusAbsent(rest, x);
        } else {
          AppendAssoc([s[0]], Minus(rest, x), [x]);
        }
      }
    }
  }

  lemma FirstOfAppend(s: seq<string>, x: string)
    requires s != []
    ensures (s + [x])[0] == s[0] && (s + [x])[1..] == s[1..] + [x]
    ensures s[0] in (s + [x])[1..] <==> s[0] in s[1..] || s[0] == x
  {
    assert (s + [x])[1..] == s[1..] + [x];
  }

  /** Moving to the end and keeping the last `n` commute. */
  lemma MoveToEndKeepsLast(d: seq<string>, x: string, n: nat)
    requires Distinct(d) && n > 0
    ensures Last(Minus(d, x) + [x], n) ==
              if x in Last(d, n) then Minus(Last(d, n), x) + [x] else Last(Last(d, n) + [x], n)
  {
    var k := |d| - |Last(d, n)|;
    var a, b := d[..k], d[k..];
    assert d == a + b && b == Last(d, n);
    MinusAppend(a, b, x);
    if x in b {
      OnlyInTail(d, k, x);
      MinusAbsent(a, x);
      MinusLength(b, x);
      LastBehind(a, Minus(b, x) + [x], n);
      AppendAssoc(a, Minus(b, x), [x]);
    } else {
      MinusAbsent(b, x);
      MinusLength(a, x);
      LastWithOne(Minus(a, x), b, x, n);
    }
  }

  lemma OnlyInTail(d: seq<string>, k: nat, x: string)
    requires Distinct(d) && k <= |d| && x in d[k..]
    ensures x !in d[..k] && Distinct(d[k..])
  {
    var j :| 0 <= j < |d[k..]| && d[k..][j] == x;
    assert d[k + j] == x;
  }

  lemma LastBehind(a: seq<string>, b: seq<string>, n: nat)
    requires |b| == n || (a == [] && |b| <= n)
    ensures Last(a + b, n) == b
  {}

  lemma LastWithOne(a: seq<string>, b: seq<string>, x: string, n: nat)
    requires n > 0 && (|b| == n || (a == [] && |b| <= n))
    ensures Last(a + b + [x], n) == Last(b + [x], n)
  {
    AppendAssoc(a, b, [x]);
    if |b| == n {
      assert (a + (b + [x]))[|a| + 1..] == (b + [x])[1..];
    } else {
      assert a + (b + [x]) == b + [x];
    }
  }

  lemma {:induction false} MinusLength(s: seq<string>, x: string)
    requires Distinct(s)
    ensures |Minus(s, x)| == if x in s then |s| - 1 else |s|
  {
    if s != [] {
      MinusLength(s[1..], x);
      assert x in s <==> x == s[0] || x in s[1..];
      if s[0] == x {
        assert x !in s[1..];
      }
    }
  }

  lemma {:induction false} PathsAppend(a: seq<Artifact>, b: seq<Artifact>)
    ensures Paths(a + b) == Paths(a) + Paths(b)
  {
    if a == [] {
      assert a + b == b;
    } else {
      PathsAppend(a[1..], b);
      AppendAssoc([a[0].path], Paths(a[1..]), Paths(b));
      assert (a + b)[0] == a[0] && (a + b)[1..] == a[1..] + b;
    }
  }

  lemma {:induction false} PathsAt(list: seq<Artifact>)
    ensures |Paths(list)| == |list|
    ensures forall i :: 0 <= i < |list| ==> Paths(list)[i] == list[i].path
  {
    if list != [] {
      PathsAt(list[1..]);
    }
  }

  /** One store, on the paths alone. */
  lemma StoreOnePaths(list: seq<Artifact>, art: Artifact)
    requires Distinct(Paths(list))
    ensures Paths(StoreOne(list, art)) ==
              if art.path in Paths(list) then Minus(Paths(list), art.path) + [art.path]
              else Last(Paths(list) + [art.path], MAX_ARTIFACTS)
  {
    var i := IndexOf(list, art.path);
    PathsAt(list);
    if i < |list| {
      assert art.path == Paths(list)[i];
      MovedPaths(list, i, Refreshed(list[i], art));
    } else {
      PathsOne(art);
      PathsAppend(list, [art]);
      PathsLast(list + [art], MAX_ARTIFACTS);
    }
  }

  lemma MovedPaths(list: seq<Artifact>, i: nat, art: Artifact)
    requires i < |list| && art.path == list[i].path && Distinct(Paths(list))
    ensures Paths(list[..i] + list[i + 1..] + [art]) == Minus(Paths(list), art.path) + [art.path]
  {
    PathsOne(art);
    PathsAround(list, i);
    PathsAppend(list[..i] + list[i + 1..], [art]);
    MinusAround(Paths(list[..i]), art.path, Paths(list[i + 1..]));
  }

  lemma PathsOne(art: Artifact)
    ensures Paths([art]) == [art.path]
  {
    assert [art][1..] == [];
  }

  lemma PathsAround(list: seq<Artifact>, i: nat)
    requires i < |list|
    ensures Paths(list) == Paths(list[..i]) + ([list[i].path] + Paths(list[i + 1..]))
    ensures Paths(list[..i] + list[i + 1..]) == Paths(list[..i]) + Paths(list[i + 1..])
  {
    PathsAppend(list[..i], list[i..]);
    TakeAndDrop(list, i);
    PathsAppend(list[..i], list[i + 1..]);
  }

  lemma TakeAndDrop(list: seq<Artifact>, i: nat)
    requires i < |list|
    ensures list[..i] + list[i..] == list
    ensures list[i..][0] == list[i] && list[i..][1..] == list[i + 1..]
  {}

  lemma MinusAround(a: seq<string>, x: string, b: seq<string>)
    requires Distinct(a + ([x] + b))
    ensures Minus(a + ([x] + b), x) == a + b
  {
    var s := a + ([x] + b);
    assert s[|a|] == x;
    forall i | 0 <= i < |a| ensures a[i] != x {
      assert s[i] == a[i];
    }
    forall j | 0 <= j < |b| ensures b[j] != x {
      assert s[|a| + 1 + j] == b[j];
    }
    MinusAppend(a, [x] + b, x);
    assert ([x] + b)[1..] == b;
    MinusAbsent(a, x);
    MinusAbsent(b, x);
  }

  lemma PathsLast(list: seq<Artifact>, n: nat)
    ensures Paths(Last(list, n)) == Last(Paths(list), n)
  {
    PathsAt(list);
    PathsAt(Last(list, n));
  }

  lemma ExactLruStep(list: seq<Artifact>, stored: seq<string>, art: Artifact)
    requires Paths(list) == Last(LastOccurrences(stored), MAX_ARTIFACTS) && Distinct(Paths(list))
    ensures Paths(StoreOne(list, art)) == Last(LastOccurrences(stored + [art.path]), MAX_ARTIFACTS)
  {
    LastOccurrencesDistinct(stored);
    LastOccurrencesNext(stored, art.path);
    StoreOnePaths(list, art);
    MoveToEndKeepsLast(LastOccurrences(stored), art.path, MAX_ARTIFACTS);
  }

  lemma LastDistinct(s: seq<string>, n: nat)
    requires Distinct(s)
    ensures Distinct(Last(s, n))
  {}

  lemma {:induction false} ExactLruNamed(history: seq<Artifact>)
    requires forall a :: a in history ==> a.path != ""
    ensures Paths(StoreAll([], history)) == Last(LastOccurrences(Paths(history)), MAX_ARTIFACTS)
    ensures Distinct(Paths(StoreAll([], history)))
    decreases |history|
  {
    if history != [] {
      var n := |history| - 1;
      ExactLruNamed(history[..n]);
      ExactLruSnoc(history[..n], history[n]);
      assert history == history[..n] + [history[n]];
    }
  }

  lemma ExactLruSnoc(init: seq<Artifact>, art: Artifact)
    requires art.path != "" && Distinct(Paths(StoreAll([], init)))
    requires Paths(StoreAll([], init)) == Last(LastOccurrences(Paths(init)), MAX_ARTIFACTS)
    ensures var h := init + [art];
            && Paths(StoreAll([], h)) == Last(LastOccurrences(Paths(h)), MAX_ARTIFACTS)
            && Distinct(Paths(StoreAll([], h)))
  {
    StoreAllLast([], init, art);
    PathsAppend(init, [art]);
    PathsOne(art);
    ExactLruStep(StoreAll([], init), Paths(init), art);
    LastOccurrencesDistinct(Paths(init + [art]));
    LastDistinct(LastOccurrences(Paths(init + [art])), MAX_ARTIFACTS);
  }

  lemma {:induction false} StoreAllLast(list: seq<Artifact>, arts: seq<Artifact>, art: Artifact)
    requires art.path != ""
    ensures StoreAll(list, arts + [art]) == StoreOne(StoreAll(list, arts), art)
    decreases |arts|
  {
    if arts == [] {
      assert arts + [art] == [art] && [art][1..] == [];
    } else {
      assert (arts + [art])[0] == arts[0] && (arts + [art])[1..] == arts[1..] + [art];
      StoreAllLast(if arts[0].path == "" then list else StoreOne(list, arts[0]), arts[1..], art);
    }
  }

  /** The last of `arts` stored under `path`. */
  function LatestOf(arts: seq<Artifact>, path: string): (a: Artifact)
    requires path in Paths(arts)
    ensures a in arts && a.path == path
    decreases |arts|
  {
    var n := |arts| - 1;
    PathsAt(arts);
    PathsAt(arts[..n]);
    if arts[n].path == path then arts[n]
    else
      assert path in Paths(arts[..n]) by {
        var i :| 0 <= i < |arts| && Paths(arts)[i] == path;
        assert Paths(arts[..n])[i] == path;
      }
      LatestOf(arts[..n], path)
  }

  /** Entry `e` carries the measurements of the last store of its path, and no text of it was lost. */
  ghost predicate UpToDate(e: Artifact, history: seq<Artifact>) {
    && e.path in Paths(history)
    && var a := LatestOf(history, e.path);
       e.size == a.size && e.modTime == a.modTime
       && (a.displayPath != "" ==> e.displayPath == a.displayPath) && (a.name != "" ==> e.name == a.name)
       && (a.tool != "" ==> e.tool == a.tool) && (a.source != "" ==> e.source == a.source)
  }

  lemma UpToDateNext(e: Artifact, init: seq<Artifact>, art: Artifact)
    requires UpToDate(e, init) && e.path != art.path
    ensures UpToDate(e, init + [art])
  {
    PathsAppend(init, [art]);
    assert (init + [art])[..|init|] == init;
  }

  lemma {:induction false} EntriesUpToDateNamed(history: seq<Artifact>)
    requires forall a :: a in history ==> a.path != ""
    ensures forall e :: e in StoreAll([], history) ==> UpToDate(e, history)
    decreases |history|
  {
    if history != [] {
      var n := |history| - 1;
      EntriesUpToDateNamed(history[..n]);
      ExactLruNamed(history[..n]);
      StoreAllLast([], history[..n], history[n]);
      EntriesStep(StoreAll([], history[..n]), history[..n], history[n]);
      assert history == history[..n] + [history[n]];
    }
  }

  lemma EntriesStep(list: seq<Artifact>, init: seq<Artifact>, art: Artifact)
    requires Distinct(Paths(list)) && forall e :: e in list ==> UpToDate(e, init)
    ensures forall e :: e in StoreOne(list, art) ==> UpToDate(e, init + [art])
  {
    forall e | e in StoreOne(list, art) ensures UpToDate(e, init + [art]) {
      StoredEntry(list, art, e);
      if e.path == art.path {
        UpToDateStored(e, init, art);
      } else {
        UpToDateNext(e, init, art);
      }
    }
  }

  lemma UpToDateStored(e: Artifact, init: seq<Artifact>, art: Artifact)
    requires e == art || exists x: Artifact :: x.path == art.path && e == Refreshed(x, art)
    ensures UpToDate(e, init + [art])
  {
    PathsAppend(init, [art]);
    PathsOne(art);
    assert (init + [art])[|init|] == art;
  }

  /** After a store an entry is the stored one, new or refreshed, or one of the others. */
  lemma StoredEntry(list: seq<Artifact>, art: Artifact, e: Artifact)
    requires e in StoreOne(list, art) && Distinct(Paths(list))
    ensures e.path == art.path ==> e == art || exists x :: x in list && x.path == art.path && e == Refreshed(x, art)
    ensures e.path != art.path ==> e in list
  {
    var i := IndexOf(list, art.path);
    PathsAt(list);
    if i < |list| {
      forall k | 0 <= k < |list| && k != i ensures list[k].path != art.path {
        assert Paths(list)[k] != Paths(list)[i];
      }
      assert e in list[..i] || e in list[i + 1..] || e == Refreshed(list[i], art);
    }
  }

  /** A path stored again: size and time are new, and a text is replaced only by one that says something. */
  lemma RefreshKeepsTexts(list: seq<Artifact>, art: Artifact, x: Artifact)
    requires Distinct(Paths(list)) && x in list && x.path == art.path
    ensures var after := StoreOne(list, art);
            |after| == |list| && after[|after| - 1] == Artifact(art.path,
              if art.displayPath == "" then x.displayPath else art.displayPath,
              if art.name == "" then x.name else art.name,
              if art.tool == "" then x.tool else art.tool,
              if art.source == "" then x.source else art.source,
              art.size, art.modTime)
  {
    var i := IndexOf(list, art.path);
    var k :| 0 <= k < |list| && list[k] == x;
    PathsAt(list);
    assert i <= k;
    assert Paths(list)[i] == Paths(list)[k];
  }

  // ---- any calls, with entries of any kind ----

  /** The entries with a path. */
  function Named(arts: seq<Artifact>): (r: seq<Artifact>)
    ensures forall a :: a in r ==> a.path != ""
  {
    if arts == [] then []
    else (if arts[0].path == "" then [] else [arts[0]]) + Named(arts[1..])
  }

  lemma {:induction false} OnlyNamedStored(list: seq<Artifact>, arts: seq<Artifact>)
    ensures StoreAll(list, arts) == StoreAll(list, Named(arts))
    decreases |arts|
  {
    if arts != [] {
      if arts[0].path == "" {
        OnlyNamedStored(list, arts[1..]);
        assert Named(arts) == Named(arts[1..]);
      } else {
        OnlyNamedStored(StoreOne(list, arts[0]), arts[1..]);
        assert Named(arts)[0] == arts[0] && Named(arts)[1..] == Named(arts[1..]);
      }
    }
  }

  /** Two calls store what one call with both lists stores. */
  lemma {:induction false} StoreAllAppend(list: seq<Artifact>, a: seq<Artifact>, b: seq<Artifact>)
    ensures StoreAll(list, a + b) == StoreAll(StoreAll(list, a), b)
    decreases |a|
  {
    if a == [] {
      assert a + b == b;
    } else {
      assert (a + b)[0] == a[0] && (a + b)[1..] == a[1..] + b;
      StoreAllAppend(if a[0].path == "" then list else StoreOne(list, a[0]), a[1..], b);
    }
  }

  /** A session's list after one call of StoreArtifacts after the other. */
  function AfterCalls(calls: seq<seq<Artifact>>): seq<Artifact> {
    if calls == [] then [] else StoreAll(AfterCalls(calls[..|calls| - 1]), calls[|calls| - 1])
  }

  lemma {:induction false} CallsCompose(calls: seq<seq<Artifact>>)
    ensures AfterCalls(calls) == StoreAll([], Named(Concat(calls)))
  {
    if calls == [] {
      assert Named(Concat(calls)) == [];
    } else {
      var init, last := calls[..|calls| - 1], calls[|calls| - 1];
      CallsCompose(init);
      OnlyNamedStored([], Concat(init));
      StoreAllAppend([], Concat(init), last);
      ConcatLast(init, last);
      assert calls == init + [last];
      OnlyNamedStored([], Concat(calls));
    }
  }

  /**
   * The list is an exact LRU: after any calls, with whatever entries, its paths
   * are the hundred most recently stored distinct ones, in order of last store.
   */
  lemma ExactLru(calls: seq<seq<Artifact>>)
    ensures Paths(AfterCalls(calls)) == Last(LastOccurrences(Paths(Named(Concat(calls)))), MAX_ARTIFACTS)
    ensures Distinct(Paths(AfterCalls(calls)))
  {
    CallsCompose(calls);
    ExactLruNamed(Named(Concat(calls)));
  }

  /** Every entry of the list is up to date with the stores that led to it. */
  lemma EntriesUpToDate(calls: seq<seq<Artifact>>)
    ensures forall e :: e in AfterCalls(calls) ==> UpToDate(e, Named(Concat(calls)))
  {
    CallsCompose(calls);
    EntriesUpToDateNamed(Named(Concat(calls)));
  }
}
