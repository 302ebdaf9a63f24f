// Finding a free session name: the name itself, then name-2, name-3, ...
module UniqueName {
  import StringOrder

  /** White space in the sense of strings.TrimSpace. */
  predicate IsSpace(c: char) {
    || '\t' <= c <= '\r' || c == ' ' || c == '\U{85}' || c == '\U{A0}' || c == '\U{1680}'
    || '\U{2000}' <= c <= '\U{200A}' || c == '\U{2028}' || c == '\U{2029}' || c == '\U{202F}'
    || c == '\U{205F}' || c == '\U{3000}'
  }

  /** The code points: tab to carriage return, space, next line, and the wider spaces and separators. */
  lemma SpacesAre(c: char)
    ensures IsSpace(c) <==> var n := c as int;
              9 <= n <= 13 || n == 32 || n == 133 || n == 160 || n == 5760 || 8192 <= n <= 8202
              || n == 8232 || n == 8233 || n == 8239 || n == 8287 || n == 12288
  {}

  function TrimLeft(s: string): string {
    if s != [] && IsSpace(s[0]) then TrimLeft(s[1..]) else s
  }

  function TrimRight(s: string): string {
    if s != [] && IsSpace(s[|s| - 1]) then TrimRight(s[..|s| - 1]) else s
  }

  function Trim(s: string): string { TrimRight(TrimLeft(s)) }

  /** Trimming takes white space off both ends and stops at the first character that is none. */
  lemma TrimMeaning(s: string)
    ensures exists a: string, b: string :: s == a + Trim(s) + b && Blank(a) && Blank(b)
    ensures Trim(s) != "" ==> !IsSpace(Trim(s)[0]) && !IsSpace(Trim(s)[|Trim(s)| - 1])
  {
    var a := TrimLeftMeaning(s);
    var b := TrimRightMeaning(TrimLeft(s));
    assert a + (Trim(s) + b) == a + Trim(s) + b;
    if Trim(s) != "" {
      assert Trim(s)[0] == TrimLeft(s)[0];
    }
  }

  predicate Blank(s: string) { forall i :: 0 <= i < |s| ==> IsSpace(s[i]) }

  lemma {:induction false} TrimLeftMeaning(s: string) returns (a: string)
    ensures s == a + TrimLeft(s) && Blank(a)
    ensures TrimLeft(s) != "" ==> !IsSpace(TrimLeft(s)[0])
  {
    a := "";
    if s != "" && IsSpace(s[0]) {
      var rest := TrimLeftMeaning(s[1..]);
      a := [s[0]] + rest;
      assert s == [s[0]] + s[1..];
    }
  }

  lemma {:induction false} TrimRightMeaning(s: string) returns (b: string)
    ensures s == TrimRight(s) + b && Blank(b)
    ensures TrimRight(s) != "" ==> !IsSpace(TrimRight(s)[|TrimRight(s)| - 1])
    decreases |s|
  {
    b := "";
    if s != "" && IsSpace(s[|s| - 1]) {
      var rest := TrimRightMeaning(s[..|s| - 1]);
      b := rest + [s[|s| - 1]];
      assert s == s[..|s| - 1] + [s[|s| - 1]];
    }
  }

  function Itoa(n: nat): string {
    if n < 10 then ["0123456789"[n]] else Itoa(n / 10) + ["0123456789"[n % 10]]
  }

  function Value(c: char): nat {
    if '0' <= c <= '9' then (c as int) - ('0' as int) else 0
  }

  function Atoi(s: string): nat {
    if s == [] then 0 else 10 * Atoi(s[..|s| - 1]) + Value(s[|s| - 1])
  }

  lemma {:induction false} AtoiItoa(n: nat)
    ensures Atoi(Itoa(n)) == n
  {
    if n >= 10 {
      AtoiItoa(n / 10);
      assert Itoa(n)[..|Itoa(n)| - 1] == Itoa(n / 10);
    } else {
      assert Itoa(n)[..0] == [];
    }
  }

  /** The `i`-th candidate; the first is the name itself. */
  function Candidate(name: string, i: nat): string {
    if i <= 1 then name else name + "-" + Itoa(i)
  }

  /** The name itself, then with 2, 3, ... behind a dash. */
  lemma FirstCandidates(name: string)
    ensures Candidate(name, 1) == name && Candidate(name, 2) == name + "-2" && Candidate(name, 10) == name + "-10"
  {
    assert Itoa(10) == Itoa(1) + Itoa(0);
  }

  lemma CandidatesDiffer(name: string, i: nat, j: nat)
    requires 1 <= i && 1 <= j && Candidate(name, i) == Candidate(name, j)
    ensures i == j
  {
    if i > 1 && j > 1 {
      assert Candidate(name, i)[|name| + 1..] == Itoa(i);
      assert Candidate(name, j)[|name| + 1..] == Itoa(j);
      AtoiItoa(i);
      AtoiItoa(j);
    }
  }

  /** The first `n` candidates. */
  function Candidates(name: string, n: nat): set<string> {
    if n == 0 then {} else Candidates(name, n - 1) + {Candidate(name, n)}
  }

  lemma {:induction false} CandidateIndex(name: string, n: nat, c: string)
    requires c in Candidates(name, n)
    ensures exists i :: 1 <= i <= n && c == Candidate(name, i)
  {
    if c != Candidate(name, n) {
      CandidateIndex(name, n - 1, c);
    }
  }

  /** Numbering is injective: the first `n` candidates are `n` names. */
  lemma {:induction false} CandidatesCount(name: string, n: nat)
    ensures |Candidates(name, n)| == n
  {
    if n > 0 {
      CandidatesCount(name, n - 1);
      if Candidate(name, n) in Candidates(name, n - 1) {
        CandidateIndex(name, n - 1, Candidate(name, n));
        var i :| 1 <= i <= n - 1 && Candidate(name, n) == Candidate(name, i);
        CandidatesDiffer(name, n, i);
        assert false;
      }
    }
  }

  /** Pigeonhole: if the first `n` candidates are all taken, at least `n` names are. */
  lemma TakenCandidates(name: string, n: nat, used: set<string>)
    requires forall i :: 1 <= i <= n ==> Candidate(name, i) in used
    ensures n <= |used|
  {
    CandidatesCount(name, n);
    forall c | c in Candidates(name, n) ensures c in used {
      CandidateIndex(name, n, c);
    }
    StringOrder.SubsetSize(Candidates(name, n), used);
  }

  /** The names in use, trimmed, blanks left out. */
  function Used(existing: seq<string>): set<string> {
    set e | e in existing && Trim(e) != "" :: Trim(e)
  }

  lemma {:induction false} UsedSize(existing: seq<string>)
    ensures |Used(existing)| <= |existing|
  {
    if existing == [] {
      assert Used(existing) == {};
    } else {
      var last := existing[|existing| - 1];
      var init := existing[..|existing| - 1];
      UsedSize(init);
      assert existing == init + [last];
      assert Used(existing) <= Used(init) + {Trim(last)};
      StringOrder.SubsetSize(Used(existing), Used(init) + {Trim(last)});
      assert |Used(init) + {Trim(last)}| <= |Used(init)| + 1;
    }
  }

  /**
   * ensureUniqueSessionName: the first candidate not in use. The search ends
   * within one candidate more than there are existing names.
   */
  method EnsureUniqueSessionName(name: string, existing: seq<string>) returns (unique: string, ghost tried: nat)
    ensures Trim(name) == "" ==> unique == ""
    ensures Trim(name) != "" ==>
              1 <= tried <= |existing| + 1 && unique == Candidate(Trim(name), tried)
              && (forall e :: e in existing ==> Trim(e) != unique)
              && (forall i :: 1 <= i < tried ==> exists e :: e in existing && Trim(e) == Candidate(Trim(name), i))
  {
    var base := Trim(name);
    tried := 1;
    if base == "" {
      return "", 0;
    }
    var used: set<string> := {};
    for n := 0 to |existing|
      invariant used == Used(existing[..n])
    {
      assert existing[..n + 1] == existing[..n] + [existing[n]];
      var candidate := Trim(existing[n]);
      if candidate != "" {
        used := used + {candidate};
      }
    }
    assert existing[..|existing|] == existing;
    UsedSize(existing);
    if base !in used {
      return base, 1;
    }
    var i := 2;
    TakenCandidates(base, 1, used);
    while true
      invariant 2 <= i && forall k :: 1 <= k < i ==> Candidate(base, k) in used
      invariant i - 1 <= |used|
      decreases |used| + 2 - i
    {
      var candidate := base + "-" + Itoa(i);
      if candidate !in used {
        return candidate, i;
      }
      TakenCandidates(base, i, used);
      i := i + 1;
    }
  }
}
