// Strict orders and the sort the group store relies on.
//
// Go compares strings byte by byte; `Less` is that order over `char`.
// `SortSet` stands for the library calls sort.Slice and sort.Strings: it lists
// a set in the order of any strict total order.
module StringOrder {

  predicate Less(a: string, b: string) {
    |b| > 0 && (|a| == 0 || a[0] < b[0] || (a[0] == b[0] && Less(a[1..], b[1..])))
  }

  lemma {:induction false} LessTrichotomy(a: string, b: string)
    ensures Less(a, b) || Less(b, a) || a == b
    ensures !(Less(a, b) && Less(b, a))
    ensures a == b ==> !Less(a, b)
  {
    if |a| > 0 && |b| > 0 {
      LessTrichotomy(a[1..], b[1..]);
      if a[1..] == b[1..] && a[0] == b[0] {
        assert a == [a[0]] + a[1..] && b == [b[0]] + b[1..];
      }
    }
  }

  lemma {:induction false} LessTransitive(a: string, b: string, c: string)
    requires Less(a, b) && Less(b, c)
    ensures Less(a, c)
  {
    if |a| > 0 && a[0] == b[0] == c[0] {
      LessTransitive(a[1..], b[1..], c[1..]);
    }
  }

  ghost predicate StrictTotal<T(!new)>(less: (T, T) -> bool) {
    && (forall x: T, y: T :: x == y || less(x, y) || less(y, x))
    && (forall x: T, y: T :: less(x, y) ==> x != y && !less(y, x))
    && (forall x: T, y: T, z: T :: less(x, y) && less(y, z) ==> less(x, z))
  }

  lemma LessIsStrictTotal()
    ensures StrictTotal(Less)
  {
    forall x: string, y: string
      ensures x == y || Less(x, y) || Less(y, x)
      ensures Less(x, y) ==> x != y && !Less(y, x)
    { LessTrichotomy(x, y); }
    forall x: string, y: string, z: string | Less(x, y) && Less(y, z)
      ensures Less(x, z)
    { LessTransitive(x, y, z); }
  }

  ghost predicate SortedBy<T>(less: (T, T) -> bool, r: seq<T>) {
    forall i, j :: 0 <= i < j < |r| ==> less(r[i], r[j])
  }

  /** `r` lists the members of `s`, each once. */
  ghost predicate Lists<T(!new)>(r: seq<T>, s: set<T>) {
    && |r| == |s|
    && (forall x :: x in r <==> x in s)
  }

  /** Put `x` at its place in a sorted listing. */
  method Insert<T(==, !new)>(r: seq<T>, x: T, less: (T, T) -> bool) returns (r': seq<T>)
    requires StrictTotal(less) && SortedBy(less, r) && x !in r
    ensures SortedBy(less, r') && |r'| == |r| + 1
    ensures forall y :: y in r' <==> y in r || y == x
  {
    var i := 0;
    while i < |r| && less(r[i], x)
      invariant 0 <= i <= |r|
      invariant forall k :: 0 <= k < i ==> less(r[k], x)
    {
      i := i + 1;
    }
    RestIsLater(r, x, less, i);
    InsertedSorted(r, x, less, i);
    r' := r[..i] + [x] + r[i..];
  }

  lemma RestIsLater<T(!new)>(r: seq<T>, x: T, less: (T, T) -> bool, i: nat)
    requires StrictTotal(less) && SortedBy(less, r) && x !in r && i <= |r|
    requires i < |r| ==> !less(r[i], x)
    ensures forall k :: i <= k < |r| ==> less(x, r[k])
  {
    forall k | i <= k < |r| ensures less(x, r[k]) {
      assert r[i] in r;
      assert less(x, r[i]);
    }
  }

  lemma InsertedSorted<T(!new)>(r: seq<T>, x: T, less: (T, T) -> bool, i: nat)
    requires SortedBy(less, r) && i <= |r|
    requires forall k :: 0 <= k < i ==> less(r[k], x)
    requires forall k :: i <= k < |r| ==> less(x, r[k])
    ensures SortedBy(less, r[..i] + [x] + r[i..])
    ensures forall y :: y in r[..i] + [x] + r[i..] <==> y in r || y == x
  {
    assert r == r[..i] + r[i..];
    var r' := r[..i] + [x] + r[i..];
    forall j, k | 0 <= j < k < |r'| ensures less(r'[j], r'[k]) {
      assert r'[j] == if j < i then r[j] else if j == i then x else r[j - 1];
      assert r'[k] == if k < i then r[k] else if k == i then x else r[k - 1];
    }
  }

  method SortSet<T(==, !new)>(s: set<T>, less: (T, T) -> bool) returns (r: seq<T>)
    requires StrictTotal(less)
    ensures Lists(r, s)
    ensures SortedBy(less, r)
  {
    r := [];
    var todo := s;
    while todo != {}
      invariant todo <= s
      invariant Lists(r, s - todo)
      invariant SortedBy(less, r)
    {
      var x :| x in todo;
      r := Insert(r, x, less);
      assert s - (todo - {x}) == (s - todo) + {x};
      todo := todo - {x};
    }
    assert s - todo == s;
  }

  lemma {:induction false} SubsetSize<T>(a: set<T>, b: set<T>)
    requires a <= b
    ensures |a| <= |b|
  {
    if a != {} {
      var x :| x in a;
      SubsetSize(a - {x}, b - {x});
    }
  }
}
