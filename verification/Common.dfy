/** Vocabulary shared by every module: results, bytes, the order names are listed in, and sorting. */
module Common {

  datatype Option<+T> = None | Some(value: T)

  datatype Result<+T, +E> = Ok(value: T) | Err(error: E)

  type byte = b: int | 0 <= b < 256

  type bytes = seq<byte>

  const LF: byte := 10

  const CR: byte := 13

  /** Order by code point, which for encodable text is the order of the UTF-8 bytes. */
  predicate Leq(a: string, b: string) {
    a == [] || (b != [] && (a[0] < b[0] || (a[0] == b[0] && Leq(a[1..], b[1..]))))
  }

  lemma {:induction false} LeqTotal(a: string, b: string)
    ensures Leq(a, b) || Leq(b, a)
    ensures Leq(a, b) && Leq(b, a) ==> a == b
    ensures Leq(a, a)
  {
    if a != [] {
      LeqTotal(a[1..], a[1..]);
      if b != [] {
        LeqTotal(a[1..], b[1..]);
        if a[0] == b[0] && a[1..] == b[1..] {
          assert a == [a[0]] + a[1..] == b;
        }
      }
    }
  }

  lemma {:induction false} LeqTransitive(a: string, b: string, c: string)
    requires Leq(a, b) && Leq(b, c)
    ensures Leq(a, c)
  {
    if a != [] && a[0] == b[0] == c[0] {
      LeqTransitive(a[1..], b[1..], c[1..]);
    }
  }

  predicate Sorted<T>(key: T -> string, s: seq<T>) {
    forall i, j :: 0 <= i < j < |s| ==> Leq(key(s[i]), key(s[j]))
  }

  predicate Distinct<T(==)>(s: seq<T>) {
    forall i, j :: 0 <= i < j < |s| ==> s[i] != s[j]
  }

  /** Place x before the first element whose key is not smaller. */
  function Insert<T>(key: T -> string, x: T, s: seq<T>): (r: seq<T>)
    ensures multiset(r) == multiset(s) + multiset{x}
  {
    if s == [] then [x]
    else if Leq(key(x), key(s[0])) then [x] + s
    else
      assert s == [s[0]] + s[1..];
      [s[0]] + Insert(key, x, s[1..])
  }

  /** Stable sort by key: elements with equal keys keep their order. */
  function SortBy<T>(key: T -> string, s: seq<T>): (r: seq<T>)
    ensures multiset(r) == multiset(s)
    ensures |r| == |s|
  {
    if s == [] then []
    else
      assert s == [s[0]] + s[1..];
      var r := Insert(key, s[0], SortBy(key, s[1..]));
      assert |multiset(r)| == |r| && |multiset(s)| == |s|;
      r
  }

  lemma {:induction false} InsertSorted<T>(key: T -> string, x: T, s: seq<T>)
    requires Sorted(key, s)
    ensures Sorted(key, Insert(key, x, s))
  {
    if s != [] {
      LeqTotal(key(x), key(s[0]));
      if Leq(key(x), key(s[0])) {
        forall j | 0 <= j < |s| ensures Leq(key(x), key(s[j])) {
          if j > 0 { LeqTransitive(key(x), key(s[0]), key(s[j])); }
        }
      } else {
        var t := Insert(key, x, s[1..]);
        InsertSorted(key, x, s[1..]);
        forall j | 0 <= j < |t| ensures Leq(key(s[0]), key(t[j])) {
          assert t[j] in multiset(t);
          assert t[j] == x || t[j] in s[1..];
        }
      }
    }
  }

  lemma {:induction false} SortBySorts<T>(key: T -> string, s: seq<T>)
    ensures Sorted(key, SortBy(key, s))
  {
    if s != [] {
      SortBySorts(key, s[1..]);
      InsertSorted(key, s[0], SortBy(key, s[1..]));
    }
  }

  lemma {:induction false} SortByOfSorted<T>(key: T -> string, s: seq<T>)
    requires Sorted(key, s)
    ensures SortBy(key, s) == s
  {
    if s != [] {
      SortByOfSorted(key, s[1..]);
      if |s| > 1 { assert Leq(key(s[0]), key(s[1])); }
    }
  }

  lemma {:induction false} SameMembers<T>(a: seq<T>, b: seq<T>)
    requires multiset(a) == multiset(b)
    ensures forall x :: x in a <==> x in b
  {
    assert forall x :: x in a <==> x in multiset(a);
    assert forall x :: x in b <==> x in multiset(b);
  }

  lemma {:induction false} NoMembers<T>(s: seq<T>)
    requires forall x :: x !in s
    ensures s == []
  {
    assert forall x :: x in multiset(s) ==> x in s;
    assert multiset(s) == multiset{};
    assert |multiset(s)| == |s|;
  }

  function Itself(x: string): string {
    x
  }

  /** s lists the members of m once each, in order. */
  ghost predicate Lists(s: seq<string>, m: set<string>) {
    Distinct(s) && Sorted(Itself, s) && forall x :: x in s <==> x in m
  }

  lemma {:induction false} AppendDistinct<T>(s: seq<T>, x: T)
    requires Distinct(s) && x !in s
    ensures Distinct(s + [x])
  {
  }

  /** Put a set in order, taking its members as they come. */
  method ListSet(m: set<string>) returns (s: seq<string>)
    ensures Lists(s, m)
  {
    var pending, taken: seq<string> := m, [];
    while pending != {}
      invariant pending <= m && Distinct(taken)
      invariant forall x :: x in taken <==> x in m - pending
      decreases |pending|
    {
      var x :| x in pending;
      AppendDistinct(taken, x);
      pending, taken := pending - {x}, taken + [x];
    }
    s := SortBy(Itself, taken);
    SortBySorts(Itself, taken);
    SameMembers(s, taken);
    StillDistinct(taken, s);
  }

  lemma {:induction false} StillDistinct<T>(a: seq<T>, b: seq<T>)
    requires Distinct(a) && multiset(a) == multiset(b)
    ensures Distinct(b)
  {
    forall i, j | 0 <= i < j < |b| ensures b[i] != b[j] {
      if b[i] == b[j] {
        TwiceCounts(b, i, j);
        OnceCounts(a, b[i]);
      }
    }
  }

  lemma {:induction false} TwiceCounts<T>(s: seq<T>, i: int, j: int)
    requires 0 <= i < j < |s| && s[i] == s[j]
    ensures multiset(s)[s[i]] >= 2
  {
    assert s == s[..i] + [s[i]] + s[i + 1..];
    assert s[i + 1..][j - i - 1] == s[j];
    assert s[j] in multiset(s[i + 1..]);
  }

  lemma {:induction false} OnceCounts<T>(s: seq<T>, x: T)
    requires Distinct(s)
    ensures multiset(s)[x] == if x in s then 1 else 0
  {
    if s != [] {
      assert s == [s[0]] + s[1..];
      OnceCounts(s[1..], x);
      if x == s[0] { assert forall k :: 0 <= k < |s[1..]| ==> s[1..][k] == s[k + 1]; }
    }
  }

  lemma {:induction false} ListsNothing(s: seq<string>, m: set<string>)
    requires Lists(s, m)
    ensures s == [] <==> m == {}
  {
    if s != [] { assert s[0] in m; }
  }

  /** There is one such list. */
  lemma {:induction false} ListedOnce(a: seq<string>, b: seq<string>, m: set<string>)
    requires Lists(a, m) && Lists(b, m)
    ensures a == b
  {
    ListsNothing(a, m);
    ListsNothing(b, m);
    if a != [] {
      assert a[0] in b && b[0] in a;
      var i, j :| 0 <= i < |b| && b[i] == a[0] && 0 <= j < |a| && a[j] == b[0];
      LeqTotal(a[0], b[0]);
      assert Leq(a[0], a[j]) && Leq(b[0], b[i]);
      assert a == [a[0]] + a[1..] && b == [a[0]] + b[1..];
      assert Lists(a[1..], m - {a[0]}) by { TailListed(a, m); }
      assert Lists(b[1..], m - {a[0]}) by { TailListed(b, m); }
      ListedOnce(a[1..], b[1..], m - {a[0]});
    }
  }

  lemma {:induction false} TailListed(s: seq<string>, m: set<string>)
    requires s != [] && Lists(s, m)
    ensures Lists(s[1..], m - {s[0]})
  {
    assert forall k :: 0 <= k < |s[1..]| ==> s[1..][k] == s[k + 1];
    forall x | x in m && x != s[0] ensures x in s[1..] {
      var k :| 0 <= k < |s| && s[k] == x;
      assert s[1..][k - 1] == x;
    }
  }
}
