/** Adding fixtures to the sorted fixture manifest, one at a time. */
module Upsert {
  import opened Common

  /** A manifest member: its path, the fixture id that owns it, and everything else about it. */
  datatype Member = Member(path: string, id: string, details: string)

  datatype Fault = DuplicatePath | OwnedMemberChanged | IdAlreadyOwned | ExistingMemberChanged | OrderInvalid

  function PathOf(m: Member): string {
    m.path
  }

  /** The members at a path, in order. */
  function At(s: seq<Member>, path: string): seq<Member> {
    if s == [] then [] else if s[0].path == path then [s[0]] + At(s[1..], path) else At(s[1..], path)
  }

  function Others(s: seq<Member>, path: string): seq<Member> {
    if s == [] then [] else if s[0].path != path then [s[0]] + Others(s[1..], path) else Others(s[1..], path)
  }

  function Replaced(s: seq<Member>, m: Member): (r: seq<Member>)
    ensures |r| == |s| && forall k :: 0 <= k < |r| ==> r[k] == if s[k].path == m.path then m else s[k]
  {
    seq(|s|, k requires 0 <= k < |s| => if s[k].path == m.path then m else s[k])
  }

  predicate OwnedElsewhere(s: seq<Member>, m: Member) {
    exists k :: 0 <= k < |s| && s[k].id == m.id && s[k].path != m.path
  }

  function UpsertMember(previous: seq<Member>, m: Member, allow: bool): Result<seq<Member>, Fault> {
    var existing := At(previous, m.path);
    if |existing| > 1 then Err(DuplicatePath)
    else if existing != [] && existing[0] != m && !allow then Err(OwnedMemberChanged)
    else if OwnedElsewhere(previous, m) then Err(IdAlreadyOwned)
    else
      var updated := if existing != [] then Replaced(previous, m) else SortBy(PathOf, previous + [m]);
      if Others(updated, m.path) != Others(previous, m.path) then Err(ExistingMemberChanged) else Ok(updated)
  }

  function UpsertAll(previous: seq<Member>, ms: seq<Member>, allow: bool): Result<seq<Member>, Fault> {
    if ms == [] then Ok(previous)
    else
      match UpsertAll(previous, ms[..|ms| - 1], allow)
      case Err(e) => Err(e)
      case Ok(before) => UpsertMember(before, ms[|ms| - 1], allow)
  }

  /** A manifest already in order takes every fixture in turn. */
  method ManifestMembers(members: seq<Member>, fixtures: seq<Member>, allow: bool)
    returns (r: Result<seq<Member>, Fault>)
    ensures r == if Sorted(PathOf, members) then UpsertAll(members, fixtures, allow) else Err(OrderInvalid)
  {
    hide UpsertMember;
    SortBySorts(PathOf, members);
    if Sorted(PathOf, members) { SortByOfSorted(PathOf, members); }
    if members != SortBy(PathOf, members) { return Err(OrderInvalid); }
    var previous := members;
    for n := 0 to |fixtures|
      invariant UpsertAll(members, fixtures[..n], allow) == Ok(previous)
    {
      assert fixtures[..n + 1][..n] == fixtures[..n];
      var updated := UpsertMember(previous, fixtures[n], allow);
      if updated.Err? {
        FailsFrom(members, fixtures, allow, n + 1);
        return updated;
      }
      previous := updated.value;
    }
    assert fixtures[..|fixtures|] == fixtures;
    return Ok(previous);
  }

  lemma {:induction false} FailsFrom(members: seq<Member>, fixtures: seq<Member>, allow: bool, n: nat)
    requires n <= |fixtures| && UpsertAll(members, fixtures[..n], allow).Err?
    ensures UpsertAll(members, fixtures, allow) == UpsertAll(members, fixtures[..n], allow)
  {
    if n < |fixtures| {
      var front := fixtures[..|fixtures| - 1];
      assert front[..n] == fixtures[..n];
      FailsFrom(members, front, allow, n);
    } else {
      assert fixtures[..n] == fixtures;
    }
  }

  // ----- path by path

  lemma {:induction false} AtInsert(x: Member, s: seq<Member>, path: string)
    ensures At(Insert(PathOf, x, s), path) == if x.path == path then [x] + At(s, path) else At(s, path)
  {
    hide Leq;
    var r := Insert(PathOf, x, s);
    if s == [] || Leq(x.path, s[0].path) {
      assert r[1..] == s;
    } else {
      LeqTotal(x.path, x.path);
      assert s[0].path != x.path;
      assert r[1..] == Insert(PathOf, x, s[1..]);
      AtInsert(x, s[1..], path);
    }
  }

  /** Sorting is stable: it keeps the members of each path in their order. */
  lemma {:induction false} AtSortBy(s: seq<Member>, path: string)
    ensures At(SortBy(PathOf, s), path) == At(s, path)
  {
    if s != [] {
      AtSortBy(s[1..], path);
      AtInsert(s[0], SortBy(PathOf, s[1..]), path);
    }
  }

  lemma {:induction false} AtAppend(a: seq<Member>, b: seq<Member>, path: string)
    ensures At(a + b, path) == At(a, path) + At(b, path)
  {
    if a == [] {
      assert a + b == b;
    } else {
      assert (a + b)[1..] == a[1..] + b;
      AtAppend(a[1..], b, path);
    }
  }

  lemma {:induction false} AtReplaced(s: seq<Member>, m: Member, path: string)
    ensures path != m.path ==> At(Replaced(s, m), path) == At(s, path)
    ensures |At(Replaced(s, m), m.path)| == |At(s, m.path)|
    ensures |At(s, m.path)| == 1 ==> At(Replaced(s, m), m.path) == [m]
  {
    if s != [] {
      assert Replaced(s, m)[1..] == Replaced(s[1..], m);
      AtReplaced(s[1..], m, path);
    }
  }

  lemma {:induction false} AtMembers(s: seq<Member>, path: string)
    ensures forall x :: x in At(s, path) <==> x in s && x.path == path
  {
    if s != [] { AtMembers(s[1..], path); }
  }

  lemma {:induction false} AtFirst(s: seq<Member>)
    requires s != []
    ensures At(s, s[0].path) == [s[0]] + At(s[1..], s[0].path)
    ensures forall path :: path != s[0].path ==> At(s, path) == At(s[1..], path)
  {
  }

  /** Two sorted lists that agree path by path are equal. */
  lemma {:induction false} SortedByPaths(a: seq<Member>, b: seq<Member>)
    requires Sorted(PathOf, a) && Sorted(PathOf, b) && forall path :: At(a, path) == At(b, path)
    ensures a == b
  {
    if a == [] {
      if b != [] { AtFirst(b); }
    } else {
      AtFirst(a);
      assert At(b, a[0].path) != [];
      assert b != [];
      AtFirst(b);
      SameFirst(a, b);
      forall path | true ensures At(a[1..], path) == At(b[1..], path) {
        assert At(a, path) == At(b, path);
        if path == a[0].path {
          assert At(a[1..], path) == At(a, path)[1..] && At(b[1..], path) == At(b, path)[1..];
        }
      }
      SortedByPaths(a[1..], b[1..]);
      assert a == [a[0]] + a[1..] && b == [b[0]] + b[1..];
    }
  }

  lemma {:induction false} SameFirst(a: seq<Member>, b: seq<Member>)
    requires a != [] && b != [] && Sorted(PathOf, a) && Sorted(PathOf, b) && forall path :: At(a, path) == At(b, path)
    ensures a[0] == b[0]
  {
    AtMembers(a, b[0].path);
    AtMembers(b, b[0].path);
    AtMembers(a, a[0].path);
    AtMembers(b, a[0].path);
    assert b[0] in At(b, b[0].path) && a[0] in At(a, a[0].path);
    var i :| 0 <= i < |a| && a[i] == b[0];
    var j :| 0 <= j < |b| && b[j] == a[0];
    LeqTotal(a[0].path, b[0].path);
    assert Leq(PathOf(a[0]), PathOf(a[i])) && Leq(PathOf(b[0]), PathOf(b[j]));
    assert a[0].path == b[0].path;
    AtFirst(a);
    AtFirst(b);
    assert At(a, a[0].path)[0] == At(b, a[0].path)[0];
  }

  lemma {:induction false} OthersByPaths(a: seq<Member>, b: seq<Member>, path: string)
    requires Sorted(PathOf, a) && Sorted(PathOf, b) && forall q :: q != path ==> At(a, q) == At(b, q)
    ensures Others(a, path) == Others(b, path)
  {
    var x, y := Others(a, path), Others(b, path);
    OthersSorted(a, path);
    OthersSorted(b, path);
    forall q | true ensures At(x, q) == At(y, q) {
      AtOthers(a, path, q);
      AtOthers(b, path, q);
    }
    SortedByPaths(x, y);
  }

  lemma {:induction false} AtOthers(s: seq<Member>, path: string, q: string)
    ensures At(Others(s, path), q) == if q == path then [] else At(s, q)
  {
    if s != [] {
      AtOthers(s[1..], path, q);
      if s[0].path != path { assert Others(s, path)[1..] == Others(s[1..], path); }
    }
  }

  lemma {:induction false} OthersMembers(s: seq<Member>, path: string)
    ensures forall x :: x in Others(s, path) <==> x in s && x.path != path
  {
    if s != [] { OthersMembers(s[1..], path); }
  }

  lemma {:induction false} OthersSorted(s: seq<Member>, path: string)
    requires Sorted(PathOf, s)
    ensures Sorted(PathOf, Others(s, path))
  {
    if s != [] {
      OthersSorted(s[1..], path);
      OthersMembers(s[1..], path);
      var rest := Others(s[1..], path);
      forall j | 0 <= j < |rest| ensures Leq(s[0].path, rest[j].path) {
        assert rest[j] in s[1..];
        var k :| 0 <= k < |s[1..]| && s[1..][k] == rest[j];
        assert Leq(PathOf(s[0]), PathOf(s[k + 1]));
      }
    }
  }

  // ----- one fixture

  /** Nobody else owns the id, and the path holds nothing, this very member, or one member that may be updated. */
  predicate Accepts(previous: seq<Member>, m: Member, allow: bool) {
    var existing := At(previous, m.path);
    |existing| <= 1 && (existing == [] || existing == [m] || allow) && !OwnedElsewhere(previous, m)
  }

  /**
   * On a sorted manifest the upsert succeeds exactly when accepted, and then the manifest is still sorted, holds the
   * member alone at its path, and everything at any other path as it was.
   */
  lemma {:induction false} UpsertEffect(previous: seq<Member>, m: Member, allow: bool)
    requires Sorted(PathOf, previous)
    ensures UpsertMember(previous, m, allow).Ok? <==> Accepts(previous, m, allow)
    ensures UpsertMember(previous, m, allow).Ok? ==>
              var r := UpsertMember(previous, m, allow).value;
              && Sorted(PathOf, r) && At(r, m.path) == [m]
              && (forall path :: path != m.path ==> At(r, path) == At(previous, path))
              && Others(r, m.path) == Others(previous, m.path)
  {
    var existing := At(previous, m.path);
    var updated := if existing != [] then Replaced(previous, m) else SortBy(PathOf, previous + [m]);
    hide SortBy, Others, Sorted, At;
    if |existing| <= 1 {
      UpdatedSorted(previous, m);
      forall path | true ensures At(updated, path) == if path == m.path then [m] else At(previous, path) {
        UpdatedAt(previous, m, path);
      }
      OthersByPaths(updated, previous, m.path);
    }
  }

  /** What a refusal says: two members at the path, another one there without permission, or another owner of the id. */
  lemma {:induction false} RefusedFor(previous: seq<Member>, m: Member, allow: bool)
    requires Sorted(PathOf, previous)
    ensures
      var there, r := At(previous, m.path), UpsertMember(previous, m, allow);
      && (r == Err(DuplicatePath) <==> |there| >= 2)
      && (r == Err(OwnedMemberChanged) <==> |there| == 1 && there != [m] && !allow)
      && (r == Err(IdAlreadyOwned) <==>
            && (there == [] || there == [m] || (|there| == 1 && allow))
            && exists k :: 0 <= k < |previous| && previous[k].id == m.id && previous[k].path != m.path)
      && r != Err(ExistingMemberChanged) && r != Err(OrderInvalid)
  {
    hide At, Others, Sorted, SortBy, OwnedElsewhere;
    UpsertEffect(previous, m, allow);
    assert OwnedElsewhere(previous, m) <==>
           exists k :: 0 <= k < |previous| && previous[k].id == m.id && previous[k].path != m.path by {
      ElsewhereIs(previous, m);
    }
  }

  lemma {:induction false} ElsewhereIs(s: seq<Member>, m: Member)
    ensures OwnedElsewhere(s, m) <==> exists k :: 0 <= k < |s| && s[k].id == m.id && s[k].path != m.path
  {
  }

  lemma {:induction false} UpdatedSorted(previous: seq<Member>, m: Member)
    requires Sorted(PathOf, previous)
    ensures Sorted(PathOf, Replaced(previous, m)) && Sorted(PathOf, SortBy(PathOf, previous + [m]))
  {
    SortBySorts(PathOf, previous + [m]);
    assert forall k :: 0 <= k < |previous| ==> PathOf(Replaced(previous, m)[k]) == PathOf(previous[k]);
  }

  lemma {:induction false} UpdatedAt(previous: seq<Member>, m: Member, path: string)
    requires |At(previous, m.path)| <= 1
    ensures
      var updated := if At(previous, m.path) != [] then Replaced(previous, m) else SortBy(PathOf, previous + [m]);
      At(updated, path) == if path == m.path then [m] else At(previous, path)
  {
    if At(previous, m.path) != [] {
      AtReplaced(previous, m, path);
    } else {
      AtSortBy(previous + [m], path);
      AtAppend(previous, [m], path);
      assert [m][1..] == [];
    }
  }

  lemma {:induction false} Idempotent(previous: seq<Member>, m: Member, allow: bool, again: bool)
    requires Sorted(PathOf, previous) && UpsertMember(previous, m, allow).Ok?
    ensures UpsertMember(UpsertMember(previous, m, allow).value, m, again) == UpsertMember(previous, m, allow)
  {
    hide UpsertMember, At, Others;
    var r := UpsertMember(previous, m, allow).value;
    UpsertEffect(previous, m, allow);
    OwnersAfter(previous, m, m, allow);
    UpsertEffect(r, m, again);
    var s := UpsertMember(r, m, again).value;
    SortedByPaths(s, r);
  }

  predicate HasAt(s: seq<Member>, path: string, id: string) {
    exists k :: 0 <= k < |s| && s[k].path == path && s[k].id == id
  }

  predicate HasBeyond(s: seq<Member>, id: string, p: string, q: string) {
    exists k :: 0 <= k < |s| && s[k].id == id && s[k].path != p && s[k].path != q
  }

  /** After m went in, another member's id is owned elsewhere by m itself or by members m left alone. */
  lemma {:induction false} OwnersAfter(previous: seq<Member>, m: Member, n: Member, allow: bool)
    requires Sorted(PathOf, previous) && UpsertMember(previous, m, allow).Ok?
    ensures OwnedElsewhere(UpsertMember(previous, m, allow).value, n)
            <==> (m.id == n.id && m.path != n.path) || HasBeyond(previous, n.id, n.path, m.path)
  {
    hide UpsertMember, At, Others;
    var r := UpsertMember(previous, m, allow).value;
    UpsertEffect(previous, m, allow);
    AtMembers(r, m.path);
    OthersMembers(r, m.path);
    OthersMembers(previous, m.path);
    if OwnedElsewhere(r, n) {
      var k :| 0 <= k < |r| && r[k].id == n.id && r[k].path != n.path;
      if r[k].path != m.path {
        assert r[k] in Others(r, m.path) && r[k] in previous;
      } else {
        assert r[k] in At(r, m.path);
      }
    }
    if m.id == n.id && m.path != n.path { assert m in At(r, m.path) && m in r; }
    if HasBeyond(previous, n.id, n.path, m.path) {
      var k :| 0 <= k < |previous| && previous[k].id == n.id && previous[k].path != n.path
          && previous[k].path != m.path;
      assert previous[k] in Others(previous, m.path) && previous[k] in r;
    }
  }

  // ----- all fixtures

  /** Each fixture goes into the manifest the one before it left, under the same permission. */
  ghost predicate InTurn(states: seq<seq<Member>>, ms: seq<Member>, allow: bool) {
    |states| == |ms| + 1 && forall k :: 0 <= k < |ms| ==> UpsertMember(states[k], ms[k], allow) == Ok(states[k + 1])
  }

  lemma {:induction false} AllInTurn(previous: seq<Member>, ms: seq<Member>, allow: bool)
    ensures UpsertAll(previous, ms, allow).Ok? <==> exists states :: InTurn(states, ms, allow) && states[0] == previous
    ensures forall states :: InTurn(states, ms, allow) && states[0] == previous ==>
              UpsertAll(previous, ms, allow) == Ok(states[|ms|])
  {
    hide UpsertMember;
    if ms == [] {
      assert InTurn([previous], ms, allow);
    } else {
      var n := |ms| - 1;
      AllInTurn(previous, ms[..n], allow);
      forall states | InTurn(states, ms, allow) && states[0] == previous
        ensures UpsertAll(previous, ms, allow) == Ok(states[|ms|])
      {
        assert InTurn(states[..|ms|], ms[..n], allow);
      }
      if UpsertAll(previous, ms, allow).Ok? {
        var states :| InTurn(states, ms[..n], allow) && states[0] == previous;
        assert InTurn(states + [UpsertAll(previous, ms, allow).value], ms, allow);
      }
    }
  }

  /** Without permission to update, every member stays; with it, every member at a path no fixture has. */
  lemma {:induction false} NoneLost(previous: seq<Member>, ms: seq<Member>, allow: bool, x: Member)
    requires Sorted(PathOf, previous) && UpsertAll(previous, ms, allow).Ok? && x in previous
    requires !allow || forall k :: 0 <= k < |ms| ==> ms[k].path != x.path
    ensures Sorted(PathOf, UpsertAll(previous, ms, allow).value) && x in UpsertAll(previous, ms, allow).value
  {
    hide UpsertMember;
    if ms != [] {
      var n := |ms| - 1;
      NoneLost(previous, ms[..n], allow, x);
      var before, m := UpsertAll(previous, ms[..n], allow).value, ms[n];
      UpsertEffect(before, m, allow);
      var after := UpsertAll(previous, ms, allow).value;
      AtMembers(before, x.path);
      AtMembers(after, x.path);
      assert x in At(before, x.path);
      if m.path == x.path { assert At(before, m.path) == [m]; }
    }
  }

  /** The fixtures of a successful run are there afterwards, each alone at its path, unless a later one has the path. */
  lemma {:induction false} FixturesIn(previous: seq<Member>, ms: seq<Member>, allow: bool, k: nat)
    requires Sorted(PathOf, previous) && UpsertAll(previous, ms, allow).Ok? && k < |ms|
    requires forall l :: k < l < |ms| ==> ms[l].path != ms[k].path
    ensures Sorted(PathOf, UpsertAll(previous, ms, allow).value)
    ensures At(UpsertAll(previous, ms, allow).value, ms[k].path) == [ms[k]]
  {
    hide UpsertMember;
    var n := |ms| - 1;
    AllSorted(previous, ms[..n], allow);
    UpsertEffect(UpsertAll(previous, ms[..n], allow).value, ms[n], allow);
    if k < n { FixturesIn(previous, ms[..n], allow, k); }
  }

  lemma {:induction false} AllSorted(previous: seq<Member>, ms: seq<Member>, allow: bool)
    requires Sorted(PathOf, previous) && UpsertAll(previous, ms, allow).Ok?
    ensures Sorted(PathOf, UpsertAll(previous, ms, allow).value)
  {
    hide UpsertMember;
    if ms != [] {
      AllSorted(previous, ms[..|ms| - 1], allow);
      UpsertEffect(UpsertAll(previous, ms[..|ms| - 1], allow).value, ms[|ms| - 1], allow);
    }
  }

  // ----- two fixtures

  function Both(previous: seq<Member>, m: Member, n: Member, allow: bool): Result<seq<Member>, Fault> {
    match UpsertMember(previous, m, allow)
    case Err(e) => Err(e)
    case Ok(r) => UpsertMember(r, n, allow)
  }

  /** What either order asks of two fixtures. */
  predicate Eligible(previous: seq<Member>, m: Member, n: Member, allow: bool) {
    && |At(previous, m.path)| <= 1 && (At(previous, m.path) in [[], [m]] || allow)
    && |At(previous, n.path)| <= 1 && (At(previous, n.path) in [[], [n]] || allow)
    && !HasBeyond(previous, m.id, m.path, n.path) && !HasBeyond(previous, n.id, n.path, m.path)
  }

  lemma {:induction false} BothIff(previous: seq<Member>, m: Member, n: Member, allow: bool)
    requires Sorted(PathOf, previous) && m.path != n.path && m.id != n.id
    ensures Both(previous, m, n, allow).Ok? <==> Eligible(previous, m, n, allow) && !HasAt(previous, n.path, m.id)
    ensures Both(previous, m, n, allow).Ok? ==>
              var r := Both(previous, m, n, allow).value;
              && Sorted(PathOf, r) && At(r, m.path) == [m] && At(r, n.path) == [n]
              && forall path :: path != m.path && path != n.path ==> At(r, path) == At(previous, path)
  {
    hide UpsertMember, At, Others;
    UpsertEffect(previous, m, allow);
    ElsewhereSplit(previous, m, n.path);
    if UpsertMember(previous, m, allow).Ok? {
      UpsertEffect(UpsertMember(previous, m, allow).value, n, allow);
      OwnersAfter(previous, m, n, allow);
    }
  }

  lemma {:induction false} ElsewhereSplit(s: seq<Member>, m: Member, q: string)
    requires q != m.path
    ensures OwnedElsewhere(s, m) <==> HasAt(s, q, m.id) || HasBeyond(s, m.id, m.path, q)
  {
  }

  /**
   * Two fixtures of different paths and ids commute when both orders succeed; and one order succeeds alone exactly when
   * they are otherwise eligible and one, but not the other, finds its id on a member the other fixture replaces.
   */
  lemma {:induction false} CommuteIff(previous: seq<Member>, m: Member, n: Member, allow: bool)
    requires Sorted(PathOf, previous) && m.path != n.path && m.id != n.id
    ensures Both(previous, m, n, allow).Ok? && Both(previous, n, m, allow).Ok? ==>
              Both(previous, m, n, allow) == Both(previous, n, m, allow)
    ensures Both(previous, m, n, allow).Ok? != Both(previous, n, m, allow).Ok?
            <==> Eligible(previous, m, n, allow) && HasAt(previous, n.path, m.id) != HasAt(previous, m.path, n.id)
  {
    hide UpsertMember, At, Both, HasAt, HasBeyond;
    BothIff(previous, m, n, allow);
    BothIff(previous, n, m, allow);
    if Both(previous, m, n, allow).Ok? && Both(previous, n, m, allow).Ok? {
      SortedByPaths(Both(previous, m, n, allow).value, Both(previous, n, m, allow).value);
    }
  }

  /** A manifest in which the order matters: the second path still carries the first fixture's id. */
  lemma {:induction false} OrderCanMatter()
    ensures
      var previous := [Member("b.json", "CTL-1", "")];
      var m, n := Member("a.json", "CTL-1", ""), Member("b.json", "CTL-2", "");
      m.path != n.path && m.id != n.id && Both(previous, m, n, true).Err? && Both(previous, n, m, true).Ok?
  {
    var previous := [Member("b.json", "CTL-1", "")];
    var m, n := Member("a.json", "CTL-1", ""), Member("b.json", "CTL-2", "");
    assert "a.json"[0] != "b.json"[0] && "CTL-1"[4] != "CTL-2"[4];
    assert previous[1..] == [] && At(previous, m.path) == [] && At(previous, n.path) == previous;
    assert HasAt(previous, n.path, m.id) && !HasAt(previous, m.path, n.id);
    assert Eligible(previous, m, n, true);
    BothIff(previous, m, n, true);
    BothIff(previous, n, m, true);
    assert Eligible(previous, n, m, true);
  }
}
