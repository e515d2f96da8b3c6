/** The normalization passes over a generated schema, as they act on any JSON document. */
module SchemaPasses {
  import opened Common
  import opened Json
  import opened JsonSchema

  /** Lists that are put in order: required names, and enumerations of strings only. */
  predicate IsSortedList(k: string, v: Json) {
    v.Arr? && (k == "required" || (k == "enum" && Strings(v.items)))
  }

  /** The documents the pass handles: a list of required names holds nothing but strings. */
  predicate Sortable(j: Json) {
    match j
    case Obj(m) => forall k :: k in m ==> if IsSortedList(k, m[k]) then Strings(m[k].items) else Sortable(m[k])
    case Arr(items) => forall i :: 0 <= i < |items| ==> Sortable(items[i])
    case _ => true
  }

  function SortStrings(items: seq<Json>): (r: seq<Json>)
    requires Strings(items)
    ensures Strings(r)
  {
    StringsOf(SortBy(Itself, Texts(items)))
  }

  function SortLists(j: Json): Json
    requires Sortable(j)
  {
    match j
    case Obj(m) =>
      Obj(map k | k in m :: if IsSortedList(k, m[k]) then Arr(SortStrings(m[k].items)) else SortLists(m[k]))
    case Arr(items) => Arr(seq(|items|, i requires 0 <= i < |items| => SortLists(items[i])))
    case _ => j
  }

  /** An object schema that declares properties and does not say what else it allows. */
  predicate Open(m: map<string, Json>) {
    "type" in m && m["type"] == Str("object") && "properties" in m && CLOSING !in m
  }

  function EnforceClosed(j: Json): Json {
    match j
    case Obj(m) =>
      var r := map k | k in m :: EnforceClosed(m[k]);
      Obj(if Open(r) then r[CLOSING := Bool(false)] else r)
    case Arr(items) => Arr(seq(|items|, i requires 0 <= i < |items| => EnforceClosed(items[i])))
    case _ => j
  }

  const COMMENT := "$comment"

  function StripMetadata(j: Json): Json {
    match j
    case Obj(m) => Obj(map k | k in m && k != COMMENT :: StripMetadata(m[k]))
    case Arr(items) => Arr(seq(|items|, i requires 0 <= i < |items| => StripMetadata(items[i])))
    case _ => j
  }

  /** The passes in the order they are applied. */
  function Normalized(j: Json): Json
    requires Sortable(EnforceClosed(StripMetadata(j)))
  {
    SortLists(EnforceClosed(StripMetadata(j)))
  }

  // ---- Normal forms ---------------------------------------------------------------------------

  predicate NoComment(j: Json) {
    match j
    case Obj(m) => COMMENT !in m && forall k :: k in m ==> NoComment(m[k])
    case Arr(items) => forall i :: 0 <= i < |items| ==> NoComment(items[i])
    case _ => true
  }

  predicate NothingOpen(j: Json) {
    match j
    case Obj(m) => !Open(m) && forall k :: k in m ==> NothingOpen(m[k])
    case Arr(items) => forall i :: 0 <= i < |items| ==> NothingOpen(items[i])
    case _ => true
  }

  predicate ListsSorted(j: Json) {
    match j
    case Obj(m) => forall k :: k in m ==>
        if IsSortedList(k, m[k]) then Strings(m[k].items) && Sorted(Itself, Texts(m[k].items)) else ListsSorted(m[k])
    case Arr(items) => forall i :: 0 <= i < |items| ==> ListsSorted(items[i])
    case _ => true
  }

  /** What a document looks like after all passes. */
  predicate NormalForm(j: Json) {
    NoComment(j) && NothingOpen(j) && ListsSorted(j)
  }

  lemma {:induction false} StripFixes(j: Json)
    ensures NoComment(StripMetadata(j))
    ensures NoComment(j) ==> StripMetadata(j) == j
  {
    match j
    case Obj(m) =>
      forall k | k in m ensures NoComment(StripMetadata(m[k])) && (NoComment(m[k]) ==> StripMetadata(m[k]) == m[k]) {
        StripFixes(m[k]);
      }
      if NoComment(j) { assert StripMetadata(j).members == m; }
    case Arr(items) =>
      forall i | 0 <= i < |items|
        ensures NoComment(StripMetadata(items[i])) && (NoComment(items[i]) ==> StripMetadata(items[i]) == items[i])
      {
        StripFixes(items[i]);
      }
      if NoComment(j) { assert StripMetadata(j).items == items; }
    case _ =>
  }

  lemma {:induction false} EnforceFixes(j: Json)
    ensures NothingOpen(EnforceClosed(j))
    ensures NothingOpen(j) ==> EnforceClosed(j) == j
    ensures NoComment(j) ==> NoComment(EnforceClosed(j))
  {
    match j
    case Obj(m) =>
      forall k | k in m
        ensures NothingOpen(EnforceClosed(m[k])) && (NothingOpen(m[k]) ==> EnforceClosed(m[k]) == m[k])
        ensures NoComment(m[k]) ==> NoComment(EnforceClosed(m[k]))
      {
        EnforceFixes(m[k]);
      }
      var r := map k | k in m :: EnforceClosed(m[k]);
      if NothingOpen(j) { assert r == m; }
    case Arr(items) =>
      forall i | 0 <= i < |items|
        ensures NothingOpen(EnforceClosed(items[i])) && (NothingOpen(items[i]) ==> EnforceClosed(items[i]) == items[i])
        ensures NoComment(items[i]) ==> NoComment(EnforceClosed(items[i]))
      {
        EnforceFixes(items[i]);
      }
      if NothingOpen(j) { assert EnforceClosed(j).items == items; }
    case _ =>
  }

  lemma {:induction false} SortStringsSorts(items: seq<Json>)
    requires Strings(items)
    ensures Sorted(Itself, Texts(SortStrings(items)))
    ensures Sorted(Itself, Texts(items)) ==> SortStrings(items) == items
    ensures forall x :: x in SortStrings(items) <==> x in items
  {
    var t := Texts(items);
    SortBySorts(Itself, t);
    assert Texts(StringsOf(SortBy(Itself, t))) == SortBy(Itself, t);
    if Sorted(Itself, t) { SortByOfSorted(Itself, t); }
    SameMembers(SortBy(Itself, t), t);
    forall x ensures x in SortStrings(items) <==> x in items {
      if x in items { var i :| 0 <= i < |items| && items[i] == x; assert t[i] in t; assert x == Str(t[i]); }
      if x.Str? && x.s in t { var i :| 0 <= i < |t| && t[i] == x.s; assert items[i] == x; }
      if x.Str? && x.s in SortBy(Itself, t) {
        var i :| 0 <= i < |t| && SortBy(Itself, t)[i] == x.s;
        assert SortStrings(items)[i] == x;
      }
    }
  }

  lemma {:induction false} SortFixes(j: Json)
    requires Sortable(j)
    ensures ListsSorted(SortLists(j)) && Sortable(SortLists(j))
    ensures ListsSorted(j) ==> SortLists(j) == j
    ensures NoComment(j) ==> NoComment(SortLists(j))
    ensures NothingOpen(j) ==> NothingOpen(SortLists(j))
  {
    match j
    case Obj(m) =>
      var r := SortLists(j).members;
      forall k | k in m
        ensures IsSortedList(k, r[k]) == IsSortedList(k, m[k])
        ensures if IsSortedList(k, r[k]) then Strings(r[k].items) && Sorted(Itself, Texts(r[k].items))
              else ListsSorted(r[k]) && Sortable(r[k])
        ensures IsSortedList(k, m[k]) && Sorted(Itself, Texts(m[k].items)) ==> r[k] == m[k]
        ensures !IsSortedList(k, m[k]) && ListsSorted(m[k]) ==> r[k] == m[k]
        ensures NoComment(m[k]) ==> NoComment(r[k])
        ensures NothingOpen(m[k]) ==> NothingOpen(r[k])
        ensures r[k] == Str("object") <==> m[k] == Str("object")
      {
        if IsSortedList(k, m[k]) {
          SortStringsSorts(m[k].items);
        } else {
          SortFixes(m[k]);
          if m[k].Arr? && k == "enum" { StaysMixed(m[k].items); }
        }
      }
      if ListsSorted(j) { assert r == m; }
    case Arr(items) =>
      forall i | 0 <= i < |items|
        ensures ListsSorted(SortLists(items[i])) && Sortable(SortLists(items[i]))
        ensures ListsSorted(items[i]) ==> SortLists(items[i]) == items[i]
        ensures NoComment(items[i]) ==> NoComment(SortLists(items[i]))
        ensures NothingOpen(items[i]) ==> NothingOpen(SortLists(items[i]))
      {
        SortFixes(items[i]);
      }
      if ListsSorted(j) { assert SortLists(j).items == items; }
    case _ =>
  }

  lemma {:induction false} StaysMixed(items: seq<Json>)
    requires Sortable(Arr(items)) && !Strings(items)
    ensures !Strings(SortLists(Arr(items)).items)
  {
    var i :| 0 <= i < |items| && !items[i].Str?;
    assert !SortLists(Arr(items)).items[i].Str?;
  }

  /** The composed passes reach a normal form, leave exactly the normal forms alone, and so are idempotent. */
  lemma {:induction false} NormalizedIsNormal(j: Json)
    requires Sortable(EnforceClosed(StripMetadata(j)))
    ensures NormalForm(Normalized(j))
    ensures Sortable(EnforceClosed(StripMetadata(Normalized(j)))) && Normalized(Normalized(j)) == Normalized(j)
    ensures Normalized(j) == j <==> NormalForm(j)
  {
    var stripped := StripMetadata(j);
    var closed := EnforceClosed(stripped);
    var result := SortLists(closed);
    StripFixes(j);
    EnforceFixes(stripped);
    SortFixes(closed);
    NormalIsFixed(result);
    if NormalForm(j) { NormalIsFixed(j); }
  }

  lemma {:induction false} NormalIsFixed(j: Json)
    requires NormalForm(j)
    ensures Sortable(j)
    ensures Sortable(EnforceClosed(StripMetadata(j))) && Normalized(j) == j
  {
    StripFixes(j);
    EnforceFixes(j);
    SortedIsSortable(j);
    SortFixes(j);
  }

  lemma {:induction false} SortedIsSortable(j: Json)
    requires ListsSorted(j)
    ensures Sortable(j)
  {
    match j
    case Obj(m) =>
      forall k | k in m && !IsSortedList(k, m[k]) ensures Sortable(m[k]) { SortedIsSortable(m[k]); }
    case Arr(items) =>
      forall i | 0 <= i < |items| ensures Sortable(items[i]) { SortedIsSortable(items[i]); }
    case _ =>
  }

  // ---- What each pass does at each place of a document ------------------------------------------

  /** Closing adds one member to each typed object that declares properties and nothing about others, and no more. */
  lemma {:induction false} ClosedPlaces(j: Json, path: seq<Hop>)
    requires At(j, path).Some?
    ensures At(EnforceClosed(j), path).Some?
    ensures
      var s, t := At(j, path).value, At(EnforceClosed(j), path).value;
      && SameKind(s, t) && (s.Arr? ==> |t.items| == |s.items|)
      && (s.Obj? ==>
            var m := s.members;
            if "type" in m && m["type"] == Str("object") && "properties" in m && "additionalProperties" !in m
            then t.members.Keys == m.Keys + {"additionalProperties"} && t.members["additionalProperties"] == Bool(false)
            else t.members.Keys == m.Keys)
  {
    if path != [] {
      match path[0]
      case Member(k) =>
        ClosedPlaces(j.members[k], path[1..]);
        assert EnforceClosed(j).members[k] == EnforceClosed(j.members[k]);
      case Item(i) => ClosedPlaces(j.items[i], path[1..]);
    } else if j.Obj? {
      var r := map k | k in j.members :: EnforceClosed(j.members[k]);
      assert r.Keys == j.members.Keys;
      assert "type" in r ==> (r["type"] == Str("object") <==> j.members["type"] == Str("object"));
    }
  }

  /** And then whatever the object does not declare is refused. */
  lemma {:induction false} ClosedRefuses(env: Env, fuel: nat, m: map<string, Json>, i: Json, p: string)
    requires "type" in m && m["type"] == Str("object") && "additionalProperties" !in m
    requires "properties" in m && m["properties"].Obj? && p !in m["properties"].members
    requires forall q :: q in m["properties"].members ==>
               m["properties"].members[q].Obj? || m["properties"].members[q].Bool?
    requires i.Obj? && p in i.members
    ensures Eval(env, fuel, false, EnforceClosed(Obj(m)), i)
  {
    ClosedPlaces(Obj(m), []);
    var s := EnforceClosed(Obj(m));
    assert s.members["properties"] == EnforceClosed(m["properties"]);
    ClosedPlaces(m["properties"], []);
    assert !Declared(s, p);
    assert Keyword(env, fuel, false, s, CLOSING, i);
  }

  /** Stripping removes the members called `$comment` with all they hold, and nothing else. */
  lemma {:induction false} StrippedPlaces(j: Json, path: seq<Hop>)
    ensures At(StripMetadata(j), path).Some? <==> At(j, path).Some? && Member("$comment") !in path
    ensures At(StripMetadata(j), path).Some? ==>
      var s, t := At(j, path).value, At(StripMetadata(j), path).value;
      SameKind(s, t) && (s.Arr? ==> |t.items| == |s.items|)
  {
    if path != [] {
      match path[0]
      case Member(k) => if j.Obj? && k in j.members { StrippedPlaces(j.members[k], path[1..]); }
      case Item(i) => if j.Arr? && i < |j.items| { StrippedPlaces(j.items[i], path[1..]); }
    }
  }

  /** The value of this member is put in order: required names, and enumerations of nothing but strings. */
  predicate PutInOrder(k: string, v: Json) {
    v.Arr? && (k == "required" || (k == "enum" && forall i :: 0 <= i < |v.items| ==> v.items[i].Str?))
  }

  /** A permutation, by code point. */
  predicate Ordered(s: Json, t: Json) {
    && s.Arr? && t.Arr? && multiset(t.items) == multiset(s.items)
    && forall a, b :: 0 <= a < b < |t.items| ==>
         t.items[a].Str? && t.items[b].Str? && Leq(t.items[a].s, t.items[b].s)
  }

  /** The documents that can be sorted are those in which every list of required names holds nothing but strings. */
  lemma {:induction false} SortableIff(j: Json)
    ensures Sortable(j) <==> forall path :: NamesAt(j, path)
  {
    if Sortable(j) {
      forall path ensures NamesAt(j, path) { SortableAt(j, path); }
    } else {
      var path := Unsortable(j);
    }
  }

  /** If an object stands here and requires names by a list, the list holds only strings. */
  predicate NamesAt(j: Json, path: seq<Hop>) {
    At(j, path).Some? && At(j, path).value.Obj? ==>
      var m := At(j, path).value.members;
      "required" in m && m["required"].Arr? ==> forall x :: x in m["required"].items ==> x.Str?
  }

  lemma {:induction false} SortableAt(j: Json, path: seq<Hop>)
    requires Sortable(j)
    ensures NamesAt(j, path)
  {
    if At(j, path).Some? && At(j, path).value.Obj? && path != [] {
      match path[0]
      case Member(k) =>
        if IsSortedList(k, j.members[k]) {
          assert At(j, path) == At(j.members[k], path[1..]);
          NoContainerIn(j.members[k].items, path[1..]);
        } else {
          SortableAt(j.members[k], path[1..]);
          assert At(j, path) == At(j.members[k], path[1..]);
        }
      case Item(i) =>
        SortableAt(j.items[i], path[1..]);
        assert At(j, path) == At(j.items[i], path[1..]);
    }
  }

  lemma {:induction false} Unsortable(j: Json) returns (path: seq<Hop>)
    requires !Sortable(j)
    ensures !NamesAt(j, path)
  {
    match j
    case Obj(m) =>
      var k :| k in m && !(if IsSortedList(k, m[k]) then Strings(m[k].items) else Sortable(m[k]));
      if IsSortedList(k, m[k]) {
        path := [];
        var i :| 0 <= i < |m[k].items| && !m[k].items[i].Str?;
        assert m[k].items[i] in m["required"].items;
      } else {
        var below := Unsortable(m[k]);
        path := [Member(k)] + below;
        assert At(j, path) == At(m[k], below);
      }
    case Arr(items) =>
      var i :| 0 <= i < |items| && !Sortable(items[i]);
      var below := Unsortable(items[i]);
      path := [Item(i)] + below;
      assert At(j, path) == At(items[i], below);
  }

  /** Sorting rearranges the lists that are put in order, by code point, and changes no other object or list. */
  lemma {:induction false} SortedPlaces(j: Json, path: seq<Hop>)
    requires Sortable(j) && At(j, path).Some? && !Scalar(At(j, path).value)
    requires path == [] || (path[|path| - 1].Member? ==> !PutInOrder(path[|path| - 1].name, At(j, path).value))
    ensures At(SortLists(j), path).Some? && SameKind(At(j, path).value, At(SortLists(j), path).value)
    ensures
      var s, t := At(j, path).value, At(SortLists(j), path).value;
      && (s.Arr? ==> |t.items| == |s.items| && forall i :: 0 <= i < |s.items| ==> SameKind(s.items[i], t.items[i]))
      && (s.Obj? ==>
            && t.members.Keys == s.members.Keys
            && forall k :: k in s.members ==>
                 if PutInOrder(k, s.members[k]) then Ordered(s.members[k], t.members[k])
                 else SameKind(s.members[k], t.members[k]))
    decreases path
  {
    if path == [] {
      match j
      case Obj(m) =>
        forall k | k in m && PutInOrder(k, m[k]) ensures Ordered(m[k], SortLists(j).members[k]) {
          InOrder(m[k].items);
        }
      case _ =>
    } else if path[0].Member? {
      var k := path[0].name;
      if PutInOrder(k, j.members[k]) {
        NoContainerIn(j.members[k].items, path[1..]);
      } else {
        SortedPlaces(j.members[k], path[1..]);
      }
    } else {
      SortedPlaces(j.items[path[0].index], path[1..]);
    }
  }

  lemma {:induction false} NoContainerIn(items: seq<Json>, path: seq<Hop>)
    requires Strings(items) && path != [] && At(Arr(items), path).Some?
    ensures Scalar(At(Arr(items), path).value)
  {
    assert path[1..] != [] ==> At(items[path[0].index], path[1..]).None?;
  }

  lemma {:induction false} InOrder(items: seq<Json>)
    requires Strings(items)
    ensures Ordered(Arr(items), Arr(SortStrings(items)))
  {
    var texts := Texts(items);
    SortBySorts(Itself, texts);
    SamePermutation(texts, SortBy(Itself, texts));
    assert StringsOf(texts) == items;
  }

  lemma {:induction false} SamePermutation(a: seq<string>, b: seq<string>)
    requires multiset(a) == multiset(b)
    ensures multiset(StringsOf(a)) == multiset(StringsOf(b))
  {
    forall x: Json ensures multiset(StringsOf(a))[x] == multiset(StringsOf(b))[x] {
      Occurrences(a, x);
      Occurrences(b, x);
    }
  }

  lemma {:induction false} Occurrences(texts: seq<string>, x: Json)
    ensures multiset(StringsOf(texts))[x] == if x.Str? then multiset(texts)[x.s] else 0
  {
    if texts != [] {
      Occurrences(texts[1..], x);
      FirstAndRest(texts);
      FirstAndRest(StringsOf(texts));
      assert StringsOf(texts)[1..] == StringsOf(texts[1..]);
    }
  }

  lemma {:induction false} FirstAndRest<T>(s: seq<T>)
    requires s != []
    ensures multiset(s) == multiset{s[0]} + multiset(s[1..])
  {
    assert s == [s[0]] + s[1..];
  }

  /** No comment, no undeclared member left open, lists in order. */
  predicate Tidy(m: map<string, Json>) {
    && "$comment" !in m
    && ("type" in m && m["type"] == Str("object") && "properties" in m ==> "additionalProperties" in m)
    && forall k :: k in m && PutInOrder(k, m[k]) ==> Ordered(m[k], m[k])
  }

  /** A normal form at each of its places is tidy. */
  lemma {:induction false} NormalPlaces(j: Json, path: seq<Hop>)
    requires NormalForm(j) && At(j, path).Some? && At(j, path).value.Obj?
    ensures Tidy(At(j, path).value.members)
  {
    if path != [] {
      match path[0]
      case Member(k) =>
        if IsSortedList(k, j.members[k]) {
          NoContainerIn(j.members[k].items, path[1..]);
        } else {
          NormalPlaces(j.members[k], path[1..]);
        }
      case Item(i) => NormalPlaces(j.items[i], path[1..]);
    } else {
      forall k | k in j.members && PutInOrder(k, j.members[k]) ensures Ordered(j.members[k], j.members[k]) {
        var texts := Texts(j.members[k].items);
        assert forall a :: 0 <= a < |texts| ==> texts[a] == j.members[k].items[a].s;
      }
    }
  }
}
