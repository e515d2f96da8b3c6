/** The whole normalization of one generated document, and what it accepts in the end. */
module SchemaNormalize {
  import opened Common
  import opened Json
  import opened JsonSchema
  import opened SchemaRelation
  import opened SchemaPasses
  import opened SchemaMeaning
  import opened SchemaRename

  // ---- Stripping keeps a document in the fragment ------------------------------------------------

  lemma {:induction false} StripKeeps(refs: set<string>, s: Json)
    requires Fragment(s)
    ensures Fragment(StripMetadata(s)) && (Positive(refs, s) ==> Positive(refs, StripMetadata(s)))
    decreases s, 1
  {
    if s.Obj? {
      var t := StripMetadata(s);
      forall k | k in t.members ensures FragmentKeyword(t, k) && (Positive(refs, s) ==> PositiveKeyword(refs, t, k)) {
        StripKeepsKeyword(refs, s, k);
      }
    }
  }

  lemma {:induction false} StripKeepsKeyword(refs: set<string>, s: Json, k: string)
    requires s.Obj? && k in s.members && k != COMMENT && FragmentKeyword(s, k)
    ensures FragmentKeyword(StripMetadata(s), k)
    ensures PositiveKeyword(refs, s, k) ==> PositiveKeyword(refs, StripMetadata(s), k)
    decreases s, 0
  {
    var v := s.members[k];
    var w := StripMetadata(v);
    assert StripMetadata(s).members[k] == w;
    if k == "$defs" || k == "properties" {
      forall p | p in w.members
        ensures Fragment(w.members[p]) && (Positive(refs, v.members[p]) ==> Positive(refs, w.members[p]))
      {
        StripKeeps(refs, v.members[p]);
      }
    } else if IsAnnotation(k) {
    } else if ListsSchemas(k) {
      forall j | 0 <= j < |w.items|
        ensures Fragment(w.items[j]) && (Positive(refs, v.items[j]) ==> Positive(refs, w.items[j]))
        ensures Unaffected(refs, v.items[j]) ==> Unaffected(refs, w.items[j])
      {
        StripKeeps(refs, v.items[j]);
        StripKeepsQuiet(refs, v.items[j]);
      }
    } else if NestsSchema(k) {
      StripKeeps(refs, v);
      StripKeepsQuiet(refs, v);
    } else {
      OtherwisePlain(s, k);
      PlainUntouched(v);
    }
  }

  lemma {:induction false} StripKeepsQuiet(refs: set<string>, j: Json)
    ensures NothingOpen(j) ==> NothingOpen(StripMetadata(j))
    ensures RefsWithin(refs, j) ==> RefsWithin(refs, StripMetadata(j))
  {
    match j
    case Obj(m) =>
      forall k | k in m
        ensures NothingOpen(m[k]) ==> NothingOpen(StripMetadata(m[k]))
        ensures RefsWithin(refs, m[k]) ==> RefsWithin(refs, StripMetadata(m[k]))
        ensures StripMetadata(m[k]) == Str("object") <==> m[k] == Str("object")
        ensures StripMetadata(m[k]).Str? ==> m[k] == StripMetadata(m[k])
      {
        StripKeepsQuiet(refs, m[k]);
      }
      if NothingOpen(j) {
        assert Open(StripMetadata(j).members) ==> Open(m);
      }
    case Arr(items) =>
      forall i | 0 <= i < |items|
        ensures NothingOpen(items[i]) ==> NothingOpen(StripMetadata(items[i]))
        ensures RefsWithin(refs, items[i]) ==> RefsWithin(refs, StripMetadata(items[i]))
      {
        StripKeepsQuiet(refs, items[i]);
      }
    case _ =>
  }

  lemma {:induction false} StripKeepsSettled(refs: set<string>, root: Json)
    requires Fragment(root) && Settled(root, refs)
    ensures Settled(StripMetadata(root), refs)
  {
    forall r | r in refs && Target(StripMetadata(root), r).Some?
      ensures Unaffected(refs, Target(StripMetadata(root), r).value)
    {
      StripTarget(root, r);
      StripKeepsQuiet(refs, Target(root, r).value);
    }
  }

  // ---- Closing keeps it there ----------------------------------------------------------------------

  lemma {:induction false} EnforceKeeps(s: Json)
    requires Fragment(s)
    ensures Fragment(EnforceClosed(s))
    decreases s, 1
  {
    if s.Obj? {
      var t := EnforceClosed(s);
      forall k | k in t.members ensures FragmentKeyword(t, k) {
        if k in s.members {
          EnforceKeepsKeyword(s, k);
        } else {
          assert t.members[k] == Bool(false);
        }
      }
    }
  }

  lemma {:induction false} EnforceKeepsKeyword(s: Json, k: string)
    requires s.Obj? && k in s.members && FragmentKeyword(s, k)
    ensures FragmentKeyword(EnforceClosed(s), k)
    decreases s, 0
  {
    var v := s.members[k];
    assert EnforceClosed(s).members[k] == EnforceClosed(v);
    if k == "$defs" || k == "properties" {
      NotAnObjectSchema(v);
      forall p | p in v.members ensures Fragment(EnforceClosed(v.members[p])) { EnforceKeeps(v.members[p]); }
    } else if IsAnnotation(k) {
    } else if ListsSchemas(k) {
      forall j | 0 <= j < |v.items| ensures Fragment(EnforceClosed(v.items[j])) { EnforceKeeps(v.items[j]); }
    } else if NestsSchema(k) {
      EnforceKeeps(v);
    } else {
      OtherwisePlain(s, k);
      PlainUntouched(v);
    }
  }

  // ---- Renaming keeps it there ---------------------------------------------------------------------

  /** The references under their new names. */
  function NewRefs(keys: set<string>, refs: set<string>): set<string> {
    set r | r in refs :: NewRef(keys, r)
  }

  lemma {:induction false} WalkKeepsQuiet(keys: set<string>, refs: set<string>, j: Json)
    ensures NothingOpen(j) ==> NothingOpen(Walk(keys, j))
    ensures RefsWithin(refs, j) ==> RefsWithin(NewRefs(keys, refs), Walk(keys, j))
  {
    hide *;
    if NothingOpen(j) { WalkKeepsClosed(keys, j); }
    if RefsWithin(refs, j) { WalkKeepsRefs(keys, refs, j); }
  }

  lemma {:induction false} WalkKeepsClosed(keys: set<string>, j: Json)
    requires NothingOpen(j)
    ensures NothingOpen(Walk(keys, j))
  {
    match j
    case Obj(m) =>
      var w := Walk(keys, j).members;
      assert w.Keys == m.Keys;
      forall k | k in m ensures NothingOpen(w[k]) && (w[k] == Str("object") && k != "$ref" ==> m[k] == Str("object")) {
        if !(k == "$ref" && m[k].Str?) { WalkKeepsClosed(keys, m[k]); }
      }
      assert Open(w) ==> Open(m);
    case Arr(items) =>
      forall i | 0 <= i < |items| ensures NothingOpen(Walk(keys, items[i])) {
        WalkKeepsClosed(keys, items[i]);
      }
    case _ =>
  }

  lemma {:induction false} WalkKeepsRefs(keys: set<string>, refs: set<string>, j: Json)
    requires RefsWithin(refs, j)
    ensures RefsWithin(NewRefs(keys, refs), Walk(keys, j))
  {
    match j
    case Obj(m) =>
      var w := Walk(keys, j).members;
      forall k | k in m
        ensures RefsWithin(NewRefs(keys, refs), w[k])
        ensures k == "$ref" && w[k].Str? && Local(w[k].s) ==> w[k].s in NewRefs(keys, refs)
      {
        if k == "$ref" && m[k].Str? {
          NewRefLocal(keys, m[k].s);
          assert Local(m[k].s) ==> m[k].s in refs;
        } else {
          WalkKeepsRefs(keys, refs, m[k]);
        }
      }
    case Arr(items) =>
      forall i | 0 <= i < |items| ensures RefsWithin(NewRefs(keys, refs), Walk(keys, items[i])) {
        WalkKeepsRefs(keys, refs, items[i]);
      }
    case _ =>
  }

  lemma {:induction false} NewRefLocal(keys: set<string>, ref: string)
    ensures Local(NewRef(keys, ref)) <==> Local(ref)
  {
    assert DEFS[0] == '#';
  }

  lemma {:induction false} WalkKeeps(keys: set<string>, refs: set<string>, s: Json)
    requires Fragment(s)
    ensures Fragment(Walk(keys, s)) && (Positive(refs, s) ==> Positive(NewRefs(keys, refs), Walk(keys, s)))
    decreases s, 1
  {
    if s.Obj? {
      var t := Walk(keys, s);
      forall k | k in t.members
        ensures FragmentKeyword(t, k) && (Positive(refs, s) ==> PositiveKeyword(NewRefs(keys, refs), t, k))
      {
        WalkKeepsKeyword(keys, refs, s, k);
      }
    }
  }

  lemma {:induction false} WalkKeepsKeyword(keys: set<string>, refs: set<string>, s: Json, k: string)
    requires s.Obj? && k in s.members && FragmentKeyword(s, k)
    ensures FragmentKeyword(Walk(keys, s), k)
    ensures PositiveKeyword(refs, s, k) ==> PositiveKeyword(NewRefs(keys, refs), Walk(keys, s), k)
    decreases s, 0
  {
    var v := s.members[k];
    if k == "$ref" {
      return;
    }
    var w, after := Walk(keys, v), NewRefs(keys, refs);
    assert Walk(keys, s).members[k] == w;
    if k == "$defs" || k == "properties" {
      forall p | p in v.members
        ensures Fragment(w.members[p]) && (Positive(refs, v.members[p]) ==> Positive(after, w.members[p]))
      {
        assert Fragment(v.members[p]);
        WalkKeeps(keys, refs, v.members[p]);
      }
    } else if IsAnnotation(k) {
    } else if ListsSchemas(k) {
      forall j | 0 <= j < |w.items|
        ensures Fragment(w.items[j]) && (Positive(refs, v.items[j]) ==> Positive(after, w.items[j]))
        ensures Unaffected(refs, v.items[j]) ==> Unaffected(after, w.items[j])
      {
        WalkKeeps(keys, refs, v.items[j]);
        WalkKeepsQuiet(keys, refs, v.items[j]);
      }
    } else if NestsSchema(k) {
      WalkKeeps(keys, refs, v);
      WalkKeepsQuiet(keys, refs, v);
    } else {
      OtherwisePlain(s, k);
      PlainNotWalked(keys, v);
    }
  }

  /** No definition is called `$comment` or becomes so called. */
  predicate NoCommentKeys(raw: Json) {
    forall k :: k in Defs(raw) ==> NewKey(k) != COMMENT
  }

  lemma {:induction false} RenameKeeps(refs: set<string>, raw: Json, order: seq<string>)
    requires Fragment(raw) && OrderOf(order, raw) && NoCommentKeys(raw)
    ensures Fragment(RenameDefs(raw, order))
    ensures Positive(refs, raw) ==> Positive(NewRefs(Defs(raw).Keys, refs), RenameDefs(raw, order))
  {
    var defs, keys, t := Defs(raw), Defs(raw).Keys, RenameDefs(raw, order);
    var w, after := Walk(keys, raw), NewRefs(keys, refs);
    WalkKeeps(keys, refs, raw);
    if HasDefs(raw) {
      NewDefsAre(defs, order);
      assert FragmentKeyword(raw, "$defs") && (Positive(refs, raw) ==> PositiveKeyword(refs, raw, "$defs"));
      forall q | q in NewDefs(defs, order)
        ensures q != COMMENT && Fragment(NewDefs(defs, order)[q])
        ensures Positive(refs, raw) ==> Positive(after, NewDefs(defs, order)[q])
      {
        var k :| k in order && NewKey(k) == q && NewDefs(defs, order)[q] == Walk(keys, defs[k]);
        WalkKeeps(keys, refs, defs[k]);
      }
      forall k | k in t.members
        ensures FragmentKeyword(t, k) && (Positive(refs, raw) ==> PositiveKeyword(after, t, k))
      {
        if k != "$defs" { OtherKeyword(after, w, t, k); }
      }
    } else {
      NoDefsNoChange(raw, raw);
    }
  }

  /** A keyword reads no more of its schema than its own value. */
  lemma {:induction false} OtherKeyword(refs: set<string>, w: Json, t: Json, k: string)
    requires w.Obj? && t.Obj? && k in w.members && k in t.members && w.members[k] == t.members[k]
    requires Fragment(w)
    ensures FragmentKeyword(t, k) && (Positive(refs, w) ==> PositiveKeyword(refs, t, k))
  {
    assert FragmentKeyword(w, k) && (Positive(refs, w) ==> PositiveKeyword(refs, w, k));
  }

  lemma {:induction false} RenameKeepsQuiet(refs: set<string>, raw: Json, order: seq<string>)
    requires Fragment(raw) && Unaffected(refs, raw) && OrderOf(order, raw)
    ensures Unaffected(NewRefs(Defs(raw).Keys, refs), RenameDefs(raw, order))
  {
    var defs, keys := Defs(raw), Defs(raw).Keys;
    var after := NewRefs(keys, refs);
    WalkKeepsQuiet(keys, refs, raw);
    if HasDefs(raw) {
      var w, renamed := Walk(keys, raw), NewDefs(defs, order);
      NewDefsAre(defs, order);
      assert Unaffected(refs, raw.members["$defs"]) && FragmentKeyword(raw, "$defs");
      forall q | q in renamed ensures Unaffected(after, renamed[q]) && !renamed[q].Str? {
        var k :| k in order && NewKey(k) == q && renamed[q] == Walk(keys, defs[k]);
        assert Fragment(defs[k]);
        WalkKeepsQuiet(keys, refs, defs[k]);
      }
      assert Unaffected(after, Obj(renamed));
      WithDefs(after, w, renamed);
    } else {
      NoDefsNoChange(raw, raw);
    }
  }

  lemma {:induction false} WithDefs(refs: set<string>, w: Json, defs: map<string, Json>)
    requires w.Obj? && Unaffected(refs, w) && Unaffected(refs, Obj(defs))
    ensures Unaffected(refs, Obj(w.members["$defs" := Obj(defs)]))
  {
    var m := w.members["$defs" := Obj(defs)];
    assert "$defs" != "type" && "$defs" != "properties" && "$defs" != CLOSING && "$defs" != "$ref";
    assert Open(m) == Open(w.members);
  }

  lemma {:induction false} RenameKeepsSettled(refs: set<string>, raw: Json, order: seq<string>)
    requires Fragment(raw) && Settled(raw, refs) && OrderOf(order, raw) && NoClash(Defs(raw))
    requires forall r :: r in refs ==> !Captured(raw, r)
    ensures Settled(RenameDefs(raw, order), NewRefs(Defs(raw).Keys, refs))
  {
    var keys, t := Defs(raw).Keys, RenameDefs(raw, order);
    forall q | q in NewRefs(keys, refs) && Target(t, q).Some?
        ensures Unaffected(NewRefs(keys, refs), Target(t, q).value) {
      var r :| r in refs && q == NewRef(keys, r);
      if Target(raw, r).None? {
        DanglingResolvesIff(raw, order, r);
      } else {
        ResolutionKept(raw, order, r);
        if r == "#" {
          RenameKeepsQuiet(refs, raw, order);
        } else {
          WalkKeepsQuiet(keys, refs, Target(raw, r).value);
        }
      }
    }
  }

  // ---- The document that is published -------------------------------------------------------------

  const DRAFT_2020_12 := "https://json-schema.org/draft/2020-12/schema"

  /** Identification is replaced last; it does not take part in validation. */
  function Identified(document: Json, id: string, title: string): Json
    requires document.Obj?
  {
    Obj(document.members["$id" := Str(id)]["$schema" := Str(DRAFT_2020_12)]["title" := Str(title)])
  }

  predicate Accepted(raw: Json, order: seq<string>) {
    raw.Obj? && OrderOf(order, raw) && Sortable(EnforceClosed(StripMetadata(RenameDefs(raw, order))))
  }

  function Normalize(raw: Json, order: seq<string>, id: string, title: string): Json
    requires Accepted(raw, order)
  {
    Identified(Normalized(RenameDefs(raw, order)), id, title)
  }

  lemma {:induction false} IdentifiedAs(document: Json, id: string, title: string)
    requires document.Obj?
    ensures
      var t := Identified(document, id, title);
      && At(t, [Member("$id")]) == Some(Str(id)) && At(t, [Member("title")]) == Some(Str(title))
      && At(t, [Member("$schema")]) == Some(Str("https://json-schema.org/draft/2020-12/schema"))
    ensures
      var t := Identified(document, id, title);
      && t.members.Keys == document.members.Keys + {"$id", "$schema", "title"}
      && forall k :: k in document.members && k !in {"$id", "$schema", "title"} ==> t.members[k] == document.members[k]
  {
  }

  lemma {:induction false} IdentifiedPlaces(document: Json, id: string, title: string, path: seq<Hop>)
    requires document.Obj? && path != []
    requires At(Identified(document, id, title), path).Some? && At(Identified(document, id, title), path).value.Obj?
    ensures At(document, path) == At(Identified(document, id, title), path)
  {
    var t, k := Identified(document, id, title), path[0].name;
    IdentifiedAs(document, id, title);
    assert At(t, path) == At(t.members[k], path[1..]);
    assert !t.members[k].Str?;
  }

  lemma {:induction false} StaysTidy(m: map<string, Json>, id: string, title: string)
    requires Tidy(m)
    ensures Tidy(Identified(Obj(m), id, title).members)
  {
    IdentifiedAs(Obj(m), id, title);
    hide Ordered;
  }

  lemma {:induction false} IdentifiedTidy(document: Json, id: string, title: string, path: seq<Hop>)
    requires document.Obj? && NormalForm(document)
    requires At(Identified(document, id, title), path).Some? && At(Identified(document, id, title), path).value.Obj?
    ensures Tidy(At(Identified(document, id, title), path).value.members)
  {
    if path == [] {
      NormalPlaces(document, []);
      StaysTidy(document.members, id, title);
    } else {
      IdentifiedPlaces(document, id, title, path);
      NormalPlaces(document, path);
    }
  }

  /** The published document at each of its places: identified, without comments, closed and in order. */
  lemma {:induction false} PublishedPlaces(raw: Json, order: seq<string>, id: string, title: string, path: seq<Hop>)
    requires Accepted(raw, order)
    ensures
      var t := Normalize(raw, order, id, title);
      && At(t, [Member("$id")]) == Some(Str(id)) && At(t, [Member("title")]) == Some(Str(title))
      && At(t, [Member("$schema")]) == Some(Str("https://json-schema.org/draft/2020-12/schema"))
    ensures
      var place := At(Normalize(raw, order, id, title), path);
      place.Some? && place.value.Obj? ==> Tidy(place.value.members)
  {
    var document, t := Normalized(RenameDefs(raw, order)), Normalize(raw, order, id, title);
    assert document.Obj? && t == Identified(document, id, title);
    hide *;
    NormalizedIsNormal(RenameDefs(raw, order));
    IdentifiedAs(document, id, title);
    if At(t, path).Some? && At(t, path).value.Obj? { IdentifiedTidy(document, id, title, path); }
  }

  lemma {:induction false} IdentificationIsInert(e: Env, id: string, title: string, i: Json)
    requires e.root.Obj?
    ensures var f := e.(root := Identified(e.root, id, title));
      (Accepts(f, f.root, i) <==> Accepts(e, e.root, i)) && (Rejects(f, f.root, i) <==> Rejects(e, e.root, i))
  {
    var s, t := e.root, Identified(e.root, id, title);
    var f := e.(root := t);
    forall mode ensures Related(IDENTITY, mode, s, t) {
      RelatedSelf(IDENTITY, {}, mode, s);
      forall k | k in s.members && !IsAnnotation(k) ensures KeywordRelated(IDENTITY, mode, s, t, k) {
        assert KeywordRelated(IDENTITY, mode, s, s, k) && t.members[k] == s.members[k];
      }
    }
    forall mode, r, q | IDENTITY(mode, r, q)
      ensures Target(s, r).Some? == Target(t, q).Some?
      ensures Target(s, r).Some? ==> Related(IDENTITY, mode, Target(s, r).value, Target(t, q).value)
    {
      if r != "#" && Target(s, r).Some? { RelatedSelf(IDENTITY, {}, mode, Target(s, r).value); }
    }
    SameVerdicts(IDENTITY, IDENTITY, e, f, s, t, i);
  }

  lemma {:induction false} PassesKeep(refs: set<string>, raw: Json, order: seq<string>)
    requires Fragment(raw) && OrderOf(order, raw) && NoCommentKeys(raw)
    ensures
      var stripped := StripMetadata(RenameDefs(raw, order));
      && Fragment(RenameDefs(raw, order)) && Fragment(stripped) && Fragment(EnforceClosed(stripped))
      && (Positive(refs, raw) ==> Positive(NewRefs(Defs(raw).Keys, refs), stripped))
  {
    RenameKeeps(refs, raw, order);
    StripKeeps(NewRefs(Defs(raw).Keys, refs), RenameDefs(raw, order));
    EnforceKeeps(StripMetadata(RenameDefs(raw, order)));
  }

  /** The published document has the verdicts of the renamed, stripped and closed one. */
  lemma {:induction false} OnlyClosingMatters(e: Env, order: seq<string>, id: string, title: string, i: Json)
    requires Accepted(e.root, order) && NoCommentKeys(e.root)
    requires Fragment(e.root) && NoneCaptured(e.root, e.root) && NoClash(Defs(e.root))
    ensures
      var f, g := e.(root := Normalize(e.root, order, id, title)), e.(root := StripMetadata(RenameDefs(e.root, order)));
      && (Accepts(g, g.root, i) <==> Accepts(e, e.root, i)) && (Rejects(g, g.root, i) <==> Rejects(e, e.root, i))
      && (Accepts(f, f.root, i) <==> Accepts(ClosedEnv(g), EnforceClosed(g.root), i))
      && (Rejects(f, f.root, i) <==> Rejects(ClosedEnv(g), EnforceClosed(g.root), i))
  {
    var renamed := RenameDefs(e.root, order);
    var closed := EnforceClosed(StripMetadata(renamed));
    PassesKeep({}, e.root, order);
    RenameKeepsMeaning(e, order, i);
    StripKeepsMeaning(e.(root := renamed), renamed, i);
    SortKeepsMeaning(e.(root := closed), closed, i);
    IdentificationIsInert(e.(root := SortLists(closed)), id, title, i);
  }

  /** A generated document that leaves no object open is published with exactly its verdicts. */
  lemma {:induction false} NormalizeKeepsMeaning(e: Env, order: seq<string>, id: string, title: string, i: Json)
    requires Accepted(e.root, order) && NoCommentKeys(e.root)
    requires Fragment(e.root) && NoneCaptured(e.root, e.root) && NoClash(Defs(e.root))
    requires NothingOpen(StripMetadata(RenameDefs(e.root, order)))
    ensures var f := e.(root := Normalize(e.root, order, id, title));
      (Accepts(f, f.root, i) <==> Accepts(e, e.root, i)) && (Rejects(f, f.root, i) <==> Rejects(e, e.root, i))
  {
    OnlyClosingMatters(e, order, id, title, i);
    EnforceFixes(StripMetadata(RenameDefs(e.root, order)));
  }

  /** Otherwise the published schema accepts only instances the generated one accepts, as long as bodies
      below `not`, `oneOf` and `if` leave nothing open and refer to definitions that do not either. */
  lemma {:induction false} NormalizeOnlyNarrows(
      e: Env, refs: set<string>, order: seq<string>, id: string, title: string, i: Json)
    requires Accepted(e.root, order) && NoCommentKeys(e.root)
    requires Fragment(e.root) && NoneCaptured(e.root, e.root) && NoClash(Defs(e.root))
    requires Positive(refs, e.root) && Settled(e.root, refs) && forall r :: r in refs ==> !Captured(e.root, r)
    ensures var f := e.(root := Normalize(e.root, order, id, title));
      (Accepts(f, f.root, i) ==> Accepts(e, e.root, i)) && (Rejects(e, e.root, i) ==> Rejects(f, f.root, i))
  {
    var renamed, after := RenameDefs(e.root, order), NewRefs(Defs(e.root).Keys, refs);
    var stripped := StripMetadata(renamed);
    OnlyClosingMatters(e, order, id, title, i);
    PassesKeep(refs, e.root, order);
    RenameKeepsSettled(refs, e.root, order);
    StripKeepsSettled(after, renamed);
    EnforceOnlyNarrows(e.(root := stripped), after, stripped, i);
  }
}
