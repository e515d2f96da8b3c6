/** What the normalization passes do to the meaning of a schema. */
module SchemaMeaning {
  import opened Json
  import opened JsonSchema
  import opened SchemaRelation
  import opened SchemaPasses

  predicate Scalars(v: Json) {
    v.Arr? && forall i :: 0 <= i < |v.items| ==> Scalar(v.items[i])
  }

  /** Instance data inside a schema: scalars, lists of them, or such lists by name. */
  predicate Plain(v: Json) {
    || Scalar(v) || Scalars(v)
    || (v.Obj? && forall p :: p in v.members ==> p !in {COMMENT, "required", "enum"} && Scalars(v.members[p]))
  }

  /** Keywords whose verdict depends on which items others evaluated, or on where a reference came from. */
  predicate Contextual(k: string) {
    k in {"unevaluatedItems", "$dynamicRef"}
  }

  /** Schemas of the fragment: instance data inside a schema is plain, and no property or
      definition is called `$comment`. Data of annotations is free. */
  predicate Fragment(s: Json)
    decreases s, 1
  {
    match s
    case Bool(_) => true
    case Obj(m) => forall k :: k in m ==> FragmentKeyword(s, k)
    case _ => false
  }

  predicate FragmentKeyword(s: Json, k: string)
    requires s.Obj? && k in s.members
    decreases s, 0
  {
    var v := s.members[k];
    if k == "$defs" || k == "properties" then
      v.Obj? && COMMENT !in v.members && forall p :: p in v.members ==> Fragment(v.members[p])
    else if IsAnnotation(k) then true
    else if ListsSchemas(k) then v.Arr? && forall i :: 0 <= i < |v.items| ==> Fragment(v.items[i])
    else if NestsSchema(k) then Fragment(v)
    else if k == "required" then v.Arr? && Strings(v.items)
    else if k in {"enum", "type", "const"} then Scalar(v) || Scalars(v)
    else if k == "dependentRequired" then Plain(v)
    else Scalar(v) && !Contextual(k)
  }

  lemma {:induction false} PlainUntouched(v: Json)
    requires Plain(v)
    ensures StripMetadata(v) == v && EnforceClosed(v) == v
    ensures Sortable(v) && SortLists(v) == v
  {
    if v.Arr? {
      forall i | 0 <= i < |v.items|
        ensures StripMetadata(v.items[i]) == v.items[i] == EnforceClosed(v.items[i])
        ensures Sortable(v.items[i]) && SortLists(v.items[i]) == v.items[i]
      {
        PlainUntouched(v.items[i]);
      }
      assert StripMetadata(v).items == v.items;
      assert EnforceClosed(v).items == v.items;
      assert SortLists(v).items == v.items;
    } else if v.Obj? {
      forall p | p in v.members
        ensures StripMetadata(v.members[p]) == v.members[p] == EnforceClosed(v.members[p])
        ensures Sortable(v.members[p]) && SortLists(v.members[p]) == v.members[p]
      {
        PlainUntouched(v.members[p]);
      }
      assert StripMetadata(v).members == v.members;
      assert SortLists(v).members == v.members;
      var r := map p | p in v.members :: EnforceClosed(v.members[p]);
      assert r == v.members && !Open(r);
    }
  }

  /** What is not a schema, a list or a map of schemas is plain. */
  lemma {:induction false} OtherwisePlain(s: Json, k: string)
    requires s.Obj? && k in s.members && FragmentKeyword(s, k) && !IsAnnotation(k) && k != "properties"
    requires !ListsSchemas(k) && !NestsSchema(k)
    ensures Plain(s.members[k])
  {
    assert k == "required" ==> Scalars(s.members[k]);
  }

  // ---- Sorting and stripping change nothing -----------------------------------------------------

  lemma {:induction false} SortRelated(s: Json)
    requires Fragment(s) && Sortable(s)
    ensures Related(IDENTITY, Same, s, SortLists(s))
    decreases s, 1
  {
    if s.Obj? {
      forall k | k in s.members && !IsAnnotation(k) ensures KeywordRelated(IDENTITY, Same, s, SortLists(s), k) {
        SortKeywordRelated(s, k);
      }
    }
  }

  lemma {:induction false} SortKeywordRelated(s: Json, k: string)
    requires Fragment(s) && Sortable(s) && s.Obj? && k in s.members && !IsAnnotation(k)
    ensures KeywordRelated(IDENTITY, Same, s, SortLists(s), k)
    decreases s, 0
  {
    var v := s.members[k];
    assert FragmentKeyword(s, k);
    if IsSortedList(k, v) {
      SortStringsSorts(v.items);
    } else if v.Obj? && k == "properties" {
      forall p | p in v.members ensures Related(IDENTITY, Same, v.members[p], SortLists(v).members[p]) {
        assert Fragment(v.members[p]) && !IsSortedList(p, v.members[p]);
        SortRelated(v.members[p]);
      }
    } else if ListsSchemas(k) {
      forall j | 0 <= j < |v.items| ensures Related(IDENTITY, Same, v.items[j], SortLists(v).items[j]) {
        SortRelated(v.items[j]);
      }
    } else if NestsSchema(k) {
      SortRelated(v);
    } else {
      OtherwisePlain(s, k);
      PlainUntouched(v);
    }
  }

  lemma {:induction false} StripRelated(s: Json)
    requires Fragment(s)
    ensures Related(IDENTITY, Same, s, StripMetadata(s))
    decreases s, 1
  {
    if s.Obj? {
      forall k | k in s.members && !IsAnnotation(k) ensures KeywordRelated(IDENTITY, Same, s, StripMetadata(s), k) {
        StripKeywordRelated(s, k);
      }
    }
  }

  lemma {:induction false} StripKeywordRelated(s: Json, k: string)
    requires Fragment(s) && s.Obj? && k in s.members && !IsAnnotation(k)
    ensures k in StripMetadata(s).members && KeywordRelated(IDENTITY, Same, s, StripMetadata(s), k)
    decreases s, 0
  {
    var v := s.members[k];
    assert FragmentKeyword(s, k);
    if k == "properties" {
      forall p | p in v.members
          ensures p in StripMetadata(v).members && Related(IDENTITY, Same, v.members[p], StripMetadata(v).members[p]) {
        StripRelated(v.members[p]);
      }
      assert v.members.Keys == StripMetadata(v).members.Keys;
    } else if ListsSchemas(k) {
      forall j | 0 <= j < |v.items| ensures Related(IDENTITY, Same, v.items[j], StripMetadata(v).items[j]) {
        StripRelated(v.items[j]);
      }
    } else if NestsSchema(k) {
      StripRelated(v);
    } else {
      OtherwisePlain(s, k);
      PlainUntouched(v);
    }
  }

  function SortedEnv(e: Env): Env
    requires Sortable(e.root)
  {
    e.(root := SortLists(e.root))
  }

  function StrippedEnv(e: Env): Env {
    e.(root := StripMetadata(e.root))
  }

  /** What a local reference names in a document and in its image under a pass. */
  lemma {:induction false} SortTarget(root: Json, r: string)
    requires Fragment(root) && Sortable(root)
    ensures Target(root, r).Some? == Target(SortLists(root), r).Some?
    ensures Target(root, r).Some? ==>
      Fragment(Target(root, r).value) && Sortable(Target(root, r).value)
      && Target(SortLists(root), r).value == SortLists(Target(root, r).value)
  {
    if root.Obj? && "$defs" in root.members {
      var defs := root.members["$defs"];
      assert FragmentKeyword(root, "$defs");
      forall p | p in defs.members ensures !IsSortedList(p, defs.members[p]) {
        assert Fragment(defs.members[p]);
      }
    }
  }

  lemma {:induction false} StripTarget(root: Json, r: string)
    requires Fragment(root)
    ensures Target(root, r).Some? == Target(StripMetadata(root), r).Some?
    ensures Target(root, r).Some? ==>
      Fragment(Target(root, r).value) && Target(StripMetadata(root), r).value == StripMetadata(Target(root, r).value)
  {
    if root.Obj? && "$defs" in root.members {
      assert FragmentKeyword(root, "$defs");
    }
  }

  /** Sorting the lists of a document changes no verdict on any instance. */
  lemma {:induction false} SortKeepsMeaning(e: Env, s: Json, i: Json)
    requires Fragment(e.root) && Sortable(e.root) && Fragment(s) && Sortable(s)
    ensures Accepts(SortedEnv(e), SortLists(s), i) <==> Accepts(e, s, i)
    ensures Rejects(SortedEnv(e), SortLists(s), i) <==> Rejects(e, s, i)
  {
    forall mode, r, q | IDENTITY(mode, r, q)
      ensures Target(e.root, r).Some? == Target(SortedEnv(e).root, q).Some?
      ensures Target(e.root, r).Some? ==>
            Related(IDENTITY, mode, Target(e.root, r).value, Target(SortedEnv(e).root, q).value)
    {
      SortTarget(e.root, r);
      if Target(e.root, r).Some? {
        SortRelated(Target(e.root, r).value);
        AnyMode(IDENTITY, mode, Target(e.root, r).value, SortLists(Target(e.root, r).value));
      }
    }
    SortRelated(s);
    SameVerdicts(IDENTITY, IDENTITY, e, SortedEnv(e), s, SortLists(s), i);
  }

  /** Removing comments changes no verdict on any instance. */
  lemma {:induction false} StripKeepsMeaning(e: Env, s: Json, i: Json)
    requires Fragment(e.root) && Fragment(s)
    ensures Accepts(StrippedEnv(e), StripMetadata(s), i) <==> Accepts(e, s, i)
    ensures Rejects(StrippedEnv(e), StripMetadata(s), i) <==> Rejects(e, s, i)
  {
    forall mode, r, q | IDENTITY(mode, r, q)
      ensures Target(e.root, r).Some? == Target(StrippedEnv(e).root, q).Some?
      ensures Target(e.root, r).Some? ==>
            Related(IDENTITY, mode, Target(e.root, r).value, Target(StrippedEnv(e).root, q).value)
    {
      StripTarget(e.root, r);
      if Target(e.root, r).Some? {
        StripRelated(Target(e.root, r).value);
        AnyMode(IDENTITY, mode, Target(e.root, r).value, StripMetadata(Target(e.root, r).value));
      }
    }
    StripRelated(s);
    SameVerdicts(IDENTITY, IDENTITY, e, StrippedEnv(e), s, StripMetadata(s), i);
  }

  // ---- Closing objects narrows ------------------------------------------------------------------

  /** Bodies whose verdict counts in both directions must be untouched by the pass, and refer only
      to definitions that are. */
  predicate Unaffected(refs: set<string>, s: Json) {
    NothingOpen(s) && RefsWithin(refs, s)
  }

  /** What these references name is untouched by the pass, however far it is followed. */
  predicate Settled(root: Json, refs: set<string>) {
    forall r :: r in refs && Target(root, r).Some? ==> Unaffected(refs, Target(root, r).value)
  }

  /** The positive fragment: below `not`, `oneOf` and `if` there is nothing the pass could close. */
  predicate Positive(refs: set<string>, s: Json)
    decreases s, 1
  {
    match s
    case Obj(m) => forall k :: k in m ==> PositiveKeyword(refs, s, k)
    case _ => true
  }

  predicate PositiveKeyword(refs: set<string>, s: Json, k: string)
    requires s.Obj? && k in s.members
    decreases s, 0
  {
    var v := s.members[k];
    if k == "$defs" || k == "properties" then v.Obj? ==> forall p :: p in v.members ==> Positive(refs, v.members[p])
    else if IsAnnotation(k) then true
    else if k == "oneOf" then v.Arr? ==> forall i :: 0 <= i < |v.items| ==> Unaffected(refs, v.items[i])
    else if ListsSchemas(k) then v.Arr? ==> forall i :: 0 <= i < |v.items| ==> Positive(refs, v.items[i])
    else if k == "not" || k == "if" then Unaffected(refs, v)
    else if NestsSchema(k) then Positive(refs, v)
    else true
  }

  function Narrowing(refs: set<string>): Link {
    (mode, r, q) => r == q && Local(r) && (mode == Narrower || r in refs)
  }

  function Widening(refs: set<string>): Link {
    (mode, r, q) => r == q && Local(r) && (mode == Wider || r in refs)
  }

  lemma {:induction false} EnforceRelated(refs: set<string>, s: Json)
    requires Fragment(s) && Positive(refs, s)
    ensures Related(Narrowing(refs), Narrower, s, EnforceClosed(s))
    decreases s, 1
  {
    if s.Obj? {
      forall k | k in s.members && !IsAnnotation(k)
        ensures KeywordRelated(Narrowing(refs), Narrower, s, EnforceClosed(s), k)
      {
        EnforceKeywordRelated(refs, s, k);
      }
    }
  }

  lemma {:induction false} EnforceKeywordRelated(refs: set<string>, s: Json, k: string)
    requires Fragment(s) && Positive(refs, s) && s.Obj? && k in s.members && !IsAnnotation(k)
    ensures KeywordRelated(Narrowing(refs), Narrower, s, EnforceClosed(s), k)
    decreases s, 0
  {
    var v, link := s.members[k], Narrowing(refs);
    assert FragmentKeyword(s, k) && PositiveKeyword(refs, s, k);
    assert EnforceClosed(s).members[k] == EnforceClosed(v);
    if k == "properties" {
      forall p | p in v.members ensures Related(link, Narrower, v.members[p], EnforceClosed(v.members[p])) {
        EnforceRelated(refs, v.members[p]);
      }
      NotAnObjectSchema(v);
    } else if k == "oneOf" {
      forall j | 0 <= j < |v.items| ensures Related(link, Same, v.items[j], EnforceClosed(v).items[j]) {
        UnaffectedRelated(refs, Same, v.items[j]);
      }
    } else if ListsSchemas(k) {
      forall j | 0 <= j < |v.items| ensures Related(link, Narrower, v.items[j], EnforceClosed(v).items[j]) {
        EnforceRelated(refs, v.items[j]);
      }
    } else if k == "not" || k == "if" {
      UnaffectedRelated(refs, if k == "not" then Wider else Same, v);
    } else if NestsSchema(k) {
      EnforceRelated(refs, v);
    } else {
      OtherwisePlain(s, k);
      PlainUntouched(v);
    }
  }

  lemma {:induction false} UnaffectedRelated(refs: set<string>, mode: Mode, s: Json)
    requires Unaffected(refs, s)
    ensures EnforceClosed(s) == s && Related(Narrowing(refs), mode, s, s)
  {
    EnforceFixes(s);
    RelatedSelf(Narrowing(refs), refs, mode, s);
  }

  /** A map of properties or definitions is never taken for an object schema: its `type` would be one. */
  lemma {:induction false} NotAnObjectSchema(v: Json)
    requires v.Obj? && forall p :: p in v.members ==> Fragment(v.members[p])
    ensures EnforceClosed(v).members == map p | p in v.members :: EnforceClosed(v.members[p])
  {
    if "type" in v.members {
      assert Fragment(v.members["type"]);
    }
  }

  function ClosedEnv(e: Env): Env {
    e.(root := EnforceClosed(e.root))
  }

  lemma {:induction false} EnforceTarget(refs: set<string>, root: Json, r: string)
    requires Fragment(root) && Positive(refs, root)
    ensures Target(root, r).Some? == Target(EnforceClosed(root), r).Some?
    ensures Target(root, r).Some? ==>
      Fragment(Target(root, r).value) && Positive(refs, Target(root, r).value)
      && Target(EnforceClosed(root), r).value == EnforceClosed(Target(root, r).value)
  {
    if root.Obj? && "$defs" in root.members {
      assert FragmentKeyword(root, "$defs") && PositiveKeyword(refs, root, "$defs");
      NotAnObjectSchema(root.members["$defs"]);
      assert EnforceClosed(root).members["$defs"] == EnforceClosed(root.members["$defs"]);
    }
  }

  /** On the positive fragment closing objects only narrows: nothing new is accepted. */
  lemma {:induction false} EnforceOnlyNarrows(e: Env, refs: set<string>, s: Json, i: Json)
    requires Fragment(e.root) && Settled(e.root, refs) && Positive(refs, e.root) && Fragment(s) && Positive(refs, s)
    ensures Accepts(ClosedEnv(e), EnforceClosed(s), i) ==> Accepts(e, s, i)
    ensures Rejects(e, s, i) ==> Rejects(ClosedEnv(e), EnforceClosed(s), i)
  {
    var link := Narrowing(refs);
    forall mode, r, q | link(mode, r, q)
      ensures Target(e.root, r).Some? == Target(ClosedEnv(e).root, q).Some?
      ensures Target(e.root, r).Some? ==>
            Related(link, mode, Target(e.root, r).value, Target(ClosedEnv(e).root, q).value)
    {
      EnforceTarget(refs, e.root, r);
      if Target(e.root, r).Some? {
        if mode == Narrower {
          EnforceRelated(refs, Target(e.root, r).value);
        } else {
          UnaffectedRelated(refs, mode, Target(e.root, r).value);
        }
      }
    }
    EnforceRelated(refs, s);
    NarrowerVerdicts(link, Widening(refs), e, ClosedEnv(e), s, EnforceClosed(s), i);
  }

  // ---- Why `not`, `oneOf` and `if` need untouched bodies -------------------------------------------

  function Not(body: Json): Json {
    Obj(map["not" := body])
  }

  /** Exactly one of the body and everything: what the body rejects. */
  function OneOfAll(body: Json): Json {
    Obj(map["oneOf" := Arr([body, Bool(true)])])
  }

  function IfThenNothing(body: Json): Json {
    Obj(map["if" := body, "then" := Bool(false)])
  }

  lemma {:induction false} NotEval(e: Env, fuel: nat, accept: bool, body: Json, i: Json)
    ensures Eval(e, fuel, accept, Not(body), i) == Eval(e, fuel, !accept, body, i)
  {
    var s := Not(body);
    assert s.members.Keys == {"not"};
    NotKeyword(e, fuel, accept, body, i);
    hide Keyword;
  }

  lemma {:induction false} NotKeyword(e: Env, fuel: nat, accept: bool, body: Json, i: Json)
    ensures "not" in Not(body).members
    ensures Keyword(e, fuel, accept, Not(body), "not", i) == Eval(e, fuel, !accept, body, i)
  {
  }

  lemma {:induction false} OneOfAllEval(e: Env, fuel: nat, accept: bool, body: Json, i: Json)
    requires Eval(e, fuel, !accept, body, i)
    ensures Eval(e, fuel, accept, OneOfAll(body), i)
  {
    var s := OneOfAll(body);
    var v := s.members["oneOf"];
    assert v.items[0] == body && v.items[1] == Bool(true) && Eval(e, fuel, true, v.items[1], i);
    assert Keyword(e, fuel, accept, s, "oneOf", i);
  }

  lemma {:induction false} IfThenNothingEval(e: Env, fuel: nat, accept: bool, body: Json, i: Json)
    requires Eval(e, fuel, !accept, body, i)
    ensures Eval(e, fuel, accept, IfThenNothing(body), i)
  {
    var s := IfThenNothing(body);
    ConditionalMembers(body);
    assert Eval(e, fuel, false, s.members["then"], i);
    assert Keyword(e, fuel, accept, s, "then", i);
    assert accept ==> Keyword(e, fuel, true, s, "if", i);
  }

  lemma {:induction false} ConditionalMembers(body: Json)
    ensures
      var m := IfThenNothing(body).members;
      m.Keys == {"if", "then"} && m["if"] == body && m["then"] == Bool(false)
  {
    assert "if" != "then";
  }

  lemma {:induction false} UntypedStaysOpen(m: map<string, Json>)
    requires "type" !in m
    ensures EnforceClosed(Obj(m)) == Obj(map k | k in m :: EnforceClosed(m[k]))
  {
    var r := map k | k in m :: EnforceClosed(m[k]);
    assert !Open(r);
  }

  lemma {:induction false} NotClosed(body: Json)
    ensures EnforceClosed(Not(body)) == Not(EnforceClosed(body))
  {
    assert "type"[0] != "not"[0];
    UntypedStaysOpen(map["not" := body]);
    hide EnforceClosed;
    assert (map k | k in map["not" := body] :: EnforceClosed(map["not" := body][k]))
        == map["not" := EnforceClosed(body)];
  }

  lemma {:induction false} OneOfAllClosed(body: Json)
    ensures EnforceClosed(OneOfAll(body)) == OneOfAll(EnforceClosed(body))
  {
    var list := Arr([body, Bool(true)]);
    assert EnforceClosed(list).items == [EnforceClosed(body), Bool(true)];
    UntypedStaysOpen(map["oneOf" := list]);
    hide EnforceClosed;
    assert (map k | k in map["oneOf" := list] :: EnforceClosed(map["oneOf" := list][k]))
        == map["oneOf" := EnforceClosed(list)];
  }

  lemma {:induction false} IfThenNothingClosed(body: Json)
    ensures EnforceClosed(IfThenNothing(body)) == IfThenNothing(EnforceClosed(body))
  {
    var m := IfThenNothing(body).members;
    ConditionalMembers(body);
    ConditionalMembers(EnforceClosed(body));
    UntypedStaysOpen(m);
    assert EnforceClosed(m["then"]) == Bool(false);
    hide EnforceClosed;
    assert (map k | k in m :: EnforceClosed(m[k])) == IfThenNothing(EnforceClosed(body)).members;
  }

  /** Wherever closing turns an acceptance of a body into a rejection, directly or through a reference,
      the same pass widens below `not`, `oneOf` and `if`. */
  lemma {:induction false} ClosingBelowWidens(e: Env, body: Json, i: Json)
    requires Accepts(e, body, i) && Rejects(ClosedEnv(e), EnforceClosed(body), i)
    ensures forall s :: s in [Not(body), OneOfAll(body), IfThenNothing(body)] ==>
      Rejects(e, s, i) && Accepts(ClosedEnv(e), EnforceClosed(s), i)
  {
    NotWidens(e, body, i);
    OneOfAllWidens(e, body, i);
    IfThenNothingWidens(e, body, i);
  }

  lemma {:induction false} NotWidens(e: Env, body: Json, i: Json)
    requires Accepts(e, body, i) && Rejects(ClosedEnv(e), EnforceClosed(body), i)
    ensures Rejects(e, Not(body), i) && Accepts(ClosedEnv(e), EnforceClosed(Not(body)), i)
  {
    hide Eval, EnforceClosed, Not;
    var n: nat, m: nat :| Eval(e, n, true, body, i) && Eval(ClosedEnv(e), m, false, EnforceClosed(body), i);
    NotClosed(body);
    NotEval(e, n, false, body, i);
    NotEval(ClosedEnv(e), m, true, EnforceClosed(body), i);
  }

  lemma {:induction false} OneOfAllWidens(e: Env, body: Json, i: Json)
    requires Accepts(e, body, i) && Rejects(ClosedEnv(e), EnforceClosed(body), i)
    ensures Rejects(e, OneOfAll(body), i) && Accepts(ClosedEnv(e), EnforceClosed(OneOfAll(body)), i)
  {
    hide Eval, EnforceClosed, OneOfAll;
    var n: nat, m: nat :| Eval(e, n, true, body, i) && Eval(ClosedEnv(e), m, false, EnforceClosed(body), i);
    OneOfAllClosed(body);
    OneOfAllEval(e, n, false, body, i);
    OneOfAllEval(ClosedEnv(e), m, true, EnforceClosed(body), i);
  }

  lemma {:induction false} IfThenNothingWidens(e: Env, body: Json, i: Json)
    requires Accepts(e, body, i) && Rejects(ClosedEnv(e), EnforceClosed(body), i)
    ensures Rejects(e, IfThenNothing(body), i) && Accepts(ClosedEnv(e), EnforceClosed(IfThenNothing(body)), i)
  {
    hide Eval, EnforceClosed, IfThenNothing;
    var n: nat, m: nat :| Eval(e, n, true, body, i) && Eval(ClosedEnv(e), m, false, EnforceClosed(body), i);
    IfThenNothingClosed(body);
    IfThenNothingEval(e, n, false, body, i);
    IfThenNothingEval(ClosedEnv(e), m, true, EnforceClosed(body), i);
  }

  const OPEN_OBJECT := Obj(map["type" := Str("object"), "properties" := Obj(map[])])

  const UNDECLARED := Obj(map["a" := Null])

  lemma {:induction false} TypeVerdict(e: Env, accept: bool, s: Json, i: Json)
    requires s.Obj? && "type" in s.members
    ensures Keyword(e, 0, accept, s, "type", i) <==> (TypeAllowed(s.members["type"], i) == accept)
  {
  }

  lemma {:induction false} OpenObjectAccepts(e: Env)
    ensures Eval(e, 0, true, OPEN_OBJECT, UNDECLARED)
  {
    hide Keyword;
    var m := OPEN_OBJECT.members;
    assert m["properties"] == Obj(map[]) && m["type"] == Str("object");
    TypeVerdict(e, true, OPEN_OBJECT, UNDECLARED);
    NoProperties(e, OPEN_OBJECT, UNDECLARED);
    assert m.Keys == {"type", "properties"};
  }

  lemma {:induction false} NoProperties(e: Env, s: Json, i: Json)
    requires s.Obj? && "properties" in s.members && s.members["properties"] == Obj(map[])
    ensures Keyword(e, 0, true, s, "properties", i)
  {
  }

  lemma {:induction false} ClosingRejects(e: Env, s: Json, i: Json)
    requires s.Obj? && CLOSING in s.members && s.members[CLOSING] == Bool(false)
    requires i.Obj? && exists p :: p in i.members && !Declared(s, p)
    ensures Eval(e, 0, false, s, i)
  {
    var p :| p in i.members && !Declared(s, p);
    assert Eval(e, 0, false, Bool(false), i.members[p]);
    assert Keyword(e, 0, false, s, CLOSING, i);
  }

  lemma {:induction false} ClosedObjectRejects(e: Env)
    ensures Eval(e, 0, false, EnforceClosed(OPEN_OBJECT), UNDECLARED)
  {
    hide Keyword, Eval;
    var m := OPEN_OBJECT.members;
    var r := map k | k in m :: EnforceClosed(m[k]);
    var closed := EnforceClosed(OPEN_OBJECT);
    assert Open(r) && closed.members == r[CLOSING := Bool(false)];
    assert closed.members["properties"] == EnforceClosed(Obj(map[]));
    assert "a" in UNDECLARED.members && !Declared(closed, "a");
    ClosingRejects(e, closed, UNDECLARED);
  }

  /** It happens: each of three schemas of the fragment rejects an instance that its closed form accepts. */
  lemma {:induction false} EnforceCanWiden(e: Env)
    ensures forall s :: s in [Not(OPEN_OBJECT), OneOfAll(OPEN_OBJECT), IfThenNothing(OPEN_OBJECT)] ==>
      Fragment(s) && Rejects(e, s, UNDECLARED) && Accepts(ClosedEnv(e), EnforceClosed(s), UNDECLARED)
  {
    hide Keyword, Eval, OPEN_OBJECT, EnforceClosed;
    OpenObjectInFragment();
    OpenObjectAccepts(e);
    ClosedObjectRejects(ClosedEnv(e));
    ClosingBelowWidens(e, OPEN_OBJECT, UNDECLARED);
    WrappersInFragment(OPEN_OBJECT);
  }

  lemma {:induction false} WrappersInFragment(body: Json)
    requires Fragment(body)
    ensures Fragment(Not(body)) && Fragment(OneOfAll(body)) && Fragment(IfThenNothing(body))
  {
    ConditionalMembers(body);
    assert FragmentKeyword(Not(body), "not");
    assert FragmentKeyword(OneOfAll(body), "oneOf");
    assert FragmentKeyword(IfThenNothing(body), "if") && FragmentKeyword(IfThenNothing(body), "then");
  }

  lemma {:induction false} OpenObjectInFragment()
    ensures Fragment(OPEN_OBJECT)
  {
    assert FragmentKeyword(OPEN_OBJECT, "properties") && FragmentKeyword(OPEN_OBJECT, "type");
  }
}
