/** When one schema is the image of another: the same, narrower or wider, keyword by keyword. */
module SchemaRelation {
  import opened Json
  import opened JsonSchema

  /** What the second schema is, compared with the first. */
  datatype Mode = Same | Narrower | Wider

  function Flip(mode: Mode): Mode {
    match mode
    case Same => Same
    case Narrower => Wider
    case Wider => Narrower
  }

  /** Which local reference may take the place of which, in each mode. */
  type Link = (Mode, string, string) -> bool

  /** Keywords whose value is a schema and whose verdict follows that schema's. */
  predicate HoldsSchema(k: string) {
    k in {"additionalProperties", "unevaluatedProperties", "items", "propertyNames", "then", "else"}
  }

  /** Keywords whose value is one schema. */
  predicate NestsSchema(k: string) {
    HoldsSchema(k) || k in {"not", "if"}
  }

  /** Keywords whose value is a list of schemas. */
  predicate ListsSchemas(k: string) {
    k in {"allOf", "anyOf", "oneOf", "prefixItems"}
  }

  /** The keyword that forbids whatever is not declared. */
  predicate Closes(s: Json, k: string)
    requires s.Obj? && k in s.members
  {
    k == CLOSING && s.members[k] == Bool(false)
  }

  /** A narrower schema may have one keyword that the other lacks: the closing one. */
  ghost predicate Related(link: Link, mode: Mode, s: Json, t: Json)
    decreases s, 1
  {
    match s
    case Bool(_) => t == s
    case Obj(a) =>
      && t.Obj?
      && (forall k :: k in a && !IsAnnotation(k) ==>
            if k in t.members then KeywordRelated(link, mode, s, t, k) else mode.Wider? && Closes(s, k))
      && (forall k :: k in t.members && !IsAnnotation(k) && k !in a ==> mode.Narrower? && Closes(t, k))
    case _ => !t.Bool? && !t.Obj?
  }

  ghost predicate KeywordRelated(link: Link, mode: Mode, s: Json, t: Json, k: string)
    requires s.Obj? && t.Obj? && k in s.members && k in t.members
    decreases s, 0
  {
    var v, w := s.members[k], t.members[k];
    if k == "$ref" then
      v.Str? == w.Str?
          && (v.Str? ==> Local(v.s) == Local(w.s) && if Local(v.s) then link(mode, v.s, w.s) else v.s == w.s)
    else if k == "not" then Related(link, Flip(mode), v, w)
    else if k == "if" then Related(link, Same, v, w)
    else if k == "allOf" || k == "anyOf" || k == "prefixItems" then
      v.Arr? == w.Arr? && (v.Arr? ==> |v.items| == |w.items| && forall j :: 0 <= j < |v.items| ==>
          Related(link, mode, v.items[j], w.items[j]))
    else if k == "oneOf" then
      v.Arr? == w.Arr? && (v.Arr? ==> |v.items| == |w.items| && forall j :: 0 <= j < |v.items| ==>
          Related(link, Same, v.items[j], w.items[j]))
    else if k == "properties" then
      v.Obj? == w.Obj? && (v.Obj? ==> v.members.Keys == w.members.Keys && forall p :: p in v.members ==>
          Related(link, mode, v.members[p], w.members[p]))
    else if HoldsSchema(k) then Related(link, mode, v, w)
    else if k == "required" || k == "enum" then
      v == w || (v.Arr? && w.Arr? && forall x :: x in v.items <==> x in w.items)
    else v == w
  }

  /** Linked references name related schemas, or neither names one. */
  ghost predicate EnvRelated(link: Link, e: Env, f: Env) {
    && e.assertion == f.assertion && e.external == f.external && e.evaluated == f.evaluated
    && forall mode, r, q :: link(mode, r, q) ==>
         && Local(r) && Local(q) && Target(e.root, r).Some? == Target(f.root, q).Some?
         && (Target(e.root, r).Some? ==> Related(link, mode, Target(e.root, r).value, Target(f.root, q).value))
  }

  /** A verdict on the second schema carries over to the first: acceptance unless it is wider,
      rejection unless it is narrower. More reference steps do no harm. */
  lemma {:induction false} Carries(
      link: Link, e: Env, f: Env, mode: Mode, fuel: nat, more: nat, accept: bool, s: Json, t: Json, i: Json)
    requires EnvRelated(link, e, f) && Related(link, mode, s, t) && fuel <= more
    requires if accept then mode != Wider else mode != Narrower
    requires Eval(f, fuel, accept, t, i)
    ensures Eval(e, more, accept, s, i)
    decreases fuel, s, 3
  {
    if s.Obj? {
      if accept {
        forall k | k in s.members ensures Keyword(e, more, true, s, k, i) {
          if k == UNEVALUATED {
            CarriesUnevaluated(link, e, f, mode, fuel, more, true, s, t, i);
          } else if !IsAnnotation(k) {
            assert k in t.members;
            CarriesKeyword(link, e, f, mode, fuel, more, true, s, t, k, i);
          }
        }
      } else {
        var k :| k in t.members && Keyword(f, fuel, false, t, k, i);
        assert !IsAnnotation(k) && k in s.members;
        if k == UNEVALUATED {
          CarriesUnevaluated(link, e, f, mode, fuel, more, false, s, t, i);
        } else {
          CarriesKeyword(link, e, f, mode, fuel, more, false, s, t, k, i);
        }
      }
    }
  }

  lemma {:induction false} SameDeclared(link: Link, mode: Mode, s: Json, t: Json, p: string)
    requires Related(link, mode, s, t) && s.Obj?
    ensures Declared(s, p) == Declared(t, p)
  {
    if "properties" in s.members && "properties" in t.members {
      assert KeywordRelated(link, mode, s, t, "properties");
      var v, w := s.members["properties"], t.members["properties"];
      assert v.Obj? ==> (p in v.members <==> p in w.members.Keys);
    }
  }

  lemma {:induction false} SamePrefix(link: Link, mode: Mode, s: Json, t: Json)
    requires Related(link, mode, s, t) && s.Obj?
    ensures Prefix(s) == Prefix(t)
  {
    if "prefixItems" in s.members && "prefixItems" in t.members {
      assert KeywordRelated(link, mode, s, t, "prefixItems");
    }
  }

  lemma {:induction false} SameGuard(link: Link, mode: Mode, s: Json, t: Json)
    requires Related(link, mode, s, t) && s.Obj?
    ensures "if" in s.members <==> "if" in t.members
    ensures "if" in s.members ==> Related(link, Same, s.members["if"], t.members["if"])
  {
    if "if" in s.members && "if" in t.members {
      assert KeywordRelated(link, mode, s, t, "if");
    }
  }

  lemma {:induction false} CarriesKeyword(
      link: Link, e: Env, f: Env, mode: Mode, fuel: nat, more: nat, accept: bool, s: Json, t: Json, k: string, i: Json)
    requires EnvRelated(link, e, f) && Related(link, mode, s, t) && fuel <= more
    requires s.Obj? && k in s.members && k in t.members && !IsAnnotation(k) && KeywordRelated(link, mode, s, t, k)
    requires k != UNEVALUATED && if accept then mode != Wider else mode != Narrower
    requires Keyword(f, fuel, accept, t, k, i)
    ensures Keyword(e, more, accept, s, k, i)
    decreases fuel, s, 2, 1
  {
    if k in {"properties", "additionalProperties", "propertyNames"} {
      CarriesMembers(link, e, f, mode, fuel, more, accept, s, t, k, i);
    } else if k in {"items", "prefixItems"} {
      CarriesItems(link, e, f, mode, fuel, more, accept, s, t, k, i);
    } else if k == "oneOf" {
      CarriesOneOf(link, e, f, mode, fuel, more, accept, s, t, k, i);
    } else if k in {"then", "else"} {
      CarriesBranch(link, e, f, mode, fuel, more, accept, s, t, k, i);
    } else {
      CarriesInPlace(link, e, f, mode, fuel, more, accept, s, t, k, i);
    }
  }

  lemma {:induction false} CarriesInPlace(
      link: Link, e: Env, f: Env, mode: Mode, fuel: nat, more: nat, accept: bool, s: Json, t: Json, k: string, i: Json)
    requires EnvRelated(link, e, f) && Related(link, mode, s, t) && fuel <= more
    requires s.Obj? && k in s.members && k in t.members && !IsAnnotation(k) && KeywordRelated(link, mode, s, t, k)
    requires k != UNEVALUATED && if accept then mode != Wider else mode != Narrower
    requires Keyword(f, fuel, accept, t, k, i)
    requires k !in {"properties", "additionalProperties", "propertyNames", "items", "prefixItems", "oneOf", "then",
          "else"}
    ensures Keyword(e, more, accept, s, k, i)
    decreases fuel, s, 2, 0
  {
    var v, w := s.members[k], t.members[k];
    if k == "$ref" {
      if v.Str? && Local(v.s) {
        var a, b := Target(e.root, v.s).value, Target(f.root, w.s).value;
        Carries(link, e, f, mode, fuel - 1, more - 1, accept, a, b, i);
      }
    } else if k == "not" {
      Carries(link, e, f, Flip(mode), fuel, more, !accept, v, w, i);
    } else if k == "allOf" || k == "anyOf" {
      forall j | 0 <= j < |v.items| && Eval(f, fuel, accept, w.items[j], i)
          ensures Eval(e, more, accept, v.items[j], i) {
        Carries(link, e, f, mode, fuel, more, accept, v.items[j], w.items[j], i);
      }
    }
  }

  lemma {:induction false} CarriesOneOf(
      link: Link, e: Env, f: Env, mode: Mode, fuel: nat, more: nat, accept: bool, s: Json, t: Json, k: string, i: Json)
    requires EnvRelated(link, e, f) && Related(link, mode, s, t) && fuel <= more
    requires s.Obj? && k in s.members && k in t.members && !IsAnnotation(k) && KeywordRelated(link, mode, s, t, k)
    requires k != UNEVALUATED && if accept then mode != Wider else mode != Narrower
    requires Keyword(f, fuel, accept, t, k, i)
    requires k == "oneOf"
    ensures Keyword(e, more, accept, s, k, i)
    decreases fuel, s, 2, 0
  {
    var v, w := s.members[k], t.members[k];
    forall j, a | 0 <= j < |v.items| && Eval(f, fuel, a, w.items[j], i) ensures Eval(e, more, a, v.items[j], i) {
      Carries(link, e, f, Same, fuel, more, a, v.items[j], w.items[j], i);
    }
  }

  lemma {:induction false} CarriesBranch(
      link: Link, e: Env, f: Env, mode: Mode, fuel: nat, more: nat, accept: bool, s: Json, t: Json, k: string, i: Json)
    requires EnvRelated(link, e, f) && Related(link, mode, s, t) && fuel <= more
    requires s.Obj? && k in s.members && k in t.members && !IsAnnotation(k) && KeywordRelated(link, mode, s, t, k)
    requires k != UNEVALUATED && if accept then mode != Wider else mode != Narrower
    requires Keyword(f, fuel, accept, t, k, i)
    requires k in {"then", "else"}
    ensures Keyword(e, more, accept, s, k, i)
    decreases fuel, s, 2, 0
  {
    var v, w := s.members[k], t.members[k];
    SameGuard(link, mode, s, t);
    if "if" in s.members {
      forall a | Eval(f, fuel, a, t.members["if"], i) ensures Eval(e, more, a, s.members["if"], i) {
        Carries(link, e, f, Same, fuel, more, a, s.members["if"], t.members["if"], i);
      }
      if Eval(f, fuel, accept, w, i) { Carries(link, e, f, mode, fuel, more, accept, v, w, i); }
    }
  }

  lemma {:induction false} CarriesMembers(
      link: Link, e: Env, f: Env, mode: Mode, fuel: nat, more: nat, accept: bool, s: Json, t: Json, k: string, i: Json)
    requires EnvRelated(link, e, f) && Related(link, mode, s, t) && fuel <= more
    requires s.Obj? && k in s.members && k in t.members && !IsAnnotation(k) && KeywordRelated(link, mode, s, t, k)
    requires k != UNEVALUATED && if accept then mode != Wider else mode != Narrower
    requires Keyword(f, fuel, accept, t, k, i)
    requires k in {"properties", "additionalProperties", "propertyNames"}
    ensures Keyword(e, more, accept, s, k, i)
    decreases fuel, s, 2, 0
  {
    var v, w := s.members[k], t.members[k];
    if i.Obj? && k == "properties" {
      forall p | p in v.members && p in i.members && Eval(f, fuel, accept, w.members[p], i.members[p])
        ensures Eval(e, more, accept, v.members[p], i.members[p])
      {
        Carries(link, e, f, mode, fuel, more, accept, v.members[p], w.members[p], i.members[p]);
      }
      assert forall p :: p in v.members <==> p in w.members;
    } else if i.Obj? && k == "additionalProperties" {
      forall p | p in i.members ensures Declared(s, p) == Declared(t, p) {
        SameDeclared(link, mode, s, t, p);
      }
      forall p | p in i.members && Eval(f, fuel, accept, w, i.members[p])
          ensures Eval(e, more, accept, v, i.members[p]) {
        Carries(link, e, f, mode, fuel, more, accept, v, w, i.members[p]);
      }
    } else if i.Obj? {
      forall p | p in i.members && Eval(f, fuel, accept, w, Str(p)) ensures Eval(e, more, accept, v, Str(p)) {
        Carries(link, e, f, mode, fuel, more, accept, v, w, Str(p));
      }
    }
  }

  lemma {:induction false} CarriesItems(
      link: Link, e: Env, f: Env, mode: Mode, fuel: nat, more: nat, accept: bool, s: Json, t: Json, k: string, i: Json)
    requires EnvRelated(link, e, f) && Related(link, mode, s, t) && fuel <= more
    requires s.Obj? && k in s.members && k in t.members && !IsAnnotation(k) && KeywordRelated(link, mode, s, t, k)
    requires k != UNEVALUATED && if accept then mode != Wider else mode != Narrower
    requires Keyword(f, fuel, accept, t, k, i)
    requires k in {"items", "prefixItems"}
    ensures Keyword(e, more, accept, s, k, i)
    decreases fuel, s, 2, 0
  {
    var v, w := s.members[k], t.members[k];
    if i.Arr? && k == "items" {
      SamePrefix(link, mode, s, t);
      forall j | 0 <= j < |i.items| && Eval(f, fuel, accept, w, i.items[j])
          ensures Eval(e, more, accept, v, i.items[j]) {
        Carries(link, e, f, mode, fuel, more, accept, v, w, i.items[j]);
      }
    } else if i.Arr? {
      forall j | 0 <= j < |v.items| && j < |i.items| && Eval(f, fuel, accept, w.items[j], i.items[j])
        ensures Eval(e, more, accept, v.items[j], i.items[j])
      {
        Carries(link, e, f, mode, fuel, more, accept, v.items[j], w.items[j], i.items[j]);
      }
    }
  }

  // ---- What has been evaluated ------------------------------------------------------------------

  /** The keyword reads what its neighbours evaluated. A narrower neighbour that accepts evaluated no more, and a
      wider one that evaluated less rejects, and with it the whole schema. */
  lemma {:induction false} CarriesUnevaluated(
      link: Link, e: Env, f: Env, mode: Mode, fuel: nat, more: nat, accept: bool, s: Json, t: Json, i: Json)
    requires EnvRelated(link, e, f) && Related(link, mode, s, t) && fuel <= more
    requires s.Obj? && UNEVALUATED in s.members
    requires if accept then mode != Wider else mode != Narrower
    requires if accept then Eval(f, fuel, true, t, i)
          else t.Obj? && UNEVALUATED in t.members && Keyword(f, fuel, false, t, UNEVALUATED, i)
    ensures if accept then Keyword(e, more, true, s, UNEVALUATED, i) else Eval(e, more, false, s, i)
    decreases fuel, s, 2, 0
  {
    assert UNEVALUATED in t.members && KeywordRelated(link, mode, s, t, UNEVALUATED);
    var v, w := s.members[UNEVALUATED], t.members[UNEVALUATED];
    if accept && i.Obj? {
      assert Keyword(f, fuel, true, t, UNEVALUATED, i);
      forall p | p in i.members ensures Covers(e, more, true, s, i, p, true) || Eval(e, more, true, v, i.members[p]) {
        if Covers(f, fuel, true, t, i, p, true) {
          CarriesCovers(link, e, f, mode, fuel, more, s, t, i, p, true);
        } else {
          Carries(link, e, f, mode, fuel, more, true, v, w, i.members[p]);
        }
      }
    } else if !accept {
      var p :| p in i.members && Covers(f, fuel, false, t, i, p, true) && Eval(f, fuel, false, w, i.members[p]);
      Carries(link, e, f, mode, fuel, more, false, v, w, i.members[p]);
      CarriesUncovered(link, e, f, mode, fuel, more, s, t, i, p, true);
      if Covers(e, more, false, s, i, p, true) {
        assert Keyword(e, more, false, s, UNEVALUATED, i);
      }
    }
  }

  lemma {:induction false} ClosedDeclares(f: Env, fuel: nat, t: Json, k: string, i: Json, p: string)
    requires t.Obj? && k in t.members && Closes(t, k) && i.Obj? && p in i.members && Eval(f, fuel, true, t, i)
    ensures Declared(t, p) && !CoveredBy(f, fuel, true, t, k, i, p)
  {
    assert Keyword(f, fuel, true, t, k, i);
    assert !Eval(f, fuel, true, t.members[k], i.members[p]);
  }

  lemma {:induction false} AnnotationsCoverNothing(f: Env, fuel: nat, t: Json, k: string, i: Json, p: string)
    requires t.Obj? && k in t.members && CoveredBy(f, fuel, true, t, k, i, p)
    ensures !IsAnnotation(k)
  {
  }

  lemma {:induction false} CarriesCovers(
      link: Link, e: Env, f: Env, mode: Mode, fuel: nat, more: nat, s: Json, t: Json, i: Json, p: string, beside: bool)
    requires EnvRelated(link, e, f) && Related(link, mode, s, t) && fuel <= more && i.Obj? && p in i.members
    requires mode != Wider && Eval(f, fuel, true, t, i) && Covers(f, fuel, true, t, i, p, beside)
    ensures Covers(e, more, true, s, i, p, beside)
    decreases fuel, s, 1
  {
    var k :| k in t.members && !(beside && k == UNEVALUATED) && CoveredBy(f, fuel, true, t, k, i, p);
    if Closes(t, k) { ClosedDeclares(f, fuel, t, k, i, p); }
    assert !IsAnnotation(k) by { AnnotationsCoverNothing(f, fuel, t, k, i, p); }
    hide Keyword, CoveredBy;
    if k in s.members {
      CarriesCoveredBy(link, e, f, mode, fuel, more, true, s, t, k, i, p);
    }
  }

  lemma {:induction false} CarriesUncovered(
      link: Link, e: Env, f: Env, mode: Mode, fuel: nat, more: nat, s: Json, t: Json, i: Json, p: string, beside: bool)
    requires EnvRelated(link, e, f) && Related(link, mode, s, t) && fuel <= more && i.Obj? && p in i.members
    requires mode != Narrower && Covers(f, fuel, false, t, i, p, beside)
    ensures Covers(e, more, false, s, i, p, beside) || Eval(e, more, false, s, i)
    decreases fuel, s, 1
  {
    if s.Obj? && !Eval(e, more, false, s, i) {
      forall k | k in s.members && !(beside && k == UNEVALUATED) ensures CoveredBy(e, more, false, s, k, i, p) {
        if k in t.members {
          CarriesCoveredBy(link, e, f, mode, fuel, more, false, s, t, k, i, p);
        } else if !IsAnnotation(k) {
          assert Closes(s, k);
          if !Declared(s, p) {
            assert Eval(e, more, false, s.members[k], i.members[p]);
            assert Keyword(e, more, false, s, k, i);
          }
        }
      }
    }
  }

  lemma {:induction false} CarriesCoveredBy(
      link: Link, e: Env, f: Env, mode: Mode, fuel: nat, more: nat, yes: bool, s: Json, t: Json, k: string, i: Json,
          p: string)
    requires EnvRelated(link, e, f) && Related(link, mode, s, t) && fuel <= more && i.Obj? && p in i.members
    requires s.Obj? && k in s.members && k in t.members
    requires if yes then mode != Wider else mode != Narrower
    requires CoveredBy(f, fuel, yes, t, k, i, p)
    ensures CoveredBy(e, more, yes, s, k, i, p)
    decreases fuel, s, 0, 1
  {
    hide Eval, Covers, Applied, EnvRelated;
    if IsAnnotation(k) {
    } else if k == "$ref" {
      CarriesCoveredByRef(link, e, f, mode, fuel, more, yes, s, t, k, i, p);
    } else if k in {"allOf", "anyOf", "oneOf"} {
      CarriesCoveredByList(link, e, f, mode, fuel, more, yes, s, t, k, i, p);
    } else if k in {"if", "then", "else"} {
      CarriesCoveredByBranch(link, e, f, mode, fuel, more, yes, s, t, k, i, p);
    } else {
      SameDeclared(link, mode, s, t, p);
    }
  }

  lemma {:induction false} CarriesCoveredByRef(
      link: Link, e: Env, f: Env, mode: Mode, fuel: nat, more: nat, yes: bool, s: Json, t: Json, k: string, i: Json,
          p: string)
    requires EnvRelated(link, e, f) && Related(link, mode, s, t) && fuel <= more && i.Obj? && p in i.members
    requires s.Obj? && k in s.members && k in t.members && !IsAnnotation(k)
    requires if yes then mode != Wider else mode != Narrower
    requires CoveredBy(f, fuel, yes, t, k, i, p)
    requires k == "$ref"
    ensures CoveredBy(e, more, yes, s, k, i, p)
    decreases fuel, s, 0, 0
  {
    hide Eval, Covers, Applied;
    assert KeywordRelated(link, mode, s, t, k);
    var v, w := s.members[k], t.members[k];
    if v.Str? && Local(v.s) {
      var a, b := Target(e.root, v.s).value, Target(f.root, w.s).value;
      CarriesApplied(link, e, f, mode, fuel - 1, more - 1, yes, a, b, i, p);
    }
  }

  lemma {:induction false} CarriesCoveredByList(
      link: Link, e: Env, f: Env, mode: Mode, fuel: nat, more: nat, yes: bool, s: Json, t: Json, k: string, i: Json,
          p: string)
    requires EnvRelated(link, e, f) && Related(link, mode, s, t) && fuel <= more && i.Obj? && p in i.members
    requires s.Obj? && k in s.members && k in t.members && !IsAnnotation(k)
    requires if yes then mode != Wider else mode != Narrower
    requires CoveredBy(f, fuel, yes, t, k, i, p)
    requires k in {"allOf", "anyOf", "oneOf"}
    ensures CoveredBy(e, more, yes, s, k, i, p)
    decreases fuel, s, 0, 0
  {
    hide Eval, Covers, Applied, EnvRelated;
    assert KeywordRelated(link, mode, s, t, k);
    var v, w := s.members[k], t.members[k];
    var inner := if k == "oneOf" then Same else mode;
    if v.Arr? {
      forall j | 0 <= j < |v.items| && Applied(f, fuel, yes, w.items[j], i, p)
        ensures Applied(e, more, yes, v.items[j], i, p)
      {
        CarriesApplied(link, e, f, inner, fuel, more, yes, v.items[j], w.items[j], i, p);
      }
    }
  }

  lemma {:induction false} CarriesCoveredByBranch(
      link: Link, e: Env, f: Env, mode: Mode, fuel: nat, more: nat, yes: bool, s: Json, t: Json, k: string, i: Json,
          p: string)
    requires EnvRelated(link, e, f) && Related(link, mode, s, t) && fuel <= more && i.Obj? && p in i.members
    requires s.Obj? && k in s.members && k in t.members && !IsAnnotation(k)
    requires if yes then mode != Wider else mode != Narrower
    requires CoveredBy(f, fuel, yes, t, k, i, p)
    requires k in {"if", "then", "else"}
    ensures CoveredBy(e, more, yes, s, k, i, p)
    decreases fuel, s, 0, 0
  {
    hide Eval, Covers, Applied, EnvRelated;
    assert KeywordRelated(link, mode, s, t, k);
    SameGuard(link, mode, s, t);
    var v, w := s.members[k], t.members[k];
    if "if" in s.members {
      var guard := s.members["if"];
      forall a | Eval(f, fuel, a, t.members["if"], i) ensures Eval(e, more, a, guard, i) {
        Carries(link, e, f, Same, fuel, more, a, guard, t.members["if"], i);
      }
      if Applied(f, fuel, yes, w, i, p) {
        CarriesApplied(link, e, f, if k == "if" then Same else mode, fuel, more, yes, v, w, i, p);
      }
    }
  }

  lemma {:induction false} CarriesApplied(
      link: Link, e: Env, f: Env, mode: Mode, fuel: nat, more: nat, yes: bool, s: Json, t: Json, i: Json, p: string)
    requires EnvRelated(link, e, f) && Related(link, mode, s, t) && fuel <= more && i.Obj? && p in i.members
    requires if yes then mode != Wider else mode != Narrower
    requires Applied(f, fuel, yes, t, i, p)
    ensures Applied(e, more, yes, s, i, p)
    decreases fuel, s, 4
  {
    if Eval(f, fuel, yes, t, i) { Carries(link, e, f, mode, fuel, more, yes, s, t, i); }
    if Covers(f, fuel, yes, t, i, p, false) {
      if yes {
        CarriesCovers(link, e, f, mode, fuel, more, s, t, i, p, false);
      } else {
        CarriesUncovered(link, e, f, mode, fuel, more, s, t, i, p, false);
      }
    }
  }

  // ---- Looking at the relation from the other side ----------------------------------------------

  ghost predicate Inverse(link: Link, back: Link) {
    forall mode, r, q :: link(mode, r, q) ==> back(Flip(mode), q, r)
  }

  lemma {:induction false} RelatedBack(link: Link, back: Link, mode: Mode, s: Json, t: Json)
    requires Inverse(link, back) && Related(link, mode, s, t)
    ensures Related(back, Flip(mode), t, s)
    decreases s, 1
  {
    if s.Obj? {
      forall k | k in s.members && k in t.members && !IsAnnotation(k)
          ensures KeywordRelated(back, Flip(mode), t, s, k) {
        KeywordRelatedBack(link, back, mode, s, t, k);
      }
    }
  }

  lemma {:induction false} KeywordRelatedBack(link: Link, back: Link, mode: Mode, s: Json, t: Json, k: string)
    requires Inverse(link, back) && s.Obj? && t.Obj? && k in s.members && k in t.members
    requires KeywordRelated(link, mode, s, t, k)
    ensures KeywordRelated(back, Flip(mode), t, s, k)
    decreases s, 0
  {
    var v, w := s.members[k], t.members[k];
    if k == "$ref" {
    } else if k == "not" {
      RelatedBack(link, back, Flip(mode), v, w);
    } else if k == "if" {
      RelatedBack(link, back, Same, v, w);
    } else if k in {"allOf", "anyOf", "prefixItems", "oneOf"} {
      if v.Arr? {
        forall j | 0 <= j < |v.items|
            ensures Related(back, if k == "oneOf" then Same else Flip(mode), w.items[j], v.items[j]) {
          RelatedBack(link, back, if k == "oneOf" then Same else mode, v.items[j], w.items[j]);
        }
      }
    } else if k == "properties" {
      if v.Obj? {
        forall p | p in w.members ensures Related(back, Flip(mode), w.members[p], v.members[p]) {
          assert p in v.members.Keys;
          RelatedBack(link, back, mode, v.members[p], w.members[p]);
        }
      }
    } else if HoldsSchema(k) {
      RelatedBack(link, back, mode, v, w);
    }
  }

  lemma {:induction false} EnvRelatedBack(link: Link, back: Link, e: Env, f: Env)
    requires Inverse(link, back) && Inverse(back, link) && EnvRelated(link, e, f)
    ensures EnvRelated(back, f, e)
  {
    forall mode, q, r | back(mode, q, r)
      ensures Local(q) && Local(r) && Target(f.root, q).Some? == Target(e.root, r).Some?
      ensures Target(f.root, q).Some? ==> Related(back, mode, Target(f.root, q).value, Target(e.root, r).value)
    {
      assert link(Flip(mode), r, q);
      if Target(f.root, q).Some? {
        RelatedBack(link, back, Flip(mode), Target(e.root, r).value, Target(f.root, q).value);
        assert Flip(Flip(mode)) == mode;
      }
    }
  }

  // ---- A schema and itself ---------------------------------------------------------------------

  /** The local references anywhere in a document are among these. */
  predicate RefsWithin(refs: set<string>, j: Json) {
    match j
    case Obj(m) => forall k :: k in m ==>
        (k == "$ref" && m[k].Str? && Local(m[k].s) ==> m[k].s in refs) && RefsWithin(refs, m[k])
    case Arr(items) => forall i :: 0 <= i < |items| ==> RefsWithin(refs, items[i])
    case _ => true
  }

  /** References among these may stand for themselves in every mode. */
  ghost predicate LinksThese(link: Link, refs: set<string>) {
    forall mode, r :: r in refs && Local(r) ==> link(mode, r, r)
  }

  ghost predicate LinksSelf(link: Link) {
    forall mode, r :: Local(r) ==> link(mode, r, r)
  }

  lemma {:induction false} RelatedSelf(link: Link, refs: set<string>, mode: Mode, s: Json)
    requires (RefsWithin(refs, s) && LinksThese(link, refs)) || LinksSelf(link)
    ensures Related(link, mode, s, s)
    decreases s
  {
    if s.Obj? {
      forall k | k in s.members && !IsAnnotation(k) ensures KeywordRelated(link, mode, s, s, k) {
        var v := s.members[k];
        forall m ensures Related(link, m, v, v) { RelatedSelf(link, refs, m, v); }
        if v.Arr? {
          forall j, m | 0 <= j < |v.items| ensures Related(link, m, v.items[j], v.items[j]) {
            RelatedSelf(link, refs, m, v.items[j]);
          }
        }
        if v.Obj? {
          forall p | p in v.members ensures Related(link, mode, v.members[p], v.members[p]) {
            RelatedSelf(link, refs, mode, v.members[p]);
          }
        }
      }
    }
  }

  /** Sameness serves every mode, as long as links do. */
  lemma {:induction false} AnyMode(link: Link, mode: Mode, s: Json, t: Json)
    requires Related(link, Same, s, t)
    requires forall m, n, r, q :: link(m, r, q) ==> link(n, r, q)
    ensures Related(link, mode, s, t)
    decreases s
  {
    if s.Obj? {
      forall k | k in s.members && !IsAnnotation(k) ensures k in t.members && KeywordRelated(link, mode, s, t, k) {
        assert KeywordRelated(link, Same, s, t, k);
        var v, w := s.members[k], t.members[k];
        if k == "not" {
          AnyMode(link, Flip(mode), v, w);
        } else if HoldsSchema(k) {
          AnyMode(link, mode, v, w);
        } else if k in {"allOf", "anyOf", "prefixItems"} && v.Arr? {
          forall j | 0 <= j < |v.items| ensures Related(link, mode, v.items[j], w.items[j]) {
            AnyMode(link, mode, v.items[j], w.items[j]);
          }
        } else if k == "properties" && v.Obj? {
          forall p | p in v.members ensures Related(link, mode, v.members[p], w.members[p]) {
            AnyMode(link, mode, v.members[p], w.members[p]);
          }
        }
      }
    }
  }

  const IDENTITY: Link := (mode, r, q) => r == q && Local(r)

  /** No instance is both accepted and rejected, however far references are followed for each. */
  lemma {:induction false} OneVerdict(e: Env, s: Json, i: Json)
    ensures !(Accepts(e, s, i) && Rejects(e, s, i))
  {
    if a: nat, b: nat :| Eval(e, a, true, s, i) && Eval(e, b, false, s, i) {
      var more := if a < b then b else a;
      forall mode, r | IDENTITY(mode, r, r) && Target(e.root, r).Some?
        ensures Related(IDENTITY, mode, Target(e.root, r).value, Target(e.root, r).value)
      {
        RelatedSelf(IDENTITY, {}, mode, Target(e.root, r).value);
      }
      RelatedSelf(IDENTITY, {}, Same, s);
      Carries(IDENTITY, e, e, Same, a, more, true, s, s, i);
      Carries(IDENTITY, e, e, Same, b, more, false, s, s, i);
      Exclusive(e, more, s, i);
    }
  }

  // ---- Verdicts of whole documents -------------------------------------------------------------

  /** A narrower schema accepts only what the other accepts and rejects whatever it rejects. */
  lemma {:induction false} NarrowerVerdicts(link: Link, back: Link, e: Env, f: Env, s: Json, t: Json, i: Json)
    requires EnvRelated(link, e, f) && Related(link, Narrower, s, t)
    requires Inverse(link, back) && Inverse(back, link)
    ensures Accepts(f, t, i) ==> Accepts(e, s, i)
    ensures Rejects(e, s, i) ==> Rejects(f, t, i)
  {
    if fuel: nat :| Eval(f, fuel, true, t, i) {
      Carries(link, e, f, Narrower, fuel, fuel, true, s, t, i);
    }
    if fuel: nat :| Eval(e, fuel, false, s, i) {
      RelatedBack(link, back, Narrower, s, t);
      EnvRelatedBack(link, back, e, f);
      Carries(back, f, e, Wider, fuel, fuel, false, t, s, i);
    }
  }

  /** Schemas that are the same keyword by keyword have the same verdict on every instance. */
  lemma {:induction false} SameVerdicts(link: Link, back: Link, e: Env, f: Env, s: Json, t: Json, i: Json)
    requires EnvRelated(link, e, f) && Related(link, Same, s, t)
    requires Inverse(link, back) && Inverse(back, link)
    ensures Accepts(f, t, i) <==> Accepts(e, s, i)
    ensures Rejects(f, t, i) <==> Rejects(e, s, i)
  {
    RelatedBack(link, back, Same, s, t);
    EnvRelatedBack(link, back, e, f);
    forall fuel: nat, accept ensures Eval(f, fuel, accept, t, i) <==> Eval(e, fuel, accept, s, i) {
      if Eval(f, fuel, accept, t, i) { Carries(link, e, f, Same, fuel, fuel, accept, s, t, i); }
      if Eval(e, fuel, accept, s, i) { Carries(back, f, e, Same, fuel, fuel, accept, t, s, i); }
    }
  }
}
