/** The verdicts against a plain two-valued reading: without local references every instance gets one. */
module SchemaVerdict {
  import opened Json
  import opened JsonSchema
  import opened SchemaRelation

  /** A schema whose keywords hold what they must, and which refers to no definition of its own document. */
  predicate SelfContained(s: Json)
    decreases s, 1
  {
    match s
    case Bool(_) => true
    case Obj(m) => forall k :: k in m ==> ContainedKeyword(s, k)
    case _ => false
  }

  predicate ContainedKeyword(s: Json, k: string)
    requires s.Obj? && k in s.members
    decreases s, 0
  {
    var v := s.members[k];
    if IsAnnotation(k) then true
    else if k == "$ref" then v.Str? && !Local(v.s)
    else if k == "properties" then v.Obj? && forall p :: p in v.members ==> SelfContained(v.members[p])
    else if ListsSchemas(k) then v.Arr? && forall j :: 0 <= j < |v.items| ==> SelfContained(v.items[j])
    else if NestsSchema(k) then SelfContained(v)
    else true
  }

  predicate OfType(name: string, i: Json) {
    match name
    case "null" => i.Null?
    case "boolean" => i.Bool?
    case "object" => i.Obj?
    case "array" => i.Arr?
    case "number" => i.Num?
    case "string" => i.Str?
    case "integer" => i.Num? && i.n == i.n.Floor as real
    case _ => false
  }

  /** Some item of `prefixItems` is for the item at this place. */
  predicate HasOwnSchema(s: Json, j: nat)
    requires s.Obj?
  {
    "prefixItems" in s.members && s.members["prefixItems"].Arr? && j < |s.members["prefixItems"].items|
  }

  /** What it is for an instance to be valid, read keyword by keyword from the standard. */
  ghost predicate Valid(env: Env, s: Json, i: Json)
    decreases s, 3
  {
    match s
    case Bool(b) => b
    case Obj(m) => forall k :: k in m ==> Meets(env, s, k, i)
    case _ => false
  }

  ghost predicate Meets(env: Env, s: Json, k: string, i: Json)
    requires s.Obj? && k in s.members
    decreases s, 2
  {
    var v := s.members[k];
    if IsAnnotation(k) || k == "if" then true
    else if k == "$ref" then v.Str? && env.external(v.s, i)
    else if k == "not" then !Valid(env, v, i)
    else if k == "allOf" then v.Arr? && forall j :: 0 <= j < |v.items| ==> Valid(env, v.items[j], i)
    else if k == "anyOf" then v.Arr? && exists j :: 0 <= j < |v.items| && Valid(env, v.items[j], i)
    else if k == "oneOf" then
      && v.Arr? && (exists j :: 0 <= j < |v.items| && Valid(env, v.items[j], i))
      && forall j, l :: 0 <= j < l < |v.items| ==> !(Valid(env, v.items[j], i) && Valid(env, v.items[l], i))
    else if k == "then" then "if" in s.members && Valid(env, s.members["if"], i) ==> Valid(env, v, i)
    else if k == "else" then "if" in s.members ==> Valid(env, s.members["if"], i) || Valid(env, v, i)
    else if k == "properties" then
      v.Obj? && (i.Obj? ==> forall p :: p in v.members && p in i.members ==> Valid(env, v.members[p], i.members[p]))
    else if k == "additionalProperties" then
      i.Obj? ==> forall p :: p in i.members && !Declared(s, p) ==> Valid(env, v, i.members[p])
    else if k == "unevaluatedProperties" then
      i.Obj? ==> forall p :: p in i.members && !Looked(env, s, i, p, true) ==> Valid(env, v, i.members[p])
    else if k == "propertyNames" then i.Obj? ==> forall p :: p in i.members ==> Valid(env, v, Str(p))
    else if k == "prefixItems" then
      v.Arr? && (i.Arr? ==> forall j :: 0 <= j < |v.items| && j < |i.items| ==> Valid(env, v.items[j], i.items[j]))
    else if k == "items" then
      i.Arr? ==> forall j :: 0 <= j < |i.items| && !HasOwnSchema(s, j) ==> Valid(env, v, i.items[j])
    else if k == "required" then HasRequired(v, i)
    else if k == "enum" then v.Arr? && i in v.items
    else if k == "const" then i == v
    else if k == "type" then
      || (v.Str? && OfType(v.s, i))
      || (v.Arr? && exists x :: x in v.items && x.Str? && OfType(x.s, i))
    else env.assertion(k, v, i)
  }

  /** Whether a schema has evaluated a property of the instance. */
  ghost predicate Looked(env: Env, s: Json, i: Json, p: string, beside: bool)
    decreases s, 1
  {
    s.Obj? && exists k :: k in s.members && !(beside && k == "unevaluatedProperties") && LookedBy(env, s, k, i, p)
  }

  ghost predicate LookedBy(env: Env, s: Json, k: string, i: Json, p: string)
    requires s.Obj? && k in s.members
    decreases s, 0
  {
    var v := s.members[k];
    if k == "properties" then Declared(s, p)
    else if k == "additionalProperties" then !Declared(s, p)
    else if k == "unevaluatedProperties" then true
    else if k == "$ref" then v.Str? && env.external(v.s, i) && env.evaluated(v.s, i, p)
    else if k == "allOf" || k == "anyOf" || k == "oneOf" then
      v.Arr? && exists j :: 0 <= j < |v.items| && Valid(env, v.items[j], i) && Looked(env, v.items[j], i, p, false)
    else if k == "if" then Valid(env, v, i) && Looked(env, v, i, p, false)
    else if k == "then" then
      "if" in s.members && Valid(env, s.members["if"], i) && Valid(env, v, i) && Looked(env, v, i, p, false)
    else if k == "else" then
      "if" in s.members && !Valid(env, s.members["if"], i) && Valid(env, v, i) && Looked(env, v, i, p, false)
    else false
  }

  ghost predicate Decided(env: Env, fuel: nat, s: Json, i: Json) {
    (Eval(env, fuel, true, s, i) <==> Valid(env, s, i)) && (Eval(env, fuel, false, s, i) <==> !Valid(env, s, i))
  }

  ghost predicate KeywordDecided(env: Env, fuel: nat, s: Json, k: string, i: Json)
    requires s.Obj? && k in s.members
  {
    && (Keyword(env, fuel, true, s, k, i) <==> Meets(env, s, k, i))
    && (Keyword(env, fuel, false, s, k, i) <==> !Meets(env, s, k, i))
  }

  /** Acceptance is validity and rejection is invalidity, however few reference steps are allowed. */
  lemma {:induction false} TwoValued(env: Env, fuel: nat, s: Json, i: Json)
    requires SelfContained(s)
    ensures Decided(env, fuel, s, i)
    decreases s, 4
  {
    if s.Obj? {
      forall k | k in s.members ensures KeywordDecided(env, fuel, s, k, i) {
        EachDecided(env, fuel, s, k, i);
      }
      hide Keyword, Meets, SelfContained;
    }
  }

  lemma {:induction false} EachDecided(env: Env, fuel: nat, s: Json, k: string, i: Json)
    requires SelfContained(s) && s.Obj? && k in s.members
    ensures KeywordDecided(env, fuel, s, k, i)
    decreases s, 3
  {
    assert ContainedKeyword(s, k);
    assert "if" in s.members ==> ContainedKeyword(s, "if");
    hide Keyword, Meets, KeywordDecided, SelfContained;
    match k {
      case "not" => NotDecided(env, fuel, s, i);
      case "allOf" => AllOfDecided(env, fuel, s, i);
      case "anyOf" => AnyOfDecided(env, fuel, s, i);
      case "oneOf" => OneOfDecided(env, fuel, s, i);
      case "then" => ThenDecided(env, fuel, s, i);
      case "else" => ElseDecided(env, fuel, s, i);
      case "properties" => PropertiesDecided(env, fuel, s, i);
      case "additionalProperties" => AdditionalDecided(env, fuel, s, i);
      case "unevaluatedProperties" => UnevaluatedDecided(env, fuel, s, i);
      case "propertyNames" => NamesDecided(env, fuel, s, i);
      case "prefixItems" => PrefixDecided(env, fuel, s, i);
      case "items" => ItemsDecided(env, fuel, s, i);
      case "type" => TypeDecided(env, fuel, s, i);
      case _ => OtherDecided(env, fuel, s, k, i);
    }
  }

  lemma {:induction false} NotDecided(env: Env, fuel: nat, s: Json, i: Json)
    requires s.Obj? && "not" in s.members && SelfContained(s.members["not"])
    ensures KeywordDecided(env, fuel, s, "not", i)
    decreases s, 2
  {
    var v := s.members["not"];
    TwoValued(env, fuel, v, i);
    hide Eval, Valid, SelfContained;
  }

  lemma {:induction false} AllOfDecided(env: Env, fuel: nat, s: Json, i: Json)
    requires s.Obj? && "allOf" in s.members && s.members["allOf"].Arr?
    requires forall j :: 0 <= j < |s.members["allOf"].items| ==> SelfContained(s.members["allOf"].items[j])
    ensures KeywordDecided(env, fuel, s, "allOf", i)
    decreases s, 2
  {
    var v := s.members["allOf"];
    forall j | 0 <= j < |v.items| ensures Decided(env, fuel, v.items[j], i) { TwoValued(env, fuel, v.items[j], i); }
    hide Eval, Valid, SelfContained;
  }

  lemma {:induction false} AnyOfDecided(env: Env, fuel: nat, s: Json, i: Json)
    requires s.Obj? && "anyOf" in s.members && s.members["anyOf"].Arr?
    requires forall j :: 0 <= j < |s.members["anyOf"].items| ==> SelfContained(s.members["anyOf"].items[j])
    ensures KeywordDecided(env, fuel, s, "anyOf", i)
    decreases s, 2
  {
    var v := s.members["anyOf"];
    forall j | 0 <= j < |v.items| ensures Decided(env, fuel, v.items[j], i) { TwoValued(env, fuel, v.items[j], i); }
    hide Eval, Valid, SelfContained;
  }

  lemma {:induction false} OneOfDecided(env: Env, fuel: nat, s: Json, i: Json)
    requires s.Obj? && "oneOf" in s.members && s.members["oneOf"].Arr?
    requires forall j :: 0 <= j < |s.members["oneOf"].items| ==> SelfContained(s.members["oneOf"].items[j])
    ensures KeywordDecided(env, fuel, s, "oneOf", i)
    decreases s, 2
  {
    var v := s.members["oneOf"];
    forall j | 0 <= j < |v.items| ensures Decided(env, fuel, v.items[j], i) { TwoValued(env, fuel, v.items[j], i); }
    hide SelfContained;
    OneOfAccepted(env, fuel, s, i);
    OneOfRejected(env, fuel, s, i);
    hide Keyword, Meets;
  }

  lemma {:induction false} OneOfAccepted(env: Env, fuel: nat, s: Json, i: Json)
    requires s.Obj? && "oneOf" in s.members && s.members["oneOf"].Arr?
    requires forall j :: 0 <= j < |s.members["oneOf"].items| ==> Decided(env, fuel, s.members["oneOf"].items[j], i)
    ensures Keyword(env, fuel, true, s, "oneOf", i) <==> Meets(env, s, "oneOf", i)
  {
    hide Eval, Valid;
  }

  lemma {:induction false} OneOfRejected(env: Env, fuel: nat, s: Json, i: Json)
    requires s.Obj? && "oneOf" in s.members && s.members["oneOf"].Arr?
    requires forall j :: 0 <= j < |s.members["oneOf"].items| ==> Decided(env, fuel, s.members["oneOf"].items[j], i)
    ensures Keyword(env, fuel, false, s, "oneOf", i) <==> !Meets(env, s, "oneOf", i)
  {
    hide Eval, Valid;
  }

  lemma {:induction false} ThenDecided(env: Env, fuel: nat, s: Json, i: Json)
    requires s.Obj? && "then" in s.members && SelfContained(s.members["then"])
    requires "if" in s.members ==> SelfContained(s.members["if"])
    ensures KeywordDecided(env, fuel, s, "then", i)
    decreases s, 2
  {
    var v := s.members["then"];
    TwoValued(env, fuel, v, i);
    if "if" in s.members { TwoValued(env, fuel, s.members["if"], i); }
    hide Eval, Valid, SelfContained;
  }

  lemma {:induction false} ElseDecided(env: Env, fuel: nat, s: Json, i: Json)
    requires s.Obj? && "else" in s.members && SelfContained(s.members["else"])
    requires "if" in s.members ==> SelfContained(s.members["if"])
    ensures KeywordDecided(env, fuel, s, "else", i)
    decreases s, 2
  {
    var v := s.members["else"];
    TwoValued(env, fuel, v, i);
    if "if" in s.members { TwoValued(env, fuel, s.members["if"], i); }
    hide Eval, Valid, SelfContained;
  }

  lemma {:induction false} PropertiesDecided(env: Env, fuel: nat, s: Json, i: Json)
    requires s.Obj? && "properties" in s.members && s.members["properties"].Obj?
    requires forall p :: p in s.members["properties"].members ==> SelfContained(s.members["properties"].members[p])
    ensures KeywordDecided(env, fuel, s, "properties", i)
    decreases s, 2
  {
    var v := s.members["properties"];
    if i.Obj? {
      forall p | p in v.members && p in i.members ensures Decided(env, fuel, v.members[p], i.members[p]) {
        TwoValued(env, fuel, v.members[p], i.members[p]);
      }
    }
    hide Eval, Valid, SelfContained;
  }

  lemma {:induction false} AdditionalDecided(env: Env, fuel: nat, s: Json, i: Json)
    requires s.Obj? && "additionalProperties" in s.members && SelfContained(s.members["additionalProperties"])
    ensures KeywordDecided(env, fuel, s, "additionalProperties", i)
    decreases s, 2
  {
    var v := s.members["additionalProperties"];
    if i.Obj? {
      forall p | p in i.members ensures Decided(env, fuel, v, i.members[p]) { TwoValued(env, fuel, v, i.members[p]); }
    }
    hide Eval, Valid, SelfContained;
  }

  lemma {:induction false} NamesDecided(env: Env, fuel: nat, s: Json, i: Json)
    requires s.Obj? && "propertyNames" in s.members && SelfContained(s.members["propertyNames"])
    ensures KeywordDecided(env, fuel, s, "propertyNames", i)
    decreases s, 2
  {
    var v := s.members["propertyNames"];
    if i.Obj? {
      forall p | p in i.members ensures Decided(env, fuel, v, Str(p)) { TwoValued(env, fuel, v, Str(p)); }
    }
    hide Eval, Valid, SelfContained;
  }

  lemma {:induction false} PrefixDecided(env: Env, fuel: nat, s: Json, i: Json)
    requires s.Obj? && "prefixItems" in s.members && s.members["prefixItems"].Arr?
    requires forall j :: 0 <= j < |s.members["prefixItems"].items| ==> SelfContained(s.members["prefixItems"].items[j])
    ensures KeywordDecided(env, fuel, s, "prefixItems", i)
    decreases s, 2
  {
    var v := s.members["prefixItems"];
    if i.Arr? {
      forall j | 0 <= j < |v.items| && j < |i.items| ensures Decided(env, fuel, v.items[j], i.items[j]) {
        TwoValued(env, fuel, v.items[j], i.items[j]);
      }
    }
    hide Eval, Valid, SelfContained;
  }

  lemma {:induction false} ItemsDecided(env: Env, fuel: nat, s: Json, i: Json)
    requires s.Obj? && "items" in s.members && SelfContained(s.members["items"])
    ensures KeywordDecided(env, fuel, s, "items", i)
    decreases s, 2
  {
    var v := s.members["items"];
    if i.Arr? {
      forall j | 0 <= j < |i.items| ensures Decided(env, fuel, v, i.items[j]) { TwoValued(env, fuel, v, i.items[j]); }
    }
    assert forall j: nat :: Prefix(s) <= j <==> !HasOwnSchema(s, j);
    hide Eval, Valid, SelfContained, Prefix, HasOwnSchema;
  }

  lemma {:induction false} OtherDecided(env: Env, fuel: nat, s: Json, k: string, i: Json)
    requires s.Obj? && k in s.members && (k == "$ref" ==> s.members[k].Str? && !Local(s.members[k].s))
    requires k !in ["not", "allOf", "anyOf", "oneOf", "then", "else", "properties", "additionalProperties"]
    requires k !in ["unevaluatedProperties", "propertyNames", "prefixItems", "items", "type"]
    ensures KeywordDecided(env, fuel, s, k, i)
  {
    OtherVerdict(env, fuel, true, s, k, i);
    OtherVerdict(env, fuel, false, s, k, i);
    hide Keyword, Meets;
  }

  lemma {:induction false} OtherVerdict(env: Env, fuel: nat, accept: bool, s: Json, k: string, i: Json)
    requires s.Obj? && k in s.members && (k == "$ref" ==> s.members[k].Str? && !Local(s.members[k].s))
    requires k !in ["not", "allOf", "anyOf", "oneOf", "then", "else", "properties", "additionalProperties"]
    requires k !in ["unevaluatedProperties", "propertyNames", "prefixItems", "items", "type"]
    ensures Keyword(env, fuel, accept, s, k, i) <==> Meets(env, s, k, i) == accept
  {
    hide Eval, Valid, Covers, Looked, TypeAllowed, OfType, HasRequired;
  }

  lemma {:induction false} TypeDecided(env: Env, fuel: nat, s: Json, i: Json)
    requires s.Obj? && "type" in s.members
    ensures KeywordDecided(env, fuel, s, "type", i)
  {
    TypesAgree(s.members["type"], i);
    hide Eval, Valid, Covers, Looked, TypeAllowed, OfType;
  }

  lemma {:induction false} TypesAgree(v: Json, i: Json)
    ensures TypeAllowed(v, i) <==>
              || (v.Str? && OfType(v.s, i))
              || (v.Arr? && exists x :: x in v.items && x.Str? && OfType(x.s, i))
  {
    forall name: string ensures TypeIs(name, i) <==> OfType(name, i) { SameType(name, i); }
    hide TypeIs, OfType;
    if v.Arr? {
      assert forall j :: 0 <= j < |v.items| ==> v.items[j] in v.items;
    }
  }

  lemma {:induction false} SameType(name: string, i: Json)
    ensures TypeIs(name, i) <==> OfType(name, i)
  {
  }

  lemma {:induction false} UnevaluatedDecided(env: Env, fuel: nat, s: Json, i: Json)
    requires s.Obj? && "unevaluatedProperties" in s.members && SelfContained(s)
    requires SelfContained(s.members["unevaluatedProperties"])
    ensures KeywordDecided(env, fuel, s, "unevaluatedProperties", i)
    decreases s, 2
  {
    var v := s.members["unevaluatedProperties"];
    if i.Obj? {
      forall p | p in i.members
        ensures Seen(env, fuel, s, i, p, true) && Decided(env, fuel, v, i.members[p])
      {
        SeenDecided(env, fuel, s, i, p, true);
        TwoValued(env, fuel, v, i.members[p]);
      }
    }
    hide Eval, Valid, SelfContained, Covers, Looked;
  }

  ghost predicate Seen(env: Env, fuel: nat, s: Json, i: Json, p: string, beside: bool) {
    && (Covers(env, fuel, true, s, i, p, beside) <==> Looked(env, s, i, p, beside))
    && (Covers(env, fuel, false, s, i, p, beside) <==> !Looked(env, s, i, p, beside))
  }

  ghost predicate KeywordSeen(env: Env, fuel: nat, s: Json, k: string, i: Json, p: string)
    requires s.Obj? && k in s.members
  {
    && (CoveredBy(env, fuel, true, s, k, i, p) <==> LookedBy(env, s, k, i, p))
    && (CoveredBy(env, fuel, false, s, k, i, p) <==> !LookedBy(env, s, k, i, p))
  }

  ghost predicate AppliedSeen(env: Env, fuel: nat, s: Json, i: Json, p: string) {
    && (Applied(env, fuel, true, s, i, p) <==> Valid(env, s, i) && Looked(env, s, i, p, false))
    && (Applied(env, fuel, false, s, i, p) <==> !(Valid(env, s, i) && Looked(env, s, i, p, false)))
  }

  lemma {:induction false} AppliedDecided(env: Env, fuel: nat, s: Json, i: Json, p: string)
    requires SelfContained(s)
    ensures AppliedSeen(env, fuel, s, i, p)
    decreases s, 5
  {
    TwoValued(env, fuel, s, i);
    SeenDecided(env, fuel, s, i, p, false);
    hide Eval, Covers, Valid, Looked, SelfContained;
  }

  lemma {:induction false} SeenDecided(env: Env, fuel: nat, s: Json, i: Json, p: string, beside: bool)
    requires SelfContained(s)
    ensures Seen(env, fuel, s, i, p, beside)
    decreases s, 1, 1
  {
    if s.Obj? {
      forall k | k in s.members ensures KeywordSeen(env, fuel, s, k, i, p) {
        EachSeen(env, fuel, s, k, i, p);
      }
      hide CoveredBy, LookedBy, SelfContained;
    }
  }

  lemma {:induction false} EachSeen(env: Env, fuel: nat, s: Json, k: string, i: Json, p: string)
    requires SelfContained(s) && s.Obj? && k in s.members
    ensures KeywordSeen(env, fuel, s, k, i, p)
    decreases s, 1, 0
  {
    assert ContainedKeyword(s, k);
    assert "if" in s.members ==> ContainedKeyword(s, "if");
    hide CoveredBy, LookedBy, KeywordSeen, SelfContained;
    match k {
      case "allOf" => AllOfSeen(env, fuel, s, i, p);
      case "anyOf" => AnyOfSeen(env, fuel, s, i, p);
      case "oneOf" => OneOfSeen(env, fuel, s, i, p);
      case "if" => IfSeen(env, fuel, s, i, p);
      case "then" => ThenSeen(env, fuel, s, i, p);
      case "else" => ElseSeen(env, fuel, s, i, p);
      case _ => OtherSeen(env, fuel, s, k, i, p);
    }
  }

  lemma {:induction false} AllOfSeen(env: Env, fuel: nat, s: Json, i: Json, p: string)
    requires s.Obj? && "allOf" in s.members && s.members["allOf"].Arr?
    requires forall j :: 0 <= j < |s.members["allOf"].items| ==> SelfContained(s.members["allOf"].items[j])
    ensures KeywordSeen(env, fuel, s, "allOf", i, p)
    decreases s, 0
  {
    var v := s.members["allOf"];
    forall j | 0 <= j < |v.items| ensures AppliedSeen(env, fuel, v.items[j], i, p) {
      AppliedDecided(env, fuel, v.items[j], i, p);
    }
    hide Applied, Valid, Looked, SelfContained;
  }

  lemma {:induction false} AnyOfSeen(env: Env, fuel: nat, s: Json, i: Json, p: string)
    requires s.Obj? && "anyOf" in s.members && s.members["anyOf"].Arr?
    requires forall j :: 0 <= j < |s.members["anyOf"].items| ==> SelfContained(s.members["anyOf"].items[j])
    ensures KeywordSeen(env, fuel, s, "anyOf", i, p)
    decreases s, 0
  {
    var v := s.members["anyOf"];
    forall j | 0 <= j < |v.items| ensures AppliedSeen(env, fuel, v.items[j], i, p) {
      AppliedDecided(env, fuel, v.items[j], i, p);
    }
    hide Applied, Valid, Looked, SelfContained;
  }

  lemma {:induction false} OneOfSeen(env: Env, fuel: nat, s: Json, i: Json, p: string)
    requires s.Obj? && "oneOf" in s.members && s.members["oneOf"].Arr?
    requires forall j :: 0 <= j < |s.members["oneOf"].items| ==> SelfContained(s.members["oneOf"].items[j])
    ensures KeywordSeen(env, fuel, s, "oneOf", i, p)
    decreases s, 0
  {
    var v := s.members["oneOf"];
    forall j | 0 <= j < |v.items| ensures AppliedSeen(env, fuel, v.items[j], i, p) {
      AppliedDecided(env, fuel, v.items[j], i, p);
    }
    hide Applied, Valid, Looked, SelfContained;
  }

  lemma {:induction false} IfSeen(env: Env, fuel: nat, s: Json, i: Json, p: string)
    requires s.Obj? && "if" in s.members && SelfContained(s.members["if"])
    ensures KeywordSeen(env, fuel, s, "if", i, p)
    decreases s, 0
  {
    var v := s.members["if"];
    AppliedDecided(env, fuel, v, i, p);
    if "if" in s.members { TwoValued(env, fuel, s.members["if"], i); }
    hide Applied, Eval, Valid, Looked, SelfContained;
  }

  lemma {:induction false} ThenSeen(env: Env, fuel: nat, s: Json, i: Json, p: string)
    requires s.Obj? && "then" in s.members && SelfContained(s.members["then"])
    requires "if" in s.members ==> SelfContained(s.members["if"])
    ensures KeywordSeen(env, fuel, s, "then", i, p)
    decreases s, 0
  {
    var v := s.members["then"];
    AppliedDecided(env, fuel, v, i, p);
    if "if" in s.members { TwoValued(env, fuel, s.members["if"], i); }
    hide Applied, Eval, Valid, Looked, SelfContained;
  }

  lemma {:induction false} ElseSeen(env: Env, fuel: nat, s: Json, i: Json, p: string)
    requires s.Obj? && "else" in s.members && SelfContained(s.members["else"])
    requires "if" in s.members ==> SelfContained(s.members["if"])
    ensures KeywordSeen(env, fuel, s, "else", i, p)
    decreases s, 0
  {
    var v := s.members["else"];
    AppliedDecided(env, fuel, v, i, p);
    if "if" in s.members { TwoValued(env, fuel, s.members["if"], i); }
    hide Applied, Eval, Valid, Looked, SelfContained;
  }

  lemma {:induction false} OtherSeen(env: Env, fuel: nat, s: Json, k: string, i: Json, p: string)
    requires s.Obj? && k in s.members && k !in ["allOf", "anyOf", "oneOf", "if", "then", "else"]
    requires k == "$ref" ==> s.members[k].Str? && !Local(s.members[k].s)
    ensures KeywordSeen(env, fuel, s, k, i, p)
  {
  }

  /** Every instance is accepted or rejected, and which it is agrees with validity. */
  lemma {:induction false} EveryInstanceDecided(env: Env, s: Json, i: Json)
    requires SelfContained(s)
    ensures Accepts(env, s, i) <==> Valid(env, s, i)
    ensures Rejects(env, s, i) <==> !Valid(env, s, i)
  {
    forall fuel: nat
      ensures Eval(env, fuel, true, s, i) <==> Valid(env, s, i)
      ensures Eval(env, fuel, false, s, i) <==> !Valid(env, s, i)
    {
      TwoValued(env, fuel, s, i);
    }
    hide Eval, Valid, SelfContained;
    assert Eval(env, 0, true, s, i) || Eval(env, 0, false, s, i);
  }
}
