/** A fragment of JSON Schema 2020-12, with the verdict of a schema on an instance. */
module JsonSchema {
  import opened Common
  import opened Json

  /** A document and what lies outside the fragment: assertions on scalars, and documents elsewhere, with their
      verdicts and the properties they evaluate. */
  datatype Env = Env(
    root: Json,
    assertion: (string, Json, Json) -> bool,
    external: (string, Json) -> bool,
    evaluated: (string, Json, string) -> bool)

  /** The keyword that says what an object may hold beyond its declared properties. */
  const CLOSING := "additionalProperties"

  /** The keyword for what neither the schema nor any that it applies in place has looked at. */
  const UNEVALUATED := "unevaluatedProperties"

  const DEFS := "#/$defs/"

  predicate IsAnnotation(k: string) {
    k in {"$comment", "$defs", "$id", "$schema", "title", "description", "default", "examples", "deprecated"}
  }

  /** The schema a local reference names, if the document has it (section 8.2.3.1 of Core). */
  function Target(root: Json, ref: string): Option<Json> {
    if ref == "#" then Some(root)
    else if DEFS <= ref && root.Obj? && "$defs" in root.members && root.members["$defs"].Obj?
      && ref[|DEFS|..] in root.members["$defs"].members
    then Some(root.members["$defs"].members[ref[|DEFS|..]])
    else None
  }

  predicate Local(ref: string) {
    "#" <= ref
  }

  predicate TypeIs(t: string, i: Json) {
    match i
    case Null => t == "null"
    case Bool(_) => t == "boolean"
    case Num(n) => t == "number" || (t == "integer" && n == n.Floor as real)
    case Str(_) => t == "string"
    case Arr(_) => t == "array"
    case Obj(_) => t == "object"
  }

  predicate TypeAllowed(v: Json, i: Json) {
    match v
    case Str(t) => TypeIs(t, i)
    case Arr(items) => exists j :: 0 <= j < |items| && items[j].Str? && TypeIs(items[j].s, i)
    case _ => false
  }

  predicate HasRequired(v: Json, i: Json) {
    v.Arr? && i.Obj? ==> forall name :: name in v.items && name.Str? ==> name.s in i.members
  }

  predicate Declared(s: Json, name: string)
    requires s.Obj?
  {
    "properties" in s.members && s.members["properties"].Obj? && name in s.members["properties"].members
  }

  /** How many leading items have schemas of their own. */
  function Prefix(s: Json): nat
    requires s.Obj?
  {
    if "prefixItems" in s.members && s.members["prefixItems"].Arr? then |s.members["prefixItems"].items| else 0
  }

  /** With accept: evaluation reaches acceptance within the given number of reference steps.
      Without: it reaches rejection. Neither holds when references run out first. */
  ghost predicate Eval(env: Env, fuel: nat, accept: bool, s: Json, i: Json)
    decreases fuel, s, 3
  {
    match s
    case Bool(b) => b == accept
    case Obj(m) =>
      if accept then forall k :: k in m ==> Keyword(env, fuel, true, s, k, i)
      else exists k :: k in m && Keyword(env, fuel, false, s, k, i)
    case _ => false
  }

  ghost predicate Keyword(env: Env, fuel: nat, accept: bool, s: Json, k: string, i: Json)
    requires s.Obj? && k in s.members
    decreases fuel, s, 2
  {
    var v := s.members[k];
    if IsAnnotation(k) then accept
    else if k == "$ref" then
      if !v.Str? then false
      else if !Local(v.s) then env.external(v.s, i) == accept
      else fuel > 0 && Target(env.root, v.s).Some? && Eval(env, fuel - 1, accept, Target(env.root, v.s).value, i)
    else if k == "not" then Eval(env, fuel, !accept, v, i)
    else if k == "allOf" then
      v.Arr? &&
      if accept then forall j :: 0 <= j < |v.items| ==> Eval(env, fuel, true, v.items[j], i)
      else exists j :: 0 <= j < |v.items| && Eval(env, fuel, false, v.items[j], i)
    else if k == "anyOf" then
      v.Arr? &&
      if accept then exists j :: 0 <= j < |v.items| && Eval(env, fuel, true, v.items[j], i)
      else forall j :: 0 <= j < |v.items| ==> Eval(env, fuel, false, v.items[j], i)
    else if k == "oneOf" then
      v.Arr? &&
      if accept then
        (exists j :: 0 <= j < |v.items| && Eval(env, fuel, true, v.items[j], i)
          && (forall l :: 0 <= l < |v.items| && l != j ==> Eval(env, fuel, false, v.items[l], i)))
      else
        || (forall j :: 0 <= j < |v.items| ==> Eval(env, fuel, false, v.items[j], i))
        || (exists j, l ::
              0 <= j < l < |v.items| && Eval(env, fuel, true, v.items[j], i) && Eval(env, fuel, true, v.items[l], i))
    else if k == "properties" then
      v.Obj? &&
      if accept then i.Obj? ==> forall p :: p in v.members && p in i.members ==>
          Eval(env, fuel, true, v.members[p], i.members[p])
      else i.Obj? && exists p :: p in v.members && p in i.members && Eval(env, fuel, false, v.members[p], i.members[p])
    else if k == "additionalProperties" then
      if accept then i.Obj? ==> forall p :: p in i.members && !Declared(s, p) ==> Eval(env, fuel, true, v, i.members[p])
      else i.Obj? && exists p :: p in i.members && !Declared(s, p) && Eval(env, fuel, false, v, i.members[p])
    else if k == UNEVALUATED then
      if accept then
        i.Obj? ==> forall p :: p in i.members ==>
            Covers(env, fuel, true, s, i, p, true) || Eval(env, fuel, true, v, i.members[p])
      else
        i.Obj? && exists p ::
          p in i.members && Covers(env, fuel, false, s, i, p, true) && Eval(env, fuel, false, v, i.members[p])
    else if k == "items" then
      if accept then i.Arr? ==> forall j :: Prefix(s) <= j < |i.items| ==> Eval(env, fuel, true, v, i.items[j])
      else i.Arr? && exists j :: Prefix(s) <= j < |i.items| && Eval(env, fuel, false, v, i.items[j])
    else if k == "prefixItems" then
      v.Arr? &&
      if accept then i.Arr? ==> forall j :: 0 <= j < |v.items| && j < |i.items| ==>
          Eval(env, fuel, true, v.items[j], i.items[j])
      else i.Arr? && exists j :: 0 <= j < |v.items| && j < |i.items| && Eval(env, fuel, false, v.items[j], i.items[j])
    else if k == "propertyNames" then
      if accept then i.Obj? ==> forall p :: p in i.members ==> Eval(env, fuel, true, v, Str(p))
      else i.Obj? && exists p :: p in i.members && Eval(env, fuel, false, v, Str(p))
    else if k == "if" then accept
    else if k == "then" || k == "else" then
      if "if" !in s.members then accept
      else if accept then
        || Eval(env, fuel, k != "then", s.members["if"], i)
        || (Eval(env, fuel, k == "then", s.members["if"], i) && Eval(env, fuel, true, v, i))
      else Eval(env, fuel, k == "then", s.members["if"], i) && Eval(env, fuel, false, v, i)
    else if k == "required" then HasRequired(v, i) == accept
    else if k == "enum" then (v.Arr? && i in v.items) == accept
    else if k == "const" then (i == v) == accept
    else if k == "type" then TypeAllowed(v, i) == accept
    else env.assertion(k, v, i) == accept
  }

  /** Whether a property of the instance is evaluated by a schema (sections 10.3.2 and 11.3 of Core): with yes
      it is known to be, without it is known not to be. Beside leaves out the keyword that asks. */
  ghost predicate Covers(env: Env, fuel: nat, yes: bool, s: Json, i: Json, p: string, beside: bool)
    decreases fuel, s, 1
  {
    if !s.Obj? then !yes
    else if yes then
      exists k :: k in s.members && !(beside && k == UNEVALUATED) && CoveredBy(env, fuel, true, s, k, i, p)
    else
      forall k :: k in s.members && !(beside && k == UNEVALUATED) ==> CoveredBy(env, fuel, false, s, k, i, p)
  }

  /** A schema applied in place evaluates a property when it accepts, too: what a rejecting one saw does not count. */
  ghost predicate Applied(env: Env, fuel: nat, yes: bool, s: Json, i: Json, p: string)
    decreases fuel, s, 4
  {
    if yes then Eval(env, fuel, true, s, i) && Covers(env, fuel, true, s, i, p, false)
    else Eval(env, fuel, false, s, i) || Covers(env, fuel, false, s, i, p, false)
  }

  ghost predicate CoveredBy(env: Env, fuel: nat, yes: bool, s: Json, k: string, i: Json, p: string)
    requires s.Obj? && k in s.members
    decreases fuel, s, 0
  {
    var v := s.members[k];
    if k == "properties" then Declared(s, p) == yes
    else if k == CLOSING then !Declared(s, p) == yes
    else if k == UNEVALUATED then yes
    else if k == "$ref" then
      if !v.Str? then !yes
      else if !Local(v.s) then (env.external(v.s, i) && env.evaluated(v.s, i, p)) == yes
      else
        fuel > 0 && Target(env.root, v.s).Some? && Applied(env, fuel - 1, yes, Target(env.root, v.s).value, i, p)
    else if k == "allOf" || k == "anyOf" || k == "oneOf" then
      if !v.Arr? then !yes
      else if yes then exists j :: 0 <= j < |v.items| && Applied(env, fuel, true, v.items[j], i, p)
      else forall j :: 0 <= j < |v.items| ==> Applied(env, fuel, false, v.items[j], i, p)
    else if k == "if" || ((k == "then" || k == "else") && "if" in s.members) then
      var guard := s.members["if"];
      if yes then Applied(env, fuel, true, v, i, p) && (k != "if" ==> Eval(env, fuel, k == "then", guard, i))
      else Applied(env, fuel, false, v, i, p) || (k != "if" && Eval(env, fuel, k != "then", guard, i))
    else !yes
  }

  ghost predicate Accepts(env: Env, s: Json, i: Json) {
    exists fuel: nat :: Eval(env, fuel, true, s, i)
  }

  ghost predicate Rejects(env: Env, s: Json, i: Json) {
    exists fuel: nat :: Eval(env, fuel, false, s, i)
  }

  /** With the same number of reference steps no instance is both accepted and rejected. */
  lemma {:induction false} Exclusive(env: Env, fuel: nat, s: Json, i: Json)
    requires Eval(env, fuel, true, s, i)
    ensures !Eval(env, fuel, false, s, i)
    decreases fuel, s, 3
  {
    if s.Obj? {
      forall k | k in s.members ensures !Keyword(env, fuel, false, s, k, i) {
        ExclusiveKeyword(env, fuel, s, k, i);
      }
    }
  }

  lemma {:induction false} ExclusiveKeyword(env: Env, fuel: nat, s: Json, k: string, i: Json)
    requires s.Obj? && k in s.members && Keyword(env, fuel, true, s, k, i)
    ensures !Keyword(env, fuel, false, s, k, i)
    decreases fuel, s, 2, 1
  {
    var v := s.members[k];
    if IsAnnotation(k) {
    } else if k == "$ref" {
      if v.Str? && Local(v.s) { Exclusive(env, fuel - 1, Target(env.root, v.s).value, i); }
    } else if k == "not" {
      if Eval(env, fuel, true, v, i) { Exclusive(env, fuel, v, i); }
    } else if k in {"allOf", "anyOf", "oneOf"} {
      forall j | 0 <= j < |v.items| && Eval(env, fuel, true, v.items[j], i)
          ensures !Eval(env, fuel, false, v.items[j], i) {
        Exclusive(env, fuel, v.items[j], i);
      }
    } else if k in {"then", "else"} {
      if "if" in s.members {
        var guard := s.members["if"];
        if Eval(env, fuel, true, guard, i) { Exclusive(env, fuel, guard, i); }
        if Eval(env, fuel, true, v, i) { Exclusive(env, fuel, v, i); }
      }
    } else {
      ExclusiveBelow(env, fuel, s, k, i);
    }
  }

  /** Keywords that look at the members or items of the instance. */
  lemma {:induction false} ExclusiveBelow(env: Env, fuel: nat, s: Json, k: string, i: Json)
    requires s.Obj? && k in s.members && !IsAnnotation(k) && Keyword(env, fuel, true, s, k, i)
    requires k !in {"$ref", "not", "allOf", "anyOf", "oneOf", "then", "else"}
    ensures !Keyword(env, fuel, false, s, k, i)
    decreases fuel, s, 2, 0
  {
    var v := s.members[k];
    if k == "properties" {
      if i.Obj? {
        forall p | p in v.members && p in i.members ensures !Eval(env, fuel, false, v.members[p], i.members[p]) {
          Exclusive(env, fuel, v.members[p], i.members[p]);
        }
      }
    } else if k == "additionalProperties" {
      if i.Obj? {
        forall p | p in i.members && !Declared(s, p) ensures !Eval(env, fuel, false, v, i.members[p]) {
          Exclusive(env, fuel, v, i.members[p]);
        }
      }
    } else if k == UNEVALUATED {
      if i.Obj? {
        forall p | p in i.members
          ensures !(Covers(env, fuel, true, s, i, p, true) && Covers(env, fuel, false, s, i, p, true))
          ensures !(Eval(env, fuel, true, v, i.members[p]) && Eval(env, fuel, false, v, i.members[p]))
        {
          if Covers(env, fuel, true, s, i, p, true) { ExclusiveCovers(env, fuel, s, i, p, true); }
          if Eval(env, fuel, true, v, i.members[p]) { Exclusive(env, fuel, v, i.members[p]); }
        }
      }
    } else if k == "items" {
      if i.Arr? {
        forall j | Prefix(s) <= j < |i.items| ensures !Eval(env, fuel, false, v, i.items[j]) {
          Exclusive(env, fuel, v, i.items[j]);
        }
      }
    } else if k == "prefixItems" {
      if i.Arr? {
        forall j | 0 <= j < |v.items| && j < |i.items| ensures !Eval(env, fuel, false, v.items[j], i.items[j]) {
          Exclusive(env, fuel, v.items[j], i.items[j]);
        }
      }
    } else if k == "propertyNames" {
      if i.Obj? {
        forall p | p in i.members ensures !Eval(env, fuel, false, v, Str(p)) { Exclusive(env, fuel, v, Str(p)); }
      }
    }
  }

  lemma {:induction false} ExclusiveCovers(env: Env, fuel: nat, s: Json, i: Json, p: string, beside: bool)
    requires Covers(env, fuel, true, s, i, p, beside)
    ensures !Covers(env, fuel, false, s, i, p, beside)
    decreases fuel, s, 1
  {
    var k :| k in s.members && !(beside && k == UNEVALUATED) && CoveredBy(env, fuel, true, s, k, i, p);
    ExclusiveCoveredBy(env, fuel, s, k, i, p);
  }

  lemma {:induction false} ExclusiveApplied(env: Env, fuel: nat, s: Json, i: Json, p: string)
    requires Applied(env, fuel, true, s, i, p)
    ensures !Applied(env, fuel, false, s, i, p)
    decreases fuel, s, 4
  {
    Exclusive(env, fuel, s, i);
    ExclusiveCovers(env, fuel, s, i, p, false);
  }

  lemma {:induction false} ExclusiveCoveredBy(env: Env, fuel: nat, s: Json, k: string, i: Json, p: string)
    requires s.Obj? && k in s.members && CoveredBy(env, fuel, true, s, k, i, p)
    ensures !CoveredBy(env, fuel, false, s, k, i, p)
    decreases fuel, s, 0
  {
    var v := s.members[k];
    if k == "$ref" {
      if Local(v.s) {
        ExclusiveApplied(env, fuel - 1, Target(env.root, v.s).value, i, p);
      }
    } else if k in {"allOf", "anyOf", "oneOf"} {
      var j :| 0 <= j < |v.items| && Applied(env, fuel, true, v.items[j], i, p);
      ExclusiveApplied(env, fuel, v.items[j], i, p);
    } else if k in {"if", "then", "else"} {
      ExclusiveApplied(env, fuel, v, i, p);
      if k == "then" { Exclusive(env, fuel, s.members["if"], i); }
      if k == "else" && Eval(env, fuel, true, s.members["if"], i) { Exclusive(env, fuel, s.members["if"], i); }
    }
  }
}
