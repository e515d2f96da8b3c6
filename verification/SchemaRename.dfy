/** Shortening the names of definitions, and every reference to them, in one generated document. */
module SchemaRename {
  import opened Common
  import opened Json
  import opened JsonSchema
  import opened SchemaRelation
  import opened SchemaMeaning

  function DropSuffix(key: string, suffix: string): string {
    if |key| > |suffix| && key[|key| - |suffix|..] == suffix then key[..|key| - |suffix|] else key
  }

  /** The anchor a definition gets: the framework's suffixes are taken off, one after the other. */
  function NewKey(key: string): string {
    DropSuffix(DropSuffix(key, "Model"), "Payload")
  }

  predicate EndsIn(key: string, suffix: string) {
    |key| >= |suffix| && key[|key| - |suffix|..] == suffix
  }

  /** `Model` goes first and `Payload` next, each unless nothing would be left; any other name stays. */
  lemma {:induction false} NewKeyIs(base: string)
    ensures base != "" && !EndsIn(base, "Payload") ==> NewKey(base + "Model") == base
    ensures base != "" ==> NewKey(base + "PayloadModel") == base && NewKey(base + "Payload") == base
    ensures !EndsIn(base, "Model") && !EndsIn(base, "Payload") ==> NewKey(base) == base
    ensures NewKey("Model") == "Model" && NewKey("Payload") == "Payload" && NewKey("PayloadModel") == "Payload"
  {
    var model, payload := base + "Model", base + "Payload";
    assert model[|base|..] == "Model" && model[..|base|] == base;
    assert payload[|base|..] == "Payload" && payload[..|base|] == base;
    assert payload[|payload| - 5..][0] == 'y' && "Model"[0] == 'M';
    assert base + "PayloadModel" == payload + "Model";
    assert (payload + "Model")[|payload|..] == "Model" && (payload + "Model")[..|payload|] == payload;
    assert "Payload"[2..][0] == 'y';
    assert "PayloadModel"[7..] == "Model" && "PayloadModel"[..7] == "Payload";
  }

  /** References to the document's own definitions follow the new names; others stay. */
  function NewRef(keys: set<string>, ref: string): string {
    if DEFS <= ref && ref[|DEFS|..] in keys then DEFS + NewKey(ref[|DEFS|..]) else ref
  }

  function Walk(keys: set<string>, j: Json): Json {
    match j
    case Obj(m) =>
      Obj(map k | k in m :: if k == "$ref" && m[k].Str? then Str(NewRef(keys, m[k].s)) else Walk(keys, m[k]))
    case Arr(items) => Arr(seq(|items|, i requires 0 <= i < |items| => Walk(keys, items[i])))
    case _ => j
  }

  /** Renaming changes the references to definitions, wherever they stand, and no other place. */
  lemma {:induction false} WalkedPlaces(keys: set<string>, j: Json, path: seq<Hop>)
    ensures At(Walk(keys, j), path).Some? <==> At(j, path).Some?
    ensures At(j, path).Some? ==>
      var s, t := At(j, path).value, At(Walk(keys, j), path).value;
      && (s.Obj? <==> t.Obj?) && (s.Arr? <==> t.Arr?) && (s.Arr? ==> |t.items| == |s.items|)
      && (Scalar(s) ==>
            t == if path != [] && path[|path| - 1] == Member("$ref") && s.Str? then Str(NewRef(keys, s.s)) else s)
  {
    if path != [] {
      match path[0]
      case Member(k) =>
        if j.Obj? && k in j.members && !(k == "$ref" && j.members[k].Str?) {
          WalkedPlaces(keys, j.members[k], path[1..]);
        }
      case Item(i) => if j.Arr? && i < |j.items| { WalkedPlaces(keys, j.items[i], path[1..]); }
    }
  }

  /** Definitions under their new names. A later one in document order replaces an earlier one. */
  function NewDefs(defs: map<string, Json>, order: seq<string>): (r: map<string, Json>)
    requires forall k :: k in order ==> k in defs
  {
    if order == [] then map[]
    else
      var n := |order| - 1;
      NewDefs(defs, order[..n])[NewKey(order[n]) := Walk(defs.Keys, defs[order[n]])]
  }

  predicate HasDefs(raw: Json) {
    raw.Obj? && "$defs" in raw.members && raw.members["$defs"].Obj?
  }

  function Defs(raw: Json): map<string, Json> {
    if HasDefs(raw) then raw.members["$defs"].members else map[]
  }

  /** Every definition, once, in the order of the document. */
  predicate OrderOf(order: seq<string>, raw: Json) {
    (set k | k in order) == Defs(raw).Keys && Distinct(order)
  }

  function RenameDefs(raw: Json, order: seq<string>): Json
    requires OrderOf(order, raw)
  {
    if !HasDefs(raw) then raw
    else Obj(Walk(Defs(raw).Keys, raw).members["$defs" := Obj(NewDefs(Defs(raw), order))])
  }

  // ---- Where the definitions go -----------------------------------------------------------------

  /** Definitions that end up under one name are the same once their references are renamed. */
  predicate NoClash(defs: map<string, Json>) {
    forall a, b :: a in defs && b in defs && NewKey(a) == NewKey(b) ==>
        Walk(defs.Keys, defs[a]) == Walk(defs.Keys, defs[b])
  }

  lemma {:induction false} NewDefsAre(defs: map<string, Json>, order: seq<string>)
    requires forall k :: k in order ==> k in defs
    ensures forall k :: k in order ==> NewKey(k) in NewDefs(defs, order)
    ensures forall q :: q in NewDefs(defs, order) ==>
      exists k :: k in order && NewKey(k) == q && NewDefs(defs, order)[q] == Walk(defs.Keys, defs[k])
  {
    if order != [] {
      var n := |order| - 1;
      NewDefsAre(defs, order[..n]);
      assert order == order[..n] + [order[n]];
    }
  }

  /** Every definition is found under its new name exactly when no two different ones share one. */
  lemma {:induction false} DefinitionsKeptIff(raw: Json, order: seq<string>)
    requires OrderOf(order, raw)
    ensures (forall k :: k in Defs(raw) ==>
        NewKey(k) in NewDefs(Defs(raw), order)
            && NewDefs(Defs(raw), order)[NewKey(k)] == Walk(Defs(raw).Keys, Defs(raw)[k]))
      <==> NoClash(Defs(raw))
  {
    var defs, renamed := Defs(raw), NewDefs(Defs(raw), order);
    NewDefsAre(defs, order);
    if NoClash(defs) {
      forall k | k in defs ensures NewKey(k) in renamed && renamed[NewKey(k)] == Walk(defs.Keys, defs[k]) {
        assert k in order;
        var a :| a in order && NewKey(a) == NewKey(k) && renamed[NewKey(k)] == Walk(defs.Keys, defs[a]);
      }
    }
  }

  /** A reference that resolved resolves, under its new name, to the image of the same definition. */
  lemma {:induction false} ResolutionKept(raw: Json, order: seq<string>, ref: string)
    requires OrderOf(order, raw) && NoClash(Defs(raw)) && Target(raw, ref).Some?
    ensures Target(RenameDefs(raw, order), NewRef(Defs(raw).Keys, ref)) ==
      Some(if ref == "#" then RenameDefs(raw, order) else Walk(Defs(raw).Keys, Target(raw, ref).value))
  {
    DefinitionsKeptIff(raw, order);
    if ref != "#" {
      var key := ref[|DEFS|..];
      assert key in Defs(raw);
      var q := DEFS + NewKey(key);
      assert q[|DEFS|..] == NewKey(key);
    }
  }

  /** A reference that is nobody's name, but the name some definition is about to get. */
  predicate Captured(raw: Json, ref: string) {
    Target(raw, ref).None? && exists k :: k in Defs(raw) && ref == DEFS + NewKey(k)
  }

  /** A reference that named nothing names something afterwards exactly when it is captured. */
  lemma {:induction false} DanglingResolvesIff(raw: Json, order: seq<string>, ref: string)
    requires OrderOf(order, raw) && Target(raw, ref).None?
    ensures NewRef(Defs(raw).Keys, ref) == ref
    ensures Target(RenameDefs(raw, order), ref).Some? <==> Captured(raw, ref)
  {
    hide DropSuffix, NewKey, NewDefs, Walk;
    NewDefsAre(Defs(raw), order);
    if HasDefs(raw) {
      forall k | k in Defs(raw) ensures k in order && (DEFS + NewKey(k))[|DEFS|..] == NewKey(k) {
        assert k in (set x | x in order);
      }
      if DEFS <= ref && ref[|DEFS|..] in NewDefs(Defs(raw), order) {
        var k :| k in order && NewKey(k) == ref[|DEFS|..];
        assert ref == DEFS + NewKey(k);
      }
    }
  }

  /** It happens: a document in which the reference to nothing is captured. */
  lemma {:induction false} DanglingMayResolve()
    ensures var raw := Obj(map["$defs" := Obj(map["AModel" := Bool(true)]), "$ref" := Str("#/$defs/A")]);
      OrderOf(["AModel"], raw) && Captured(raw, "#/$defs/A") && Target(RenameDefs(raw, ["AModel"]), "#/$defs/A").Some?
  {
    var raw := Obj(map["$defs" := Obj(map["AModel" := Bool(true)]), "$ref" := Str("#/$defs/A")]);
    var ref := "#/$defs/A";
    assert ref[|DEFS|..] == "A";
    assert "AModel"[1..] == "Model" && "AModel"[..1] == "A";
    assert NewKey("AModel") == "A";
    assert ref == DEFS + NewKey("AModel") && "AModel" in Defs(raw);
    DanglingResolvesIff(raw, ["AModel"], ref);
  }

  // ---- The renamed document means the same --------------------------------------------------------

  /** No local reference in the document is captured: each resolves, or stays without a target. */
  predicate NoneCaptured(root: Json, j: Json) {
    match j
    case Obj(m) => forall k :: k in m ==>
        (k == "$ref" && m[k].Str? && Local(m[k].s) ==> !Captured(root, m[k].s)) && NoneCaptured(root, m[k])
    case Arr(items) => forall i :: 0 <= i < |items| ==> NoneCaptured(root, items[i])
    case _ => true
  }

  function Renaming(raw: Json): Link {
    (mode, r, q) => Local(r) && !Captured(raw, r) && q == NewRef(Defs(raw).Keys, r)
  }

  function RenamingBack(raw: Json): Link {
    (mode, q, r) => Local(r) && !Captured(raw, r) && q == NewRef(Defs(raw).Keys, r)
  }

  lemma {:induction false} WalkRelated(raw: Json, s: Json)
    requires Fragment(s) && NoneCaptured(raw, s)
    ensures Related(Renaming(raw), Same, s, Walk(Defs(raw).Keys, s))
    decreases s, 1
  {
    if s.Obj? {
      forall k | k in s.members && !IsAnnotation(k)
        ensures KeywordRelated(Renaming(raw), Same, s, Walk(Defs(raw).Keys, s), k)
      {
        WalkKeywordRelated(raw, s, k);
      }
    }
  }

  lemma {:induction false} PlainNotWalked(keys: set<string>, v: Json)
    requires Plain(v)
    ensures Walk(keys, v) == v
  {
    if v.Arr? {
      forall i | 0 <= i < |v.items| ensures Walk(keys, v.items[i]) == v.items[i] { PlainNotWalked(keys, v.items[i]); }
      assert Walk(keys, v).items == v.items;
    } else if v.Obj? {
      forall p | p in v.members ensures Walk(keys, v.members[p]) == v.members[p] { PlainNotWalked(keys, v.members[p]); }
      assert Walk(keys, v).members == v.members;
    }
  }

  lemma {:induction false} WalkKeywordRelated(raw: Json, s: Json, k: string)
    requires Fragment(s) && NoneCaptured(raw, s) && s.Obj? && k in s.members && !IsAnnotation(k)
    ensures KeywordRelated(Renaming(raw), Same, s, Walk(Defs(raw).Keys, s), k)
    decreases s, 0
  {
    var v, keys := s.members[k], Defs(raw).Keys;
    assert FragmentKeyword(s, k) && NoneCaptured(raw, v);
    if k == "$ref" {
      if v.Str? { assert DEFS[0] == '#'; }
    } else if k == "properties" {
      forall p | p in v.members ensures Related(Renaming(raw), Same, v.members[p], Walk(keys, v).members[p]) {
        assert Fragment(v.members[p]);
        WalkRelated(raw, v.members[p]);
      }
    } else if ListsSchemas(k) {
      forall j | 0 <= j < |v.items| ensures Related(Renaming(raw), Same, v.items[j], Walk(keys, v).items[j]) {
        WalkRelated(raw, v.items[j]);
      }
    } else if NestsSchema(k) {
      WalkRelated(raw, v);
    } else {
      OtherwisePlain(s, k);
      PlainNotWalked(keys, v);
    }
  }

  lemma {:induction false} RootRelated(raw: Json, order: seq<string>)
    requires Fragment(raw) && NoneCaptured(raw, raw) && OrderOf(order, raw)
    ensures Related(Renaming(raw), Same, raw, RenameDefs(raw, order))
  {
    WalkRelated(raw, raw);
    if HasDefs(raw) {
      var w, t := Walk(Defs(raw).Keys, raw), RenameDefs(raw, order);
      forall k | k in raw.members && !IsAnnotation(k) ensures KeywordRelated(Renaming(raw), Same, raw, t, k) {
        assert KeywordRelated(Renaming(raw), Same, raw, w, k);
        assert t.members[k] == w.members[k];
      }
    } else {
      NoDefsNoChange(raw, raw);
    }
  }

  lemma {:induction false} NoDefsNoChange(raw: Json, j: Json)
    requires !HasDefs(raw)
    ensures Walk(Defs(raw).Keys, j) == j
  {
    match j
    case Obj(m) =>
      forall k | k in m ensures Walk(Defs(raw).Keys, m[k]) == m[k] { NoDefsNoChange(raw, m[k]); }
      assert Walk(Defs(raw).Keys, j).members == m;
    case Arr(items) =>
      forall i | 0 <= i < |items| ensures Walk(Defs(raw).Keys, items[i]) == items[i] { NoDefsNoChange(raw, items[i]); }
      assert Walk(Defs(raw).Keys, j).items == items;
    case _ =>
  }

  lemma {:induction false} TargetInFragment(raw: Json, ref: string)
    requires Fragment(raw) && NoneCaptured(raw, raw) && Target(raw, ref).Some?
    ensures Fragment(Target(raw, ref).value) && NoneCaptured(raw, Target(raw, ref).value)
  {
    if ref != "#" {
      assert FragmentKeyword(raw, "$defs");
      assert NoneCaptured(raw, raw.members["$defs"]);
    }
  }

  /** Renaming changes no verdict on any instance, through references at any depth and in cycles. */
  lemma {:induction false} RenameKeepsMeaning(e: Env, order: seq<string>, i: Json)
    requires Fragment(e.root) && NoneCaptured(e.root, e.root)
    requires OrderOf(order, e.root) && NoClash(Defs(e.root))
    ensures var f := e.(root := RenameDefs(e.root, order));
      && (Accepts(f, f.root, i) <==> Accepts(e, e.root, i))
      && (Rejects(f, f.root, i) <==> Rejects(e, e.root, i))
  {
    var raw := e.root;
    var f := e.(root := RenameDefs(raw, order));
    assert DEFS[0] == '#';
    forall mode, r, q | Renaming(raw)(mode, r, q)
      ensures Local(q) && Target(raw, r).Some? == Target(f.root, q).Some?
      ensures Target(raw, r).Some? ==> Related(Renaming(raw), mode, Target(raw, r).value, Target(f.root, q).value)
    {
      if Target(raw, r).Some? {
        ResolutionKept(raw, order, r);
        TargetInFragment(raw, r);
        if r == "#" {
          RootRelated(raw, order);
        } else {
          WalkRelated(raw, Target(raw, r).value);
        }
        AnyMode(Renaming(raw), mode, Target(raw, r).value, Target(f.root, q).value);
      } else {
        DanglingResolvesIff(raw, order, r);
      }
    }
    RootRelated(raw, order);
    SameVerdicts(Renaming(raw), RenamingBack(raw), e, f, raw, f.root, i);
  }
}
