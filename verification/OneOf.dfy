/**
 * The event-draft union and its opaque fallback, derived version by version from the frozen 1.0.0 schemas, and when
 * the derived `oneOf` still gives every event identity exactly one branch.
 */
module OneOf {
  import opened Common

  datatype Identity = Identity(name: string, version: string)

  /** A `$defs` entry: a reference to another entry, or the two constants of one identity. */
  datatype Definition = To(target: string) | Exactly(identity: Identity)

  /** A known branch names its payload schema and the definition its `schema` member must meet. */
  datatype Branch = Known(payload: Identity, schema: string) | Opaque(version: string)

  datatype Draft = Draft(definitions: map<string, Definition>, branches: seq<Branch>)

  /** An object schema with an enumerated (or constant) name and a constant version. */
  datatype Exclusion = Exclusion(names: seq<string>, version: string)

  /** The `not` of the opaque identity. */
  datatype Negation = Only(exclusion: Exclusion) | AnyOf(exclusions: seq<Exclusion>)

  datatype Failure = TemplateInvalid | NoLegacyBranch

  // ----- which branches an identity selects

  predicate Covers(e: Exclusion, i: Identity) {
    i.name in e.names && i.version == e.version
  }

  predicate CoveredBy(es: seq<Exclusion>, i: Identity) {
    exists k :: 0 <= k < |es| && Covers(es[k], i)
  }

  predicate Excludes(n: Negation, i: Identity) {
    match n
    case Only(e) => Covers(e, i)
    case AnyOf(es) => CoveredBy(es, i)
  }

  predicate Resolves(definitions: map<string, Definition>, alias: string, i: Identity) {
    && alias in definitions && definitions[alias].To?
    && definitions[alias].target in definitions
    && definitions[definitions[alias].target] == Exactly(i)
  }

  /** The published opaque schemas by version, and the identities their patterns admit. */
  datatype Context = Context(opaque_: map<string, Negation>, proper: Identity -> bool)

  predicate OpaqueSelects(c: Context, version: string, i: Identity) {
    version in c.opaque_ && c.proper(i) && !Excludes(c.opaque_[version], i)
  }

  predicate Selects(c: Context, definitions: map<string, Definition>, b: Branch, i: Identity) {
    match b
    case Known(_, schema) => Resolves(definitions, schema, i)
    case Opaque(version) => OpaqueSelects(c, version, i)
  }

  function Selected(c: Context, definitions: map<string, Definition>, bs: seq<Branch>, i: Identity): nat {
    if bs == [] then 0
    else (if Selects(c, definitions, bs[0], i) then 1 else 0) + Selected(c, definitions, bs[1..], i)
  }

  /** Every admissible identity selects exactly one branch, and every other identity none. */
  ghost predicate Unambiguous(c: Context, d: Draft) {
    forall i: Identity :: Selected(c, d.definitions, d.branches, i) == if c.proper(i) then 1 else 0
  }

  // ----- the pairs added after 1.0.0

  const EVIDENCE: seq<Identity> := [Identity("evidence_recorded", "1.1.0"), Identity("evidence_recorded", "1.2.0")]

  const CLAIM: seq<Identity> := [Identity("claim_recorded", "1.1.0")]

  const READDED: seq<Identity> := EVIDENCE + CLAIM

  const FAMILIES_1_1: seq<string> := ["check_recorded", "finding_recorded", "session_opened", "session_resumed"]

  const LINEAGE: seq<string> := [
    "child_accepted", "child_dependencies_recorded", "child_rejected", "child_written_off", "delegation_cancelled",
    "delegation_declared", "work_abandoned", "work_cancelled", "work_closed", "work_written_off",
    "coordination_context_recorded", "coordination_obligation_declared", "coordination_disposition_recorded"
  ]

  function Versioned(families: seq<string>, version: string): (r: seq<Identity>)
    ensures |r| == |families|
    ensures forall k :: 0 <= k < |r| ==> r[k] == Identity(families[k], version)
  {
    seq(|families|, k requires 0 <= k < |families| => Identity(families[k], version))
  }

  function Added11(): seq<Identity> {
    Versioned(FAMILIES_1_1, "1.1.0")
  }

  /** In the order the draft appends its branches. */
  function Added12(): seq<Identity> {
    [Identity("check_recorded", "1.2.0"), Identity("session_opened", "1.2.0"),
     Identity("finding_recorded", "1.2.0"), Identity("finding_recorded", "1.3.0")] + Versioned(LINEAGE, "1.0.0")
  }

  /** In the order the opaque schema appends its exclusions. */
  function Excluded12(): seq<Identity> {
    Versioned(["check_recorded", "finding_recorded"], "1.2.0")
    + [Identity("session_opened", "1.2.0"), Identity("finding_recorded", "1.3.0")] + Versioned(LINEAGE, "1.0.0")
  }

  // ----- the names of the added definitions

  /** The first two components of a version, joined by `_`. */
  function Suffix(version: string): string {
    var first := Until(version);
    if |first| == |version| then first else first + "_" + Until(version[|first| + 1..])
  }

  function Until(s: string): (r: string)
    ensures r <= s
  {
    if s == "" || s[0] == '.' then "" else [s[0]] + Until(s[1..])
  }

  function IdentityName(i: Identity): string {
    "schema_identity_" + i.name + "_" + Suffix(i.version)
  }

  function AliasName(i: Identity): string {
    i.name + "_" + Suffix(i.version) + "_schema"
  }

  function Define(definitions: map<string, Definition>, i: Identity): map<string, Definition> {
    definitions[IdentityName(i) := Exactly(i)][AliasName(i) := To(IdentityName(i))]
  }

  function DefineAll(definitions: map<string, Definition>, ids: seq<Identity>): map<string, Definition> {
    if ids == [] then definitions else Define(DefineAll(definitions, ids[..|ids| - 1]), ids[|ids| - 1])
  }

  function Entry(i: Identity): Branch {
    Known(i, AliasName(i))
  }

  function Entries(ids: seq<Identity>): (r: seq<Branch>)
    ensures |r| == |ids|
    ensures forall k :: 0 <= k < |r| ==> r[k] == Entry(ids[k])
  {
    seq(|ids|, k requires 0 <= k < |ids| => Entry(ids[k]))
  }

  // ----- the derivations, as functions

  /** Point the first opaque branch of one version at another. */
  function Retarget(bs: seq<Branch>, from: string, to: string): Option<seq<Branch>> {
    if bs == [] then None
    else if bs[0] == Opaque(from) then Some([Opaque(to)] + bs[1..])
    else
      match Retarget(bs[1..], from, to)
      case None => None
      case Some(rest) => Some([bs[0]] + rest)
  }

  function Keep(bs: seq<Branch>): seq<Branch> {
    if bs == [] then []
    else if bs[0].Known? && bs[0].payload in READDED then Keep(bs[1..])
    else [bs[0]] + Keep(bs[1..])
  }

  predicate HasPayload(b: Branch, i: Identity) {
    b.Known? && b.payload == i
  }

  /** Insert branches right behind the first one with the given payload. */
  function InsertAfter(bs: seq<Branch>, legacy: Identity, added: seq<Branch>): Option<seq<Branch>> {
    if bs == [] then None
    else if HasPayload(bs[0], legacy) then Some([bs[0]] + added + bs[1..])
    else
      match InsertAfter(bs[1..], legacy, added)
      case None => None
      case Some(rest) => Some([bs[0]] + rest)
  }

  function Base11(d: Draft): Result<Draft, Failure> {
    match Retarget(d.branches, "1.0.0", "1.1.0")
    case None => Err(TemplateInvalid)
    case Some(retargeted) =>
      match InsertAfter(Keep(retargeted), Identity("evidence_recorded", "1.0.0"), Entries(EVIDENCE))
      case None => Err(TemplateInvalid)
      case Some(evidence) =>
        match InsertAfter(evidence, Identity("claim_recorded", "1.0.0"), Entries(CLAIM))
        case None => Err(TemplateInvalid)
        case Some(claim) => Ok(Draft(DefineAll(DefineAll(d.definitions, EVIDENCE), CLAIM), claim))
  }

  /** Each family's new version goes behind its 1.0.0 branch. */
  function AddFamilies(d: Draft, families: seq<string>): Result<Draft, Failure> {
    if families == [] then Ok(d)
    else
      match AddFamilies(d, families[..|families| - 1])
      case Err(e) => Err(e)
      case Ok(before) =>
        var family := families[|families| - 1];
        var added := Identity(family, "1.1.0");
        match InsertAfter(before.branches, Identity(family, "1.0.0"), [Entry(added)])
        case None => Err(NoLegacyBranch)
        case Some(bs) => Ok(Draft(Define(before.definitions, added), bs))
  }

  function Draft11(d: Draft): Result<Draft, Failure> {
    match Base11(d)
    case Err(e) => Err(e)
    case Ok(base) => AddFamilies(base, FAMILIES_1_1)
  }

  function Draft12(d: Draft): Result<Draft, Failure> {
    match Draft11(d)
    case Err(e) => Err(e)
    case Ok(before) =>
      match Retarget(before.branches, "1.1.0", "1.2.0")
      case None => Err(TemplateInvalid)
      case Some(bs) => Ok(Draft(DefineAll(before.definitions, Added12()), bs + Entries(Added12())))
  }

  function Exclusions(ids: seq<Identity>): (r: seq<Exclusion>)
    ensures |r| == |ids|
    ensures forall k :: 0 <= k < |r| ==> r[k] == Exclusion([ids[k].name], ids[k].version)
  {
    seq(|ids|, k requires 0 <= k < |ids| => Exclusion([ids[k].name], ids[k].version))
  }

  /** Of several exclusions only the first is carried over. */
  function Legacy(n: Negation): Option<Exclusion> {
    match n
    case Only(e) => Some(e)
    case AnyOf(es) => if es == [] then None else Some(es[0])
  }

  function Opaque11(n: Negation): Option<Negation> {
    match Legacy(n)
    case None => None
    case Some(e) => Some(AnyOf([e] + Exclusions(READDED) + Exclusions(Added11())))
  }

  function Opaque12(n: Negation): Option<Negation> {
    match Legacy(n)
    case None => None
    case Some(e) => Some(AnyOf([e] + Exclusions(READDED) + Exclusions(Added11()) + Exclusions(Excluded12())))
  }

  lemma {:induction false} RetargetAt(bs: seq<Branch>, from: string, to: string, i: nat)
    requires i <= |bs| && forall j :: 0 <= j < i ==> bs[j] != Opaque(from)
    ensures i == |bs| ==> Retarget(bs, from, to).None?
    ensures i < |bs| && bs[i] == Opaque(from) ==> Retarget(bs, from, to) == Some(bs[i := Opaque(to)])
  {
    if i > 0 {
      RetargetAt(bs[1..], from, to, i - 1);
      assert i < |bs| ==> [bs[0]] + bs[1..][i - 1 := Opaque(to)] == bs[i := Opaque(to)];
    } else if bs != [] {
      assert [Opaque(to)] + bs[1..] == bs[0 := Opaque(to)];
    }
  }

  lemma {:induction false} InsertAfterAt(bs: seq<Branch>, legacy: Identity, added: seq<Branch>, i: nat)
    requires i <= |bs| && forall j :: 0 <= j < i ==> !HasPayload(bs[j], legacy)
    ensures i == |bs| ==> InsertAfter(bs, legacy, added).None?
    ensures i < |bs| && HasPayload(bs[i], legacy)
            ==> InsertAfter(bs, legacy, added) == Some(bs[..i + 1] + added + bs[i + 1..])
  {
    if i > 0 {
      InsertAfterAt(bs[1..], legacy, added, i - 1);
      assert i < |bs| ==> [bs[0]] + (bs[1..][..i] + added + bs[1..][i..]) == bs[..i + 1] + added + bs[i + 1..];
    } else if bs != [] {
      assert [bs[0]] + added + bs[1..] == bs[..1] + added + bs[1..];
    }
  }

  lemma {:induction false} InsertOne<T>(front: seq<T>, added: seq<T>, n: nat, back: seq<T>)
    requires n < |added|
    ensures
      var s := front + added[..n] + back;
      s[..|front| + n] + [added[n]] + s[|front| + n..] == front + added[..n + 1] + back
  {
  }

  // ----- the derivations, in place

  /** A loaded draft document: its definitions and union are edited in place. */
  class EventDraft {
    var definitions: map<string, Definition>
    var branches: seq<Branch>

    ghost function Contents(): Draft
      reads this
    {
      Draft(definitions, branches)
    }

    constructor (frozen: Draft)
      ensures Contents() == frozen
    {
      definitions, branches := frozen.definitions, frozen.branches;
    }

    method RetargetOpaque(from: string, to: string) returns (found: bool)
      modifies this`branches
      ensures found <==> Retarget(old(branches), from, to).Some?
      ensures branches == if found then Retarget(old(branches), from, to).value else old(branches)
    {
      var i := 0;
      while i < |branches| && branches[i] != Opaque(from)
        invariant 0 <= i <= |branches| && branches == old(branches)
        invariant forall j :: 0 <= j < i ==> branches[j] != Opaque(from)
      {
        i := i + 1;
      }
      RetargetAt(branches, from, to, i);
      found := i < |branches|;
      if found { branches := branches[i := Opaque(to)]; }
    }

    /** Drop the branches that are added back in their own place. */
    method DropReadded()
      modifies this`branches
      ensures branches == Keep(old(branches))
    {
      var kept: seq<Branch> := [];
      var i := 0;
      while i < |branches|
        invariant 0 <= i <= |branches| && branches == old(branches)
        invariant Keep(branches) == kept + Keep(branches[i..])
      {
        assert branches[i..][1..] == branches[i + 1..];
        if !(branches[i].Known? && branches[i].payload in READDED) {
          kept := kept + [branches[i]];
        }
        i := i + 1;
      }
      branches := kept;
    }

    method InsertBehind(legacy: Identity, added: seq<Identity>) returns (found: bool)
      modifies this
      ensures found <==> InsertAfter(old(branches), legacy, Entries(added)).Some?
      ensures found ==> branches == InsertAfter(old(branches), legacy, Entries(added)).value
      ensures found ==> definitions == DefineAll(old(definitions), added)
    {
      hide InsertAfter, DefineAll, Entries;
      var i := 0;
      while i < |branches| && !HasPayload(branches[i], legacy)
        invariant 0 <= i <= |branches| && branches == old(branches) && definitions == old(definitions)
        invariant forall j :: 0 <= j < i ==> !HasPayload(branches[j], legacy)
      {
        i := i + 1;
      }
      InsertAfterAt(branches, legacy, Entries(added), i);
      found := i < |branches|;
      if found { InsertAt(i + 1, added); }
    }

    method InsertAt(at: nat, added: seq<Identity>)
      requires at <= |branches|
      modifies this
      ensures branches == old(branches[..at]) + Entries(added) + old(branches[at..])
      ensures definitions == DefineAll(old(definitions), added)
    {
      hide Define, Entry;
      ghost var was, entries := branches, Entries(added);
      for offset := 0 to |added|
        invariant definitions == DefineAll(old(definitions), added[..offset])
        invariant branches == was[..at] + entries[..offset] + was[at..]
      {
        assert added[..offset + 1][..offset] == added[..offset];
        InsertOne(was[..at], entries, offset, was[at..]);
        definitions := Define(definitions, added[offset]);
        branches := branches[..at + offset] + [Entry(added[offset])] + branches[at + offset..];
      }
      assert added[..|added|] == added && entries[..|added|] == entries;
    }

    method Derive11() returns (r: Option<Failure>)
      modifies this
      ensures r.None? <==> Draft11(old(Contents())).Ok?
      ensures r.Some? ==> Draft11(old(Contents())) == Err(r.value)
      ensures r.None? ==> Draft11(old(Contents())) == Ok(Contents())
    {
      hide Retarget, Keep, InsertAfter, DefineAll;
      var found := RetargetOpaque("1.0.0", "1.1.0");
      if !found { return Some(TemplateInvalid); }
      DropReadded();
      found := InsertBehind(Identity("evidence_recorded", "1.0.0"), EVIDENCE);
      if !found { return Some(TemplateInvalid); }
      found := InsertBehind(Identity("claim_recorded", "1.0.0"), CLAIM);
      if !found { return Some(TemplateInvalid); }
      r := DeriveFamilies();
    }

    method DeriveFamilies() returns (r: Option<Failure>)
      modifies this
      ensures r.None? <==> AddFamilies(old(Contents()), FAMILIES_1_1).Ok?
      ensures r.Some? ==> AddFamilies(old(Contents()), FAMILIES_1_1) == Err(r.value)
      ensures r.None? ==> AddFamilies(old(Contents()), FAMILIES_1_1) == Ok(Contents())
    {
      hide InsertAfter;
      var n := 0;
      while n < |FAMILIES_1_1|
        invariant 0 <= n <= |FAMILIES_1_1|
        invariant AddFamilies(old(Contents()), FAMILIES_1_1[..n]) == Ok(Contents())
      {
        var family, added := FAMILIES_1_1[n], Identity(FAMILIES_1_1[n], "1.1.0");
        assert FAMILIES_1_1[..n + 1][..n] == FAMILIES_1_1[..n];
        assert Entries([added]) == [Entry(added)];
        assert [added][..0] == [];
        ghost var before := definitions;
        var found := InsertBehind(Identity(family, "1.0.0"), [added]);
        assert DefineAll(before, [added]) == Define(DefineAll(before, []), added);
        if !found {
          FailsFrom(old(Contents()), FAMILIES_1_1, n + 1);
          return Some(NoLegacyBranch);
        }
        n := n + 1;
      }
      assert FAMILIES_1_1[..n] == FAMILIES_1_1;
      return None;
    }

    method Derive12() returns (r: Option<Failure>)
      modifies this
      ensures r.None? <==> Draft12(old(Contents())).Ok?
      ensures r.Some? ==> Draft12(old(Contents())) == Err(r.value)
      ensures r.None? ==> Draft12(old(Contents())) == Ok(Contents())
    {
      hide Retarget, Draft11, DefineAll, Added12;
      r := Derive11();
      if r.Some? { return; }
      var found := RetargetOpaque("1.1.0", "1.2.0");
      if !found { return Some(TemplateInvalid); }
      AppendAll(Added12());
    }

    method AppendAll(ids: seq<Identity>)
      modifies this
      ensures branches == old(branches) + Entries(ids)
      ensures definitions == DefineAll(old(definitions), ids)
    {
      hide Define, Entry;
      for n := 0 to |ids|
        invariant definitions == DefineAll(old(definitions), ids[..n])
        invariant branches == old(branches) + Entries(ids)[..n]
      {
        assert ids[..n + 1][..n] == ids[..n];
        definitions, branches := Define(definitions, ids[n]), branches + [Entry(ids[n])];
      }
      assert ids[..|ids|] == ids && Entries(ids)[..|ids|] == Entries(ids);
    }
  }

  lemma {:induction false} FailsFrom(d: Draft, families: seq<string>, n: nat)
    requires n <= |families| && AddFamilies(d, families[..n]).Err?
    ensures AddFamilies(d, families) == AddFamilies(d, families[..n])
  {
    if n < |families| {
      var front := families[..|families| - 1];
      assert front[..n] == families[..n];
      FailsFrom(d, front, n);
    } else {
      assert families[..n] == families;
    }
  }

  /** The opaque schema's exclusions, appended to in place. */
  class OpaqueDraft {
    var negation: Negation

    constructor (frozen: Negation)
      ensures negation == frozen
    {
      negation := frozen;
    }

    method Derive11() returns (ok: bool)
      modifies this
      ensures ok <==> Opaque11(old(negation)).Some?
      ensures ok ==> Opaque11(old(negation)) == Some(negation)
    {
      var legacy: Exclusion;
      match negation {
        case Only(e) => legacy := e;
        case AnyOf(es) =>
          if es == [] { return false; }
          legacy := es[0];
      }
      negation := AnyOf([legacy] + Exclusions(READDED));
      Append(Added11());
      return true;
    }

    method Derive12() returns (ok: bool)
      modifies this
      ensures ok <==> Opaque12(old(negation)).Some?
      ensures ok ==> Opaque12(old(negation)) == Some(negation)
    {
      ok := Derive11();
      if ok { Append(Excluded12()); }
    }

    method Append(ids: seq<Identity>)
      requires negation.AnyOf?
      modifies this
      ensures negation == AnyOf(old(negation.exclusions) + Exclusions(ids))
    {
      var values := negation.exclusions;
      for n := 0 to |ids|
        invariant values == old(negation.exclusions) + Exclusions(ids)[..n]
      {
        values := values + [Exclusion([ids[n].name], ids[n].version)];
      }
      assert Exclusions(ids)[..|ids|] == Exclusions(ids);
      negation := AnyOf(values);
    }
  }
}
