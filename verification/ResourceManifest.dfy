/**
 * The package resource manifest: the builder that renders it, the installed loader that checks it, and the runtime
 * support document bound to its digest.
 */
module ResourceManifest {
  import opened Common
  import opened Paths

  /** Member names; `Other` stands for every name the two programs do not mention. */
  datatype Key =
    | Kind | LogicalName | MediaType | PackagePath | Sha256 | Size | SourcePath | ContractVersion
    | Entries | Package | ResourceSetDigest | ResourceSetVersion | Schema
    | ManifestDigest | ReleaseVersion | Other(name: string)

  /** A strictly parsed JSON value. */
  datatype Value =
    | Text(s: string)
    | Int(n: int)
    | Null
    | Items(items: seq<Value>)
    | Members(members: map<Key, Value>)
    | Scalar(repr: string)

  /** Canonical encoding and digest, strict parsing, and SHA-256, all with their internals left open. */
  datatype Codec = Codec(
    encode: Value -> bytes,
    parse: bytes -> Option<Value>,
    digest: Value -> string,
    sha: bytes -> string,
    lowercase: string -> bool)

  datatype Entry = Entry(logicalName: string, sourcePath: string, packagePath: string, kind: string, mediaType: string,
                         contractVersion: Option<string>)

  /** A collected source file; whether it is text decides how large it may be. */
  datatype Resource = Resource(entry: Entry, data: bytes, text: bool)

  datatype Loaded = Loaded(entry: Entry, size: int, sha: string)

  datatype Manifest = Manifest(version: string, digest: string, entries: seq<Loaded>)

  datatype Reason =
    | DigestInvalid | ResourceMissing | ResourceTooLarge | ManifestInvalid | ManifestShapeInvalid
    | ManifestIdentityInvalid | ManifestInventoryInvalid | ManifestDigestMismatch | EntryInvalid
    | NameInvalid | MediaTypeInvalid | SizeInvalid | PathMappingInvalid | PathInvalid
    | ResourceUnknown | ResourceDigestMismatch
    | SupportInvalid | SupportShapeInvalid | SupportDigestMismatch | SupportResourceSetMismatch
    | SupportReferenceInvalid

  const MANIFEST_SCHEMA := "yoetz.resource-manifest/1"
  const PACKAGE := "yoetz"
  const RUNTIME_SUPPORT := "runtime_support"
  const SUPPORT_PATH := "support/runtime-support.json"
  const MANIFEST_LIMIT := 1_048_576
  const RESOURCE_LIMIT := 4_194_304
  const REVIEWED_RESOURCE_COUNT := 269
  const TEXT_CAP := 2_000_000
  const BINARY_CAP := 20_000_000
  const RESOURCE_KINDS: seq<string> := [
    "canonical_vector", "compatibility_manifest", "guidance", "json_schema", "migration", "runtime_support",
    "runtime_config", "skill"
  ]

  // ----- the builder

  function Name(r: Resource): string {
    r.entry.logicalName
  }

  function EntryFields(e: Entry): map<Key, Value> {
    var fields := map[Kind := Text(e.kind), LogicalName := Text(e.logicalName), MediaType := Text(e.mediaType),
                      PackagePath := Text(e.packagePath), SourcePath := Text(e.sourcePath)];
    if e.contractVersion.Some? then fields[ContractVersion := Text(e.contractVersion.value)] else fields
  }

  function EntryDocument(c: Codec, r: Resource): Value {
    Members(EntryFields(r.entry)[Sha256 := Text(c.sha(r.data))][Size := Int(|r.data|)])
  }

  /** What of a resource goes into the set digest: of the runtime support, neither size nor hash. */
  function DigestEntry(c: Codec, r: Resource): Value {
    if r.entry.kind == RUNTIME_SUPPORT then Members(EntryFields(r.entry)) else EntryDocument(c, r)
  }

  function Ordered(resources: seq<Resource>): (r: seq<Resource>)
    ensures |r| == |resources|
  {
    SortBy(Name, resources)
  }

  function EntryDocuments(c: Codec, rs: seq<Resource>): (r: seq<Value>)
    ensures |r| == |rs| && forall k :: 0 <= k < |r| ==> r[k] == EntryDocument(c, rs[k])
  {
    seq(|rs|, k requires 0 <= k < |rs| => EntryDocument(c, rs[k]))
  }

  function DigestEntries(c: Codec, rs: seq<Resource>): (r: seq<Value>)
    ensures |r| == |rs| && forall k :: 0 <= k < |r| ==> r[k] == DigestEntry(c, rs[k])
  {
    seq(|rs|, k requires 0 <= k < |rs| => DigestEntry(c, rs[k]))
  }

  function Material(version: string, entries: seq<Value>): Value {
    Members(map[Entries := Items(entries), Package := Text(PACKAGE), ResourceSetVersion := Text(version),
                Schema := Text(MANIFEST_SCHEMA)])
  }

  function SetDigest(c: Codec, version: string, resources: seq<Resource>): string {
    c.digest(Material(version, DigestEntries(c, Ordered(resources))))
  }

  function Document(c: Codec, version: string, resources: seq<Resource>): Value {
    Members(map[Entries := Items(EntryDocuments(c, Ordered(resources))), Package := Text(PACKAGE),
                ResourceSetDigest := Text(SetDigest(c, version, resources)), ResourceSetVersion := Text(version),
                Schema := Text(MANIFEST_SCHEMA)])
  }

  function Build(c: Codec, version: string, resources: seq<Resource>): bytes {
    c.encode(Document(c, version, resources)) + [LF]
  }

  // ----- the installed loader

  predicate HexDigest(s: string) {
    && |s| == 71 && "sha256:" <= s
    && forall i :: 7 <= i < 71 ==> '0' <= s[i] <= '9' || 'a' <= s[i] <= 'f'
  }

  function CanonicalDocument(c: Codec, raw: bytes, limit: nat, reason: Reason): Result<map<Key, Value>, Reason> {
    if |raw| > limit || raw == [] || raw[|raw| - 1] != LF || CR in raw then Err(reason)
    else
      match c.parse(raw)
      case None => Err(reason)
      case Some(v) =>
        if v.Members? && raw == c.encode(v) + [LF] then Ok(v.members) else Err(reason)
  }

  predicate TextAt(m: map<Key, Value>, k: Key) {
    k in m && m[k].Text?
  }

  function EntryFromDocument(c: Codec, v: Value): Result<Loaded, Reason> {
    if !v.Members? then Err(EntryInvalid)
    else
      var m := v.members;
      if m.Keys - {ContractVersion} != {Kind, LogicalName, MediaType, PackagePath, Sha256, Size, SourcePath}
        || !(TextAt(m, LogicalName) && TextAt(m, SourcePath) && TextAt(m, PackagePath) && TextAt(m, Kind)
             && m[Kind].s in RESOURCE_KINDS && TextAt(m, MediaType) && Size in m && m[Size].Int? && TextAt(m, Sha256)
             && (ContractVersion in m ==> m[ContractVersion].Text? || m[ContractVersion].Null?))
      then Err(EntryInvalid)
      else
        var name, sourcePath, packagePath := m[LogicalName].s, m[SourcePath].s, m[PackagePath].s;
        if name == "" || !Loadable(name) then Err(NameInvalid)
        else if '/' !in m[MediaType].s || !c.lowercase(m[MediaType].s) then Err(MediaTypeInvalid)
        else if !(0 <= m[Size].n <= RESOURCE_LIMIT) then Err(SizeInvalid)
        else if !HexDigest(m[Sha256].s) then Err(DigestInvalid)
        else if packagePath != name then Err(PathMappingInvalid)
        else if !Loadable(sourcePath) || !Loadable(packagePath) then Err(PathInvalid)
        else
          var contract := if TextAt(m, ContractVersion) then Some(m[ContractVersion].s) else None;
          Ok(Loaded(Entry(name, sourcePath, packagePath, m[Kind].s, m[MediaType].s, contract), m[Size].n, m[Sha256].s))
  }

  function EntriesFrom(c: Codec, vs: seq<Value>): Result<seq<Loaded>, Reason> {
    if vs == [] then Ok([])
    else
      match EntryFromDocument(c, vs[0])
      case Err(e) => Err(e)
      case Ok(first) =>
        match EntriesFrom(c, vs[1..])
        case Err(e) => Err(e)
        case Ok(rest) => Ok([first] + rest)
  }

  function LoadedName(e: Loaded): string {
    e.entry.logicalName
  }

  function Names(es: seq<Loaded>): (r: seq<string>)
    ensures |r| == |es| && forall k :: 0 <= k < |r| ==> r[k] == LoadedName(es[k])
  {
    seq(|es|, k requires 0 <= k < |es| => LoadedName(es[k]))
  }

  function SupportEntries(es: seq<Loaded>): nat {
    if es == [] then 0 else (if es[0].entry.kind == RUNTIME_SUPPORT then 1 else 0) + SupportEntries(es[1..])
  }

  /** The loader's own rendering of what enters the set digest. */
  function StableDocument(e: Loaded): Value {
    var fields := EntryFields(e.entry);
    if e.entry.kind != RUNTIME_SUPPORT then Members(fields[Sha256 := Text(e.sha)][Size := Int(e.size)])
    else Members(fields)
  }

  function StableDocuments(es: seq<Loaded>): (r: seq<Value>)
    ensures |r| == |es| && forall k :: 0 <= k < |r| ==> r[k] == StableDocument(es[k])
  {
    seq(|es|, k requires 0 <= k < |es| => StableDocument(es[k]))
  }

  /** Names equal to their sorted set; package paths equal names by then. */
  predicate InventoryValid(es: seq<Loaded>) {
    |es| == REVIEWED_RESOURCE_COUNT && Distinct(Names(es)) && Sorted(Itself, Names(es)) && SupportEntries(es) == 1
  }

  function Load(c: Codec, raw: bytes): Result<Manifest, Reason> {
    if |raw| > RESOURCE_LIMIT then Err(ResourceTooLarge)
    else
      match CanonicalDocument(c, raw, MANIFEST_LIMIT, ManifestInvalid)
      case Err(e) => Err(e)
      case Ok(m) =>
        if m.Keys != {Entries, Package, ResourceSetDigest, ResourceSetVersion, Schema} then Err(ManifestShapeInvalid)
        else if m[Schema] != Text(MANIFEST_SCHEMA) || m[Package] != Text(PACKAGE) then Err(ManifestIdentityInvalid)
        else if !m[ResourceSetVersion].Text? || !m[Entries].Items? then Err(ManifestShapeInvalid)
        else
          match EntriesFrom(c, m[Entries].items)
          case Err(e) => Err(e)
          case Ok(es) =>
            var version, digest := m[ResourceSetVersion].s, m[ResourceSetDigest];
            if !InventoryValid(es) then Err(ManifestInventoryInvalid)
            else if !digest.Text? || !HexDigest(digest.s) then Err(DigestInvalid)
            else if digest.s != c.digest(Material(version, StableDocuments(es))) then Err(ManifestDigestMismatch)
            else Ok(Manifest(version, digest.s, es))
  }

  // ----- what the builder guarantees and what the loader adds

  /** The checks of the inventory: distinct names, and one safe path used as name, source and destination. */
  predicate Inventory(resources: seq<Resource>, normal: string -> bool) {
    && (forall i, j :: 0 <= i < j < |resources| ==> Name(resources[i]) != Name(resources[j]))
    && forall i :: 0 <= i < |resources| ==>
         && resources[i].entry.sourcePath == resources[i].entry.packagePath == Name(resources[i])
         && Permitted(Name(resources[i]), normal)
  }

  /** The builder's own limit on each source file it reads. */
  predicate Collected(resources: seq<Resource>) {
    forall i :: 0 <= i < |resources| ==> |resources[i].data| <= if resources[i].text then TEXT_CAP else BINARY_CAP
  }

  /** Encoding this document and parsing it back loses nothing, on one line without carriage returns. */
  predicate RoundTrips(c: Codec, v: Value) {
    CR !in c.encode(v) && c.parse(c.encode(v) + [LF]) == Some(v)
  }

  ghost predicate HashesRender(c: Codec) {
    (forall d :: HexDigest(c.sha(d))) && forall v :: HexDigest(c.digest(v))
  }

  /** The loader's demands of one resource, save its size. */
  predicate AdmittedButForSize(c: Codec, r: Resource) {
    r.entry.kind in RESOURCE_KINDS && '/' in r.entry.mediaType && c.lowercase(r.entry.mediaType)
  }

  /** The demands only the loader makes of one resource. */
  predicate EntryAdmitted(c: Codec, r: Resource) {
    AdmittedButForSize(c, r) && |r.data| <= RESOURCE_LIMIT
  }

  function SupportCount(rs: seq<Resource>): nat {
    if rs == [] then 0 else (if rs[0].entry.kind == RUNTIME_SUPPORT then 1 else 0) + SupportCount(rs[1..])
  }

  /** The demands only the loader makes of a set. */
  predicate Admitted(c: Codec, version: string, resources: seq<Resource>) {
    && |resources| == REVIEWED_RESOURCE_COUNT && SupportCount(resources) == 1
    && (forall i :: 0 <= i < |resources| ==> EntryAdmitted(c, resources[i]))
    && |Build(c, version, resources)| <= MANIFEST_LIMIT
  }

  function LoadedFrom(c: Codec, r: Resource): Loaded {
    Loaded(r.entry, |r.data|, c.sha(r.data))
  }

  function LoadedAll(c: Codec, rs: seq<Resource>): (r: seq<Loaded>)
    ensures |r| == |rs| && forall k :: 0 <= k < |r| ==> r[k] == LoadedFrom(c, rs[k])
  {
    seq(|rs|, k requires 0 <= k < |rs| => LoadedFrom(c, rs[k]))
  }

  predicate PathsAgree(r: Resource, normal: string -> bool) {
    r.entry.sourcePath == r.entry.packagePath == Name(r) && Permitted(Name(r), normal)
  }

  lemma {:induction false} EntryLoads(c: Codec, r: Resource, normal: string -> bool)
    requires PathsAgree(r, normal) && HashesRender(c)
    ensures EntryFromDocument(c, EntryDocument(c, r)).Ok? <==> EntryAdmitted(c, r)
    ensures EntryAdmitted(c, r) ==> EntryFromDocument(c, EntryDocument(c, r)) == Ok(LoadedFrom(c, r))
  {
    hide Loadable, Permitted, HexDigest;
    PermittedLoads(Name(r), normal);
    assert Name(r) != "" by { PermittedNonEmpty(Name(r), normal); }
    var m := EntryDocument(c, r).members;
    assert m.Keys - {ContractVersion} == {Kind, LogicalName, MediaType, PackagePath, Sha256, Size, SourcePath};
  }

  lemma {:induction false} PermittedNonEmpty(path: string, normal: string -> bool)
    requires Permitted(path, normal)
    ensures path != ""
  {
  }

  lemma {:induction false} EntriesLoad(c: Codec, rs: seq<Resource>, normal: string -> bool)
    requires HashesRender(c) && forall i :: 0 <= i < |rs| ==> PathsAgree(rs[i], normal)
    ensures EntriesFrom(c, EntryDocuments(c, rs)).Ok? <==> forall i :: 0 <= i < |rs| ==> EntryAdmitted(c, rs[i])
    ensures EntriesFrom(c, EntryDocuments(c, rs)).Ok? ==> EntriesFrom(c, EntryDocuments(c, rs)) == Ok(LoadedAll(c, rs))
  {
    hide EntryFromDocument, EntryDocument, EntryAdmitted, PathsAgree;
    if rs != [] {
      assert EntryDocuments(c, rs)[1..] == EntryDocuments(c, rs[1..]);
      EntryLoads(c, rs[0], normal);
      EntriesLoad(c, rs[1..], normal);
      assert forall i :: 0 < i < |rs| ==> rs[i] == rs[1..][i - 1];
      assert LoadedAll(c, rs) == [LoadedFrom(c, rs[0])] + LoadedAll(c, rs[1..]);
    }
  }

  lemma {:induction false} StableAgrees(c: Codec, rs: seq<Resource>)
    ensures StableDocuments(LoadedAll(c, rs)) == DigestEntries(c, rs)
  {
  }

  lemma {:induction false} SupportCounted(c: Codec, rs: seq<Resource>)
    ensures SupportEntries(LoadedAll(c, rs)) == SupportCount(rs)
  {
    if rs != [] {
      assert LoadedAll(c, rs)[1..] == LoadedAll(c, rs[1..]);
      SupportCounted(c, rs[1..]);
    }
  }

  lemma {:induction false} InsertCounted(x: Resource, s: seq<Resource>)
    ensures SupportCount(Insert(Name, x, s)) == SupportCount([x] + s)
  {
    assert ([x] + s)[1..] == s;
    if s != [] && !Leq(Name(x), Name(s[0])) {
      InsertCounted(x, s[1..]);
      assert ([x] + s[1..])[1..] == s[1..];
      assert Insert(Name, x, s)[1..] == Insert(Name, x, s[1..]);
    }
  }

  lemma {:induction false} OrderedCounted(rs: seq<Resource>)
    ensures SupportCount(Ordered(rs)) == SupportCount(rs)
  {
    if rs != [] {
      OrderedCounted(rs[1..]);
      InsertCounted(rs[0], SortBy(Name, rs[1..]));
      assert ([rs[0]] + SortBy(Name, rs[1..]))[1..] == SortBy(Name, rs[1..]);
    }
  }

  /** Sorting an inventory by name keeps its members and makes the names a strictly increasing list. */
  lemma {:induction false} OrderedNames(c: Codec, rs: seq<Resource>, normal: string -> bool)
    requires Inventory(rs, normal)
    ensures Distinct(Names(LoadedAll(c, Ordered(rs)))) && Sorted(Itself, Names(LoadedAll(c, Ordered(rs))))
    ensures forall i :: 0 <= i < |rs| ==> PathsAgree(Ordered(rs)[i], normal)
    ensures forall r :: r in Ordered(rs) <==> r in rs
  {
    hide Permitted, SortBy;
    var s := Ordered(rs);
    SortBySorts(Name, rs);
    SameMembers(s, rs);
    assert Distinct(rs);
    StillDistinct(rs, s);
    forall i | 0 <= i < |s| ensures PathsAgree(s[i], normal) {
      assert s[i] in rs;
    }
    forall i, j | 0 <= i < j < |s| ensures Name(s[i]) != Name(s[j]) {
      assert s[i] in rs && s[j] in rs;
    }
  }

  /**
   * Builder and loader agree: what the builder renders for a checked inventory is accepted exactly when the set meets
   * the loader's own limits, and then with the builder's digest, version and entries in order.
   */
  lemma {:induction false} BuiltIffAdmitted(c: Codec, version: string, resources: seq<Resource>, normal: string -> bool)
    requires Inventory(resources, normal) && HashesRender(c) && RoundTrips(c, Document(c, version, resources))
    ensures
      var loaded := Load(c, Build(c, version, resources));
      && (loaded.Ok? <==> Admitted(c, version, resources))
      && (loaded.Ok? ==>
            loaded == Ok(Manifest(version, SetDigest(c, version, resources), LoadedAll(c, Ordered(resources)))))
  {
    hide HexDigest, Ordered, EntryFromDocument, EntryDocument, EntryAdmitted, SupportCount, SupportEntries, Inventory;
    hide Distinct, Sorted, PathsAgree, EntriesFrom, EntryDocuments, DigestEntries, StableDocuments, LoadedAll, Names;
    var s, raw := Ordered(resources), Build(c, version, resources);
    assert CanonicalDocument(c, raw, MANIFEST_LIMIT, ManifestInvalid)
        == if |raw| > MANIFEST_LIMIT then Err(ManifestInvalid) else Ok(Document(c, version, resources).members);
    OrderedNames(c, resources, normal);
    EntriesLoad(c, s, normal);
    OrderedCounted(resources);
    SupportCounted(c, s);
    StableAgrees(c, s);
    assert (forall i :: 0 <= i < |s| ==> EntryAdmitted(c, s[i]))
      <==> forall i :: 0 <= i < |resources| ==> EntryAdmitted(c, resources[i]) by { SameAdmitted(c, s, resources); }
  }

  lemma {:induction false} SameAdmitted(c: Codec, a: seq<Resource>, b: seq<Resource>)
    requires forall r :: r in a <==> r in b
    ensures (forall i :: 0 <= i < |a| ==> EntryAdmitted(c, a[i])) <==> forall i :: 0 <= i < |b| ==>
          EntryAdmitted(c, b[i])
  {
    if forall i :: 0 <= i < |a| ==> EntryAdmitted(c, a[i]) {
      forall i | 0 <= i < |b| ensures EntryAdmitted(c, b[i]) { assert b[i] in a; }
    }
    if forall i :: 0 <= i < |b| ==> EntryAdmitted(c, b[i]) {
      forall i | 0 <= i < |a| ensures EntryAdmitted(c, a[i]) { assert a[i] in b; }
    }
  }

  lemma {:induction false} EntryOversized(c: Codec, r: Resource, normal: string -> bool)
    requires PathsAgree(r, normal) && AdmittedButForSize(c, r) && |r.data| > RESOURCE_LIMIT
    ensures EntryFromDocument(c, EntryDocument(c, r)) == Err(SizeInvalid)
  {
    hide Loadable, Permitted, HexDigest;
    PermittedLoads(Name(r), normal);
    assert Name(r) != "" by { PermittedNonEmpty(Name(r), normal); }
    var m := EntryDocument(c, r).members;
    assert m.Keys - {ContractVersion} == {Kind, LogicalName, MediaType, PackagePath, Sha256, Size, SourcePath};
  }

  lemma {:induction false} EntriesOversized(c: Codec, rs: seq<Resource>, normal: string -> bool)
    requires HashesRender(c) && forall i :: 0 <= i < |rs| ==> PathsAgree(rs[i], normal) && AdmittedButForSize(c, rs[i])
    requires exists i :: 0 <= i < |rs| && |rs[i].data| > RESOURCE_LIMIT
    ensures EntriesFrom(c, EntryDocuments(c, rs)) == Err(SizeInvalid)
  {
    hide EntryFromDocument, EntryDocument, PathsAgree;
    assert EntryDocuments(c, rs)[1..] == EntryDocuments(c, rs[1..]);
    if |rs[0].data| > RESOURCE_LIMIT {
      EntryOversized(c, rs[0], normal);
    } else {
      EntryLoads(c, rs[0], normal);
      var i :| 0 <= i < |rs| && |rs[i].data| > RESOURCE_LIMIT;
      assert rs[1..][i - 1] == rs[i];
      EntriesOversized(c, rs[1..], normal);
    }
  }

  /**
   * The two programs' caps differ: give any binary file of an admitted set contents of a size between the loader's
   * limit and the builder's, and the set is still collected and built, but what was built does not load.
   */
  lemma {:induction false} CapsDisagree(c: Codec, version: string, resources: seq<Resource>, normal: string -> bool,
        k: nat, data: bytes)
    requires Inventory(resources, normal) && Collected(resources) && HashesRender(c) && Admitted(c, version, resources)
    requires k < |resources| && !resources[k].text && RESOURCE_LIMIT < |data| <= BINARY_CAP
    requires
      var after := resources[k := resources[k].(data := data)];
      RoundTrips(c, Document(c, version, after)) && |Build(c, version, after)| <= MANIFEST_LIMIT
    ensures
      var after := resources[k := resources[k].(data := data)];
      Inventory(after, normal) && Collected(after) && Load(c, Build(c, version, after)) == Err(SizeInvalid)
  {
    hide Ordered, EntryDocument, Permitted, HexDigest, Distinct, Sorted, EntriesFrom, SupportCount, SetDigest,
         EntryDocuments;
    var after := resources[k := resources[k].(data := data)];
    assert forall i :: 0 <= i < |after| ==> after[i].entry == resources[i].entry;
    assert Inventory(after, normal);
    OrderedNames(c, after, normal);
    var s := Ordered(after);
    forall i | 0 <= i < |s| ensures AdmittedButForSize(c, s[i]) {
      assert s[i] in after;
      var j :| 0 <= j < |after| && after[j] == s[i];
      assert EntryAdmitted(c, resources[j]);
    }
    assert after[k] in s;
    EntriesOversized(c, s, normal);
    var raw := Build(c, version, after);
    assert CanonicalDocument(c, raw, MANIFEST_LIMIT, ManifestInvalid) == Ok(Document(c, version, after).members);
  }

  // ----- what the loader lets through

  /** A digest as it is written: the algorithm and 64 lower-case hexadecimal digits. */
  predicate Rendered(s: string) {
    |s| == 71 && s[..7] == "sha256:" && forall i :: 7 <= i < 71 ==> s[i] in "0123456789abcdef"
  }

  /** The bytes are the canonical form of this object and a newline, within the limit. */
  predicate Canonical(c: Codec, raw: bytes, limit: nat, m: map<Key, Value>) {
    |raw| <= limit && CR !in raw && c.parse(raw) == Some(Members(m)) && raw == c.encode(Members(m)) + [LF]
  }

  /** The entry repeats what the document says, and every demand is met. */
  predicate EntryRead(c: Codec, v: Value, e: Loaded) {
    && v.Members?
    && v.members.Keys - {ContractVersion} == {Kind, LogicalName, MediaType, PackagePath, Sha256, Size, SourcePath}
    && v.members[LogicalName] == v.members[PackagePath] == Text(e.entry.logicalName)
    && e.entry.packagePath == e.entry.logicalName && v.members[SourcePath] == Text(e.entry.sourcePath)
    && v.members[Kind] == Text(e.entry.kind) && e.entry.kind in RESOURCE_KINDS
    && v.members[MediaType] == Text(e.entry.mediaType)
    && '/' in e.entry.mediaType && c.lowercase(e.entry.mediaType)
    && v.members[Size] == Int(e.size) && 0 <= e.size <= 4_194_304
    && v.members[Sha256] == Text(e.sha) && Rendered(e.sha)
    && (match e.entry.contractVersion
        case Some(s) => ContractVersion in v.members && v.members[ContractVersion] == Text(s)
        case None => ContractVersion !in v.members || v.members[ContractVersion] == Null)
    && e.entry.logicalName != "" && Loadable(e.entry.logicalName) && Loadable(e.entry.sourcePath)
  }

  lemma {:induction false} HexIsRendered(s: string)
    ensures HexDigest(s) <==> Rendered(s)
  {
    assert forall d: char :: d in "0123456789abcdef" <==> '0' <= d <= '9' || 'a' <= d <= 'f' by {
      forall d: char | '0' <= d <= '9' || 'a' <= d <= 'f' ensures d in "0123456789abcdef" { HexDigit(d); }
    }
    assert "sha256:" <= s ==> s[..7] == "sha256:";
    assert |s| >= 7 && s[..7] == "sha256:" ==> "sha256:" <= s;
  }

  lemma {:induction false} HexDigit(d: char)
    requires '0' <= d <= '9' || 'a' <= d <= 'f'
    ensures d in "0123456789abcdef"
  {
    var digits := "0123456789abcdef";
    if d <= '9' { assert digits[d as int - '0' as int] == d; } else { assert digits[10 + d as int - 'a' as int] == d; }
  }

  lemma {:induction false} EntryIsRead(c: Codec, v: Value, e: Loaded)
    ensures EntryFromDocument(c, v) == Ok(e) <==> EntryRead(c, v, e)
  {
    HexIsRendered(e.sha);
    hide Loadable, HexDigest, Rendered;
  }

  predicate EntriesRead(c: Codec, vs: seq<Value>, es: seq<Loaded>) {
    |es| == |vs| && forall i :: 0 <= i < |vs| ==> EntryRead(c, vs[i], es[i])
  }

  lemma {:induction false} EntriesAreRead(c: Codec, vs: seq<Value>, es: seq<Loaded>)
    ensures EntriesFrom(c, vs) == Ok(es) <==> EntriesRead(c, vs, es)
  {
    hide EntryFromDocument, EntryRead;
    if vs != [] && es != [] {
      EntryIsRead(c, vs[0], es[0]);
      EntriesAreRead(c, vs[1..], es[1..]);
      assert es == [es[0]] + es[1..];
      assert forall i :: 0 < i < |vs| ==> vs[i] == vs[1..][i - 1];
      assert forall i :: 0 < i < |es| ==> es[i] == es[1..][i - 1];
      assert forall i :: 0 <= i < |vs[1..]| ==> vs[1..][i] == vs[i + 1];
    }
  }

  lemma {:induction false} NoSupport(es: seq<Loaded>)
    requires SupportEntries(es) == 0
    ensures forall i :: 0 <= i < |es| ==> es[i].entry.kind != RUNTIME_SUPPORT
  {
    if es != [] { NoSupport(es[1..]); }
  }

  lemma {:induction false} OneSupport(es: seq<Loaded>) returns (k: nat)
    requires SupportEntries(es) == 1
    ensures k < |es| && es[k].entry.kind == RUNTIME_SUPPORT
    ensures forall i :: 0 <= i < |es| && i != k ==> es[i].entry.kind != RUNTIME_SUPPORT
  {
    hide RUNTIME_SUPPORT;
    if es[0].entry.kind == RUNTIME_SUPPORT {
      k := 0;
      NoSupport(es[1..]);
      assert forall i :: 0 < i < |es| ==> es[i] == es[1..][i - 1];
    } else {
      var l := OneSupport(es[1..]);
      k := l + 1;
      assert forall i :: 0 < i < |es| ==> es[i] == es[1..][i - 1];
    }
  }

  /** The whole of what a loaded manifest vouches for, against the bytes it was read from. */
  predicate ManifestRead(c: Codec, doc: map<Key, Value>, manifest: Manifest) {
    var es := manifest.entries;
    && doc.Keys == {Entries, Package, ResourceSetDigest, ResourceSetVersion, Schema}
    && doc[Schema] == Text("yoetz.resource-manifest/1") && doc[Package] == Text("yoetz")
    && doc[ResourceSetVersion] == Text(manifest.version) && doc[ResourceSetDigest] == Text(manifest.digest)
    && Rendered(manifest.digest)
    && doc[Entries].Items? && |es| == 269 && EntriesRead(c, doc[Entries].items, es)
    && (forall i, j :: 0 <= i < j < |es| ==>
          && Leq(es[i].entry.logicalName, es[j].entry.logicalName)
          && es[i].entry.logicalName != es[j].entry.logicalName)
    && (exists k :: 0 <= k < |es| && es[k].entry.kind == "runtime_support"
          && forall i :: 0 <= i < |es| && i != k ==> es[i].entry.kind != "runtime_support")
    && manifest.digest == c.digest(Members(map[
         Entries := Items(StableDocuments(es)), Package := Text("yoetz"), ResourceSetVersion := Text(manifest.version),
         Schema := Text("yoetz.resource-manifest/1")]))
  }

  lemma {:induction false} InventoryRead(es: seq<Loaded>)
    ensures InventoryValid(es) <==>
              && |es| == 269
              && (forall i, j :: 0 <= i < j < |es| ==>
                    && Leq(es[i].entry.logicalName, es[j].entry.logicalName)
                    && es[i].entry.logicalName != es[j].entry.logicalName)
              && (exists k :: 0 <= k < |es| && es[k].entry.kind == "runtime_support"
                    && forall i :: 0 <= i < |es| && i != k ==> es[i].entry.kind != "runtime_support")
  {
    var names := Names(es);
    assert forall i :: 0 <= i < |es| ==> names[i] == es[i].entry.logicalName;
    if SupportEntries(es) == 1 {
      var k := OneSupport(es);
      assert es[k].entry.kind == "runtime_support";
    }
    if k :| 0 <= k < |es| && es[k].entry.kind == "runtime_support"
            && forall i :: 0 <= i < |es| && i != k ==> es[i].entry.kind != "runtime_support" {
      OnlySupport(es, k);
    }
  }

  lemma {:induction false} OnlySupport(es: seq<Loaded>, k: nat)
    requires k < |es| && es[k].entry.kind == RUNTIME_SUPPORT
    requires forall i :: 0 <= i < |es| && i != k ==> es[i].entry.kind != RUNTIME_SUPPORT
    ensures SupportEntries(es) == 1
  {
    hide RUNTIME_SUPPORT;
    assert forall i :: 0 < i < |es| ==> es[i] == es[1..][i - 1];
    assert forall i :: 0 <= i < |es[1..]| ==> es[1..][i] == es[i + 1];
    if k == 0 { WithoutSupport(es[1..]); } else { OnlySupport(es[1..], k - 1); }
  }

  lemma {:induction false} WithoutSupport(es: seq<Loaded>)
    requires forall i :: 0 <= i < |es| ==> es[i].entry.kind != RUNTIME_SUPPORT
    ensures SupportEntries(es) == 0
  {
    if es != [] { WithoutSupport(es[1..]); }
  }

  lemma {:induction false} CanonicalRead(c: Codec, raw: bytes, limit: nat, reason: Reason, doc: map<Key, Value>)
    ensures CanonicalDocument(c, raw, limit, reason) == Ok(doc) <==> Canonical(c, raw, limit, doc)
    ensures CanonicalDocument(c, raw, limit, reason).Err? ==> CanonicalDocument(c, raw, limit, reason) == Err(reason)
  {
  }

  /** A manifest is loaded exactly from bytes that write it out canonically, entry by entry and under its own digest. */
  lemma {:induction false} LoadedIff(c: Codec, raw: bytes, manifest: Manifest)
    ensures Load(c, raw) == Ok(manifest) <==>
              exists doc :: Canonical(c, raw, 1_048_576, doc) && ManifestRead(c, doc, manifest)
  {
    hide EntryRead, HexDigest, Rendered, EntriesFrom, EntriesRead, InventoryValid, CanonicalDocument, Canonical,
         StableDocuments;
    HexIsRendered(manifest.digest);
    InventoryRead(manifest.entries);
    forall doc: map<Key, Value>
      ensures CanonicalDocument(c, raw, 1_048_576, ManifestInvalid) == Ok(doc) <==> Canonical(c, raw, 1_048_576, doc)
    {
      CanonicalRead(c, raw, 1_048_576, ManifestInvalid, doc);
    }
    forall doc: map<Key, Value> | Canonical(c, raw, 1_048_576, doc)
      ensures Load(c, raw) == Ok(manifest) <==> ManifestRead(c, doc, manifest)
    {
      ReadFrom(c, raw, doc, manifest);
    }
  }

  /** Bytes above the limit of any resource are too large; others that are not canonical are no manifest. */
  lemma {:induction false} LoadRefusals(c: Codec, raw: bytes)
    ensures Load(c, raw) == Err(ResourceTooLarge) <==> |raw| > 4_194_304
    ensures Load(c, raw) == Err(ManifestInvalid) <==>
              |raw| <= 4_194_304 && forall doc :: !Canonical(c, raw, 1_048_576, doc)
  {
    forall doc: map<Key, Value>
      ensures CanonicalDocument(c, raw, 1_048_576, ManifestInvalid) == Ok(doc) <==> Canonical(c, raw, 1_048_576, doc)
    {
      CanonicalRead(c, raw, 1_048_576, ManifestInvalid, doc);
    }
    var read := CanonicalDocument(c, raw, 1_048_576, ManifestInvalid);
    CanonicalRead(c, raw, 1_048_576, ManifestInvalid, if read.Ok? then read.value else map[]);
    if read.Ok? && Entries in read.value && read.value[Entries].Items? {
      EntryReasons(c, read.value[Entries].items);
    }
    hide CanonicalDocument, Canonical, EntriesFrom, InventoryValid, HexDigest, StableDocuments, Material;
  }

  lemma {:induction false} EntryReasons(c: Codec, vs: seq<Value>)
    ensures EntriesFrom(c, vs).Err? ==> EntriesFrom(c, vs).error !in [ResourceTooLarge, ManifestInvalid]
  {
    if vs != [] { EntryReasons(c, vs[1..]); }
  }

  /** The members are there, of the right types, and name this schema and package. */
  predicate Shaped(doc: map<Key, Value>) {
    && doc.Keys == {Entries, Package, ResourceSetDigest, ResourceSetVersion, Schema}
    && doc[Schema] == Text("yoetz.resource-manifest/1") && doc[Package] == Text("yoetz")
    && doc[ResourceSetVersion].Text? && doc[Entries].Items?
  }

  lemma {:induction false} ReadFrom(c: Codec, raw: bytes, doc: map<Key, Value>, manifest: Manifest)
    requires CanonicalDocument(c, raw, 1_048_576, ManifestInvalid) == Ok(doc)
    ensures Load(c, raw) == Ok(manifest) <==> ManifestRead(c, doc, manifest)
  {
    assert |raw| <= 1_048_576;
    hide EntryRead, HexDigest, Rendered, EntriesFrom, EntriesRead, InventoryValid, CanonicalDocument, StableDocuments;
    if Shaped(doc) {
      ShapedFrom(c, raw, doc, manifest);
    } else {
      hide Material;
    }
  }

  lemma {:induction false} ShapedFrom(c: Codec, raw: bytes, doc: map<Key, Value>, manifest: Manifest)
    requires CanonicalDocument(c, raw, 1_048_576, ManifestInvalid) == Ok(doc) && |raw| <= 1_048_576 && Shaped(doc)
    ensures Load(c, raw) == Ok(manifest) <==> ManifestRead(c, doc, manifest)
  {
    hide EntryRead, HexDigest, Rendered, EntriesFrom, EntriesRead, InventoryValid, CanonicalDocument, StableDocuments;
    HexIsRendered(manifest.digest);
    InventoryRead(manifest.entries);
    EntriesAreRead(c, doc[Entries].items, manifest.entries);
    var read, digest := EntriesFrom(c, doc[Entries].items), doc[ResourceSetDigest];
    assert Load(c, raw) == Ok(manifest) <==>
             && read == Ok(manifest.entries) && InventoryValid(manifest.entries) && digest == Text(manifest.digest)
             && doc[ResourceSetVersion] == Text(manifest.version) && HexDigest(manifest.digest)
             && manifest.digest == c.digest(Material(manifest.version, StableDocuments(manifest.entries)));
    hide Load;
  }

  // ----- the per-kind counts

  /** The kinds counted under one heading. */
  const HEADINGS: seq<seq<string>> := [
    ["canonical_vector"], ["guidance"], ["migration"], ["runtime_support"], ["runtime_config"], ["json_schema"],
    ["compatibility_manifest", "skill"]
  ]

  function Count(es: seq<Loaded>, kinds: seq<string>): nat {
    if es == [] then 0 else (if es[0].entry.kind in kinds then 1 else 0) + Count(es[1..], kinds)
  }

  function CategorizedTotal(es: seq<Loaded>): nat {
    Count(es, HEADINGS[0]) + Count(es, HEADINGS[1]) + Count(es, HEADINGS[2]) + Count(es, HEADINGS[3])
    + Count(es, HEADINGS[4]) + Count(es, HEADINGS[5]) + Count(es, HEADINGS[6])
  }

  /** Entries the loader lets through fall under exactly one heading each, so the counts always add up. */
  lemma {:induction false} CountsAddUp(es: seq<Loaded>)
    requires forall i :: 0 <= i < |es| ==> es[i].entry.kind in RESOURCE_KINDS
    ensures CategorizedTotal(es) == |es|
  {
    if es != [] {
      CountsAddUp(es[1..]);
      OneHeading(es[0].entry.kind);
    }
  }

  lemma {:induction false} OneHeading(kind: string)
    requires kind in RESOURCE_KINDS
    ensures exists h :: 0 <= h < 7 && kind in HEADINGS[h]
    ensures forall h, k :: 0 <= h < k < 7 ==> !(kind in HEADINGS[h] && kind in HEADINGS[k])
  {
    var widths := [[16], [8], [9], [15], [14], [11], [22, 5]];
    assert forall h, x :: 0 <= h < 7 && x in HEADINGS[h] ==> |x| in widths[h];
    var i :| 0 <= i < |RESOURCE_KINDS| && RESOURCE_KINDS[i] == kind;
    var h := [0, 6, 1, 5, 2, 3, 4, 6][i];
    assert kind in HEADINGS[h];
  }

  // ----- what the set digest covers

  /** The same entry, with the same bytes unless it is runtime support. */
  predicate SameUnlessSupport(x: Resource, y: Resource) {
    x.entry == y.entry && (x.entry.kind != RUNTIME_SUPPORT ==> x.data == y.data)
  }

  predicate Alike(a: seq<Resource>, b: seq<Resource>) {
    |a| == |b| && forall i :: 0 <= i < |a| ==> SameUnlessSupport(a[i], b[i])
  }

  lemma {:induction false} AlikeCons(x: Resource, y: Resource, a: seq<Resource>, b: seq<Resource>)
    requires SameUnlessSupport(x, y) && Alike(a, b)
    ensures Alike([x] + a, [y] + b)
  {
  }

  lemma {:induction false} AlikeInsert(x: Resource, y: Resource, a: seq<Resource>, b: seq<Resource>)
    requires SameUnlessSupport(x, y) && Alike(a, b)
    ensures Alike(Insert(Name, x, a), Insert(Name, y, b))
  {
    if a == [] {
      AlikeCons(x, y, a, b);
      assert [x] + a == [x] && [y] + b == [y];
    } else {
      assert SameUnlessSupport(a[0], b[0]) && Alike(a[1..], b[1..]);
      AlikeInsert(x, y, a[1..], b[1..]);
      hide Alike, Leq;
      AlikeCons(x, y, a, b);
      AlikeCons(a[0], b[0], Insert(Name, x, a[1..]), Insert(Name, y, b[1..]));
    }
  }

  lemma {:induction false} AlikeOrdered(a: seq<Resource>, b: seq<Resource>)
    requires Alike(a, b)
    ensures Alike(Ordered(a), Ordered(b))
  {
    if a != [] {
      AlikeOrdered(a[1..], b[1..]);
      AlikeInsert(a[0], b[0], SortBy(Name, a[1..]), SortBy(Name, b[1..]));
    }
  }

  lemma {:induction false} FieldsTellEntries(a: Entry, b: Entry)
    requires EntryFields(a) == EntryFields(b)
    ensures a == b
  {
    var m, n := EntryFields(a), EntryFields(b);
    assert m[Kind] == n[Kind] && m[LogicalName] == n[LogicalName] && m[MediaType] == n[MediaType];
    assert m[PackagePath] == n[PackagePath] && m[SourcePath] == n[SourcePath];
    assert ContractVersion in m <==> a.contractVersion.Some?;
    assert ContractVersion in n <==> b.contractVersion.Some?;
    if a.contractVersion.Some? { assert m[ContractVersion] == n[ContractVersion]; }
  }

  lemma {:induction false} DigestEntryTells(c: Codec, x: Resource, y: Resource)
    requires c.sha(x.data) == c.sha(y.data) ==> x.data == y.data
    requires DigestEntry(c, x) == DigestEntry(c, y)
    ensures SameUnlessSupport(x, y)
  {
    var m, n := DigestEntry(c, x).members, DigestEntry(c, y).members;
    FieldsWithin(c, x);
    FieldsWithin(c, y);
    FieldsTellEntries(x.entry, y.entry);
    if x.entry.kind != RUNTIME_SUPPORT { assert m[Sha256] == n[Sha256]; }
  }

  lemma {:induction false} FieldsWithin(c: Codec, x: Resource)
    ensures DigestEntry(c, x).Members? && DigestEntry(c, x).members - {Sha256, Size} == EntryFields(x.entry)
  {
  }

  lemma {:induction false} OrderedMembers(rs: seq<Resource>)
    ensures forall r :: r in Ordered(rs) <==> r in rs
  {
    SameMembers(Ordered(rs), rs);
  }

  lemma {:induction false} AlikeDigests(c: Codec, s: seq<Resource>, t: seq<Resource>)
    requires Alike(s, t)
    ensures DigestEntries(c, s) == DigestEntries(c, t)
  {
  }

  /** The digested material is the same for two sets exactly when they differ at most in runtime support bytes. */
  lemma {:induction false} MaterialCovers(c: Codec, version: string, a: seq<Resource>, b: seq<Resource>)
    requires forall x, y :: x in a && y in b && c.sha(x.data) == c.sha(y.data) ==> x.data == y.data
    ensures Material(version, DigestEntries(c, Ordered(a))) == Material(version, DigestEntries(c, Ordered(b)))
            <==> Alike(Ordered(a), Ordered(b))
  {
    hide DigestEntry, Ordered, EntryFields;
    var s, t := Ordered(a), Ordered(b);
    assert (forall r :: r in s <==> r in a) && forall r :: r in t <==> r in b by {
      OrderedMembers(a);
      OrderedMembers(b);
    }
    var v, w := Material(version, DigestEntries(c, s)), Material(version, DigestEntries(c, t));
    if v == w {
      assert v.members[Entries] == w.members[Entries];
      forall i | 0 <= i < |s| ensures SameUnlessSupport(s[i], t[i]) {
        assert s[i] in a && t[i] in b;
        assert DigestEntry(c, s[i]) == DigestEntries(c, s)[i] == DigestEntries(c, t)[i] == DigestEntry(c, t[i]);
        DigestEntryTells(c, s[i], t[i]);
      }
    }
    if Alike(s, t) {
      AlikeDigests(c, s, t);
    }
  }

  /** Rewriting the runtime support alone never moves the set digest. */
  lemma {:induction false} SupportBytesFree(c: Codec, version: string, a: seq<Resource>, b: seq<Resource>)
    requires Alike(a, b)
    ensures SetDigest(c, version, a) == SetDigest(c, version, b)
  {
    AlikeOrdered(a, b);
    AlikeDigests(c, Ordered(a), Ordered(b));
  }

  // ----- the runtime support document

  /** What else the loader asks of the members no rebinding touches, before and after the digests are compared. */
  datatype SupportRules = SupportRules(shape: map<Key, Value> -> bool, fault: map<Key, Value> -> Option<Reason>)

  const REBOUND: set<Key> := {ManifestDigest, ResourceSetDigest, ReleaseVersion}

  function Rebound(c: Codec, m: map<Key, Value>, release: string, setDigest: string): map<Key, Value> {
    var bound := m[ReleaseVersion := Text(release)][ResourceSetDigest := Text(setDigest)];
    bound[ManifestDigest := Text(c.digest(Members(bound - {ManifestDigest})))]
  }

  class SupportDocument {
    var members: map<Key, Value>

    constructor (loaded: map<Key, Value>)
      ensures members == loaded
    {
      members := loaded;
    }

    /** Refresh the release version, the set digest, and last the document's own digest; return the bytes to write. */
    method Rebind(c: Codec, release: string, setDigest: string) returns (written: bytes)
      modifies this
      ensures members == Rebound(c, old(members), release, setDigest)
      ensures written == c.encode(Members(members)) + [LF]
    {
      members := members[ReleaseVersion := Text(release)];
      members := members[ResourceSetDigest := Text(setDigest)];
      var withoutDigest := members - {ManifestDigest};
      members := members[ManifestDigest := Text(c.digest(Members(withoutDigest)))];
      written := c.encode(Members(members)) + [LF];
    }
  }

  function Find(es: seq<Loaded>, name: string): Option<Loaded> {
    if es == [] then None else if LoadedName(es[0]) == name then Some(es[0]) else Find(es[1..], name)
  }

  function ReadVerified(c: Codec, files: map<string, bytes>, m: Manifest, name: string): Result<bytes, Reason> {
    match Find(m.entries, name)
    case None => Err(ResourceUnknown)
    case Some(e) =>
      if e.entry.packagePath !in files then Err(ResourceMissing)
      else
        var raw := files[e.entry.packagePath];
        if |raw| > RESOURCE_LIMIT then Err(ResourceTooLarge)
        else if |raw| != e.size || c.sha(raw) != e.sha then Err(ResourceDigestMismatch)
        else Ok(raw)
  }

  function LoadSupport(c: Codec, rules: SupportRules, files: map<string, bytes>): Result<map<Key, Value>, Reason> {
    if MANIFEST !in files then Err(ResourceMissing)
    else
      match Load(c, files[MANIFEST])
      case Err(e) => Err(e)
      case Ok(manifest) =>
        match ReadVerified(c, files, manifest, SUPPORT_PATH)
        case Err(e) => Err(e)
        case Ok(raw) =>
          match CanonicalDocument(c, raw, MANIFEST_LIMIT, SupportInvalid)
          case Err(e) => Err(e)
          case Ok(m) =>
            if !(REBOUND <= m.Keys) || !rules.shape(m - REBOUND) then Err(SupportShapeInvalid)
            else if !m[ManifestDigest].Text? || !HexDigest(m[ManifestDigest].s) then Err(DigestInvalid)
            else if m[ManifestDigest].s != c.digest(Members(m - {ManifestDigest})) then Err(SupportDigestMismatch)
            else if m[ResourceSetDigest] != Text(manifest.digest) then Err(SupportResourceSetMismatch)
            else
              match rules.fault(m - REBOUND)
              case Some(e) => Err(e)
              case None => Ok(m)
  }

  lemma {:induction false} FindNamed(es: seq<Loaded>, e: Loaded)
    requires e in es && Distinct(Names(es))
    ensures Find(es, LoadedName(e)) == Some(e)
  {
    var k :| 0 <= k < |es| && es[k] == e;
    if k == 0 {
    } else {
      assert Names(es)[0] != Names(es)[k];
      assert es[1..][k - 1] == e;
      assert Distinct(Names(es[1..])) by {
        assert forall i :: 0 <= i < |es| - 1 ==> Names(es[1..])[i] == Names(es)[i + 1];
      }
      FindNamed(es[1..], e);
    }
  }

  lemma {:induction false} FoundIs(es: seq<Loaded>, name: string)
    ensures match Find(es, name)
            case Some(e) => e in es && e.entry.logicalName == name
            case None => forall e :: e in es ==> e.entry.logicalName != name
  {
    if es != [] && LoadedName(es[0]) != name { FoundIs(es[1..], name); }
  }

  /** A resource is read exactly when it is listed, present, within the limit, and has the listed size and hash. */
  lemma {:induction false} ReadVerifiedIff(c: Codec, files: map<string, bytes>, m: Manifest, name: string, raw: bytes)
    requires Distinct(Names(m.entries))
    ensures ReadVerified(c, files, m, name) == Ok(raw) <==>
              exists e :: e in m.entries && e.entry.logicalName == name && e.entry.packagePath in files
                          && files[e.entry.packagePath] == raw && |raw| == e.size <= 4_194_304 && c.sha(raw) == e.sha
  {
    FoundIs(m.entries, name);
    forall e | e in m.entries && e.entry.logicalName == name ensures Find(m.entries, name) == Some(e) {
      FindNamed(m.entries, e);
    }
  }

  /** A support document carries the digest of the manifest it ships with, and one of its own other members. */
  predicate Bound(c: Codec, m: map<Key, Value>, setDigest: string) {
    && ResourceSetDigest in m && m[ResourceSetDigest] == Text(setDigest)
    && ManifestDigest in m && m[ManifestDigest] == Text(c.digest(Members(m - {ManifestDigest})))
  }

  /** The canonical bytes of the support document, of the size and hash that the manifest lists for them. */
  predicate Listed(c: Codec, files: map<string, bytes>, manifest: Manifest, m: map<Key, Value>) {
    exists e :: e in manifest.entries && e.entry.logicalName == "support/runtime-support.json"
                && e.entry.packagePath in files && Canonical(c, files[e.entry.packagePath], 1_048_576, m)
                && |files[e.entry.packagePath]| == e.size && c.sha(files[e.entry.packagePath]) == e.sha
  }

  /** Support is loaded exactly from canonical bytes the manifest lists, and only if bound to that very manifest. */
  lemma {:induction false} SupportIff(c: Codec, rules: SupportRules, files: map<string, bytes>, m: map<Key, Value>)
    ensures LoadSupport(c, rules, files) == Ok(m) <==>
              && "manifest.json" in files && Load(c, files["manifest.json"]).Ok?
              && var manifest := Load(c, files["manifest.json"]).value;
                 && Listed(c, files, manifest, m)
                 && REBOUND <= m.Keys && rules.shape(m - REBOUND) && rules.fault(m - REBOUND).None?
                 && Bound(c, m, manifest.digest) && Rendered(m[ManifestDigest].s)
  {
    if MANIFEST in files && Load(c, files[MANIFEST]).Ok? {
      var manifest := Load(c, files[MANIFEST]).value;
      assert Distinct(Names(manifest.entries));
      hide Load, Names, Distinct;
      SupportFrom(c, rules, files, manifest, m);
    }
  }

  lemma {:induction false} SupportFrom(c: Codec, rules: SupportRules, files: map<string, bytes>, manifest: Manifest,
                                       m: map<Key, Value>)
    requires MANIFEST in files && Load(c, files[MANIFEST]) == Ok(manifest) && Distinct(Names(manifest.entries))
    ensures LoadSupport(c, rules, files) == Ok(m) <==>
              && Listed(c, files, manifest, m)
              && REBOUND <= m.Keys && rules.shape(m - REBOUND) && rules.fault(m - REBOUND).None?
              && Bound(c, m, manifest.digest) && Rendered(m[ManifestDigest].s)
  {
    ListedIff(c, files, manifest, m);
    if ManifestDigest in m && m[ManifestDigest].Text? { HexIsRendered(m[ManifestDigest].s); }
    hide Load, HexDigest, Rendered, ReadVerified, CanonicalDocument, Listed;
  }

  lemma {:induction false} ListedIff(c: Codec, files: map<string, bytes>, manifest: Manifest, m: map<Key, Value>)
    requires Distinct(Names(manifest.entries))
    ensures Listed(c, files, manifest, m) <==>
              && ReadVerified(c, files, manifest, SUPPORT_PATH).Ok?
              && var raw := ReadVerified(c, files, manifest, SUPPORT_PATH).value;
                 CanonicalDocument(c, raw, MANIFEST_LIMIT, SupportInvalid) == Ok(m)
  {
    forall raw: bytes
      ensures CanonicalDocument(c, raw, MANIFEST_LIMIT, SupportInvalid) == Ok(m) <==> Canonical(c, raw, 1_048_576, m)
      ensures ReadVerified(c, files, manifest, SUPPORT_PATH) == Ok(raw) <==>
                exists e :: e in manifest.entries && e.entry.logicalName == SUPPORT_PATH && e.entry.packagePath in files
                            && files[e.entry.packagePath] == raw && |raw| == e.size <= 4_194_304 && c.sha(raw) == e.sha
    {
      CanonicalRead(c, raw, MANIFEST_LIMIT, SupportInvalid, m);
      ReadVerifiedIff(c, files, manifest, SUPPORT_PATH, raw);
    }
    assert forall raw: bytes :: Canonical(c, raw, 1_048_576, m) ==> |raw| <= 4_194_304;
    hide ReadVerified, CanonicalDocument, Canonical;
  }

  /**
   * For a set as it is built, with a well-formed support document among it, loading succeeds if and only if that
   * document carries the set digest; with any other the answer is that the two do not belong together.
   */
  lemma {:induction false} SupportLoadsIff(c: Codec, version: string, resources: seq<Resource>, normal: string -> bool,
                                           rules: SupportRules, k: nat, m: map<Key, Value>, files: map<string, bytes>)
    requires Inventory(resources, normal) && HashesRender(c) && k < |resources|
    requires Admitted(c, version, resources) && RoundTrips(c, Document(c, version, resources))
    requires resources[k].entry.logicalName == SUPPORT_PATH && resources[k].data == c.encode(Members(m)) + [LF]
    requires RoundTrips(c, Members(m)) && |resources[k].data| <= MANIFEST_LIMIT
    requires REBOUND <= m.Keys && m[ManifestDigest] == Text(c.digest(Members(m - {ManifestDigest})))
    requires rules.shape(m - REBOUND) && rules.fault(m - REBOUND).None?
    requires MANIFEST in files && files[MANIFEST] == Build(c, version, resources)
    requires SUPPORT_PATH in files && files[SUPPORT_PATH] == resources[k].data
    ensures
      var r := LoadSupport(c, rules, files);
      if m[ResourceSetDigest] == Text(SetDigest(c, version, resources)) then r == Ok(m)
      else r == Err(SupportResourceSetMismatch)
  {
    hide Inventory, Admitted, Document, Build, SetDigest, Load, ReadVerified, HexDigest, LoadedAll, Ordered;
    BuiltIffAdmitted(c, version, resources, normal);
    SupportRead(c, version, resources, normal, k, files);
    assert CanonicalDocument(c, files[SUPPORT_PATH], MANIFEST_LIMIT, SupportInvalid) == Ok(m);
  }

  /** The resources after the support document at k was rebound to their own set digest. */
  function Rewritten(c: Codec, version: string, resources: seq<Resource>, k: nat, m: map<Key, Value>, release: string)
    : seq<Resource>
    requires k < |resources|
  {
    var bound := Rebound(c, m, release, SetDigest(c, version, resources));
    resources[k := resources[k].(data := c.encode(Members(bound)) + [LF])]
  }

  /**
   * Writing the set digest into the runtime support, itself a member of the set, and building again leaves the digest
   * alone, so the loader finds the support bound to exactly the manifest it ships with.
   */
  lemma {:induction false} RebindingBinds(c: Codec, version: string, resources: seq<Resource>, normal: string -> bool,
                                          rules: SupportRules, k: nat, m: map<Key, Value>, release: string,
                                          files: map<string, bytes>)
    requires Inventory(resources, normal) && HashesRender(c) && k < |resources|
    requires resources[k].entry.logicalName == SUPPORT_PATH && resources[k].entry.kind == RUNTIME_SUPPORT
    requires
      var after := Rewritten(c, version, resources, k, m, release);
      && Admitted(c, version, after) && RoundTrips(c, Document(c, version, after))
      && MANIFEST in files && files[MANIFEST] == Build(c, version, after)
      && SUPPORT_PATH in files && files[SUPPORT_PATH] == after[k].data && |after[k].data| <= MANIFEST_LIMIT
    requires
      var bound := Rebound(c, m, release, SetDigest(c, version, resources));
      RoundTrips(c, Members(bound)) && rules.shape(bound - REBOUND) && rules.fault(bound - REBOUND).None?
    ensures SetDigest(c, version, Rewritten(c, version, resources, k, m, release)) == SetDigest(c, version, resources)
    ensures LoadSupport(c, rules, files) == Ok(Rebound(c, m, release, SetDigest(c, version, resources)))
  {
    hide *;
    var after := Rewritten(c, version, resources, k, m, release);
    assert Alike(resources, after) && after[k].entry == resources[k].entry by {
      RewrittenAlike(c, version, resources, k, m, release);
    }
    SupportBytesFree(c, version, resources, after);
    AlikeInventory(resources, after, normal);
    var bound := Rebound(c, m, release, SetDigest(c, version, resources));
    assert after[k].data == c.encode(Members(bound)) + [LF] by { RewrittenData(c, version, resources, k, m, release); }
    ReboundIs(c, m, release, SetDigest(c, version, resources));
    SupportLoadsIff(c, version, after, normal, rules, k, bound, files);
  }

  lemma {:induction false} ReboundIs(c: Codec, m: map<Key, Value>, release: string, setDigest: string)
    ensures REBOUND <= Rebound(c, m, release, setDigest).Keys && Bound(c, Rebound(c, m, release, setDigest), setDigest)
    ensures Rebound(c, m, release, setDigest)[ReleaseVersion] == Text(release)
    ensures Rebound(c, m, release, setDigest) - REBOUND == m - REBOUND
  {
    var bound := Rebound(c, m, release, setDigest);
    assert bound - {ManifestDigest}
        == m[ReleaseVersion := Text(release)][ResourceSetDigest := Text(setDigest)] - {ManifestDigest};
  }

  lemma {:induction false} RewrittenAlike(c: Codec, version: string, resources: seq<Resource>, k: nat,
        m: map<Key, Value>, release: string)
    requires k < |resources| && resources[k].entry.kind == RUNTIME_SUPPORT
    ensures Alike(resources, Rewritten(c, version, resources, k, m, release))
    ensures Rewritten(c, version, resources, k, m, release)[k].entry == resources[k].entry
  {
  }

  lemma {:induction false} RewrittenData(c: Codec, version: string, resources: seq<Resource>, k: nat,
        m: map<Key, Value>, release: string)
    requires k < |resources|
    ensures |Rewritten(c, version, resources, k, m, release)| == |resources|
    ensures Rewritten(c, version, resources, k, m, release)[k].data
            == c.encode(Members(Rebound(c, m, release, SetDigest(c, version, resources)))) + [LF]
  {
  }

  lemma {:induction false} AlikeInventory(a: seq<Resource>, b: seq<Resource>, normal: string -> bool)
    requires Alike(a, b) && Inventory(a, normal)
    ensures Inventory(b, normal)
  {
    hide Permitted;
    assert forall i :: 0 <= i < |a| ==> a[i].entry == b[i].entry;
  }

  /** The support document is found under its name, and the manifest's size and hash fit its bytes. */
  lemma {:induction false} SupportRead(c: Codec, version: string, resources: seq<Resource>, normal: string -> bool,
        k: nat, files: map<string, bytes>)
    requires Inventory(resources, normal) && k < |resources| && resources[k].entry.logicalName == SUPPORT_PATH
    requires SUPPORT_PATH in files && files[SUPPORT_PATH] == resources[k].data && |resources[k].data| <= MANIFEST_LIMIT
    ensures
      var manifest := Manifest(version, SetDigest(c, version, resources), LoadedAll(c, Ordered(resources)));
      ReadVerified(c, files, manifest, SUPPORT_PATH) == Ok(resources[k].data)
  {
    hide Ordered, Permitted, Names, Distinct, Find, SetDigest;
    var es, e := LoadedAll(c, Ordered(resources)), LoadedFrom(c, resources[k]);
    OrderedNames(c, resources, normal);
    assert resources[k] in Ordered(resources);
    LoadedMember(c, Ordered(resources), resources[k]);
    FindNamed(es, e);
  }

  lemma {:induction false} LoadedMember(c: Codec, rs: seq<Resource>, r: Resource)
    requires r in rs
    ensures LoadedFrom(c, r) in LoadedAll(c, rs)
  {
    var i :| 0 <= i < |rs| && rs[i] == r;
    assert LoadedAll(c, rs)[i] == LoadedFrom(c, r);
  }
}
