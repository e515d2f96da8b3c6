/** The package resource tree: staged replacement, retirement of stale files, and restart after interruption. */
module ResourceSync {
  import opened Common
  import opened Paths

  /** What a path beneath the resource root holds; directories are implied. */
  datatype Entry = File(data: bytes) | Symlink | Special

  type Tree = map<string, Entry>

  datatype Resource = Resource(path: string, data: bytes)

  /** The package paths a manifest's bytes list (none when unreadable), and normalization form C. */
  datatype Reading = Reading(listed: bytes -> seq<string>, normal: string -> bool)

  datatype SyncError = UnknownDestinationFile | EntryInvalid

  datatype Outcome = Refused(error: SyncError) | Stopped | Finished

  datatype Diff = Diff(missing: seq<string>, extra: seq<string>, changed: seq<string>, manifestMismatch: bool)

  // ----- what the synchronizer reads off a tree

  /** Destinations of the prior inventory, as its manifest lists them. */
  function Previous(t: Tree, rd: Reading): set<string> {
    if MANIFEST in t && t[MANIFEST].File? then
      set p | p in rd.listed(t[MANIFEST].data) && Permitted(p, rd.normal) && p != MANIFEST
    else {}
  }

  function Known(resources: seq<Resource>): set<string> {
    set r | r in resources :: r.path
  }

  /** Distinct permitted destinations, as the inventory is checked to have. */
  predicate Inventory(resources: seq<Resource>, rd: Reading) {
    && (forall i, j :: 0 <= i < j < |resources| ==> resources[i].path != resources[j].path)
    && forall i :: 0 <= i < |resources| ==> Permitted(resources[i].path, rd.normal)
  }

  predicate OnlyFiles(t: Tree) {
    forall p :: p in t ==> t[p].File?
  }

  predicate Expected(t: Tree, resources: seq<Resource>, rd: Reading) {
    forall p :: p in t ==> p == MANIFEST || p in Known(resources) || p in Previous(t, rd)
  }

  /** What the check before any write lets through. */
  predicate Accepted(t: Tree, resources: seq<Resource>, rd: Reading) {
    OnlyFiles(t) && Expected(t, resources, rd)
  }

  function Contents(resources: seq<Resource>): Tree {
    if resources == [] then map[]
    else
      var r := resources[|resources| - 1];
      Contents(resources[..|resources| - 1])[r.path := File(r.data)]
  }

  /** The tree a synchronization is for. */
  function Target(resources: seq<Resource>, manifest: bytes): Tree {
    Contents(resources)[MANIFEST := File(manifest)]
  }

  // ----- the steps

  datatype Step = Replace(path: string, data: bytes) | Unlink(path: string)

  function Apply(t: Tree, s: Step): Tree {
    match s
    case Replace(p, data) => t[p := File(data)]
    case Unlink(p) => t - {p}
  }

  function ApplyAll(t: Tree, steps: seq<Step>): Tree {
    if steps == [] then t else Apply(ApplyAll(t, steps[..|steps| - 1]), steps[|steps| - 1])
  }

  function Replaces(resources: seq<Resource>): (r: seq<Step>)
    ensures |r| == |resources|
    ensures forall k :: 0 <= k < |r| ==> r[k] == Replace(resources[k].path, resources[k].data)
  {
    seq(|resources|, k requires 0 <= k < |resources| => Replace(resources[k].path, resources[k].data))
  }

  function Unlinks(paths: seq<string>): (r: seq<Step>)
    ensures |r| == |paths|
    ensures forall k :: 0 <= k < |r| ==> r[k] == Unlink(paths[k])
  {
    seq(|paths|, k requires 0 <= k < |paths| => Unlink(paths[k]))
  }

  /** Every resource, then the stale files, and the manifest last. */
  function Plan(resources: seq<Resource>, stale: seq<string>, manifest: bytes): seq<Step> {
    Replaces(resources) + Unlinks(stale) + [Replace(MANIFEST, manifest)]
  }

  lemma {:induction false} OneMore(t: Tree, plan: seq<Step>, done: nat)
    requires done < |plan|
    ensures ApplyAll(t, plan[..done + 1]) == Apply(ApplyAll(t, plan[..done]), plan[done])
  {
    assert plan[..done + 1][..done] == plan[..done];
  }

  lemma {:induction false} NoneYet(t: Tree, plan: seq<Step>)
    ensures ApplyAll(t, plan[..0]) == t
  {
  }

  ghost predicate StaleListing(t: Tree, resources: seq<Resource>, rd: Reading, stale: seq<string>) {
    Lists(stale, Previous(t, rd) - Known(resources))
  }

  /** One run, stopped after any number of its steps or not at all. */
  ghost predicate Runs(t: Tree, resources: seq<Resource>, manifest: bytes, rd: Reading, done: nat, after: Tree) {
    exists stale ::
      && StaleListing(t, resources, rd, stale)
      && done <= |Plan(resources, stale, manifest)| && after == ApplyAll(t, Plan(resources, stale, manifest)[..done])
  }

  class ResourceTree {
    var entries: Tree

    constructor (t: Tree)
      ensures entries == t
    {
      entries := t;
    }

    /** Enumerate the package files in order, refusing anything that is not a regular file. */
    method PackageFiles() returns (r: Option<seq<string>>)
      ensures r.Some? <==> OnlyFiles(entries)
      ensures r.Some? ==> Lists(r.value, entries.Keys)
    {
      var pending := entries.Keys;
      while pending != {}
        invariant pending <= entries.Keys
        invariant forall p :: p in entries && p !in pending ==> entries[p].File?
        decreases |pending|
      {
        var p :| p in pending;
        if !entries[p].File? { return None; }
        pending := pending - {p};
      }
      var files := ListSet(entries.Keys);
      return Some(files);
    }

    method ReadPrevious(rd: Reading) returns (previous: set<string>)
      requires OnlyFiles(entries)
      ensures previous == Previous(entries, rd)
    {
      previous := {};
      if MANIFEST in entries {
        var items := rd.listed(entries[MANIFEST].data);
        for i := 0 to |items|
          invariant previous == set p | p in items[..i] && Permitted(p, rd.normal) && p != MANIFEST
        {
          assert items[..i + 1] == items[..i] + [items[i]];
          if Permitted(items[i], rd.normal) && items[i] != MANIFEST {
            previous := previous + {items[i]};
          }
        }
        assert items[..|items|] == items;
      }
    }

    /** Compare the tree with the collected resources and the manifest. */
    method Verify(resources: seq<Resource>, manifest: bytes) returns (r: Option<Diff>)
      ensures r.Some? <==> OnlyFiles(entries)
      ensures r.Some? ==> Describes(r.value, entries, resources, manifest)
    {
      hide SortBy, Sorted, Distinct, Known;
      var listing := PackageFiles();
      if listing.None? { return None; }
      var missing, changed := Compare(resources);
      SortedSame(missing);
      SortedSame(changed);
      var known := set r | r in resources :: r.path;
      KnownIs(resources);
      var extra := ListSet(entries.Keys - {MANIFEST} - known);
      var mismatch := !(MANIFEST in entries && entries[MANIFEST] == File(manifest));
      return Some(Diff(SortBy(Itself, missing), extra, SortBy(Itself, changed), mismatch));
    }

    method Compare(resources: seq<Resource>) returns (missing: seq<string>, changed: seq<string>)
      ensures forall p :: p in missing <==>
            exists i :: 0 <= i < |resources| && resources[i].path == p && MissingAt(entries, resources[i])
      ensures forall p :: p in changed <==>
            exists i :: 0 <= i < |resources| && resources[i].path == p && ChangedAt(entries, resources[i])
    {
      missing, changed := [], [];
      for n := 0 to |resources|
        invariant forall p :: p in missing <==>
              exists i :: 0 <= i < n && resources[i].path == p && MissingAt(entries, resources[i])
        invariant forall p :: p in changed <==>
              exists i :: 0 <= i < n && resources[i].path == p && ChangedAt(entries, resources[i])
      {
        var r := resources[n];
        if MissingAt(entries, r) {
          missing := missing + [r.path];
        } else if entries[r.path].data != r.data {
          changed := changed + [r.path];
        }
      }
    }

    /** Synchronize; the process may be stopped after any number of replacements and removals. */
    method Sync(resources: seq<Resource>, manifest: bytes, rd: Reading, budget: nat) returns (r: Outcome)
      modifies this
      ensures r == Refused(EntryInvalid) <==> !OnlyFiles(old(entries))
      ensures r.Refused? <==> !Accepted(old(entries), resources, rd)
      ensures r.Refused? ==> entries == old(entries)
      ensures !r.Refused? ==> exists stale ::
        && StaleListing(old(entries), resources, rd, stale)
        && var plan := Plan(resources, stale, manifest);
           && (r.Finished? <==> |plan| <= budget)
           && entries == ApplyAll(old(entries), plan[..if r.Finished? then |plan| else budget])
    {
      hide Permitted, Known, ApplyAll;
      var listing := PackageFiles();
      if listing.None? { return Refused(EntryInvalid); }
      var files, known := listing.value, set r | r in resources :: r.path;
      assert known == Known(resources) by { KnownIs(resources); }
      var previous := ReadPrevious(rd);
      for i := 0 to |files|
        invariant forall j :: 0 <= j < i ==> files[j] == MANIFEST || files[j] in known || files[j] in previous
      {
        if files[i] != MANIFEST && files[i] !in known && files[i] !in previous {
          assert files[i] in entries;
          return Refused(UnknownDestinationFile);
        }
      }
      assert Expected(entries, resources, rd) by {
        forall p | p in entries ensures p == MANIFEST || p in known || p in previous { assert p in files; }
      }
      var stale := ListSet(previous - known);
      r := Perform(resources, stale, manifest, budget);
      assert StaleListing(old(entries), resources, rd, stale);
    }

    method Perform(resources: seq<Resource>, stale: seq<string>, manifest: bytes, budget: nat) returns (r: Outcome)
      modifies this
      ensures !r.Refused?
      ensures
        var plan := Plan(resources, stale, manifest);
        && (r.Finished? <==> |plan| <= budget)
        && entries == ApplyAll(old(entries), plan[..if r.Finished? then |plan| else budget])
    {
      hide ApplyAll;
      ghost var plan := Plan(resources, stale, manifest);
      var done := 0;
      NoneYet(entries, plan);
      while done < |resources|
        invariant 0 <= done <= |resources| && done <= budget && entries == ApplyAll(old(entries), plan[..done])
      {
        if done == budget { return Stopped; }
        OneMore(old(entries), plan, done);
        entries := entries[resources[done].path := File(resources[done].data)];
        done := done + 1;
      }
      while done < |resources| + |stale|
        invariant |resources| <= done <= |resources| + |stale| && done <= budget
        invariant entries == ApplyAll(old(entries), plan[..done])
      {
        if done == budget { return Stopped; }
        OneMore(old(entries), plan, done);
        var relative := stale[done - |resources|];
        if relative in entries { entries := entries - {relative}; }
        done := done + 1;
      }
      if done == budget { return Stopped; }
      OneMore(old(entries), plan, done);
      entries := entries[MANIFEST := File(manifest)];
      return Finished;
    }
  }

  predicate MissingAt(t: Tree, r: Resource) {
    r.path !in t || !t[r.path].File?
  }

  predicate ChangedAt(t: Tree, r: Resource) {
    !MissingAt(t, r) && t[r.path].data != r.data
  }

  /** The differences, each listed by path in order. */
  ghost predicate Describes(d: Diff, t: Tree, resources: seq<Resource>, manifest: bytes) {
    && Sorted(Itself, d.missing) && Sorted(Itself, d.changed)
    && (forall p :: p in d.missing <==>
        exists i :: 0 <= i < |resources| && resources[i].path == p && MissingAt(t, resources[i]))
    && (forall p :: p in d.changed <==>
        exists i :: 0 <= i < |resources| && resources[i].path == p && ChangedAt(t, resources[i]))
    && Lists(d.extra, t.Keys - {MANIFEST} - Known(resources))
    && (d.manifestMismatch <==> !(MANIFEST in t && t[MANIFEST] == File(manifest)))
  }

  predicate Clean(d: Diff) {
    d.missing == [] && d.extra == [] && d.changed == [] && !d.manifestMismatch
  }

  lemma {:induction false} SortedSame(s: seq<string>)
    ensures Sorted(Itself, SortBy(Itself, s))
    ensures forall p :: p in SortBy(Itself, s) <==> p in s
  {
    SortBySorts(Itself, s);
    SameMembers(SortBy(Itself, s), s);
  }

  lemma {:induction false} KnownIs(resources: seq<Resource>)
    ensures Known(resources) == set r | r in resources :: r.path
  {
  }

  // ----- what a plan does

  lemma {:induction false} ContentsAt(resources: seq<Resource>, rd: Reading, i: nat)
    requires Inventory(resources, rd) && i < |resources|
    ensures resources[i].path in Contents(resources)
          && Contents(resources)[resources[i].path] == File(resources[i].data)
  {
    var n := |resources| - 1;
    if i < n {
      assert Inventory(resources[..n], rd);
      ContentsAt(resources[..n], rd, i);
      assert resources[..n][i] == resources[i];
    }
  }

  lemma {:induction false} ContentsKeys(resources: seq<Resource>)
    ensures Contents(resources).Keys == Known(resources)
  {
    if resources != [] {
      var n := |resources| - 1;
      ContentsKeys(resources[..n]);
      assert resources == resources[..n] + [resources[n]];
    }
  }

  lemma {:induction false} ReplacesApplied(t: Tree, resources: seq<Resource>)
    ensures ApplyAll(t, Replaces(resources)) == t + Contents(resources)
  {
    if resources != [] {
      var n := |resources| - 1;
      assert Replaces(resources)[..n] == Replaces(resources[..n]);
      ReplacesApplied(t, resources[..n]);
    }
  }

  lemma {:induction false} UnlinksApplied(t: Tree, before: seq<Step>, paths: seq<string>)
    ensures ApplyAll(t, before + Unlinks(paths)) == ApplyAll(t, before) - set p | p in paths
  {
    var steps := before + Unlinks(paths);
    if paths == [] {
      assert steps == before;
    } else {
      var n := |paths| - 1;
      assert steps[..|steps| - 1] == before + Unlinks(paths[..n]);
      UnlinksApplied(t, before, paths[..n]);
      assert paths == paths[..n] + [paths[n]];
    }
  }

  lemma {:induction false} PlanApplied(t: Tree, resources: seq<Resource>, stale: seq<string>, manifest: bytes)
    ensures ApplyAll(t, Plan(resources, stale, manifest))
            == (t + Contents(resources) - set p | p in stale)[MANIFEST := File(manifest)]
  {
    var plan := Plan(resources, stale, manifest);
    assert plan[..|plan| - 1] == Replaces(resources) + Unlinks(stale);
    ReplacesApplied(t, resources);
    UnlinksApplied(t, Replaces(resources), stale);
  }

  lemma {:induction false} KnownPermitted(resources: seq<Resource>, rd: Reading, p: string)
    requires Inventory(resources, rd) && p in Known(resources)
    ensures Permitted(p, rd.normal) && p != MANIFEST
  {
    var r :| r in resources && r.path == p;
    var i :| 0 <= i < |resources| && resources[i] == r;
    PermittedLoads(p, rd.normal);
  }

  /** Before its last step a plan replaces known files and removes stale ones; the manifest stays. */
  predicate Proper(s: Step, resources: seq<Resource>, gone: set<string>) {
    match s
    case Replace(p, data) => Resource(p, data) in resources
    case Unlink(p) => p in gone
  }

  lemma {:induction false} PlanProper(resources: seq<Resource>, stale: seq<string>, manifest: bytes, gone: set<string>,
                                      k: nat)
    requires k + 1 < |Plan(resources, stale, manifest)| && forall p :: p in stale ==> p in gone
    ensures Proper(Plan(resources, stale, manifest)[k], resources, gone)
  {
    if k < |resources| {
      assert resources[k] in resources;
    } else {
      assert stale[k - |resources|] in stale;
    }
  }

  /** Partway through, a tree: prior files that were not stale, or their new contents. */
  predicate Partial(t: Tree, resources: seq<Resource>, gone: set<string>, u: Tree) {
    && (MANIFEST in u <==> MANIFEST in t) && (MANIFEST in t ==> u[MANIFEST] == t[MANIFEST])
    && (forall p :: p in t && p !in gone ==> p in u)
    && (forall p :: p in u ==> Whole(t, resources, p, u[p]))
  }

  predicate Whole(t: Tree, resources: seq<Resource>, p: string, e: Entry) {
    (p in t && e == t[p]) || (e.File? && Resource(p, e.data) in resources)
  }

  lemma {:induction false} StepPartial(t: Tree, resources: seq<Resource>, rd: Reading, gone: set<string>, u: Tree,
        s: Step)
    requires Inventory(resources, rd) && Partial(t, resources, gone, u) && Proper(s, resources, gone)
          && MANIFEST !in gone
    ensures Partial(t, resources, gone, Apply(u, s))
  {
    if s.Replace? {
      assert s.path in Known(resources);
      KnownPermitted(resources, rd, s.path);
    }
  }

  lemma {:induction false} PrefixPartial(t: Tree, resources: seq<Resource>, rd: Reading, gone: set<string>,
                                         steps: seq<Step>)
    requires Inventory(resources, rd) && MANIFEST !in gone
    requires forall k :: 0 <= k < |steps| ==> Proper(steps[k], resources, gone)
    ensures Partial(t, resources, gone, ApplyAll(t, steps))
  {
    hide Partial, Proper, Inventory;
    if steps == [] {
      assert Partial(t, resources, gone, t) by { NothingYet(t, resources, gone); }
    } else {
      var n := |steps| - 1;
      PrefixPartial(t, resources, rd, gone, steps[..n]);
      StepPartial(t, resources, rd, gone, ApplyAll(t, steps[..n]), steps[n]);
    }
  }

  lemma {:induction false} NothingYet(t: Tree, resources: seq<Resource>, gone: set<string>)
    ensures Partial(t, resources, gone, t)
  {
  }

  lemma {:induction false} PartialAccepted(t: Tree, resources: seq<Resource>, rd: Reading, gone: set<string>, u: Tree)
    requires Accepted(t, resources, rd) && Partial(t, resources, gone, u)
    ensures Accepted(u, resources, rd) && Previous(u, rd) == Previous(t, rd)
  {
    forall p | p in u ensures u[p].File? && (p == MANIFEST || p in Known(resources) || p in Previous(u, rd)) {
      assert Whole(t, resources, p, u[p]);
      if p !in t { assert p in Known(resources); }
    }
  }

  lemma {:induction false} TargetAccepted(resources: seq<Resource>, manifest: bytes, rd: Reading)
    ensures Accepted(Target(resources, manifest), resources, rd)
  {
    ContentsKeys(resources);
    ContentsFiles(resources);
  }

  lemma {:induction false} ContentsFiles(resources: seq<Resource>)
    ensures OnlyFiles(Contents(resources))
  {
    if resources != [] { ContentsFiles(resources[..|resources| - 1]); }
  }

  /** A listed destination that a run may retire: safe, within an allowed root, and wanted by no resource. */
  predicate Retirable(t: Tree, resources: seq<Resource>, rd: Reading, p: string) {
    && "manifest.json" in t && t["manifest.json"].File? && p in rd.listed(t["manifest.json"].data)
    && Permitted(p, rd.normal) && p != "manifest.json"
    && forall i :: 0 <= i < |resources| ==> resources[i].path != p
  }

  lemma {:induction false} RetirableIs(t: Tree, resources: seq<Resource>, rd: Reading, p: string)
    ensures p in Previous(t, rd) - Known(resources) <==> Retirable(t, resources, rd, p)
  {
    if p in Known(resources) {
      var r :| r in resources && r.path == p;
      var i :| 0 <= i < |resources| && resources[i] == r;
    }
    assert forall i :: 0 <= i < |resources| ==> resources[i] in resources;
  }

  // ----- the main results

  /** A tree is let through exactly when all it holds is files: the manifest, resources, or retirable ones. */
  lemma {:induction false} AcceptedIff(t: Tree, resources: seq<Resource>, rd: Reading)
    ensures Accepted(t, resources, rd) <==>
              forall p :: p in t ==>
                && t[p].File?
                && (|| p == "manifest.json" || (exists i :: 0 <= i < |resources| && resources[i].path == p)
                    || Retirable(t, resources, rd, p))
  {
    hide Permitted, Retirable;
    forall p ensures p in Known(resources) <==> exists i :: 0 <= i < |resources| && resources[i].path == p {
      if p in Known(resources) {
        var r :| r in resources && r.path == p;
        var i :| 0 <= i < |resources| && resources[i] == r;
      }
      if i :| 0 <= i < |resources| && resources[i].path == p { assert resources[i] in resources; }
    }
    forall p | p in t ensures p in Previous(t, rd) - Known(resources) <==> Retirable(t, resources, rd, p) {
      RetirableIs(t, resources, rd, p);
    }
  }

  /** The target holds the resources, each with its own bytes, and the manifest; nothing else. */
  lemma {:induction false} TargetIs(resources: seq<Resource>, manifest: bytes, rd: Reading)
    requires Inventory(resources, rd)
    ensures
      var t := Target(resources, manifest);
      && "manifest.json" in t && t["manifest.json"] == File(manifest)
      && (forall i :: 0 <= i < |resources| ==>
            resources[i].path in t && t[resources[i].path] == File(resources[i].data))
      && forall p :: p in t ==> p == "manifest.json" || exists i :: 0 <= i < |resources| && resources[i].path == p
  {
    hide Permitted;
    var t := Target(resources, manifest);
    ContentsKeys(resources);
    forall i | 0 <= i < |resources|
      ensures resources[i].path in t && t[resources[i].path] == File(resources[i].data)
    {
      ContentsAt(resources, rd, i);
      assert resources[i] in resources;
      KnownPermitted(resources, rd, resources[i].path);
    }
    forall p | p in t && p != "manifest.json" ensures exists i :: 0 <= i < |resources| && resources[i].path == p {
      var r :| r in resources && r.path == p;
      var i :| 0 <= i < |resources| && resources[i] == r;
    }
  }

  /** A run that finishes leaves exactly the target, from whatever accepted tree it started. */
  lemma {:induction false} FinishedIsTarget(t: Tree, resources: seq<Resource>, manifest: bytes, rd: Reading,
                                            stale: seq<string>)
    requires Inventory(resources, rd) && Accepted(t, resources, rd) && StaleListing(t, resources, rd, stale)
    ensures ApplyAll(t, Plan(resources, stale, manifest)) == Target(resources, manifest)
  {
    PlanApplied(t, resources, stale, manifest);
    ContentsKeys(resources);
    var after := (t + Contents(resources) - set p | p in stale)[MANIFEST := File(manifest)];
    forall p | p in after || p in Target(resources, manifest)
      ensures p in after && p in Target(resources, manifest) && after[p] == Target(resources, manifest)[p]
    {
      assert p in t ==> p == MANIFEST || p in Known(resources) || p in stale;
    }
  }

  /** A run stopped before its last step leaves the manifest, whole files only, and nothing but stale files removed. */
  lemma {:induction false} StoppedIsPartial(t: Tree, resources: seq<Resource>, manifest: bytes, rd: Reading,
                                            stale: seq<string>, done: nat)
    requires Inventory(resources, rd) && StaleListing(t, resources, rd, stale)
    requires done < |Plan(resources, stale, manifest)|
    ensures
      var u := ApplyAll(t, Plan(resources, stale, manifest)[..done]);
      Partial(t, resources, Previous(t, rd) - Known(resources), u)
  {
    var plan, gone := Plan(resources, stale, manifest), Previous(t, rd) - Known(resources);
    forall k | 0 <= k < done ensures Proper(plan[..done][k], resources, gone) {
      PlanProper(resources, stale, manifest, gone, k);
    }
    PrefixPartial(t, resources, rd, gone, plan[..done]);
  }

  /** Nothing is retired before every resource is in its place. */
  lemma {:induction false} RetiresLast(t: Tree, resources: seq<Resource>, manifest: bytes, rd: Reading,
                                       stale: seq<string>, done: nat, p: string, i: nat)
    requires Inventory(resources, rd) && StaleListing(t, resources, rd, stale) && i < |resources|
    requires done <= |Plan(resources, stale, manifest)| && p in t
    requires p !in ApplyAll(t, Plan(resources, stale, manifest)[..done])
    ensures
      var u := ApplyAll(t, Plan(resources, stale, manifest)[..done]);
      resources[i].path in u && u[resources[i].path] == File(resources[i].data)
  {
    var plan := Plan(resources, stale, manifest);
    if done <= |resources| {
      assert plan[..done] == Replaces(resources[..done]);
      ReplacesApplied(t, resources[..done]);
    } else {
      hide Permitted, Apply, Contents;
      assert resources[i] in resources;
      ContentsAt(resources, rd, i);
      KnownPermitted(resources, rd, resources[i].path);
      var gone := done - |resources|;
      if gone <= |stale| {
        assert plan[..done] == Replaces(resources) + Unlinks(stale[..gone]);
        ReplacesApplied(t, resources);
        UnlinksApplied(t, Replaces(resources), stale[..gone]);
        assert forall q :: q in stale[..gone] ==> q in stale;
      } else {
        assert plan[..done] == plan;
        PlanApplied(t, resources, stale, manifest);
      }
    }
  }

  /** The state of a tree under any history of interrupted and finished runs with the same inputs. */
  ghost predicate InHistory(start: Tree, resources: seq<Resource>, manifest: bytes, rd: Reading, u: Tree) {
    || u == Target(resources, manifest)
    || Partial(start, resources, Previous(start, rd) - Known(resources), u)
  }

  lemma {:induction false} HistoryAccepted(start: Tree, resources: seq<Resource>, manifest: bytes, rd: Reading, u: Tree)
    requires Accepted(start, resources, rd) && InHistory(start, resources, manifest, rd, u)
    ensures Accepted(u, resources, rd)
  {
    if u == Target(resources, manifest) {
      TargetAccepted(resources, manifest, rd);
    } else {
      PartialAccepted(start, resources, rd, Previous(start, rd) - Known(resources), u);
    }
  }

  lemma {:induction false} PartialOfPartial(start: Tree, resources: seq<Resource>, gone: set<string>, t: Tree, u: Tree)
    requires Partial(start, resources, gone, t) && Partial(t, resources, gone, u)
    ensures Partial(start, resources, gone, u)
  {
    forall p | p in u ensures Whole(start, resources, p, u[p]) {
      assert Whole(t, resources, p, u[p]);
      if p in t { assert Whole(start, resources, p, t[p]); }
    }
  }

  /** A tree in sync stays in sync at every step of another run. */
  lemma {:induction false} TargetStays(resources: seq<Resource>, manifest: bytes, rd: Reading, u: Tree)
    requires Inventory(resources, rd)
    requires
      var t := Target(resources, manifest);
      Partial(t, resources, Previous(t, rd) - Known(resources), u)
    ensures u == Target(resources, manifest)
  {
    var t := Target(resources, manifest);
    var gone := Previous(t, rd) - Known(resources);
    ContentsKeys(resources);
    forall p | p in u ensures p in t && u[p] == t[p] {
      assert Whole(t, resources, p, u[p]);
      if u[p].File? && Resource(p, u[p].data) in resources {
        var i :| 0 <= i < |resources| && resources[i] == Resource(p, u[p].data);
        ContentsAt(resources, rd, i);
        assert p in Known(resources);
        KnownPermitted(resources, rd, p);
      }
    }
    assert forall p :: p in t ==> p == MANIFEST || p !in gone;
  }

  lemma {:induction false} RunKeepsHistory(start: Tree, resources: seq<Resource>, manifest: bytes, rd: Reading, t: Tree,
                                           done: nat, u: Tree)
    requires Inventory(resources, rd) && Accepted(start, resources, rd)
    requires InHistory(start, resources, manifest, rd, t) && Runs(t, resources, manifest, rd, done, u)
    ensures InHistory(start, resources, manifest, rd, u)
  {
    hide Partial, Inventory, Accepted, Target, Plan;
    HistoryAccepted(start, resources, manifest, rd, t);
    var stale :| && StaleListing(t, resources, rd, stale) && done <= |Plan(resources, stale, manifest)|
                 && u == ApplyAll(t, Plan(resources, stale, manifest)[..done]);
    var plan := Plan(resources, stale, manifest);
    if done == |plan| {
      assert plan[..done] == plan;
      FinishedIsTarget(t, resources, manifest, rd, stale);
    } else {
      StoppedIsPartial(t, resources, manifest, rd, stale, done);
      if t == Target(resources, manifest) {
        TargetStays(resources, manifest, rd, u);
      } else {
        var gone := Previous(start, rd) - Known(resources);
        PartialAccepted(start, resources, rd, gone, t);
        PartialOfPartial(start, resources, gone, t, u);
      }
    }
  }

  /** A chain of runs, each stopped wherever it was stopped. */
  ghost predicate Chain(ts: seq<Tree>, resources: seq<Resource>, manifest: bytes, rd: Reading, dones: seq<nat>) {
    && |ts| == |dones| + 1
    && forall i :: 0 <= i < |dones| ==> Runs(ts[i], resources, manifest, rd, dones[i], ts[i + 1])
  }

  lemma {:induction false} ChainInHistory(ts: seq<Tree>, resources: seq<Resource>, manifest: bytes, rd: Reading,
                                          dones: seq<nat>, i: nat)
    requires Chain(ts, resources, manifest, rd, dones) && i < |ts|
    requires Inventory(resources, rd) && Accepted(ts[0], resources, rd)
    ensures InHistory(ts[0], resources, manifest, rd, ts[i])
  {
    hide Inventory, Accepted, Runs, Partial, Target, Previous, Known;
    if i == 0 {
      NothingYet(ts[0], resources, Previous(ts[0], rd) - Known(resources));
    } else {
      ChainInHistory(ts, resources, manifest, rd, dones, i - 1);
      RunKeepsHistory(ts[0], resources, manifest, rd, ts[i - 1], dones[i - 1], ts[i]);
    }
  }

  /**
   * However often and wherever a synchronization is interrupted, the tree is accepted again, a run that then finishes
   * leaves the target, and the only files that ever disappear are those the first manifest listed and nobody needs.
   */
  lemma {:induction false} Restartable(ts: seq<Tree>, resources: seq<Resource>, manifest: bytes, rd: Reading,
                                       dones: seq<nat>, i: nat, stale: seq<string>)
    requires Chain(ts, resources, manifest, rd, dones) && i < |ts|
    requires Inventory(resources, rd) && Accepted(ts[0], resources, rd)
    requires StaleListing(ts[i], resources, rd, stale)
    ensures Accepted(ts[i], resources, rd)
    ensures ApplyAll(ts[i], Plan(resources, stale, manifest)) == Target(resources, manifest)
    ensures forall p :: p in ts[0] && p !in ts[i] ==> Retirable(ts[0], resources, rd, p)
  {
    forall p ensures p in Previous(ts[0], rd) - Known(resources) <==> Retirable(ts[0], resources, rd, p) {
      RetirableIs(ts[0], resources, rd, p);
    }
    hide Retirable;
    ChainInHistory(ts, resources, manifest, rd, dones, i);
    HistoryAccepted(ts[0], resources, manifest, rd, ts[i]);
    FinishedIsTarget(ts[i], resources, manifest, rd, stale);
    ContentsKeys(resources);
  }

  /** Missing is where no file stands, changed where a file of other bytes does; the rest of the tree is extra. */
  lemma {:induction false} DiffTells(d: Diff, t: Tree, resources: seq<Resource>, manifest: bytes, rd: Reading, i: nat,
                                     p: string)
    requires Inventory(resources, rd) && Describes(d, t, resources, manifest) && i < |resources|
    ensures
      var r := resources[i];
      && (r.path in d.missing <==> !(r.path in t && t[r.path].File?))
      && (r.path in d.changed <==> r.path in t && t[r.path].File? && t[r.path].data != r.data)
    ensures p in d.extra <==>
              p in t && p != "manifest.json" && forall j :: 0 <= j < |resources| ==> resources[j].path != p
    ensures d.manifestMismatch <==> !("manifest.json" in t && t["manifest.json"] == File(manifest))
  {
    hide Permitted;
    assert forall j :: 0 <= j < |resources| && resources[j].path == resources[i].path ==> j == i;
    assert forall j :: 0 <= j < |resources| ==> resources[j] in resources;
    if p in Known(resources) {
      var r :| r in resources && r.path == p;
      var j :| 0 <= j < |resources| && resources[j] == r;
    }
  }

  /** The comparison finds nothing exactly when the tree is the target. */
  lemma {:induction false} CleanIffTarget(d: Diff, t: Tree, resources: seq<Resource>, manifest: bytes, rd: Reading)
    requires Inventory(resources, rd) && OnlyFiles(t) && Describes(d, t, resources, manifest)
    ensures Clean(d) <==> t == Target(resources, manifest)
  {
    ContentsKeys(resources);
    forall i | 0 <= i < |resources|
      ensures resources[i].path in Target(resources, manifest)
      ensures Target(resources, manifest)[resources[i].path] == File(resources[i].data)
    {
      ContentsAt(resources, rd, i);
      assert resources[i].path in Known(resources);
      KnownPermitted(resources, rd, resources[i].path);
    }
    if Clean(d) {
      forall i | 0 <= i < |resources| ensures !MissingAt(t, resources[i]) && !ChangedAt(t, resources[i]) {
        assert resources[i].path !in d.missing && resources[i].path !in d.changed;
      }
      ListsNothing(d.extra, t.Keys - {MANIFEST} - Known(resources));
      forall p | p in t ensures p == MANIFEST || p in Known(resources) {
        assert p !in t.Keys - {MANIFEST} - Known(resources);
      }
      CleanIsTarget(t, resources, manifest, rd);
    }
    if t == Target(resources, manifest) {
      assert forall p :: p !in d.missing && p !in d.changed;
      NoMembers(d.missing);
      NoMembers(d.changed);
      ListsNothing(d.extra, t.Keys - {MANIFEST} - Known(resources));
    }
  }

  lemma {:induction false} CleanIsTarget(t: Tree, resources: seq<Resource>, manifest: bytes, rd: Reading)
    requires Inventory(resources, rd)
    requires forall i :: 0 <= i < |resources| ==> !MissingAt(t, resources[i]) && !ChangedAt(t, resources[i])
    requires forall p :: p in t ==> p == MANIFEST || p in Known(resources)
    requires MANIFEST in t && t[MANIFEST] == File(manifest)
    ensures t == Target(resources, manifest)
  {
    hide MissingAt, ChangedAt, Permitted;
    ContentsKeys(resources);
    forall p | p in Known(resources) ensures p in t && p in Contents(resources) && t[p] == Contents(resources)[p] {
      var r :| r in resources && r.path == p;
      var i :| 0 <= i < |resources| && resources[i] == r;
      ContentsAt(resources, rd, i);
      SameAt(t, resources[i]);
    }
  }

  lemma {:induction false} SameAt(t: Tree, r: Resource)
    requires !MissingAt(t, r) && !ChangedAt(t, r)
    ensures r.path in t && t[r.path] == File(r.data)
  {
  }
}
