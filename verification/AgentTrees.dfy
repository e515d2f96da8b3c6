/** The two committed agent trees: foreign files stop every write, recorded leftovers are retired. */
module AgentTrees {
  import opened Common
  import opened Json

  type Files = map<string, bytes>

  /** JSON parsing (none when it raises), the canonical digest and SHA-256. */
  datatype Codec = Codec(parse: bytes -> Option<Json>, digest: Json -> string, sha: bytes -> string)

  datatype Mode = Preflight | Check | Write

  datatype Verdict = Pass | UnsafeTree | ForeignFiles | Drift | Stopped

  const DIGEST := "marker_digest"

  // ----- what an old marker records

  predicate Names(item: Json, name: string) {
    item.Obj? && "relative_path" in item.members && item.members["relative_path"] == Str(name)
  }

  /** Python's equality with an integer, under which true is 1 and false is 0. */
  predicate EqualsInt(j: Json, n: nat) {
    j == Num(n as real) || (j.Bool? && n == if j.b then 1 else 0)
  }

  predicate Binds(c: Codec, item: Json, data: bytes) {
    && item.Obj? && "size" in item.members && EqualsInt(item.members["size"], |data|)
    && "sha256" in item.members && item.members["sha256"] == Str(c.sha(data))
  }

  function Matches(items: seq<Json>, name: string): seq<Json> {
    if items == [] then []
    else if Names(items[0], name) then [items[0]] + Matches(items[1..], name)
    else Matches(items[1..], name)
  }

  /** The managed files of a marker whose digest binds the rest of it. */
  function Managed(c: Codec, marker: Json): Option<seq<Json>> {
    if !marker.Obj? || DIGEST !in marker.members then None
    else
      var rest := marker.members - {DIGEST};
      if Str(c.digest(Obj(rest))) != marker.members[DIGEST] then None
      else if "managed_files" !in rest || !rest["managed_files"].Arr? then None
      else
        var items := rest["managed_files"].items;
        if forall i :: 0 <= i < |items| ==> items[i].Obj? then Some(items) else None
  }

  predicate BoundBy(c: Codec, items: seq<Json>, name: string, data: bytes) {
    var matches := Matches(items, name);
    |matches| == 1 && Binds(c, matches[0], data)
  }

  function ReadMarker(c: Codec, raw: bytes): Option<seq<Json>> {
    match c.parse(raw)
    case None => None
    case Some(value) => Managed(c, value)
  }

  function MarkerOf(c: Codec, existing: Files, marker: string): Option<seq<Json>> {
    if marker in existing then ReadMarker(c, existing[marker]) else None
  }

  /** Every extra file is named once, with its size and hash, by a self-consistent marker found in the tree. */
  predicate Recorded(c: Codec, existing: Files, marker: string, extras: set<string>)
    requires extras <= existing.Keys
  {
    extras == {}
    || match MarkerOf(c, existing, marker)
       case None => false
       case Some(items) => forall name :: name in extras ==> BoundBy(c, items, name, existing[name])
  }

  function Extras(existing: Files, expected: Files): set<string> {
    existing.Keys - expected.Keys
  }

  method RecordedExtras(c: Codec, existing: Files, marker: string, extras: set<string>) returns (r: bool)
    requires extras <= existing.Keys
    ensures r <==> Recorded(c, existing, marker, extras)
  {
    if extras == {} { return true; }
    if marker !in existing { return false; }
    var value := c.parse(existing[marker]);
    if value.None? || !value.value.Obj? || DIGEST !in value.value.members { return false; }
    var members := value.value.members;
    var digest := members[DIGEST];
    members := members - {DIGEST};
    if Str(c.digest(Obj(members))) != digest { return false; }
    if "managed_files" !in members || !members["managed_files"].Arr? { return false; }
    var items := members["managed_files"].items;
    if exists i :: 0 <= i < |items| && !items[i].Obj? { return false; }
    assert MarkerOf(c, existing, marker) == Some(items);
    hide MarkerOf, Managed, Matches;
    var pending := extras;
    while pending != {}
      invariant pending <= extras
      invariant forall name :: name in extras && name !in pending ==> BoundBy(c, items, name, existing[name])
      decreases |pending|
    {
      var name :| name in pending;
      var matches := Matches(items, name);
      if |matches| != 1 || !Binds(c, matches[0], existing[name]) { return false; }
      pending := pending - {name};
    }
    return true;
  }

  /** The bytes parse to an object whose digest member is the digest of the rest, which lists these objects. */
  predicate SelfConsistent(c: Codec, raw: bytes, items: seq<Json>) {
    var value := c.parse(raw);
    && value.Some? && value.value.Obj? && "marker_digest" in value.value.members
    && value.value.members["marker_digest"] == Str(c.digest(Obj(value.value.members - {"marker_digest"})))
    && "managed_files" in value.value.members && value.value.members["managed_files"] == Arr(items)
    && forall i :: 0 <= i < |items| ==> items[i].Obj?
  }

  predicate NamedBy(item: Json, name: string) {
    item.Obj? && "relative_path" in item.members && item.members["relative_path"] == Str(name)
  }

  /** One entry and no other names the file, with its size and its hash. */
  predicate OnlyEntry(c: Codec, items: seq<Json>, name: string, data: bytes) {
    exists i ::
      && 0 <= i < |items| && NamedBy(items[i], name)
      && "size" in items[i].members
      && (|| items[i].members["size"] == Num(|data| as real)
          || (items[i].members["size"] == Bool(true) && |data| == 1)
          || (items[i].members["size"] == Bool(false) && |data| == 0))
      && "sha256" in items[i].members && items[i].members["sha256"] == Str(c.sha(data))
      && forall j :: 0 <= j < |items| && NamedBy(items[j], name) ==> j == i
  }

  /** Some marker in the tree vouches for each of these files. */
  ghost predicate Vouched(c: Codec, existing: Files, marker: string, names: set<string>)
    requires names <= existing.Keys
  {
    marker in existing && exists items ::
      SelfConsistent(c, existing[marker], items) && forall name :: name in names ==>
        OnlyEntry(c, items, name, existing[name])
  }

  lemma {:induction false} ReadIffConsistent(c: Codec, raw: bytes, items: seq<Json>)
    ensures ReadMarker(c, raw) == Some(items) <==> SelfConsistent(c, raw, items)
  {
    var value := c.parse(raw);
    assert value.Some? && value.value.Obj? ==> "managed_files" != DIGEST;
  }

  lemma {:induction false} BoundIffOnly(c: Codec, items: seq<Json>, name: string, data: bytes)
    ensures BoundBy(c, items, name, data) <==> OnlyEntry(c, items, name, data)
  {
    if |Matches(items, name)| == 1 {
      UniqueMatch(items, name);
      var i :| 0 <= i < |items| && Names(items[i], name) && Matches(items, name) == [items[i]]
               && forall j :: 0 <= j < |items| && Names(items[j], name) ==> j == i;
      assert NamedBy(items[i], name);
      hide Matches;
    } else if OnlyEntry(c, items, name, data) {
      OneMatch(items, name);
    }
  }

  lemma {:induction false} OneMatch(items: seq<Json>, name: string)
    requires exists i :: 0 <= i < |items| && Names(items[i], name)
                         && forall j :: 0 <= j < |items| && Names(items[j], name) ==> j == i
    ensures |Matches(items, name)| == 1
  {
    assert forall j :: 0 < j < |items| ==> items[j] == items[1..][j - 1];
    if Names(items[0], name) {
      NoneMatch(items[1..], name);
    } else {
      var i :| 0 <= i < |items| && Names(items[i], name)
               && forall j :: 0 <= j < |items| && Names(items[j], name) ==> j == i;
      assert Names(items[1..][i - 1], name);
      OneMatch(items[1..], name);
    }
  }

  lemma {:induction false} NoneMatch(items: seq<Json>, name: string)
    requires forall j :: 0 <= j < |items| ==> !Names(items[j], name)
    ensures Matches(items, name) == []
  {
    if items != [] { NoneMatch(items[1..], name); }
  }

  lemma {:induction false} UniqueMatch(items: seq<Json>, name: string)
    requires |Matches(items, name)| == 1
    ensures exists i :: 0 <= i < |items| && Names(items[i], name) && Matches(items, name) == [items[i]]
                        && forall j :: 0 <= j < |items| && Names(items[j], name) ==> j == i
  {
    if Names(items[0], name) {
      NoMatch(items[1..], name);
      assert forall j :: 0 < j < |items| ==> items[j] == items[1..][j - 1];
      assert Names(items[0], name) && Matches(items, name) == [items[0]];
    } else {
      UniqueMatch(items[1..], name);
      var i :| 0 <= i < |items[1..]| && Names(items[1..][i], name) && Matches(items[1..], name) == [items[1..][i]]
               && forall j :: 0 <= j < |items[1..]| && Names(items[1..][j], name) ==> j == i;
      assert items[i + 1] == items[1..][i];
      forall j | 0 <= j < |items| && Names(items[j], name) ensures j == i + 1 {
        assert j > 0 && items[j] == items[1..][j - 1];
      }
    }
  }

  lemma {:induction false} NoMatch(items: seq<Json>, name: string)
    requires Matches(items, name) == []
    ensures forall j :: 0 <= j < |items| ==> !Names(items[j], name)
  {
    if items != [] {
      NoMatch(items[1..], name);
      assert forall j :: 0 < j < |items| ==> items[j] == items[1..][j - 1];
    }
  }

  // ----- the two trees

  /** A tree below the checkout; unsafe when a link or special file lies on or in it. */
  class Tree {
    var files: Files
    const unsafe: bool
    const marker: string

    constructor (files: Files, unsafe: bool, marker: string)
      ensures this.files == files && this.unsafe == unsafe && this.marker == marker
    {
      this.files, this.unsafe, this.marker := files, unsafe, marker;
    }

    /** Write what differs from the rendering, in any order, then remove the leftovers; stoppable at any point. */
    method Render(expected: Files, budget: nat) returns (left: nat, finished: bool)
      modifies this
      ensures finished ==> files == expected
      ensures forall name :: name in old(files) && name !in files ==> name !in expected
      ensures exists written, torn, removed :: StoppedAt(old(files), expected, written, torn, removed, files)
    {
      hide StoppedAt;
      var existing := files;
      ghost var written: set<string>, torn: Option<Cut>;
      left, finished, written, torn := WriteChanged(expected, budget);
      NothingLost(existing, expected, written, torn, files);
      if finished {
        ghost var removed: set<string>;
        left, finished, removed := RemoveAll(Extras(existing, expected), left);
        SomeRemoved(existing, expected, removed);
        if finished { AllRemoved(existing, expected); }
        assert files == existing + expected - removed;
      }
    }

    /** A file is emptied and then filled; the process may be stopped before it, or anywhere inside. */
    method WriteChanged(expected: Files, budget: nat)
      returns (left: nat, finished: bool, ghost written: set<string>, ghost torn: Option<Cut>)
      modifies this
      ensures StoppedAt(old(files), expected, written, torn, {}, files)
      ensures finished ==> files == old(files) + expected
    {
      hide StoppedAt;
      var existing, names := files, expected.Keys;
      left, written, torn := budget, {}, None;
      NotStarted(existing, expected);
      while names != {}
        invariant names <= expected.Keys && written == expected.Keys - names && torn == None
        invariant StoppedAt(existing, expected, written, None, {}, files)
        decreases |names|
      {
        var relative :| relative in names;
        var same := relative in existing && existing[relative] == expected[relative];
        if !same {
          if left == 0 {
            if * {
              var cut: nat :| cut <= |expected[relative]|;
              torn := Some(Cut(relative, expected[relative][..cut]));
              CutShort(existing, expected, written, files, torn.value);
              files := files[relative := expected[relative][..cut]];
            }
            finished := false;
            return;
          }
          left := left - 1;
        }
        OneWritten(existing, expected, written, files, relative);
        if !same { files := files[relative := expected[relative]]; }
        names, written := names - {relative}, written + {relative};
      }
      assert written == expected.Keys;
      AllWritten(existing, expected, files);
      finished := true;
    }

    method RemoveAll(leftovers: set<string>, budget: nat) returns (left: nat, finished: bool,
          ghost removed: set<string>)
      modifies this
      ensures removed <= leftovers && files == old(files) - removed
      ensures finished ==> removed == leftovers
    {
      var pending := leftovers;
      left := budget;
      while pending != {}
        invariant pending <= leftovers && files == old(files) - (leftovers - pending)
        decreases |pending|
      {
        removed := leftovers - pending;
        if left == 0 { return left, false, removed; }
        var relative :| relative in pending;
        files, pending, left := files - {relative}, pending - {relative}, left - 1;
      }
      finished, removed := true, leftovers;
    }
  }

  /** A file that was being written, and the beginning of it that was. */
  datatype Cut = Cut(path: string, data: bytes)

  predicate IsCut(torn: Option<Cut>, path: string) {
    torn.Some? && torn.value.path == path
  }

  /** Some files written, perhaps the next one cut short, and once all are written some leftovers removed. */
  ghost predicate StoppedAt(existing: Files, expected: Files, written: set<string>, torn: Option<Cut>,
                            removed: set<string>, files: Files) {
    && written <= expected.Keys && removed <= Extras(existing, expected)
    && (removed != {} ==> written == expected.Keys)
    && (torn.Some? ==>
          var Cut(p, data) := torn.value;
          p in expected && p !in written && data <= expected[p] && !(p in existing && existing[p] == expected[p]))
    && (forall p :: p in files <==> (p in existing || p in written || IsCut(torn, p)) && p !in removed)
    && forall p :: p in files ==>
         files[p] == if IsCut(torn, p) then torn.value.data else if p in written then expected[p] else existing[p]
  }

  lemma {:induction false} NotStarted(existing: Files, expected: Files)
    ensures StoppedAt(existing, expected, {}, None, {}, existing)
  {
  }

  lemma {:induction false} NothingLost(existing: Files, expected: Files, written: set<string>, torn: Option<Cut>,
                                       files: Files)
    requires StoppedAt(existing, expected, written, torn, {}, files)
    ensures forall name :: name in existing ==> name in files
  {
  }

  lemma {:induction false} OneWritten(existing: Files, expected: Files, written: set<string>, files: Files, p: string)
    requires StoppedAt(existing, expected, written, None, {}, files) && p in expected && p !in written
    ensures
      var after := if p in existing && existing[p] == expected[p] then files else files[p := expected[p]];
      StoppedAt(existing, expected, written + {p}, None, {}, after)
  {
  }

  lemma {:induction false} CutShort(existing: Files, expected: Files, written: set<string>, files: Files, cut: Cut)
    requires StoppedAt(existing, expected, written, None, {}, files) && cut.path in expected && cut.path !in written
    requires cut.data <= expected[cut.path] && !(cut.path in existing && existing[cut.path] == expected[cut.path])
    ensures StoppedAt(existing, expected, written, Some(cut), {}, files[cut.path := cut.data])
  {
  }

  lemma {:induction false} AllWritten(existing: Files, expected: Files, files: Files)
    requires StoppedAt(existing, expected, expected.Keys, None, {}, files)
    ensures files == existing + expected
  {
  }

  lemma {:induction false} SomeRemoved(existing: Files, expected: Files, removed: set<string>)
    requires removed <= Extras(existing, expected)
    ensures StoppedAt(existing, expected, expected.Keys, None, removed, existing + expected - removed)
  {
  }

  lemma {:induction false} AllRemoved(existing: Files, expected: Files)
    ensures existing + expected - Extras(existing, expected) == expected
  {
  }

  predicate Owned(c: Codec, existing: Files, expected: Files, marker: string) {
    Recorded(c, existing, marker, Extras(existing, expected))
  }

  /** A tree may be written exactly when nothing in it is extra, or its marker vouches for every extra file. */
  lemma {:induction false} OwnedIff(c: Codec, existing: Files, expected: Files, marker: string)
    ensures Owned(c, existing, expected, marker) <==>
              existing.Keys <= expected.Keys || Vouched(c, existing, marker, existing.Keys - expected.Keys)
  {
    hide ReadMarker, BoundBy, OnlyEntry, SelfConsistent;
    var extras := existing.Keys - expected.Keys;
    if extras == {} {
      forall p | p in existing.Keys ensures p in expected.Keys { assert p !in extras; }
    }
    if marker in existing {
      forall items: seq<Json>
        ensures ReadMarker(c, existing[marker]) == Some(items) <==> SelfConsistent(c, existing[marker], items)
      {
        ReadIffConsistent(c, existing[marker], items);
      }
      if ReadMarker(c, existing[marker]).Some? {
        var items := ReadMarker(c, existing[marker]).value;
        forall name | name in extras
          ensures BoundBy(c, items, name, existing[name]) <==> OnlyEntry(c, items, name, existing[name])
        {
          BoundIffOnly(c, items, name, existing[name]);
        }
        assert SelfConsistent(c, existing[marker], items);
      }
    }
  }

  method Sync(c: Codec, mode: Mode, plugin: Tree, skill: Tree, expectedPlugin: Files, expectedSkill: Files, budget: nat)
    returns (r: Verdict)
    requires plugin != skill
    modifies plugin, skill
    ensures r == UnsafeTree <==> plugin.unsafe || skill.unsafe
    ensures r == ForeignFiles <==>
              && r != UnsafeTree
              && !(Owned(c, old(plugin.files), expectedPlugin, plugin.marker)
                   && Owned(c, old(skill.files), expectedSkill, skill.marker))
    ensures r == Drift <==>
              && r != UnsafeTree && r != ForeignFiles && mode == Check
              && !(old(plugin.files) == expectedPlugin && old(skill.files) == expectedSkill)
    ensures r == Stopped ==> mode == Write
    ensures forall name :: name in old(plugin.files) && name !in plugin.files ==>
              && name !in expectedPlugin && old(plugin.files).Keys - expectedPlugin.Keys <= old(plugin.files).Keys
              && Vouched(c, old(plugin.files), plugin.marker, old(plugin.files).Keys - expectedPlugin.Keys)
    ensures forall name :: name in old(skill.files) && name !in skill.files ==>
              && name !in expectedSkill && old(skill.files).Keys - expectedSkill.Keys <= old(skill.files).Keys
              && Vouched(c, old(skill.files), skill.marker, old(skill.files).Keys - expectedSkill.Keys)
    ensures r == Stopped ==>
              exists written, torn, removed ::
                StoppedAt(old(plugin.files), expectedPlugin, written, torn, removed, plugin.files)
    ensures r == Stopped ==>
              exists written, torn, removed ::
                StoppedAt(old(skill.files), expectedSkill, written, torn, removed, skill.files)
    ensures r == Stopped ==> skill.files == old(skill.files) || plugin.files == expectedPlugin
    ensures r == Pass && mode == Write ==> plugin.files == expectedPlugin && skill.files == expectedSkill
    ensures r != Stopped && !(r == Pass && mode == Write) ==>
              plugin.files == old(plugin.files) && skill.files == old(skill.files)
  {
    hide Recorded, StoppedAt, Vouched;
    OwnedIff(c, plugin.files, expectedPlugin, plugin.marker);
    OwnedIff(c, skill.files, expectedSkill, skill.marker);
    if plugin.unsafe || skill.unsafe { return UnsafeTree; }
    var ours := RecordedExtras(c, plugin.files, plugin.marker, Extras(plugin.files, expectedPlugin));
    if !ours { return ForeignFiles; }
    ours := RecordedExtras(c, skill.files, skill.marker, Extras(skill.files, expectedSkill));
    if !ours { return ForeignFiles; }
    if mode == Preflight { return Pass; }
    var pluginDrifts, skillDrifts := plugin.files != expectedPlugin, skill.files != expectedSkill;
    if mode == Check && (pluginDrifts || skillDrifts) { return Drift; }
    if mode == Write {
      NotStarted(plugin.files, expectedPlugin);
      NotStarted(skill.files, expectedSkill);
      var left, finished := budget, true;
      if pluginDrifts { left, finished := plugin.Render(expectedPlugin, left); }
      if !finished { return Stopped; }
      if skillDrifts { left, finished := skill.Render(expectedSkill, left); }
      if !finished { return Stopped; }
    }
    return Pass;
  }

  // ----- the main results

  /** A write that passes leaves trees that a check passes. */
  method WriteThenCheck(c: Codec, plugin: Tree, skill: Tree, expectedPlugin: Files, expectedSkill: Files, budget: nat)
    returns (written: Verdict, checked: Verdict)
    requires plugin != skill
    modifies plugin, skill
    ensures written == Pass ==> checked == Pass
    ensures written == Pass ==> plugin.files == expectedPlugin && skill.files == expectedSkill
  {
    hide Recorded, StoppedAt, Vouched;
    written := Sync(c, Write, plugin, skill, expectedPlugin, expectedSkill, budget);
    checked := written;
    if written == Pass {
      OwnedIff(c, plugin.files, expectedPlugin, plugin.marker);
      OwnedIff(c, skill.files, expectedSkill, skill.marker);
      checked := Sync(c, Check, plugin, skill, expectedPlugin, expectedSkill, budget);
    }
  }

  /** A file goes only when a self-consistent marker names it in exactly one entry, with its size and hash. */
  lemma {:induction false} OnlyBoundRemoved(c: Codec, existing: Files, expected: Files, marker: string, name: string)
    requires Owned(c, existing, expected, marker) && name in existing && name !in expected
    ensures marker in existing
    ensures exists items :: SelfConsistent(c, existing[marker], items) && OnlyEntry(c, items, name, existing[name])
  {
    hide SelfConsistent, OnlyEntry, Owned;
    OwnedIff(c, existing, expected, marker);
    assert name in existing.Keys - expected.Keys;
  }

  /** The bytes are a self-consistent marker that binds each of these files. */
  predicate Records(c: Codec, raw: bytes, names: set<string>, existing: Files)
    requires names <= existing.Keys
  {
    match ReadMarker(c, raw)
    case None => false
    case Some(items) => forall name :: name in names ==> BoundBy(c, items, name, existing[name])
  }

  /**
   * Wherever a write is stopped, the tree is accepted again exactly when nothing is left to remove, or the old marker
   * was not touched, or what then stands in its place, whole or cut short, happens to record what is left to remove.
   */
  lemma {:induction false} StoppedWrite(c: Codec, existing: Files, expected: Files, marker: string,
        written: set<string>, torn: Option<Cut>, removed: set<string>, files: Files)
    requires marker in expected && Owned(c, existing, expected, marker)
    requires StoppedAt(existing, expected, written, torn, removed, files)
    ensures Extras(files, expected) == Extras(existing, expected) - removed
    ensures
      var rest := Extras(existing, expected) - removed;
      Owned(c, files, expected, marker)
      <==> || rest == {}
           || (marker !in written && !IsCut(torn, marker))
           || (marker in written && Records(c, expected[marker], rest, existing))
           || (IsCut(torn, marker) && Records(c, torn.value.data, rest, existing))
  {
    hide BoundBy, ReadMarker;
    var rest := Extras(existing, expected) - removed;
    assert Extras(files, expected) == rest;
    assert forall name :: name in rest ==> files[name] == existing[name];
    if IsCut(torn, marker) {
      assert files[marker] == torn.value.data;
    } else if marker in written {
      assert files[marker] == expected[marker];
    } else {
      assert removed == {} && (marker in files <==> marker in existing);
      assert marker in existing ==> files[marker] == existing[marker];
      assert rest == Extras(existing, expected);
    }
  }

  /** A write that is accepted again and finishes then leaves the rendering, as if it had never been stopped. */
  lemma {:induction false} ResumedWrite(existing: Files, expected: Files, written: set<string>, torn: Option<Cut>,
                                        removed: set<string>, files: Files, after: Files)
    requires StoppedAt(existing, expected, written, torn, removed, files)
    requires StoppedAt(files, expected, expected.Keys, None, Extras(files, expected), after)
    ensures after == expected
  {
  }

  // ----- it happens

  const LEFTOVER := Obj(map["relative_path" := Str("old"), "size" := Num(0.0), "sha256" := Str("s")])

  /** The marker bytes [1] record the empty file `old`; no other bytes are JSON. */
  const EXAMPLE: Codec := Codec(
    raw => if raw == [1] then Some(Obj(map[DIGEST := Str("d"), "managed_files" := Arr([LEFTOVER])])) else None,
    value => "d",
    data => "s")

  const EXAMPLE_TREE: Files := map["m" := [1], "old" := []]

  const EXAMPLE_RENDERING: Files := map["m" := [2]]

  /** With every file written, or with the new marker cut short, and the leftover still there, the tree is refused. */
  lemma {:induction false} StoppedWriteRefused()
    ensures Owned(EXAMPLE, EXAMPLE_TREE, EXAMPLE_RENDERING, "m")
    ensures
      var whole := EXAMPLE_TREE["m" := [2]];
      && StoppedAt(EXAMPLE_TREE, EXAMPLE_RENDERING, {"m"}, None, {}, whole)
      && !Owned(EXAMPLE, whole, EXAMPLE_RENDERING, "m")
    ensures
      var short := EXAMPLE_TREE["m" := []];
      && StoppedAt(EXAMPLE_TREE, EXAMPLE_RENDERING, {}, Some(Cut("m", [])), {}, short)
      && !Owned(EXAMPLE, short, EXAMPLE_RENDERING, "m")
  {
    hide ReadMarker, BoundBy, EXAMPLE;
    assert |"m"| != |"old"|;
    assert EXAMPLE_TREE.Keys == {"m", "old"} && EXAMPLE_RENDERING.Keys == {"m"};
    assert Extras(EXAMPLE_TREE, EXAMPLE_RENDERING) == {"old"};
    ExampleRecords();
    assert MarkerOf(EXAMPLE, EXAMPLE_TREE, "m") == Some([LEFTOVER]);
    var whole, short := EXAMPLE_TREE["m" := [2]], EXAMPLE_TREE["m" := []];
    StoppedWrite(EXAMPLE, EXAMPLE_TREE, EXAMPLE_RENDERING, "m", {"m"}, None, {}, whole);
    StoppedWrite(EXAMPLE, EXAMPLE_TREE, EXAMPLE_RENDERING, "m", {}, Some(Cut("m", [])), {}, short);
  }

  lemma {:induction false} ExampleRecords()
    ensures ReadMarker(EXAMPLE, [1]) == Some([LEFTOVER]) && BoundBy(EXAMPLE, [LEFTOVER], "old", [])
    ensures ReadMarker(EXAMPLE, [2]).None? && ReadMarker(EXAMPLE, []).None?
  {
    var m := map[DIGEST := Str("d"), "managed_files" := Arr([LEFTOVER])];
    assert DIGEST[3] != "managed_files"[3];
    assert DIGEST in m && m[DIGEST] == Str("d") && m["managed_files"] == Arr([LEFTOVER]);
    var f := LEFTOVER.members;
    assert |"relative_path"| != |"size"| && |"size"| != |"sha256"| && |"relative_path"| != |"sha256"|;
    assert f["relative_path"] == Str("old") && f["size"] == Num(0.0) && f["sha256"] == Str("s");
    assert [LEFTOVER][1..] == [];
    assert Matches([LEFTOVER], "old") == [LEFTOVER];
  }
}
