/** Relative paths of packaged resources: the builder's safety rule and the installed loader's. */
module Paths {

  const MANIFEST := "manifest.json"

  const ALLOWED_ROOTS: seq<string> := ["schemas/", "migrations/", "skills/", "guidance/", "fixtures/", "support/"]

  function FirstSegment(path: string): (r: string)
    ensures r <= path
  {
    if path == "" || path[0] == '/' then "" else [path[0]] + FirstSegment(path[1..])
  }

  /** The parts between slashes; always at least one. */
  function Segments(path: string): seq<string> {
    var first := FirstSegment(path);
    if |first| == |path| then [first] else [first] + Segments(path[|first| + 1..])
  }

  function JoinSlash(parts: seq<string>): string {
    if |parts| == 0 then "" else if |parts| == 1 then parts[0] else parts[0] + "/" + JoinSlash(parts[1..])
  }

  /** The parts hold no slash and make up the path again with one between every two. */
  lemma {:induction false} SegmentsJoin(path: string)
    ensures Segments(path) != [] && JoinSlash(Segments(path)) == path
    ensures forall part :: part in Segments(path) ==> '/' !in part
  {
    var first := FirstSegment(path);
    FirstHasNoSlash(path);
    if |first| < |path| {
      SegmentsJoin(path[|first| + 1..]);
      assert path == first + "/" + path[|first| + 1..];
      assert Segments(path)[1..] == Segments(path[|first| + 1..]);
    }
  }

  lemma {:induction false} FirstHasNoSlash(path: string)
    ensures '/' !in FirstSegment(path)
    ensures |FirstSegment(path)| < |path| ==> path[|FirstSegment(path)|] == '/'
  {
    if path != "" && path[0] != '/' { FirstHasNoSlash(path[1..]); }
  }

  /** And parts that hold no slash, joined so, are the segments again. */
  lemma {:induction false} JoinSegments(parts: seq<string>)
    requires parts != [] && forall part :: part in parts ==> '/' !in part
    ensures Segments(JoinSlash(parts)) == parts
  {
    var first := parts[0];
    assert first in parts;
    if |parts| == 1 {
      OneSegment(first, "");
      assert first + "" == first && parts == [first];
      hide FirstSegment;
    } else {
      var below := JoinSlash(parts[1..]);
      assert forall part :: part in parts[1..] ==> part in parts;
      JoinSegments(parts[1..]);
      SegmentThen(first, below);
      assert JoinSlash(parts) == first + "/" + below && parts == [first] + parts[1..];
      hide Segments, JoinSlash;
    }
  }

  lemma {:induction false} SegmentThen(part: string, below: string)
    requires '/' !in part
    ensures Segments(part + "/" + below) == [part] + Segments(below)
  {
    OneSegment(part, "/" + below);
    assert part + ("/" + below) == part + "/" + below;
    assert (part + "/" + below)[|part| + 1..] == below;
    hide FirstSegment;
  }

  lemma {:induction false} OneSegment(part: string, rest: string)
    requires '/' !in part && (rest == "" || rest[0] == '/')
    ensures FirstSegment(part + rest) == part
  {
    if part == "" {
      assert part + rest == rest;
    } else {
      assert (part + rest)[1..] == part[1..] + rest;
      OneSegment(part[1..], rest);
    }
  }

  lemma {:induction false} CharsOfJoin(parts: seq<string>)
    ensures forall c :: c in JoinSlash(parts) ==> c == '/' || exists part :: part in parts && c in part
    ensures forall part, c :: part in parts && c in part ==> c in JoinSlash(parts)
  {
    if |parts| > 1 {
      CharsOfJoin(parts[1..]);
      forall c | c in JoinSlash(parts) ensures c == '/' || exists part :: part in parts && c in part {
        if c != '/' && c !in parts[0] {
          assert c in JoinSlash(parts[1..]);
          var part :| part in parts[1..] && c in part;
          assert part in parts;
        }
      }
      assert forall part :: part in parts ==> part == parts[0] || part in parts[1..];
    }
  }

  /** The builder's rule; whether a path is in normalization form C is left to the caller. */
  predicate Safe(path: string, normal: string -> bool) {
    && path != "" && normal(path)
    && path[0] != '/' && path[|path| - 1] != '/' && '\\' !in path && '\0' !in path
    && (forall i :: 0 < i < |path| ==> !(path[i - 1] == path[i] == '/'))
    && (forall i :: 0 <= i < |path| ==> path[i] >= ' ')
    && (forall i :: 0 <= i < |Segments(path)| ==> Segments(path)[i] !in ["", ".", ".."])
  }

  predicate WithinAllowedRoot(path: string) {
    exists i :: 0 <= i < |ALLOWED_ROOTS| && ALLOWED_ROOTS[i] <= path
  }

  /** What the builder and the synchronizer let into the package tree. */
  predicate Permitted(path: string, normal: string -> bool) {
    Safe(path, normal) && WithinAllowedRoot(path)
  }

  /** The installed loader's rule for the paths of an entry. */
  predicate Loadable(path: string) {
    && !("/" <= path) && !("." <= path) && '\\' !in path
    && forall i :: 0 <= i < |Segments(path)| ==> Segments(path)[i] !in ["", ".", ".."]
  }

  /** Whatever the builder permits the loader accepts, and it never is the manifest itself. */
  lemma {:induction false} PermittedLoads(path: string, normal: string -> bool)
    requires Permitted(path, normal)
    ensures Loadable(path) && path != MANIFEST
  {
    var i :| 0 <= i < |ALLOWED_ROOTS| && ALLOWED_ROOTS[i] <= path;
    var root := ALLOWED_ROOTS[i];
    assert root in ["schemas/", "migrations/", "skills/", "guidance/", "fixtures/", "support/"];
    assert root[0] in "smgf" && path[0] == root[0] && path[1] == root[1];
    assert root[0] == 'm' ==> root[1] == 'i';
    assert MANIFEST[1] == 'a';
  }

  /** The builder permits just what the loader accepts, in normal form, without control characters, below its roots. */
  lemma {:induction false} PermittedIff(path: string, normal: string -> bool)
    ensures Permitted(path, normal) <==>
              && Loadable(path) && normal(path) && (forall c :: c in path ==> c >= ' ')
              && exists root :: root in ALLOWED_ROOTS && root <= path
  {
    hide ALLOWED_ROOTS, Segments;
    if Permitted(path, normal) { PermittedLoads(path, normal); }
    if Loadable(path) { NoEmptySegment(path); }
    assert path != "" ==> ("/" <= path <==> path[0] == '/');
    assert '\0' < ' ' && forall i :: 0 <= i < |path| ==> path[i] in path;
    if Permitted(path, normal) {
      var i :| 0 <= i < |ALLOWED_ROOTS| && ALLOWED_ROOTS[i] <= path;
      assert ALLOWED_ROOTS[i] in ALLOWED_ROOTS;
    }
    if root :| root in ALLOWED_ROOTS && root <= path {
      var i :| 0 <= i < |ALLOWED_ROOTS| && ALLOWED_ROOTS[i] == root;
      assert WithinAllowedRoot(path);
    }
  }

  lemma {:induction false} NoEmptySegment(path: string)
    requires forall i :: 0 <= i < |Segments(path)| ==> Segments(path)[i] != ""
    ensures path != "" && path[0] != '/' && path[|path| - 1] != '/'
    ensures forall i :: 0 < i < |path| ==> !(path[i - 1] == path[i] == '/')
  {
    var first := FirstSegment(path);
    FirstHasNoSlash(path);
    assert Segments(path)[0] == first;
    if |first| < |path| {
      var rest := path[|first| + 1..];
      assert Segments(path)[1..] == Segments(rest);
      assert forall i :: 0 <= i < |Segments(rest)| ==> Segments(rest)[i] == Segments(path)[i + 1];
      NoEmptySegment(rest);
      forall i | 0 < i < |path| ensures !(path[i - 1] == path[i] == '/') {
        if i > |first| + 1 { assert path[i] == rest[i - |first| - 1] && path[i - 1] == rest[i - |first| - 2]; }
        if i < |first| { assert path[i] == first[i]; }
        if i == |first| { assert path[i - 1] == first[i - 1]; }
      }
      assert path[|path| - 1] == rest[|rest| - 1];
    }
    assert path[0] == first[0];
  }

  /** Part by part: the loader takes no empty, `.` or `..` part, no backslash, and no path that begins with a dot. */
  lemma {:induction false} LoadableByParts(parts: seq<string>)
    requires parts != [] && forall part :: part in parts ==> '/' !in part
    ensures Loadable(JoinSlash(parts)) <==>
              && (forall part :: part in parts ==> part != "" && part != "." && part != ".." && '\\' !in part)
              && !("." <= parts[0])
  {
    JoinSegments(parts);
    CharsOfJoin(parts);
    assert parts[0] in parts;
    assert forall i :: 0 <= i < |parts| ==> parts[i] in parts;
    assert parts[0] != "" ==> JoinSlash(parts)[0] == parts[0][0] && parts[0][0] in parts[0];
    hide JoinSlash, Segments;
  }
}
