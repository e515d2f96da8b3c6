/** The digest of the owned byte set: a length-prefixed stream that no two different sets share. */
module OwnedDigest {
  import opened Common

  type Files = map<string, bytes>

  const OWNED_ROOTS: seq<string> := ["schemas", "src/yoetz/resources", ".agents/plugins/yoetz", ".agents/skills/yoetz"]

  const OWNED_FILES: seq<string> := ["skills/codex/yoetz/manifest.json", "support/runtime-support.json"]

  const NAME_LIMIT := 0x1_0000_0000

  const DATA_LIMIT := 0x1_0000_0000_0000_0000

  predicate IsOwned(path: string) {
    path in OWNED_FILES || exists i :: 0 <= i < |OWNED_ROOTS| && OWNED_ROOTS[i] + "/" <= path
  }

  function OwnedPart(files: Files): Files {
    map p | p in files && IsOwned(p) :: files[p]
  }

  /** Two single files, and everything below four directories, with their own bytes. */
  lemma {:induction false} OwnedAre(files: Files, p: string)
    ensures p in OwnedPart(files) <==>
              && p in files
              && (|| p == "skills/codex/yoetz/manifest.json" || p == "support/runtime-support.json"
                  || "schemas/" <= p || "src/yoetz/resources/" <= p
                  || ".agents/plugins/yoetz/" <= p || ".agents/skills/yoetz/" <= p)
    ensures p in OwnedPart(files) ==> OwnedPart(files)[p] == files[p]
  {
    assert OWNED_ROOTS[0] + "/" == "schemas/" && OWNED_ROOTS[1] + "/" == "src/yoetz/resources/";
    assert OWNED_ROOTS[2] + "/" == ".agents/plugins/yoetz/" && OWNED_ROOTS[3] + "/" == ".agents/skills/yoetz/";
    assert OWNED_FILES[0] == "skills/codex/yoetz/manifest.json" && OWNED_FILES[1] == "support/runtime-support.json";
    hide OWNED_ROOTS, OWNED_FILES;
  }

  /** The last width bytes of n, most significant first. */
  function BigEndian(n: nat, width: nat): (r: bytes)
    ensures |r| == width
  {
    if width == 0 then [] else BigEndian(n / 256, width - 1) + [n % 256]
  }

  function Number(b: bytes): nat {
    if b == [] then 0 else Number(b[..|b| - 1]) * 256 + b[|b| - 1]
  }

  function Power(width: nat): nat {
    if width == 0 then 1 else 256 * Power(width - 1)
  }

  lemma {:induction false} NumberOfBigEndian(n: nat, width: nat)
    requires n < Power(width)
    ensures Number(BigEndian(n, width)) == n
  {
    if width > 0 {
      NumberOfBigEndian(n / 256, width - 1);
      assert BigEndian(n, width)[..width - 1] == BigEndian(n / 256, width - 1);
    }
  }

  /** What one file adds to the stream: both lengths, its name and its bytes. */
  function Record(name: bytes, data: bytes): bytes {
    BigEndian(|name|, 4) + name + BigEndian(|data|, 8) + data
  }

  predicate Fits(name: bytes, data: bytes) {
    |name| < NAME_LIMIT && |data| < DATA_LIMIT
  }

  function Stream(utf8: string -> bytes, files: Files, paths: seq<string>): bytes
    requires forall p :: p in paths ==> p in files
  {
    if paths == [] then []
    else
      var last := paths[|paths| - 1];
      Stream(utf8, files, paths[..|paths| - 1]) + Record(utf8(last), files[last])
  }

  /** A running hash has taken in what it was fed, end to end. */
  class RunningHash {
    var fed: bytes

    constructor ()
      ensures fed == []
    {
      fed := [];
    }

    method Update(data: bytes)
      modifies this
      ensures fed == old(fed) + data
    {
      fed := fed + data;
    }
  }

  ghost predicate AllFit(utf8: string -> bytes, files: Files) {
    forall p :: p in files ==> Fits(utf8(p), files[p])
  }

  method Feed(name: bytes, data: bytes, hash: RunningHash)
    requires Fits(name, data)
    modifies hash
    ensures hash.fed == old(hash.fed) + Record(name, data)
  {
    hide BigEndian;
    hash.Update(BigEndian(|name|, 4));
    hash.Update(name);
    hash.Update(BigEndian(|data|, 8));
    hash.Update(data);
  }

  /** Feed every owned file in path order; fails when a named file is absent or a length does not fit its field. */
  method Digest(utf8: string -> bytes, files: Files, hash: RunningHash) returns (ok: bool)
    requires hash.fed == []
    modifies hash
    ensures ok <==> (forall p :: p in OWNED_FILES ==> p in files) && AllFit(utf8, OwnedPart(files))
    ensures ok ==> exists paths ::
      Lists(paths, OwnedPart(files).Keys) && hash.fed == Stream(utf8, OwnedPart(files), paths)
  {
    hide Record, IsOwned, Sorted, Distinct;
    var owned := OwnedPart(files);
    if exists i :: 0 <= i < |OWNED_FILES| && OWNED_FILES[i] !in files { return false; }
    var paths := ListSet(owned.Keys);
    var n := 0;
    while n < |paths|
      invariant 0 <= n <= |paths| && hash.fed == Stream(utf8, owned, paths[..n])
      invariant forall k :: 0 <= k < n ==> Fits(utf8(paths[k]), owned[paths[k]])
    {
      var relative, data := utf8(paths[n]), owned[paths[n]];
      assert paths[..n + 1][..n] == paths[..n];
      if |relative| >= NAME_LIMIT || |data| >= DATA_LIMIT {
        assert paths[n] in owned && !Fits(relative, data);
        return false;
      }
      Feed(relative, data, hash);
      n := n + 1;
    }
    forall p | p in owned ensures Fits(utf8(p), owned[p]) {
      assert p in paths;
    }
    assert paths[..n] == paths;
    return true;
  }

  // ----- the stream determines the set

  /** Records cut from the end of equal streams need their lengths; cut from the front they are unambiguous. */
  function Forward(utf8: string -> bytes, files: Files, paths: seq<string>): bytes
    requires forall p :: p in paths ==> p in files
  {
    if paths == [] then [] else Record(utf8(paths[0]), files[paths[0]]) + Forward(utf8, files, paths[1..])
  }

  lemma {:induction false} StreamAppend(utf8: string -> bytes, files: Files, a: seq<string>, b: seq<string>)
    requires forall p :: p in a + b ==> p in files
    ensures Forward(utf8, files, a + b) == Forward(utf8, files, a) + Forward(utf8, files, b)
  {
    hide Record;
    if a == [] {
      assert a + b == b;
    } else {
      assert (a + b)[1..] == a[1..] + b;
      assert forall p :: p in a[1..] + b ==> p in a + b;
      StreamAppend(utf8, files, a[1..], b);
    }
  }

  lemma {:induction false} StreamIsForward(utf8: string -> bytes, files: Files, paths: seq<string>)
    requires forall p :: p in paths ==> p in files
    ensures Stream(utf8, files, paths) == Forward(utf8, files, paths)
  {
    hide Record;
    if paths != [] {
      var n := |paths| - 1;
      StreamIsForward(utf8, files, paths[..n]);
      StreamAppend(utf8, files, paths[..n], [paths[n]]);
      assert paths == paths[..n] + [paths[n]];
      assert [paths[n]][1..] == [];
    }
  }

  lemma {:induction false} LengthPrefix(n: nat, m: nat, width: nat, x: bytes, y: bytes)
    requires n < Power(width) && m < Power(width) && BigEndian(n, width) + x == BigEndian(m, width) + y
    ensures n == m && x == y
  {
    NumberOfBigEndian(n, width);
    NumberOfBigEndian(m, width);
    assert (BigEndian(n, width) + x)[..width] == BigEndian(n, width);
    assert (BigEndian(m, width) + y)[..width] == BigEndian(m, width);
    assert (BigEndian(n, width) + x)[width..] == x;
    assert (BigEndian(m, width) + y)[width..] == y;
  }

  lemma {:induction false} SplitAt(a: bytes, b: bytes, x: bytes, y: bytes)
    requires |a| == |b| && a + x == b + y
    ensures a == b && x == y
  {
    assert (a + x)[..|a|] == a && (b + y)[..|b|] == b;
    assert (a + x)[|a|..] == x && (b + y)[|b|..] == y;
  }

  lemma {:induction false} Limits()
    ensures Power(4) == NAME_LIMIT && Power(8) == DATA_LIMIT
  {
    assert Power(1) == 0x100 && Power(2) == 0x1_0000 && Power(3) == 0x100_0000;
    assert Power(5) == 0x100_0000_0000 && Power(6) == 0x1_0000_0000_0000 && Power(7) == 0x100_0000_0000_0000;
  }

  lemma {:induction false} RecordFirst(a: bytes, d: bytes, x: bytes, b: bytes, e: bytes, y: bytes)
    requires Fits(a, d) && Fits(b, e) && Record(a, d) + x == Record(b, e) + y
    ensures a == b && d == e && x == y
  {
    hide BigEndian, Power;
    Limits();
    var p, q := BigEndian(|d|, 8) + (d + x), BigEndian(|e|, 8) + (e + y);
    assert Record(a, d) + x == BigEndian(|a|, 4) + (a + p);
    assert Record(b, e) + y == BigEndian(|b|, 4) + (b + q);
    LengthPrefix(|a|, |b|, 4, a + p, b + q);
    SplitAt(a, b, p, q);
    LengthPrefix(|d|, |e|, 8, d + x, e + y);
    SplitAt(d, e, x, y);
  }

  lemma {:induction false} ForwardEmpty(utf8: string -> bytes, files: Files, paths: seq<string>)
    requires forall p :: p in paths ==> p in files
    ensures Forward(utf8, files, paths) == [] <==> paths == []
  {
  }

  lemma {:induction false} StreamTells(utf8: string -> bytes, f: Files, g: Files, a: seq<string>, b: seq<string>)
    requires (forall p :: p in a ==> p in f) && (forall p :: p in b ==> p in g) && AllFit(utf8, f) && AllFit(utf8, g)
    requires forall p, q :: p in f && q in g && utf8(p) == utf8(q) ==> p == q
    requires Forward(utf8, f, a) == Forward(utf8, g, b)
    ensures a == b && forall p :: p in a ==> f[p] == g[p]
  {
    ForwardEmpty(utf8, f, a);
    ForwardEmpty(utf8, g, b);
    if a != [] && b != [] {
      var x, y := Forward(utf8, f, a[1..]), Forward(utf8, g, b[1..]);
      hide Record, Forward;
      assert Fits(utf8(a[0]), f[a[0]]) && Fits(utf8(b[0]), g[b[0]]);
      RecordFirst(utf8(a[0]), f[a[0]], x, utf8(b[0]), g[b[0]], y);
      StreamTells(utf8, f, g, a[1..], b[1..]);
      assert a == [a[0]] + a[1..] && b == [b[0]] + b[1..];
    }
  }

  /** Two owned sets feed the same bytes to the hash only when they hold the same names with the same bytes. */
  lemma {:induction false} StreamInjective(utf8: string -> bytes, f: Files, g: Files, a: seq<string>, b: seq<string>)
    requires Lists(a, f.Keys) && Lists(b, g.Keys) && AllFit(utf8, f) && AllFit(utf8, g)
    requires forall p, q :: p in f && q in g && utf8(p) == utf8(q) ==> p == q
    ensures Stream(utf8, f, a) == Stream(utf8, g, b) <==> f == g
  {
    StreamIsForward(utf8, f, a);
    StreamIsForward(utf8, g, b);
    if Stream(utf8, f, a) == Stream(utf8, g, b) {
      StreamTells(utf8, f, g, a, b);
      assert forall p :: p in f <==> p in a;
      assert forall p :: p in g <==> p in b;
    }
    if f == g {
      ListedOnce(a, b, f.Keys);
    }
  }
}
