/** The walk over a live-runtime tree: a stack of unvisited nodes, bounded reads, and the listing they produce. */
module RuntimeWalk {
  import opened Common
  import opened Paths
  import opened Pipe

  const MAX_FILE_BYTES := 25_000_000
  const MAX_AGGREGATE_BYTES := 500_000_000
  const MAX_MEMBER_COUNT := 200_000
  const READ_CHUNK_BYTES := 1_048_576

  /** A link or special file is unsupported; a faulty node may fail to be read. Children come in any order. */
  datatype Node = File(data: bytes, faulty: bool) | Directory(children: seq<Child>, faulty: bool) | Unsupported

  datatype Child = Child(name: string, node: Node)

  datatype Item = Item(path: seq<string>, data: bytes)

  datatype Reason =
    | TreeMissing | MemberCountExceeded | UnscannedEntry | UnsafePath | FileTooLarge | AggregateTooLarge

  // ----- the listing

  function NameOf(c: Child): string {
    c.name
  }

  /** The children of a directory in the byte order of their names. */
  function Kids(n: Node): (r: seq<Child>)
    requires n.Directory?
    ensures |r| == |n.children| && forall k :: 0 <= k < |r| ==> r[k].node < n
  {
    var r := SortBy(NameOf, n.children);
    assert forall k :: 0 <= k < |r| ==> r[k].node < n by { KidsSmaller(n); }
    r
  }

  lemma {:induction false} KidsSmaller(n: Node)
    requires n.Directory?
    ensures forall c :: c in SortBy(NameOf, n.children) <==> c in n.children
    ensures forall k :: 0 <= k < |n.children| ==> SortBy(NameOf, n.children)[k].node < n
  {
    var r := SortBy(NameOf, n.children);
    SameMembers(r, n.children);
    forall k | 0 <= k < |r| ensures r[k].node < n {
      assert r[k] in n.children;
      var i :| 0 <= i < |n.children| && n.children[i] == r[k];
    }
  }

  function Under(prefix: seq<string>, items: seq<Item>): (r: seq<Item>)
    ensures |r| == |items|
    ensures forall k :: 0 <= k < |r| ==> r[k] == Item(prefix + items[k].path, items[k].data)
  {
    seq(|items|, k requires 0 <= k < |items| => Item(prefix + items[k].path, items[k].data))
  }

  function Width(n: Node): nat {
    if n.Directory? then |n.children| else 0
  }

  /** Every regular file below a node, by its path from there, directory by directory. */
  function Listing(n: Node): seq<Item>
    decreases n, 2 + Width(n)
  {
    match n
    case File(data, _) => [Item([], data)]
    case Directory(children, _) => ListingFrom(n, 0)
    case Unsupported => []
  }

  function ListingFrom(n: Node, k: nat): seq<Item>
    requires n.Directory? && k <= |n.children|
    decreases n, 1 + |n.children| - k
  {
    if k == |n.children| then []
    else Under([Kids(n)[k].name], Listing(Kids(n)[k].node)) + ListingFrom(n, k + 1)
  }

  /** Entries below a node. */
  function Count(n: Node): nat
    decreases n, 2 + Width(n)
  {
    if n.Directory? then |n.children| + CountFrom(n, 0) else 0
  }

  function CountFrom(n: Node, k: nat): nat
    requires n.Directory? && k <= |n.children|
    decreases n, 1 + |n.children| - k
  {
    if k == |n.children| then 0 else Count(Kids(n)[k].node) + CountFrom(n, k + 1)
  }

  function Total(items: seq<Item>): nat {
    if items == [] then 0 else |items[0].data| + Total(items[1..])
  }

  predicate Supported(n: Node)
    decreases n
  {
    match n
    case File(_, _) => true
    case Unsupported => false
    case Directory(_, _) => forall k :: 0 <= k < |n.children| ==> Supported(Kids(n)[k].node)
  }

  predicate Readable(n: Node)
    decreases n
  {
    match n
    case File(_, faulty) => !faulty
    case Unsupported => true
    case Directory(_, faulty) => !faulty && forall k :: 0 <= k < |n.children| ==> Readable(Kids(n)[k].node)
  }

  predicate SafeMember(path: string) {
    && path != "" && path[0] != '/' && '\\' !in path && '\0' !in path && ".." !in Segments(path)
    && forall i :: 0 <= i < |path| ==> path[i] >= ' '
  }

  predicate ItemFine(i: Item) {
    SafeMember(JoinSlash(i.path)) && |i.data| <= MAX_FILE_BYTES
  }

  predicate AllFine(items: seq<Item>) {
    forall k :: 0 <= k < |items| ==> ItemFine(items[k])
  }

  /** A path whose components hold no slash is safe when no component is `..` and no character is out of place. */
  lemma {:induction false} SafeByParts(path: seq<string>)
    requires forall part :: part in path ==> part != "" && '/' !in part
    ensures SafeMember(JoinSlash(path)) <==>
              && path != [] && ".." !in path
              && forall part, c :: part in path && c in part ==> c >= ' ' && c != '\\'
  {
    if path != [] {
      JoinSegments(path);
      CharsOfJoin(path);
      assert path[0] in path && path[0][0] in path[0] && path[0] <= JoinSlash(path);
      assert forall i :: 0 <= i < |JoinSlash(path)| ==> JoinSlash(path)[i] in JoinSlash(path);
      assert '\0' < ' ' && '/' >= ' ' && '/' != '\\';
      hide JoinSlash, Segments;
    }
  }

  /** What the walk accepts of a tree. */
  predicate Admissible(root: Node) {
    && root.Directory? && Supported(root) && Count(root) <= MAX_MEMBER_COUNT
    && AllFine(Listing(root)) && Total(Listing(root)) <= MAX_AGGREGATE_BYTES
  }

  // ----- reading one file

  /** Read to the end in chunks, never holding more than one byte over the limit. */
  method ReadRuntimeFile(data: bytes, faulty: bool, interruptions: nat) returns (r: Result<bytes, Reason>)
    ensures r.Ok? ==> r.value == data && |data| <= MAX_FILE_BYTES
    ensures !faulty ==> if |data| <= MAX_FILE_BYTES then r == Ok(data) else r == Err(FileTooLarge)
    ensures r.Err? ==> r == Err(if |data| <= MAX_FILE_BYTES then UnscannedEntry else FileTooLarge)
  {
    if |data| > MAX_FILE_BYTES { return Err(FileTooLarge); }
    var source := new Source(data, interruptions, faulty);
    var read: bytes := [];
    while true
      invariant data == read + source.unread && |read| <= MAX_FILE_BYTES && source.faulty == faulty
      decreases |source.unread|, source.interruptions
    {
      var room := MAX_FILE_BYTES + 1 - |read|;
      var chunk := source.Read(if room < READ_CHUNK_BYTES then room else READ_CHUNK_BYTES);
      match chunk
      case Broken => return Err(UnscannedEntry);
      case Interrupted =>
      case Chunk(b) =>
        if b == [] { return Ok(read); }
        read := read + b;
        if |read| > MAX_FILE_BYTES { return Err(FileTooLarge); }
    }
  }

  // ----- the walk

  /** Unvisited nodes with their paths from the root; the top is last. */
  datatype Pending = Pending(path: seq<string>, node: Node)

  type Stack = seq<Pending>

  function StackListing(s: Stack): seq<Item> {
    if s == [] then []
    else Under(s[|s| - 1].path, Listing(s[|s| - 1].node)) + StackListing(s[..|s| - 1])
  }

  function StackCount(s: Stack): nat {
    if s == [] then 0 else Count(s[|s| - 1].node) + StackCount(s[..|s| - 1])
  }

  /** Unvisited nodes, the measure the loop decreases. */
  function StackSize(s: Stack): nat {
    |s| + StackCount(s)
  }

  predicate StackSupported(s: Stack) {
    forall k :: 0 <= k < |s| ==> Supported(s[k].node)
  }

  predicate StackReadable(s: Stack) {
    forall k :: 0 <= k < |s| ==> Readable(s[k].node)
  }

  /** The children from k on, first child on top. */
  function Pushed(path: seq<string>, n: Node, k: nat): (r: Stack)
    requires n.Directory? && k <= |n.children|
    ensures |r| == |n.children| - k
    decreases |n.children| - k
  {
    if k == |n.children| then []
    else Pushed(path, n, k + 1) + [Pending(path + [Kids(n)[k].name], Kids(n)[k].node)]
  }

  lemma {:induction false} Regrouped(path: seq<string>, name: string, items: seq<Item>, rest: seq<Item>,
        tail: seq<Item>)
    ensures Under(path + [name], items) + (Under(path, rest) + tail)
         == Under(path, Under([name], items) + rest) + tail
  {
    UnderUnder(path, [name], items);
    UnderAppend(path, Under([name], items), rest);
    hide Under;
    assert Under(path + [name], items) + (Under(path, rest) + tail)
        == (Under(path + [name], items) + Under(path, rest)) + tail;
  }

  lemma {:induction false} PushedListing(s: Stack, path: seq<string>, n: Node, k: nat)
    requires n.Directory? && k <= |n.children|
    ensures StackListing(s + Pushed(path, n, k)) == Under(path, ListingFrom(n, k)) + StackListing(s)
    ensures StackCount(s + Pushed(path, n, k)) == CountFrom(n, k) + StackCount(s)
    decreases |n.children| - k
  {
    hide Listing, Count, Kids, Under, StackListing, StackCount;
    var more := Pushed(path, n, k);
    if k == |n.children| {
      assert s + more == s;
    } else {
      var c := Kids(n)[k];
      var top := Pending(path + [c.name], c.node);
      assert s + more == (s + Pushed(path, n, k + 1)) + [top];
      PushedListing(s, path, n, k + 1);
      StackTop(s + Pushed(path, n, k + 1), top);
      assert ListingFrom(n, k) == Under([c.name], Listing(c.node)) + ListingFrom(n, k + 1);
      assert CountFrom(n, k) == Count(c.node) + CountFrom(n, k + 1);
      Regrouped(path, c.name, Listing(c.node), ListingFrom(n, k + 1), StackListing(s));
    }
  }

  lemma {:induction false} StackTop(s: Stack, top: Pending)
    ensures StackListing(s + [top]) == Under(top.path, Listing(top.node)) + StackListing(s)
    ensures StackCount(s + [top]) == Count(top.node) + StackCount(s)
  {
    hide Listing, Count, Under;
    assert (s + [top])[..|s|] == s;
  }

  lemma {:induction false} UnderUnder(p: seq<string>, q: seq<string>, items: seq<Item>)
    ensures Under(p, Under(q, items)) == Under(p + q, items)
  {
    assert forall k :: 0 <= k < |items| ==> p + (q + items[k].path) == p + q + items[k].path;
  }

  lemma {:induction false} UnderAppend(p: seq<string>, a: seq<Item>, b: seq<Item>)
    ensures Under(p, a + b) == Under(p, a) + Under(p, b)
  {
  }

  // ----- what is left of the tree, while the walk runs

  lemma {:induction false} FineAppend(a: seq<Item>, b: seq<Item>)
    ensures AllFine(a + b) <==> AllFine(a) && AllFine(b)
  {
    hide ItemFine;
    if AllFine(a + b) {
      assert forall k :: 0 <= k < |a| ==> a[k] == (a + b)[k];
      assert forall k :: 0 <= k < |b| ==> b[k] == (a + b)[|a| + k];
    }
  }

  lemma {:induction false} TotalAppend(a: seq<Item>, b: seq<Item>)
    ensures Total(a + b) == Total(a) + Total(b)
  {
    if a == [] {
      assert a + b == b;
    } else {
      assert (a + b)[1..] == a[1..] + b;
      TotalAppend(a[1..], b);
    }
  }

  lemma {:induction false} PushedSupported(s: Stack, path: seq<string>, n: Node)
    requires n.Directory?
    ensures StackSupported(s + Pushed(path, n, 0)) <==> StackSupported(s) && Supported(n)
    ensures StackReadable(s) && Readable(n) ==> StackReadable(s + Pushed(path, n, 0))
  {
    hide Kids, Pushed, Supported, Readable;
    var more, kids := Pushed(path, n, 0), Kids(n);
    PushedKids(path, n, 0);
    KidsDecide(n);
    PushedAll(s, more, kids, Supported);
    PushedAll(s, more, kids, Readable);
  }

  lemma {:induction false} PushedKids(path: seq<string>, n: Node, from: nat)
    requires n.Directory? && from <= |n.children|
    ensures forall k :: from <= k < |n.children| ==>
              Pushed(path, n, from)[|n.children| - 1 - k] == Pending(path + [Kids(n)[k].name], Kids(n)[k].node)
    decreases |n.children| - from
  {
    hide Kids;
    if from < |n.children| { PushedKids(path, n, from + 1); }
  }

  lemma {:induction false} KidsDecide(n: Node)
    requires n.Directory?
    ensures Supported(n) <==> forall k :: 0 <= k < |Kids(n)| ==> Supported(Kids(n)[k].node)
    ensures Readable(n) <==> !n.faulty && forall k :: 0 <= k < |Kids(n)| ==> Readable(Kids(n)[k].node)
  {
  }

  /** A property of nodes holds along the pushed stack exactly when it holds below and of every child. */
  lemma {:induction false} PushedAll(s: Stack, more: Stack, kids: seq<Child>, p: Node -> bool)
    requires |more| == |kids| && forall k :: 0 <= k < |kids| ==> more[|kids| - 1 - k].node == kids[k].node
    ensures (forall k :: 0 <= k < |s + more| ==> p((s + more)[k].node))
            <==> (forall k :: 0 <= k < |s| ==> p(s[k].node)) && forall k :: 0 <= k < |kids| ==> p(kids[k].node)
  {
    var t := s + more;
    if forall k :: 0 <= k < |t| ==> p(t[k].node) {
      assert forall k :: 0 <= k < |s| ==> s[k] == t[k];
      assert forall k :: 0 <= k < |kids| ==> kids[k].node == t[|s| + |kids| - 1 - k].node;
    }
    if (forall k :: 0 <= k < |s| ==> p(s[k].node)) && forall k :: 0 <= k < |kids| ==> p(kids[k].node) {
      forall k | 0 <= k < |t| ensures p(t[k].node) {
        if k >= |s| { assert t[k].node == kids[|kids| - 1 - (k - |s|)].node; }
      }
    }
  }

  lemma {:induction false} TopSupported(s: Stack, top: Pending)
    ensures StackSupported(s + [top]) <==> StackSupported(s) && Supported(top.node)
    ensures StackReadable(s + [top]) <==> StackReadable(s) && Readable(top.node)
  {
    hide Supported, Readable;
    assert forall k :: 0 <= k < |s| ==> (s + [top])[k] == s[k];
    assert (s + [top])[|s|] == top;
  }

  /** How far the walk got: what it listed, what it counted, and what the stack still holds. */
  ghost predicate Progress(root: Node, pending: Stack, entries: seq<Item>, aggregate: nat, discovered: nat) {
    && Listing(root) == entries + StackListing(pending) && Count(root) == discovered + StackCount(pending)
    && aggregate == Total(entries) && AllFine(entries) && aggregate <= MAX_AGGREGATE_BYTES
    && discovered <= MAX_MEMBER_COUNT
    && (StackSupported(pending) <==> Supported(root)) && (Readable(root) ==> StackReadable(pending))
  }

  lemma {:induction false} Started(root: Node)
    requires root.Directory?
    ensures Progress(root, [Pending([], root)], [], 0, 0)
  {
    hide Listing, Count, Supported, Readable;
    StackTop([], Pending([], root));
    TopSupported([], Pending([], root));
    assert [] + [Pending([], root)] == [Pending([], root)];
    UnderNothing(Listing(root));
  }

  lemma {:induction false} UnderNothing(items: seq<Item>)
    ensures Under([], items) == items
  {
    assert forall k :: 0 <= k < |items| ==> [] + items[k].path == items[k].path;
  }

  lemma {:induction false} Entered(root: Node, rest: Stack, path: seq<string>, n: Node, entries: seq<Item>,
        aggregate: nat, discovered: nat)
    requires n.Directory? && Progress(root, rest + [Pending(path, n)], entries, aggregate, discovered)
    ensures discovered + |n.children| <= Count(root)
    ensures discovered + |n.children| <= MAX_MEMBER_COUNT ==>
              Progress(root, rest + Pushed(path, n, 0), entries, aggregate, discovered + |n.children|)
  {
    hide Listing, ListingFrom, Count, CountFrom, Kids, StackListing, StackCount, Supported, Readable, AllFine, Total;
    hide Pushed, Under, StackSupported, StackReadable;
    DirectoryOf(n);
    StackTop(rest, Pending(path, n));
    TopSupported(rest, Pending(path, n));
    PushedListing(rest, path, n, 0);
    PushedSupported(rest, path, n);
  }

  lemma {:induction false} DirectoryOf(n: Node)
    requires n.Directory?
    ensures Listing(n) == ListingFrom(n, 0) && Count(n) == |n.children| + CountFrom(n, 0)
  {
  }

  lemma {:induction false} Listed(root: Node, rest: Stack, path: seq<string>, n: Node, entries: seq<Item>,
        aggregate: nat, discovered: nat)
    requires n.File? && Progress(root, rest + [Pending(path, n)], entries, aggregate, discovered)
    ensures !ItemFine(Item(path, n.data)) ==> !AllFine(Listing(root))
    ensures Total(Listing(root)) >= aggregate + |n.data|
    ensures Item(path, n.data) in Listing(root)
    ensures ItemFine(Item(path, n.data)) && aggregate + |n.data| <= MAX_AGGREGATE_BYTES ==>
              Progress(root, rest, entries + [Item(path, n.data)], aggregate + |n.data|, discovered)
    ensures Readable(root) ==> !n.faulty
  {
    hide Listing, StackListing, StackCount, Count, Supported, Readable, AllFine, ItemFine, Total, Under;
    hide StackSupported, StackReadable;
    var item, tail := Item(path, n.data), StackListing(rest);
    assert (entries + [item] + tail)[|entries|] == item;
    StackTop(rest, Pending(path, n));
    TopSupported(rest, Pending(path, n));
    FileOf(n, path);
    assert entries + ([item] + tail) == (entries + [item]) + tail;
    TotalAppend(entries, [item]);
    TotalAppend(entries + [item], tail);
    FineAppend(entries, [item]);
    FineAppend(entries + [item], tail);
  }

  lemma {:induction false} FileOf(n: Node, path: seq<string>)
    requires n.File?
    ensures Under(path, Listing(n)) == [Item(path, n.data)]
    ensures Count(n) == 0 && Supported(n) && (Readable(n) <==> !n.faulty)
    ensures Total([Item(path, n.data)]) == |n.data| && (AllFine([Item(path, n.data)]) <==> ItemFine(Item(path, n.data)))
  {
    var item := Item(path, n.data);
    assert path + [] == path;
    assert [item][1..] == [] && [item][0] == item;
  }

  lemma {:induction false} Finished(root: Node, entries: seq<Item>, aggregate: nat, discovered: nat)
    requires root.Directory? && Progress(root, [], entries, aggregate, discovered)
    ensures Admissible(root) && entries == Listing(root)
  {
    assert entries + [] == entries;
  }

  /** Count the entries of one directory, giving up as soon as there are too many. */
  method ScanDirectory(n: Node, before: nat) returns (discovered: nat, ok: bool)
    requires n.Directory? && before <= MAX_MEMBER_COUNT
    ensures ok <==> before + |n.children| <= MAX_MEMBER_COUNT
    ensures ok ==> discovered == before + |n.children|
  {
    discovered := before;
    for i := 0 to |n.children|
      invariant discovered == before + i <= MAX_MEMBER_COUNT
    {
      discovered := discovered + 1;
      if discovered > MAX_MEMBER_COUNT { return discovered, false; }
    }
    ok := true;
  }

  /** The listing of an admissible tree; refused otherwise, and possibly where something cannot be read. */
  method EnumerateRuntime(root: Node, interruptions: nat) returns (r: Result<seq<Item>, Reason>)
    ensures r.Ok? ==> Admissible(root) && r.value == Listing(root)
    ensures Readable(root) && Admissible(root) ==> r.Ok?
    ensures r == Err(TreeMissing) <==> !root.Directory?
    ensures r == Err(MemberCountExceeded) ==> Count(root) > MAX_MEMBER_COUNT
    ensures r == Err(UnscannedEntry) ==> !Supported(root) || !Readable(root)
    ensures r == Err(UnsafePath) ==> exists item :: item in Listing(root) && !SafeMember(JoinSlash(item.path))
    ensures r == Err(FileTooLarge) ==> exists item :: item in Listing(root) && |item.data| > MAX_FILE_BYTES
    ensures r == Err(AggregateTooLarge) ==> Total(Listing(root)) > MAX_AGGREGATE_BYTES
  {
    hide Listing, Count, StackListing, StackCount, Supported, AllFine, Total, Kids, Pushed, JoinSlash, SafeMember;
    if !root.Directory? { return Err(TreeMissing); }
    var pending: Stack, entries: seq<Item> := [Pending([], root)], [];
    var aggregate: nat, discovered: nat := 0, 0;
    Started(root);
    while pending != []
      invariant Progress(root, pending, entries, aggregate, discovered)
      decreases StackSize(pending)
    {
      var top, rest := pending[|pending| - 1], pending[..|pending| - 1];
      assert pending == rest + [top];
      StackTop(rest, top);
      TopSupported(rest, top);
      match top.node
      case Unsupported =>
        assert !Supported(top.node) by { UnsupportedIs(top.node); }
        return Err(UnscannedEntry);
      case Directory(children, faulty) =>
        if faulty {
          if * { return Err(UnscannedEntry); }
        }
        var ok;
        Entered(root, rest, top.path, top.node, entries, aggregate, discovered);
        PushedListing(rest, top.path, top.node, 0);
        DirectoryOf(top.node);
        discovered, ok := ScanDirectory(top.node, discovered);
        if !ok { return Err(MemberCountExceeded); }
        pending := rest + Pushed(top.path, top.node, 0);
      case File(data, faulty) =>
        Listed(root, rest, top.path, top.node, entries, aggregate, discovered);
        if !SafeMember(JoinSlash(top.path)) { return Err(UnsafePath); }
        var read := ReadRuntimeFile(data, faulty, interruptions);
        if read.Err? { return Err(read.error); }
        aggregate := aggregate + |read.value|;
        if aggregate > MAX_AGGREGATE_BYTES { return Err(AggregateTooLarge); }
        entries := entries + [Item(top.path, read.value)];
        pending := rest;
    }
    Finished(root, entries, aggregate, discovered);
    return Ok(entries);
  }

  lemma {:induction false} UnsupportedIs(n: Node)
    requires n.Unsupported?
    ensures !Supported(n)
  {
  }

  // ----- what the listing is

  /** A regular file with this content stands at this path. */
  predicate HasFile(n: Node, path: seq<string>, data: bytes)
    decreases n
  {
    match n
    case File(d, _) => path == [] && d == data
    case Unsupported => false
    case Directory(children, _) =>
      path != [] && exists k ::
        0 <= k < |children| && children[k].name == path[0] && HasFile(children[k].node, path[1..], data)
  }

  lemma {:induction false} ListedExactly(n: Node, path: seq<string>, data: bytes)
    ensures Item(path, data) in Listing(n) <==> HasFile(n, path, data)
    decreases n, 2 + Width(n)
  {
    if n.Directory? {
      ListedFrom(n, 0, path, data);
      KidsSmaller(n);
      if path != [] {
        forall k | 0 <= k < |n.children|
          ensures Item(path[1..], data) in Listing(Kids(n)[k].node) <==> HasFile(Kids(n)[k].node, path[1..], data)
        {
          ListedExactly(Kids(n)[k].node, path[1..], data);
        }
        SameChildren(n, path, data);
      }
    }
  }

  lemma {:induction false} SameChildren(n: Node, path: seq<string>, data: bytes)
    requires n.Directory? && path != []
    ensures HasFile(n, path, data)
            <==> exists k ::
                   0 <= k < |Kids(n)| && Kids(n)[k].name == path[0] && HasFile(Kids(n)[k].node, path[1..], data)
  {
    KidsSmaller(n);
    if HasFile(n, path, data) {
      var k :| 0 <= k < |n.children| && n.children[k].name == path[0] && HasFile(n.children[k].node, path[1..], data);
      assert n.children[k] in Kids(n);
    }
    if k :| 0 <= k < |Kids(n)| && Kids(n)[k].name == path[0] && HasFile(Kids(n)[k].node, path[1..], data) {
      assert Kids(n)[k] in n.children;
    }
  }

  lemma {:induction false} ListedFrom(n: Node, from: nat, path: seq<string>, data: bytes)
    requires n.Directory? && from <= |n.children|
    ensures Item(path, data) in ListingFrom(n, from)
            <==> path != [] && exists k :: from <= k < |Kids(n)| && Kids(n)[k].name == path[0]
                                           && Item(path[1..], data) in Listing(Kids(n)[k].node)
    decreases |n.children| - from
  {
    if from < |n.children| {
      ListedFrom(n, from + 1, path, data);
      var kid := Kids(n)[from];
      hide Listing, ListingFrom, Kids;
      InUnder(kid.name, Listing(kid.node), path, data);
      assert Item(path, data) in ListingFrom(n, from)
        <==> Item(path, data) in Under([kid.name], Listing(kid.node))
             || Item(path, data) in ListingFrom(n, from + 1) by {
        Unfold(n, from);
      }
    }
  }

  lemma {:induction false} Unfold(n: Node, k: nat)
    requires n.Directory? && k < |n.children|
    ensures ListingFrom(n, k) == Under([Kids(n)[k].name], Listing(Kids(n)[k].node)) + ListingFrom(n, k + 1)
  {
  }

  lemma {:induction false} InUnder(name: string, items: seq<Item>, path: seq<string>, data: bytes)
    ensures Item(path, data) in Under([name], items) <==>
          path != [] && path[0] == name && Item(path[1..], data) in items
  {
    var under := Under([name], items);
    if Item(path, data) in under {
      var k :| 0 <= k < |under| && under[k] == Item(path, data);
      assert path == [name] + items[k].path;
      assert items[k] == Item(path[1..], data);
    }
    if path != [] && path[0] == name && Item(path[1..], data) in items {
      var k :| 0 <= k < |items| && items[k] == Item(path[1..], data);
      assert path == [name] + path[1..];
      assert under[k] == Item(path, data);
    }
  }

  /** Component by component, in byte order; a path precedes what lies below it. */
  predicate PathLess(a: seq<string>, b: seq<string>) {
    b != [] && (a == [] || (if a[0] == b[0] then PathLess(a[1..], b[1..]) else Leq(a[0], b[0])))
  }

  predicate Increasing(items: seq<Item>) {
    forall i, j :: 0 <= i < j < |items| ==> PathLess(items[i].path, items[j].path)
  }

  /** No directory holds two entries of one name. */
  predicate WellNamed(n: Node)
    decreases n
  {
    n.Directory? ==>
      && (forall i, j :: 0 <= i < j < |n.children| ==> n.children[i].name != n.children[j].name)
      && forall k :: 0 <= k < |n.children| ==> WellNamed(n.children[k].node)
  }

  lemma {:induction false} KidsInOrder(n: Node)
    requires n.Directory? && WellNamed(n)
    ensures forall k :: 0 <= k < |n.children| ==> WellNamed(Kids(n)[k].node)
    ensures forall i, j :: 0 <= i < j < |n.children| ==>
              Leq(Kids(n)[i].name, Kids(n)[j].name) && Kids(n)[i].name != Kids(n)[j].name
  {
    var kids := Kids(n);
    KidsSmaller(n);
    SortBySorts(NameOf, n.children);
    assert Distinct(n.children);
    StillDistinct(n.children, kids);
    forall k | 0 <= k < |kids| ensures WellNamed(kids[k].node) {
      assert kids[k] in n.children;
    }
    forall i, j | 0 <= i < j < |kids| ensures Leq(kids[i].name, kids[j].name) && kids[i].name != kids[j].name {
      assert kids[i] in n.children && kids[j] in n.children;
      assert Leq(NameOf(kids[i]), NameOf(kids[j]));
    }
  }

  /** The listing is strictly increasing in component-wise byte order, so it names no file twice. */
  lemma {:induction false} ListingIncreasing(n: Node)
    requires WellNamed(n)
    ensures Increasing(Listing(n))
    decreases n, 2 + Width(n)
  {
    if n.Directory? { IncreasingFrom(n, 0); }
  }

  lemma {:induction false} IncreasingFrom(n: Node, k: nat)
    requires n.Directory? && WellNamed(n) && k <= |n.children|
    ensures Increasing(ListingFrom(n, k))
    decreases n, 1 + |n.children| - k
  {
    if k < |n.children| {
      var kid := Kids(n)[k];
      var first, rest := Under([kid.name], Listing(kid.node)), ListingFrom(n, k + 1);
      KidsInOrder(n);
      ListingIncreasing(kid.node);
      IncreasingFrom(n, k + 1);
      Unfold(n, k);
      hide Listing, ListingFrom, Kids, WellNamed, Leq;
      UnderIncreasing(kid.name, Listing(kid.node));
      forall i, j | 0 <= i < |first| && 0 <= j < |rest| ensures PathLess(first[i].path, rest[j].path) {
        assert rest[j] == Item(rest[j].path, rest[j].data) && rest[j] in rest;
        ListedFrom(n, k + 1, rest[j].path, rest[j].data);
      }
      IncreasingAppend(first, rest);
    }
  }

  lemma {:induction false} UnderIncreasing(name: string, items: seq<Item>)
    requires Increasing(items)
    ensures Increasing(Under([name], items))
  {
    forall i, j | 0 <= i < j < |items| ensures PathLess([name] + items[i].path, [name] + items[j].path) {
      assert ([name] + items[i].path)[1..] == items[i].path && ([name] + items[j].path)[1..] == items[j].path;
    }
  }

  lemma {:induction false} IncreasingAppend(a: seq<Item>, b: seq<Item>)
    requires Increasing(a) && Increasing(b)
    requires forall i, j :: 0 <= i < |a| && 0 <= j < |b| ==> PathLess(a[i].path, b[j].path)
    ensures Increasing(a + b)
  {
    hide PathLess;
  }

  lemma {:induction false} Irreflexive(path: seq<string>)
    ensures !PathLess(path, path)
  {
    if path != [] { Irreflexive(path[1..]); }
  }

  /** Exactly the regular files, each once: the two halves together. */
  lemma {:induction false} ListedOnceEach(n: Node, path: seq<string>, data: bytes)
    requires WellNamed(n)
    ensures HasFile(n, path, data)
            <==> exists i :: 0 <= i < |Listing(n)| && Listing(n)[i] == Item(path, data)
                             && forall j :: 0 <= j < |Listing(n)| && Listing(n)[j].path == path ==> j == i
  {
    ListedExactly(n, path, data);
    ListingIncreasing(n);
    Irreflexive(path);
    var items := Listing(n);
    hide Listing, PathLess, HasFile;
    if Item(path, data) in items {
      var i :| 0 <= i < |items| && items[i] == Item(path, data);
      assert forall j :: 0 <= j < |items| && items[j].path == path ==> j == i;
    }
  }

  /** The order is not that of the whole paths as text. */
  lemma {:induction false} NotTextOrder()
    ensures
      var a, b := ["a", "b"], ["a.c"];
      PathLess(a, b) && !Leq(JoinSlash(a), JoinSlash(b))
  {
    var a, b := ["a", "b"], ["a.c"];
    assert a[0] != b[0] && "a"[1..] == "";
    assert Leq("a", "a.c") by { assert "a.c"[1..] == ".c"; }
    assert a[1..] == ["b"] && JoinSlash(a) == "a/b" && JoinSlash(b) == "a.c";
    assert "a/b"[1..] == "/b" && "a.c"[1..] == ".c";
  }
}
