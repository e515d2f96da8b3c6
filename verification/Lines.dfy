/** Newline-delimited framing on whole byte strings: the reference every framer is held to. */
module Lines {
  import opened Common

  /** Position of the first newline, or the length when there is none. */
  function FirstLF(s: bytes): (i: nat)
    ensures i <= |s| && (i < |s| ==> s[i] == LF)
    ensures forall k :: 0 <= k < i ==> s[k] != LF
  {
    if s == [] || s[0] == LF then 0 else 1 + FirstLF(s[1..])
  }

  /** The lines of s that are closed by a newline, without it. */
  function Closed(s: bytes): seq<bytes>
    decreases |s|
  {
    var i := FirstLF(s);
    if i == |s| then [] else [s[..i]] + Closed(s[i + 1..])
  }

  /** What follows the last newline. */
  function Tail(s: bytes): bytes
    decreases |s|
  {
    var i := FirstLF(s);
    if i == |s| then s else Tail(s[i + 1..])
  }

  /** Close every line with a newline and put the results together. */
  function Join(lines: seq<bytes>): bytes {
    if lines == [] then [] else lines[0] + [LF] + Join(lines[1..])
  }

  lemma {:induction false} FirstLFIs(s: bytes, i: nat)
    requires i < |s| && s[i] == LF && LF !in s[..i]
    ensures FirstLF(s) == i
  {
    assert forall k :: 0 <= k < i ==> s[k] == s[..i][k];
  }

  lemma {:induction false} OnlyTail(s: bytes)
    requires FirstLF(s) == |s|
    ensures Closed(s) == [] && Tail(s) == s && LF !in s
  {
  }

  lemma {:induction false} NoLF(s: bytes)
    requires LF !in s
    ensures Closed(s) == [] && Tail(s) == s
  {
    assert FirstLF(s) == |s|;
  }

  lemma {:induction false} Rejoin(s: bytes, i: nat, joined: bytes, tail: bytes)
    requires i < |s| && s[i] == LF && joined + tail == s[i + 1..]
    ensures s[..i] + [LF] + joined + tail == s
  {
    assert s[..i] + [LF] + joined + tail == s[..i] + [LF] + (joined + tail);
  }

  /** Splitting loses nothing: the lines and the tail make up the stream again. */
  lemma {:induction false} SplitJoin(s: bytes)
    ensures Join(Closed(s)) + Tail(s) == s
    ensures LF !in Tail(s) && forall line :: line in Closed(s) ==> LF !in line
    decreases |s|
  {
    var i := FirstLF(s);
    if i < |s| {
      SplitJoin(s[i + 1..]);
      Rejoin(s, i, Join(Closed(s[i + 1..])), Tail(s[i + 1..]));
    } else {
      assert s[..i] == s;
    }
  }

  /** Joining and splitting again gives the same lines: what a peer recovers from whole frames. */
  lemma {:induction false} JoinSplit(lines: seq<bytes>, rest: bytes)
    requires forall line :: line in lines ==> LF !in line
    requires LF !in rest
    ensures Closed(Join(lines) + rest) == lines
    ensures Tail(Join(lines) + rest) == rest
  {
    hide Closed, Tail, FirstLF;
    if lines == [] {
      NoLF(rest);
      assert Join(lines) + rest == rest;
    } else {
      var s := Join(lines) + rest;
      var n := |lines[0]|;
      assert s == lines[0] + [LF] + (Join(lines[1..]) + rest);
      assert s[..n] == lines[0];
      FirstLFIs(s, n);
      SplitFirst(s, n);
      assert s[n + 1..] == Join(lines[1..]) + rest;
      JoinSplit(lines[1..], rest);
    }
  }

  lemma {:induction false} JoinAppend(a: seq<bytes>, line: bytes)
    ensures Join(a + [line]) == Join(a) + line + [LF]
  {
    if a == [] {
      assert a + [line] == [line];
      assert Join([line]) == line + [LF] + Join([]);
    } else {
      assert (a + [line])[1..] == a[1..] + [line];
      JoinAppend(a[1..], line);
    }
  }

  /** Later bytes only extend the tail: earlier lines stay as they are. */
  lemma {:induction false} SplitAppend(a: bytes, b: bytes)
    ensures Closed(a + b) == Closed(a) + Closed(Tail(a) + b)
    ensures Tail(a + b) == Tail(Tail(a) + b)
    decreases |a|
  {
    var i := FirstLF(a);
    if i < |a| {
      assert (a + b)[..i] == a[..i];
      FirstLFIs(a + b, i);
      assert (a + b)[i + 1..] == a[i + 1..] + b;
      SplitAppend(a[i + 1..], b);
    }
  }

  /** All bytes up to and including the first newline, when there is one, form one line. */
  lemma {:induction false} SplitFirst(s: bytes, i: nat)
    requires i == FirstLF(s) < |s|
    ensures Closed(s) == [s[..i]] + Closed(s[i + 1..]) && Tail(s) == Tail(s[i + 1..])
  {
  }

  /** Moving the first line of the rest to the lines already taken changes nothing in sum. */
  lemma {:induction false} TakeFirst(taken: seq<bytes>, s: bytes, i: nat)
    requires i == FirstLF(s) < |s|
    ensures taken + Closed(s) == taken + [s[..i]] + Closed(s[i + 1..])
    ensures taken + [s[..i]] <= taken + Closed(s)
    ensures Tail(s) == Tail(s[i + 1..])
  {
    SplitFirst(s, i);
    AppendOne(taken, s[..i], Closed(s[i + 1..]));
  }

  lemma {:induction false} AppendOne<T>(a: seq<T>, x: T, rest: seq<T>)
    ensures a + ([x] + rest) == a + [x] + rest
    ensures a + [x] <= a + ([x] + rest)
  {
  }

  predicate Within(lines: seq<bytes>, maximum: nat) {
    forall line :: line in lines ==> |line| <= maximum
  }

  /** The lines before the first one longer than the maximum. */
  function FittingPrefix(lines: seq<bytes>, maximum: nat): (r: seq<bytes>)
    ensures r <= lines && Within(r, maximum)
    ensures |r| < |lines| ==> |lines[|r|]| > maximum
  {
    if lines == [] || |lines[0]| > maximum then []
    else
      [lines[0]] + FittingPrefix(lines[1..], maximum)
  }

  lemma {:induction false} FittingPrefixSplits(a: seq<bytes>, b: seq<bytes>, maximum: nat)
    requires Within(a, maximum)
    ensures FittingPrefix(a + b, maximum) == a + FittingPrefix(b, maximum)
  {
    if a == [] {
      assert a + b == b;
    } else {
      assert a[0] in a;
      assert (a + b)[1..] == a[1..] + b;
      assert Within(a[1..], maximum) by {
        forall line | line in a[1..] ensures |line| <= maximum { assert line in a; }
      }
      FittingPrefixSplits(a[1..], b, maximum);
    }
  }

  /** A run of more than maximum bytes without a newline makes the first line or the tail too long. */
  lemma {:induction false} Overlong(held: bytes, unread: bytes, maximum: nat)
    requires LF !in held && |held| > maximum
    ensures FittingPrefix(Closed(held + unread), maximum) == []
    ensures Closed(held + unread) == [] ==> |Tail(held + unread)| > maximum
  {
    var s := held + unread;
    var i := FirstLF(s);
    assert forall k :: 0 <= k < |held| ==> s[k] == held[k];
    if i < |s| { assert Closed(s)[0] == s[..i]; }
  }
}
