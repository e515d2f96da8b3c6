/** One inbound frame: how it is checked, and the fixed frame that reports a rejection. */
module Frames {

  datatype Reason =
    | BomRejected | DuplicateObjectKey | EmptyFrame | InvalidJson | InvalidUtf8 | NotJsonrpc | NulRejected
    | BrokenPipe | FrameTooLarge | InvalidLimit | OutboundFrameTooLarge | PartialEof | ReadFailed | WriteFailed

  predicate ParseReason(r: Reason) {
    r.BomRejected? || r.DuplicateObjectKey? || r.EmptyFrame? || r.InvalidJson? || r.InvalidUtf8?
    || r.NotJsonrpc? || r.NulRejected?
  }

  // ---- Decoded values -------------------------------------------------------------------------

  /** Text as code points; a lone surrogate can be decoded from an escape but not encoded again. */
  type Text = seq<nat>

  predicate Encodable(t: Text) {
    forall c :: c in t ==> !(0xD800 <= c <= 0xDFFF)
  }

  /** A decoded document. Scalars other than text carry nothing the transport looks at. */
  datatype Value = Scalar | Str(text: Text) | List(items: seq<Value>) | Dict(members: seq<(Text, Value)>)

  // ---- Recursive reference for the tree check -------------------------------------------------

  predicate Container(v: Value) {
    v.List? || v.Dict?
  }

  function Arity(v: Value): nat {
    match v
    case Scalar => 0
    case Str(_) => 0
    case List(items) => |items|
    case Dict(members) => |members|
  }

  function Child(v: Value, i: nat): (c: Value)
    requires i < Arity(v)
    ensures c < v
  {
    if v.List? then v.items[i] else v.members[i].1
  }

  function Max(a: nat, b: nat): nat { if a < b then b else a }

  /** Number of containers on the deepest path. */
  function Height(v: Value): nat
    decreases v, 1
  {
    if Container(v) then 1 + HeightBelow(v, Arity(v)) else 0
  }

  function HeightBelow(v: Value, n: nat): nat
    requires n <= Arity(v)
    decreases v, 0, n
  {
    if n == 0 then 0 else Max(HeightBelow(v, n - 1), Height(Child(v, n - 1)))
  }

  /** Every text anywhere in the value, key or not, can be encoded. */
  predicate AllEncodable(v: Value) {
    match v
    case Scalar => true
    case Str(t) => Encodable(t)
    case List(items) => forall i :: 0 <= i < |items| ==> AllEncodable(items[i])
    case Dict(members) => forall i :: 0 <= i < |members| ==> Encodable(members[i].0) && AllEncodable(members[i].1)
  }

  // ---- The stack walk -------------------------------------------------------------------------

  /** Number of stack entries the value will ever cost: itself, and below it every child and key. */
  function Size(v: Value): (n: nat)
    ensures n > 0
    decreases v, 1
  {
    1 + SizeBelow(v, Arity(v))
  }

  function SizeBelow(v: Value, n: nat): nat
    requires n <= Arity(v)
    decreases v, 0, n
  {
    if n == 0 then 0
    else SizeBelow(v, n - 1) + Size(Child(v, n - 1)) + if v.Dict? then 1 else 0
  }

  type Stack = seq<(Value, nat)>

  function StackSize(stack: Stack): nat {
    if stack == [] then 0 else Size(stack[|stack| - 1].0) + StackSize(stack[..|stack| - 1])
  }

  predicate Fits(entry: (Value, nat), bound: nat) {
    AllEncodable(entry.0) && (Height(entry.0) > 0 ==> entry.1 + Height(entry.0) <= bound + 1)
  }

  predicate AllFit(stack: Stack, bound: nat) {
    forall i :: 0 <= i < |stack| ==> Fits(stack[i], bound)
  }

  predicate ChildrenFit(v: Value, n: nat, depth: nat, bound: nat)
    requires n <= Arity(v)
  {
    forall i :: 0 <= i < n ==>
      Fits((Child(v, i), depth + 1), bound) && (v.Dict? ==> Encodable(v.members[i].0))
  }

  lemma {:induction false} Push(stack: Stack, entry: (Value, nat), bound: nat)
    ensures AllFit(stack + [entry], bound) <==> AllFit(stack, bound) && Fits(entry, bound)
    ensures StackSize(stack + [entry]) == StackSize(stack) + Size(entry.0)
  {
    var pushed := stack + [entry];
    assert pushed[..|stack|] == stack && pushed[|stack|] == entry;
    assert forall i :: 0 <= i < |stack| ==> pushed[i] == stack[i];
  }

  lemma {:induction false} HeightBelowIs(v: Value, n: nat, h: nat)
    requires n <= Arity(v)
    ensures HeightBelow(v, n) <= h <==> forall i :: 0 <= i < n ==> Height(Child(v, i)) <= h
  {
    if n > 0 { HeightBelowIs(v, n - 1, h); }
  }

  predicate Inside(w: Value, v: Value) {
    || (v.List? && w in v.items)
    || (v.Dict? && exists j :: 0 <= j < |v.members| && v.members[j].1 == w)
  }

  /** Containers, each one directly inside the one before. */
  predicate Nested(path: seq<Value>) {
    && (forall i :: 0 <= i < |path| ==> path[i].List? || path[i].Dict?)
    && (forall i :: 0 < i < |path| ==> Inside(path[i], path[i - 1]))
  }

  /** The height is the number of containers on the longest path down. */
  lemma {:induction false} HeightIsDeepest(v: Value, n: nat)
    requires n > 0
    ensures Height(v) >= n <==> exists path: seq<Value> :: Nested(path) && |path| == n && path[0] == v
  {
    if Height(v) >= n { var path := DeepPath(v, n); }
    forall path: seq<Value> | Nested(path) && |path| == n && path[0] == v ensures Height(v) >= n {
      PathBounds(path);
    }
  }

  lemma {:induction false} DeepPath(v: Value, n: nat) returns (path: seq<Value>)
    requires 0 < n <= Height(v)
    ensures |path| == n && path[0] == v && Nested(path)
  {
    path := [v];
    if n > 1 {
      HeightBelowIs(v, Arity(v), n - 2);
      var i :| 0 <= i < Arity(v) && Height(Child(v, i)) > n - 2;
      var below := DeepPath(Child(v, i), n - 1);
      path := [v] + below;
      assert v.List? ==> v.items[i] == path[1];
      assert v.Dict? ==> v.members[i].1 == path[1];
      assert forall j :: 0 < j < |path| ==> path[j] == below[j - 1];
    }
  }

  lemma {:induction false} PathBounds(path: seq<Value>)
    requires path != [] && Nested(path)
    ensures Height(path[0]) >= |path|
  {
    if |path| > 1 {
      var v := path[0];
      var rest := path[1..];
      assert forall j :: 0 <= j < |rest| ==> rest[j] == path[j + 1];
      PathBounds(rest);
      HeightBelowIs(v, Arity(v), HeightBelow(v, Arity(v)));
      if v.List? {
        var j :| 0 <= j < |v.items| && v.items[j] == path[1];
        assert Child(v, j) == path[1];
      } else {
        var j :| 0 <= j < |v.members| && v.members[j].1 == path[1];
        assert Child(v, j) == path[1];
      }
    }
  }

  /** A container within the bound fits exactly when its keys and children fit one level down. */
  lemma {:induction false} ContainerFits(v: Value, depth: nat, bound: nat)
    requires Container(v) && depth <= bound
    ensures Fits((v, depth), bound) <==> ChildrenFit(v, Arity(v), depth, bound)
  {
    HeightBelowIs(v, Arity(v), bound - depth);
    assert v.List? ==> forall i :: 0 <= i < Arity(v) ==> Child(v, i) == v.items[i];
    assert v.Dict? ==> forall i :: 0 <= i < Arity(v) ==> Child(v, i) == v.members[i].1;
  }

  lemma {:induction false} TextFits(t: Text, depth: nat, bound: nat)
    ensures Fits((Str(t), depth), bound) <==> Encodable(t)
    ensures Size(Str(t)) == 1
  {
  }

  method PushChildren(rest: Stack, v: Value, depth: nat, ghost bound: nat) returns (stack: Stack)
    requires Container(v)
    ensures AllFit(stack, bound) <==> AllFit(rest, bound) && ChildrenFit(v, Arity(v), depth, bound)
    ensures StackSize(stack) == StackSize(rest) + SizeBelow(v, Arity(v))
  {
    hide AllEncodable, Height, Fits, AllFit, Size, StackSize, Encodable;
    stack := rest;
    for i := 0 to Arity(v)
      invariant AllFit(stack, bound) <==> AllFit(rest, bound) && ChildrenFit(v, i, depth, bound)
      invariant StackSize(stack) == StackSize(rest) + SizeBelow(v, i)
    {
      if v.Dict? {
        TextFits(v.members[i].0, depth + 1, bound);
        Push(stack, (Str(v.members[i].0), depth + 1), bound);
        stack := stack + [(Str(v.members[i].0), depth + 1)];
      }
      Push(stack, (Child(v, i), depth + 1), bound);
      stack := stack + [(Child(v, i), depth + 1)];
    }
  }

  /** Accepts exactly the trees whose nesting is within the bound and whose texts are encodable. */
  method ValidateTree(root: Value, bound: nat) returns (ok: bool)
    requires root.Dict?
    ensures ok <==> Height(root) <= bound && AllEncodable(root)
  {
    var stack: Stack := [(root, 1)];
    assert AllFit(stack, bound) <==> Fits(stack[0], bound);
    while stack != []
      invariant AllFit(stack, bound) <==> Height(root) <= bound && AllEncodable(root)
      decreases StackSize(stack)
    {
      var (value, depth) := stack[|stack| - 1];
      var rest := stack[..|stack| - 1];
      assert stack == rest + [(value, depth)];
      Push(rest, (value, depth), bound);
      if value.Str? && !Encodable(value.text) {
        return false;
      }
      if Container(value) {
        if depth > bound {
          return false;
        }
        ContainerFits(value, depth, bound);
        stack := PushChildren(rest, value, depth, bound);
      } else {
        stack := rest;
      }
    }
    ok := true;
  }
}
