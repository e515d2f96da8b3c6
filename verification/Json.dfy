/** JSON documents. Members are a map: two members of one object never share a name. */
module Json {
  import opened Common

  datatype Json =
    | Null
    | Bool(b: bool)
    | Num(n: real)
    | Str(s: string)
    | Arr(items: seq<Json>)
    | Obj(members: map<string, Json>)

  predicate Scalar(j: Json) {
    !j.Arr? && !j.Obj?
  }

  predicate Strings(items: seq<Json>) {
    forall i :: 0 <= i < |items| ==> items[i].Str?
  }

  function Texts(items: seq<Json>): (r: seq<string>)
    requires Strings(items)
    ensures |r| == |items| && forall i :: 0 <= i < |r| ==> r[i] == items[i].s
  {
    seq(|items|, i requires 0 <= i < |items| => items[i].s)
  }

  function StringsOf(texts: seq<string>): (r: seq<Json>)
    ensures |r| == |texts| && forall i :: 0 <= i < |r| ==> r[i] == Str(texts[i])
  {
    seq(|texts|, i requires 0 <= i < |texts| => Str(texts[i]))
  }

  // ---- Places within a document ------------------------------------------------------------------

  /** One step down into a document. */
  datatype Hop = Member(name: string) | Item(index: nat)

  /** What stands at a place, if there is such a place. */
  function At(j: Json, path: seq<Hop>): Option<Json> {
    if path == [] then Some(j)
    else match path[0]
      case Member(k) => if j.Obj? && k in j.members then At(j.members[k], path[1..]) else None
      case Item(i) => if j.Arr? && i < |j.items| then At(j.items[i], path[1..]) else None
  }

  predicate SameKind(s: Json, t: Json) {
    (s.Obj? <==> t.Obj?) && (s.Arr? <==> t.Arr?) && (Scalar(s) ==> t == s)
  }
}
