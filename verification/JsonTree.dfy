/** JSON values as trees: what `json.Unmarshal` produces for an `any`. */
module JsonTree {

  datatype Json =
    | Null
    | Bool(b: bool)
    | Num(n: real)
    | Str(s: string)
    | Arr(items: seq<Json>)
    | Obj(fields: map<string, Json>)

  /** The largest element, 0 for the empty set. */
  ghost function MaxOf(s: set<nat>): (m: nat)
    ensures forall x | x in s :: x <= m
    ensures s != {} ==> m in s
  {
    if s == {} then 0
    else
      var x :| x in s;
      var rest := MaxOf(s - {x});
      assert forall y | y in s :: y == x || y in s - {x};
      if rest > x then rest else x
  }

  /** Nesting depth: a measure that every step into an object or array decreases. */
  ghost function Depth(j: Json): (d: nat)
    ensures j.Arr? ==> forall i | 0 <= i < |j.items| :: Depth(j.items[i]) < d
    ensures j.Obj? ==> forall k | k in j.fields :: Depth(j.fields[k]) < d
    ensures j.Arr? || j.Obj? ==> d > 0
  {
    match j
    case Arr(items) =>
      var ds := set i | 0 <= i < |items| :: Depth(items[i]);
      assert forall i | 0 <= i < |items| :: Depth(items[i]) in ds;
      1 + MaxOf(ds)
    case Obj(fields) =>
      var ds := set k | k in fields :: Depth(fields[k]);
      assert forall k | k in fields :: Depth(fields[k]) in ds;
      1 + MaxOf(ds)
    case _ => 0
  }

  /** The depth of the deepest member. */
  ghost function DepthOfAll(vs: set<Json>): (d: nat)
    ensures forall v | v in vs :: Depth(v) <= d
    ensures vs != {} ==> exists v :: v in vs && Depth(v) == d
  {
    var ds := set v | v in vs :: Depth(v);
    assert forall v | v in vs :: Depth(v) in ds;
    MaxOf(ds)
  }
}
