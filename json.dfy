/**
 * JSON values as held by google.protobuf.Struct, the accessors of
 * structpb.Value that the component core calls, and two ghost measures on
 * values (object nesting depth and node count) used for termination.
 */
module JsonValue {
  import opened Wrappers

  /** A structpb.Value. Numbers are kept as integers (see README). */
  datatype Json =
    | JNull
    | JBool(b: bool)
    | JNum(n: int)
    | JStr(s: string)
    | JArr(items: seq<Json>)
    | JObj(fields: map<string, Json>)

  /** The fields of a structpb.Struct: a (sub-)schema of a component definition. */
  type Node = map<string, Json>

  // ---------------------------------------------------------------------------
  // structpb accessors: each yields the zero value when the value is absent or
  // of another kind, exactly like GetStringValue, GetNumberValue, GetListValue
  // and GetStructValue on a nil or differently typed *structpb.Value.
  // ---------------------------------------------------------------------------

  function StrOf(j: Json): string {
    if j.JStr? then j.s else ""
  }

  function NumOf(j: Json): int {
    if j.JNum? then j.n else 0
  }

  function ListOf(j: Json): seq<Json> {
    if j.JArr? then j.items else []
  }

  function StructOf(j: Json): Node {
    if j.JObj? then j.fields else map[]
  }

  function StringAt(n: Node, k: string): string {
    if k in n then StrOf(n[k]) else ""
  }

  function NumberAt(n: Node, k: string): int {
    if k in n then NumOf(n[k]) else 0
  }

  function ListAt(n: Node, k: string): seq<Json> {
    if k in n then ListOf(n[k]) else []
  }

  function StructAt(n: Node, k: string): Node {
    if k in n then StructOf(n[k]) else map[]
  }

  /** `if _, ok := n[k]; !ok { n[k] = v }`. */
  function WithDefault(n: Node, k: string, v: Json): (r: Node)
    ensures k in r && r.Keys == n.Keys + {k}
    ensures r[k] == if k in n then n[k] else v
    ensures forall x {:trigger r[x]} :: x in n && x != k ==> r[x] == n[x]
  {
    if k in n then n else n[k := v]
  }

  /** The node declares `"type": "object"`. */
  predicate IsObjectType(n: Node) {
    "type" in n && n["type"] == JStr("object")
  }

  // ---------------------------------------------------------------------------
  // Object depth: the largest number of object-typed schema nodes on a path
  // from the value down. Converting an object-typed node converts its
  // composite branches twice; the depth drops strictly between the node and
  // those branches, which is what makes the conversion terminate.
  // ---------------------------------------------------------------------------

  ghost function Own(m: Node): nat {
    if IsObjectType(m) then 1 else 0
  }

  ghost function Max(a: nat, b: nat): nat {
    if a < b then b else a
  }

  /** Some element of a non-empty set of keys; every fold below visits keys in this order. */
  ghost function Pick(ks: set<string>): (k: string)
    requires ks != {}
    ensures k in ks
  {
    var k :| k in ks; k
  }

  ghost function Depth(j: Json): nat
    decreases j, 1
  {
    match j
    case JObj(m) => Own(m) + MaxDepth(m, m.Keys)
    case JArr(xs) => MaxElemDepth(xs, 0)
    case _ => 0
  }

  ghost function MaxDepth(m: Node, ks: set<string>): nat
    requires ks <= m.Keys
    decreases JObj(m), 0, ks
  {
    if ks == {} then 0
    else
      var k := Pick(ks);
      Max(Depth(m[k]), MaxDepth(m, ks - {k}))
  }

  ghost function MaxElemDepth(xs: seq<Json>, i: nat): nat
    requires i <= |xs|
    decreases JArr(xs), 0, |xs| - i
  {
    if i == |xs| then 0 else Max(Depth(xs[i]), MaxElemDepth(xs, i + 1))
  }

  lemma {:induction false} MaxDepthUpper(m: Node, ks: set<string>, k: string)
    requires ks <= m.Keys && k in ks
    ensures Depth(m[k]) <= MaxDepth(m, ks)
    decreases ks
  {
    var k0 := Pick(ks);
    if k0 != k {
      MaxDepthUpper(m, ks - {k0}, k);
    }
  }

  lemma {:induction false} MaxDepthLeast(m: Node, ks: set<string>, b: nat)
    requires ks <= m.Keys
    requires forall k :: k in ks ==> Depth(m[k]) <= b
    ensures MaxDepth(m, ks) <= b
    decreases ks
  {
    if ks != {} {
      var k0 := Pick(ks);
      MaxDepthLeast(m, ks - {k0}, b);
    }
  }

  lemma {:induction false} MaxElemDepthUpper(xs: seq<Json>, i: nat, j: nat)
    requires i <= j < |xs|
    ensures Depth(xs[j]) <= MaxElemDepth(xs, i)
    decreases j - i
  {
    if i < j {
      MaxElemDepthUpper(xs, i + 1, j);
    }
  }

  lemma {:induction false} MaxElemDepthLeast(xs: seq<Json>, i: nat, b: nat)
    requires i <= |xs|
    requires forall j :: i <= j < |xs| ==> Depth(xs[j]) <= b
    ensures MaxElemDepth(xs, i) <= b
    decreases |xs| - i
  {
    if i < |xs| {
      MaxElemDepthLeast(xs, i + 1, b);
    }
  }

  /** A field lies below its object, under the object's own type marker. */
  lemma ObjDepthChild(m: Node, k: string)
    requires k in m
    ensures Own(m) + Depth(m[k]) <= Depth(JObj(m))
  {
    MaxDepthUpper(m, m.Keys, k);
  }

  lemma FieldDepth(m: Node, k: string)
    ensures k in m ==> Depth(m[k]) <= MaxDepth(m, m.Keys)
  {
    if k in m {
      MaxDepthUpper(m, m.Keys, k);
    }
  }

  /** An object is no deeper than its type marker plus a bound on its fields. */
  lemma ObjDepthBound(m: Node, b: nat)
    requires forall k :: k in m ==> Depth(m[k]) <= b
    ensures Depth(JObj(m)) <= Own(m) + b
  {
    MaxDepthLeast(m, m.Keys, b);
  }

  lemma ArrDepthElem(xs: seq<Json>, i: nat)
    requires i < |xs|
    ensures Depth(xs[i]) <= Depth(JArr(xs))
  {
    MaxElemDepthUpper(xs, 0, i);
  }

  lemma ArrDepthBound(xs: seq<Json>, b: nat)
    requires forall i :: 0 <= i < |xs| ==> Depth(xs[i]) <= b
    ensures Depth(JArr(xs)) <= b
  {
    MaxElemDepthLeast(xs, 0, b);
  }

  // ---------------------------------------------------------------------------
  // Node count.
  // ---------------------------------------------------------------------------

  ghost function Size(j: Json): nat
    decreases j, 1
  {
    match j
    case JObj(m) => 1 + SumSize(m, m.Keys)
    case JArr(xs) => 1 + SumElemSize(xs, 0)
    case _ => 1
  }

  ghost function SumSize(m: Node, ks: set<string>): nat
    requires ks <= m.Keys
    decreases JObj(m), 0, ks
  {
    if ks == {} then 0
    else
      var k := Pick(ks);
      Size(m[k]) + SumSize(m, ks - {k})
  }

  ghost function SumElemSize(xs: seq<Json>, i: nat): nat
    requires i <= |xs|
    decreases JArr(xs), 0, |xs| - i
  {
    if i == |xs| then 0 else Size(xs[i]) + SumElemSize(xs, i + 1)
  }

  lemma {:induction false} SumSizeUpper(m: Node, ks: set<string>, k: string)
    requires ks <= m.Keys && k in ks
    ensures Size(m[k]) <= SumSize(m, ks)
    decreases ks
  {
    var k0 := Pick(ks);
    if k0 != k {
      SumSizeUpper(m, ks - {k0}, k);
    }
  }

  lemma {:induction false} SumElemSizeUpper(xs: seq<Json>, i: nat, j: nat)
    requires i <= j < |xs|
    ensures Size(xs[j]) <= SumElemSize(xs, i)
    decreases j - i
  {
    if i < j {
      SumElemSizeUpper(xs, i + 1, j);
    }
  }

  lemma ObjSizeChild(m: Node, k: string)
    requires k in m
    ensures Size(m[k]) < Size(JObj(m))
  {
    SumSizeUpper(m, m.Keys, k);
  }

  lemma ArrSizeElem(xs: seq<Json>, i: nat)
    requires i < |xs|
    ensures Size(xs[i]) < Size(JArr(xs))
  {
    SumElemSizeUpper(xs, 0, i);
  }

  // ---------------------------------------------------------------------------
  // "Strictly below": smaller in the lexicographic order on (Depth, Size).
  // Every proper part of a value is strictly below it.
  // ---------------------------------------------------------------------------

  ghost predicate Below(x: Json, y: Json) {
    Depth(x) < Depth(y) || (Depth(x) <= Depth(y) && Size(x) < Size(y))
  }

  lemma BelowTrans(x: Json, y: Json, z: Json)
    requires x == y || Below(x, y)
    requires Below(y, z)
    ensures Below(x, z)
  {
  }

  lemma FieldBelow(m: Node, k: string)
    requires k in m
    ensures Below(m[k], JObj(m))
  {
    ObjDepthChild(m, k);
    ObjSizeChild(m, k);
  }

  lemma ElemBelow(xs: seq<Json>, i: nat)
    requires i < |xs|
    ensures Below(xs[i], JArr(xs))
  {
    ArrDepthElem(xs, i);
    ArrSizeElem(xs, i);
  }
}
