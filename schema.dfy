/**
 * The data-specification to component-specification conversion of the base
 * component (convertDataSpecToCompSpec) and the free-form format check it
 * relies on (checkFreeForm).
 *
 * The Go code visits the entries of `properties` and `patternProperties` in
 * map order; the model visits them in ascending key order, which only decides
 * which error is reported when several entries are invalid.
 */
module Schema {
  import opened Wrappers
  import opened Strings
  import opened JsonValue

  /** The ways schema processing fails. A Go panic is an error value here. */
  datatype SchemaError =
    | TypeMissing(node: Node)          // "type missing: %+v"
    | UnsupportedType(goType: string)  // "unsupported type: %T"
    | UnsupportedItemsType             // "unsupported type for items: %T"
    | Panic                            // nil dereference, write into a nil map, failed type assertion

  const CompositeKeys: set<string> := {"allOf", "anyOf", "oneOf"}

  const MemberKeys: set<string> := {"properties", "patternProperties"}

  /** Both nodes have the key `k` with the same value, or neither has it. */
  ghost predicate SameAt(a: Node, b: Node, k: string) {
    (k in a <==> k in b) && (k in a ==> a[k] == b[k])
  }

  /** The literal keys the conversion tells apart. */
  lemma KeyFacts()
    ensures "properties" != "required" && "properties" != "instillEditOnNodeFields"
    ensures "patternProperties" != "required" && "patternProperties" != "instillEditOnNodeFields"
    ensures "properties" !in CompositeKeys && "patternProperties" !in CompositeKeys && "type" !in CompositeKeys
    ensures "required" !in CompositeKeys && "instillEditOnNodeFields" !in CompositeKeys
    ensures forall t :: t in CompositeKeys ==> t !in MemberKeys && t != "required" && t != "instillEditOnNodeFields"
  {
  }

  predicate HasComposite(n: Node) {
    "anyOf" in n || "allOf" in n || "oneOf" in n
  }

  // ---------------------------------------------------------------------------
  // checkFreeForm
  // ---------------------------------------------------------------------------

  const FreeFormFormats: set<string> := {"*", "semi-structured/*", "semi-structured/json"}

  predicate IsFreeFormat(j: Json) {
    j.JStr? && j.s in FreeFormFormats
  }

  /** The accepted formats followed by the declared format, when it is not empty. */
  function DeclaredFormats(n: Node): seq<Json> {
    var f := StringAt(n, "instillFormat");
    ListAt(n, "instillAcceptFormats") + (if f != "" then [JStr(f)] else [])
  }

  /**
   * The scan of checkFreeForm from entry `i` on: true at the first wildcard
   * format, false when there is none; an entry that is not a string, met
   * before any wildcard, fails the `v.(string)` assertion.
   */
  function ScanFormats(fs: seq<Json>, i: nat): (r: Result<bool, SchemaError>)
    requires i <= |fs|
    ensures r.Err? ==> r.error == Panic
    decreases |fs| - i
  {
    if i == |fs| then Ok(false)
    else if !fs[i].JStr? then Err(Panic)
    else if fs[i].s in FreeFormFormats then Ok(true)
    else ScanFormats(fs, i + 1)
  }

  /**
   * checkFreeForm: a node is free-form when it declares no format at all, or
   * when one of its formats is a wildcard.
   */
  function CheckFreeForm(n: Node): (r: Result<bool, SchemaError>)
  {
    var fs := DeclaredFormats(n);
    if |fs| == 0 then Ok(true) else ScanFormats(fs, 0)
  }

  /** Entry `j` is a string naming a format that is not a wildcard. */
  predicate IsPlainFormat(j: Json) {
    j.JStr? && !IsFreeFormat(j)
  }

  /** The scan finds no wildcard exactly when every entry is a non-wildcard string. */
  lemma {:induction false} ScanFindsNone(fs: seq<Json>, i: nat)
    requires i <= |fs|
    ensures ScanFormats(fs, i) == Ok(false) <==> forall j :: i <= j < |fs| ==> IsPlainFormat(fs[j])
    decreases |fs| - i
  {
    if i < |fs| {
      if IsPlainFormat(fs[i]) {
        ScanFindsNone(fs, i + 1);
        assert ScanFormats(fs, i) == ScanFormats(fs, i + 1);
        if forall j :: i + 1 <= j < |fs| ==> IsPlainFormat(fs[j]) {
          forall j | i <= j < |fs|
            ensures IsPlainFormat(fs[j])
          {
            if j > i {
              assert i + 1 <= j;
            }
          }
        }
      } else {
        assert ScanFormats(fs, i) != Ok(false);
      }
    }
  }

  /** The scan finds a wildcard exactly when one comes before any entry that is not a string. */
  lemma {:induction false} ScanFindsWildcard(fs: seq<Json>, i: nat)
    requires i <= |fs|
    ensures ScanFormats(fs, i) == Ok(true) <==>
              exists j :: i <= j < |fs| && IsFreeFormat(fs[j]) && forall l :: i <= l < j ==> fs[l].JStr?
    decreases |fs| - i
  {
    if i < |fs| {
      if !fs[i].JStr? {
        assert ScanFormats(fs, i) == Err(Panic);
      } else if IsFreeFormat(fs[i]) {
        assert ScanFormats(fs, i) == Ok(true);
      } else {
        ScanFindsWildcard(fs, i + 1);
        assert ScanFormats(fs, i) == ScanFormats(fs, i + 1);
        if exists j :: i <= j < |fs| && IsFreeFormat(fs[j]) && forall l :: i <= l < j ==> fs[l].JStr? {
          var j :| i <= j < |fs| && IsFreeFormat(fs[j]) && forall l :: i <= l < j ==> fs[l].JStr?;
          assert j != i;
          assert forall l :: i + 1 <= l < j ==> fs[l].JStr?;
        }
        if exists j :: i + 1 <= j < |fs| && IsFreeFormat(fs[j]) && forall l :: i + 1 <= l < j ==> fs[l].JStr? {
          var j :| i + 1 <= j < |fs| && IsFreeFormat(fs[j]) && forall l :: i + 1 <= l < j ==> fs[l].JStr?;
          assert forall l :: i <= l < j ==> fs[l].JStr?;
        }
      }
    }
  }

  /** The scan fails exactly when an entry that is not a string comes before any wildcard. */
  lemma {:induction false} ScanFails(fs: seq<Json>, i: nat)
    requires i <= |fs|
    ensures ScanFormats(fs, i).Err? <==>
              exists j :: i <= j < |fs| && !fs[j].JStr? && forall l :: i <= l < j ==> IsPlainFormat(fs[l])
    decreases |fs| - i
  {
    if i < |fs| {
      if !fs[i].JStr? {
        assert ScanFormats(fs, i).Err?;
      } else if IsFreeFormat(fs[i]) {
        assert ScanFormats(fs, i) == Ok(true);
      } else {
        ScanFails(fs, i + 1);
        assert ScanFormats(fs, i) == ScanFormats(fs, i + 1);
        if exists j :: i <= j < |fs| && !fs[j].JStr? && forall l :: i <= l < j ==> IsPlainFormat(fs[l]) {
          var j :| i <= j < |fs| && !fs[j].JStr? && forall l :: i <= l < j ==> IsPlainFormat(fs[l]);
          assert j != i;
          assert forall l :: i + 1 <= l < j ==> IsPlainFormat(fs[l]);
        }
        if exists j :: i + 1 <= j < |fs| && !fs[j].JStr? && forall l :: i + 1 <= l < j ==> IsPlainFormat(fs[l]) {
          var j :| i + 1 <= j < |fs| && !fs[j].JStr? && forall l :: i + 1 <= l < j ==> IsPlainFormat(fs[l]);
          assert forall l :: i <= l < j ==> IsPlainFormat(fs[l]);
        }
      }
    }
  }

  /**
   * A node without declared formats is free-form; a node whose formats are
   * all strings is free-form exactly when one is a wildcard; the check can
   * only fail with a panic.
   */
  lemma CheckFreeFormMeaning(n: Node)
    ensures |DeclaredFormats(n)| == 0 ==> CheckFreeForm(n) == Ok(true)
    ensures (forall i :: 0 <= i < |DeclaredFormats(n)| ==> DeclaredFormats(n)[i].JStr?) ==>
              CheckFreeForm(n) == Ok(|DeclaredFormats(n)| == 0 ||
                                     exists i :: 0 <= i < |DeclaredFormats(n)| && IsFreeFormat(DeclaredFormats(n)[i]))
    ensures CheckFreeForm(n).Err? ==> CheckFreeForm(n).error == Panic
  {
    var fs := DeclaredFormats(n);
    if |fs| > 0 {
      ScanFindsNone(fs, 0);
      ScanFindsWildcard(fs, 0);
      ScanFails(fs, 0);
    }
  }

  // ---------------------------------------------------------------------------
  // convertDataSpecToCompSpec
  // ---------------------------------------------------------------------------

  /** The conversion rejects the node itself with "type missing". */
  predicate MissingType(n: Node) {
    "const" !in n && CheckFreeForm(n) == Ok(false) && "type" !in n && !HasComposite(n)
  }

  /** Keys of a scalar node that the value branch of its `anyOf` leaves out. */
  const PresentationKeys: set<string> :=
    {"title", "description", "instillShortDescription", "instillAcceptFormats", "instillUIOrder", "instillUpstreamTypes"}

  /** The branch accepting a literal value: the node itself without its presentation keys. */
  function ValueBranch(n: Node): Node {
    (n - PresentationKeys)["instillUpstreamType" := JStr("value")]
  }

  const ReferenceBranch: Node :=
    map["type" := JStr("string"), "pattern" := JStr("^\\{.*\\}$"), "instillUpstreamType" := JStr("reference")]

  const TemplateBranch: Node :=
    map["type" := JStr("string"), "instillUpstreamType" := JStr("template")]

  /** The `anyOf` branch for one recognised upstream type. */
  function BranchOf(tag: string, vb: Node): Json {
    if tag == "value" then JObj(vb)
    else if tag == "reference" then JObj(ReferenceBranch)
    else JObj(TemplateBranch)
  }

  predicate IsUpstreamTag(t: string) {
    t == "value" || t == "reference" || t == "template"
  }

  /** The entries of `instillUpstreamTypes` that are one of the three recognised tags, in order. */
  function RecognisedTags(ts: seq<Json>): (r: seq<string>)
    ensures forall i :: 0 <= i < |r| ==> IsUpstreamTag(r[i])
  {
    if ts == [] then []
    else (if IsUpstreamTag(StrOf(ts[0])) then [StrOf(ts[0])] else []) + RecognisedTags(ts[1..])
  }

  /** The loop over `instillUpstreamTypes` that builds `anyOf`. */
  function UpstreamBranches(ts: seq<Json>, vb: Node): seq<Json> {
    if ts == [] then []
    else
      var t := StrOf(ts[0]);
      (if IsUpstreamTag(t) then [BranchOf(t, vb)] else []) + UpstreamBranches(ts[1..], vb)
  }

  /** The replacement node built for a node that is not of object type. */
  function ScalarSpec(n: Node): Node {
    var desc := StringAt(n, "description");
    var ts := ListAt(n, "instillUpstreamTypes");
    ScalarShape(
      StringAt(n, "title"), desc,
      if "instillShortDescription" in n then n["instillShortDescription"] else JStr(desc),
      NumberAt(n, "instillUIOrder"), ts, UpstreamBranches(ts, ValueBranch(n)),
      if "instillAcceptFormats" in n then Some(ListAt(n, "instillAcceptFormats")) else None)
  }

  /** The fields of the replacement node, with `instillAcceptFormats` only when the node declares it. */
  function ScalarShape(title: string, desc: string, short: Json, order: int, ts: seq<Json>, branches: seq<Json>,
                       formats: Option<seq<Json>>): Node {
    var base := map[
      "title" := JStr(title),
      "description" := JStr(desc),
      "instillShortDescription" := short,
      "instillUIOrder" := JNum(order),
      "instillUpstreamTypes" := JArr(ts),
      "anyOf" := JArr(branches)];
    if formats.Some? then base["instillAcceptFormats" := JArr(formats.value)] else base
  }

  /**
   * The scalar branch. The node is a clone: a clone of an empty Struct has a
   * nil field map, and the `instillUIOrder` default is written into it.
   */
  function ConvertScalar(n: Node): (r: Result<Node, SchemaError>)
    ensures r.Ok? ==> Depth(JObj(r.value)) <= Depth(JObj(n))
    ensures r.Err? ==> r.error == Panic
  {
    if n == map[] then Err(Panic)
    else
      ScalarSpecDepth(n);
      Ok(ScalarSpec(n))
  }

  /**
   * The defaults every object node receives: `required`, an empty list unless
   * present, and `instillEditOnNodeFields`, the (possibly defaulted)
   * `required` unless present; values already there are kept.
   */
  function ObjectDefaults(n: Node): (r: Node)
    ensures r.Keys == n.Keys + {"required", "instillEditOnNodeFields"}
    ensures r["required"] == if "required" in n then n["required"] else JArr([])
    ensures r["instillEditOnNodeFields"] ==
              if "instillEditOnNodeFields" in n then n["instillEditOnNodeFields"] else r["required"]
    ensures forall k {:trigger r[k]} :: k in n && k != "required" && k != "instillEditOnNodeFields" ==> r[k] == n[k]
    ensures Depth(JObj(r)) <= Depth(JObj(n))
  {
    var n1 := WithDefault(n, "required", JArr([]));
    var r := WithDefault(n1, "instillEditOnNodeFields", n1["required"]);
    assert Depth(JArr([])) == 0 by { assert MaxElemDepth([], 0) == 0; }
    FieldDepth(n, "required");
    DepthDominated(r, n);
    r
  }

  /**
   * The data specification `n` as a component specification: a constant is
   * kept, a node without type, format and composites is rejected, composite
   * branches are converted, and then an object node gets its defaults and
   * converted members (and its composite branches converted once more) while
   * any other node is replaced by its `anyOf` of upstream-type branches.
   */
  function ConvertDataSpec(n: Node): (r: Result<Node, SchemaError>)
    ensures r.Ok? ==> Depth(JObj(r.value)) <= Depth(JObj(n))
    ensures r.Err? && r.error.TypeMissing? ==> r.error.node == n || Below(JObj(r.error.node), JObj(n))
    decreases Depth(JObj(n)), JObj(n), 6
  {
    if "const" in n then Ok(n)
    else
      match CheckFreeForm(n)
      case Err(_) => Err(Panic)
      case Ok(free) =>
        if "type" !in n && !free && !HasComposite(n) then Err(TypeMissing(n))
        else ConvertTyped(n)
  }

  /** A node that passed the checks: its composite lists, then the object or the scalar branch. */
  function ConvertTyped(n: Node): (r: Result<Node, SchemaError>)
    ensures r.Ok? ==> Depth(JObj(r.value)) <= Depth(JObj(n))
    ensures r.Err? && r.error.TypeMissing? ==> Below(JObj(r.error.node), JObj(n))
    decreases Depth(JObj(n)), JObj(n), 5
  {
    match ConvertComposites(n, n)
    case Err(e) => Err(e)
    case Ok(n1) =>
      CompositesDepth(n, n1);
      if IsObjectType(n1) then ConvertObject(n, n1) else ConvertScalar(n1)
  }

  /** A constant is kept as it is. */
  lemma ConvertKeepsConst(n: Node)
    requires "const" in n
    ensures ConvertDataSpec(n) == Ok(n)
  {
  }

  /** The node itself is reported as missing its type exactly when it declares no type, format or composite. */
  lemma ConvertTypeMissing(n: Node)
    ensures ConvertDataSpec(n) == Err(TypeMissing(n)) <==> MissingType(n)
  {
    if "const" !in n {
      var cf := CheckFreeForm(n);
      if cf.Err? {
        assert ConvertDataSpec(n) == Err(Panic);
      } else if "type" !in n && !cf.value && !HasComposite(n) {
        assert ConvertDataSpec(n) == Err(TypeMissing(n));
      } else {
        assert ConvertDataSpec(n) == ConvertTyped(n);
      }
    }
  }

  /**
   * The object branch, on the node `n1` produced from `n` by the first pass:
   * defaults, then `properties`, then `patternProperties`, then a second
   * pass over the composite branches.
   */
  function ConvertObject(ghost n: Node, n1: Node): (r: Result<Node, SchemaError>)
    requires IsObjectType(n1)
    requires n1.Keys == n.Keys && forall k {:trigger n1[k]} :: k in n && k !in CompositeKeys ==> n1[k] == n[k]
    requires Depth(JObj(n1)) <= Depth(JObj(n))
    ensures r.Ok? ==> Depth(JObj(r.value)) <= Depth(JObj(n))
    ensures r.Err? && r.error.TypeMissing? ==> Below(JObj(r.error.node), JObj(n))
    decreases Depth(JObj(n)), JObj(n), 4
  {
    KeyFacts();
    var n2 := ObjectDefaults(n1);
    match ConvertMembers(n, n2)
    case Err(e) => Err(e)
    case Ok(n4) =>
      SecondPassDepth(n, n1, n4);
      match ConvertComposites(n, n4)
      case Err(e) => Err(e)
      case Ok(c) =>
        ObjectResultDepth(n, n1, n2, n4, c);
        Ok(c)
  }

  /** The `properties` loop (lists kept) and the `patternProperties` loop (lists refused). */
  function ConvertMembers(ghost n: Node, n2: Node): (r: Result<Node, SchemaError>)
    requires SameAt(n2, n, "properties") && SameAt(n2, n, "patternProperties")
    ensures r.Ok? ==> r.value.Keys == n2.Keys && forall k {:trigger r.value[k]} :: k in n2 && k !in MemberKeys ==> r.value[k] == n2[k]
    ensures r.Ok? && "properties" in n2 ==> Depth(r.value["properties"]) <= Depth(n2["properties"])
    ensures r.Ok? && "patternProperties" in n2 ==> Depth(r.value["patternProperties"]) <= Depth(n2["patternProperties"])
    ensures r.Err? && r.error.TypeMissing? ==> Below(JObj(r.error.node), JObj(n))
    decreases Depth(JObj(n)), JObj(n), 3
  {
    TargetBelow(n, "properties");
    TargetBelow(n, "patternProperties");
    match (if "properties" in n2 then ConvertMember(n2["properties"], true) else Ok(JNull))
    case Err(e) =>
      if e.TypeMissing? then BelowTrans(JObj(e.node), n["properties"], JObj(n)); Err(e) else Err(e)
    case Ok(props) =>
      var n3 := if "properties" in n2 then n2["properties" := props] else n2;
      match (if "patternProperties" in n3 then ConvertMember(n3["patternProperties"], false) else Ok(JNull))
      case Err(e) =>
        if e.TypeMissing? then BelowTrans(JObj(e.node), n["patternProperties"], JObj(n)); Err(e) else Err(e)
      case Ok(pats) =>
        Ok(if "patternProperties" in n3 then n3["patternProperties" := pats] else n3)
  }

  /**
   * The loop over the `allOf`, `anyOf` and `oneOf` branch lists, in that
   * order, on the node `m`: the node `n` itself (the first pass) or, for an
   * object node `n`, the node after its members were converted (the second
   * pass, where every composite list lies strictly below `n`).
   */
  function ConvertComposites(ghost n: Node, m: Node): (r: Result<Node, SchemaError>)
    requires forall t {:trigger m[t]} :: t in CompositeKeys && t in m ==> Depth(m[t]) < Depth(JObj(n)) || (t in n && m[t] == n[t])
    ensures r.Ok? ==> r.value.Keys == m.Keys && forall k {:trigger r.value[k]} :: k in m && k !in CompositeKeys ==> r.value[k] == m[k]
    ensures r.Ok? && "allOf" in m ==> Depth(r.value["allOf"]) <= Depth(m["allOf"])
    ensures r.Ok? && "anyOf" in m ==> Depth(r.value["anyOf"]) <= Depth(m["anyOf"])
    ensures r.Ok? && "oneOf" in m ==> Depth(r.value["oneOf"]) <= Depth(m["oneOf"])
    ensures r.Err? && r.error.TypeMissing? ==> Below(JObj(r.error.node), JObj(n))
    decreases Depth(JObj(n)), JObj(n), 3
  {
    match ConvertCompositeAt(n, m, "allOf")
    case Err(e) => Err(e)
    case Ok(a) =>
      assert "anyOf" in a ==> a["anyOf"] == m["anyOf"];
      match ConvertCompositeAt(n, a, "anyOf")
      case Err(e) => Err(e)
      case Ok(b) =>
        assert "oneOf" in b ==> b["oneOf"] == m["oneOf"];
        match ConvertCompositeAt(n, b, "oneOf")
        case Err(e) => Err(e)
        case Ok(c) =>
          ChainKept(m, a, b, c);
          Ok(c)
  }

  /** The three steps of the loop together keep every key outside the composites. */
  lemma ChainKept(m: Node, a: Node, b: Node, c: Node)
    requires a.Keys == m.Keys && b.Keys == a.Keys && c.Keys == b.Keys
    requires forall k {:trigger a[k]} :: k in m && k != "allOf" ==> a[k] == m[k]
    requires forall k {:trigger b[k]} :: k in a && k != "anyOf" ==> b[k] == a[k]
    requires forall k {:trigger c[k]} :: k in b && k != "oneOf" ==> c[k] == b[k]
    ensures forall k {:trigger c[k]} :: k in m && k !in CompositeKeys ==> c[k] == m[k]
    ensures "allOf" in m ==> c["allOf"] == a["allOf"]
    ensures "anyOf" in m ==> c["anyOf"] == b["anyOf"]
  {
  }

  /** One list of the loop: `t` is converted when present and every other key is kept. */
  function ConvertCompositeAt(ghost n: Node, m: Node, t: string): (r: Result<Node, SchemaError>)
    requires t in m ==> Depth(m[t]) < Depth(JObj(n)) || (t in n && m[t] == n[t])
    ensures r.Ok? ==> r.value.Keys == m.Keys && forall k {:trigger r.value[k]} :: k in m && k != t ==> r.value[k] == m[k]
    ensures r.Ok? && t in m ==> Depth(r.value[t]) <= Depth(m[t])
    ensures r.Err? && r.error.TypeMissing? ==> Below(JObj(r.error.node), JObj(n))
    decreases Depth(JObj(n)), JObj(n), 2
  {
    if t in m then
      TargetBelow(n, t);
      match ConvertTarget(m, t)
      case Err(e) =>
        if e.TypeMissing? then StepBelow(n, m, t, JObj(e.node)); Err(e) else Err(e)
      case Ok(c) => Ok(c)
    else
      Ok(m)
  }

  /** Converts every branch of the list at `t`, when `t` holds a list. */
  function ConvertTarget(n: Node, t: string): (r: Result<Node, SchemaError>)
    requires t in n
    ensures r.Ok? ==> r.value.Keys == n.Keys && forall k {:trigger r.value[k]} :: k in n && k != t ==> r.value[k] == n[k]
    ensures r.Ok? ==> Depth(r.value[t]) <= Depth(n[t])
    ensures r.Ok? && !n[t].JArr? ==> r.value[t] == n[t]
    ensures r.Ok? && n[t].JArr? ==> r.value[t].JArr? && |r.value[t].items| == |n[t].items|
    ensures r.Err? && r.error.TypeMissing? ==> Below(JObj(r.error.node), n[t])
    decreases Depth(n[t]), n[t], 2
  {
    if n[t].JArr? then
      var xs :- ConvertBranches(n[t].items, 0);
      BranchesDepth(n[t].items, xs);
      Ok(n[t := JArr(xs)])
    else
      Ok(n)
  }

  /** The branches `xs[i..]`, each converted. */
  function ConvertBranches(xs: seq<Json>, i: nat): (r: Result<seq<Json>, SchemaError>)
    requires i <= |xs|
    ensures r.Ok? ==> |r.value| == |xs| - i
    ensures r.Ok? ==> forall j :: 0 <= j < |r.value| ==> Depth(r.value[j]) <= Depth(xs[i + j])
    ensures r.Err? && r.error.TypeMissing? ==> Below(JObj(r.error.node), JArr(xs))
    decreases Depth(JArr(xs)), JArr(xs), 1, |xs| - i
  {
    if i == |xs| then Ok([])
    else
      ElemBelow(xs, i);
      ArrDepthElem(xs, i);
      match ConvertBranch(xs[i])
      case Err(e) =>
        if e.TypeMissing? then BelowTrans(JObj(e.node), xs[i], JArr(xs)); Err(e) else Err(e)
      case Ok(c) =>
        match ConvertBranches(xs, i + 1)
        case Err(e) => Err(e)
        case Ok(rest) =>
          var out := [c] + rest;
          assert forall j :: 0 <= j < |out| ==> Depth(out[j]) <= Depth(xs[i + j]) by {
            forall j | 0 <= j < |out|
              ensures Depth(out[j]) <= Depth(xs[i + j])
            {
              if j > 0 {
                assert out[j] == rest[j - 1];
                assert i + j == (i + 1) + (j - 1);
              }
            }
          }
          Ok(out)
  }

  /** One branch: an object is converted; anything else is read as a nil Struct and panics. */
  function ConvertBranch(x: Json): (r: Result<Json, SchemaError>)
    ensures r.Ok? ==> Depth(r.value) <= Depth(x) && r.value.JObj?
    ensures r.Err? && r.error.TypeMissing? ==> JObj(r.error.node) == x || Below(JObj(r.error.node), x)
    decreases Depth(x), x, 7
  {
    if x.JObj? then
      var c :- ConvertDataSpec(x.fields);
      Ok(JObj(c))
    else
      Err(Panic)
  }

  /** The members of `properties` (lists allowed) or `patternProperties` (lists refused). */
  function ConvertMember(v: Json, allowList: bool): (r: Result<Json, SchemaError>)
    ensures r.Ok? ==> Depth(r.value) <= Depth(v)
    ensures r.Ok? && !v.JObj? ==> r.value == v
    ensures r.Ok? && v.JObj? ==> r.value.JObj? && r.value.fields.Keys == v.fields.Keys
    ensures r.Err? && r.error.TypeMissing? ==> Below(JObj(r.error.node), v)
    decreases Depth(v), v, 2
  {
    if v.JObj? then
      var out :- ConvertEntries(v.fields, SortedKeys(v.fields.Keys), 0, allowList);
      Ok(JObj(out))
    else
      Ok(v)
  }

  /** The entries `keys[i..]` of a member map, each converted, with every other entry kept. */
  function ConvertEntries(m: Node, keys: seq<string>, i: nat, allowList: bool): (r: Result<Node, SchemaError>)
    requires i <= |keys|
    requires forall j :: 0 <= j < |keys| ==> keys[j] in m
    ensures r.Ok? ==> r.value.Keys == m.Keys && Own(r.value) == Own(m)
    ensures r.Ok? ==> Depth(JObj(r.value)) <= Depth(JObj(m))
    ensures r.Err? && r.error.TypeMissing? ==> Below(JObj(r.error.node), JObj(m))
    decreases Depth(JObj(m)), JObj(m), 1, |keys| - i
  {
    if i == |keys| then
      Ok(m)
    else
      FieldBelow(m, keys[i]);
      var v :- ConvertEntry(m[keys[i]], allowList);
      var rest :- ConvertEntries(m, keys, i + 1, allowList);
      EntryUpdateDepth(m, rest, keys[i], v);
      Ok(rest[keys[i] := v])
  }

  /**
   * One member: an object is converted; a list is kept or refused; null is
   * refused ("unsupported type: <nil>"); strings, numbers and booleans are kept.
   */
  function ConvertEntry(v: Json, allowList: bool): (r: Result<Json, SchemaError>)
    ensures r.Ok? ==> Depth(r.value) <= Depth(v)
    ensures r.Ok? ==> (r.value.JObj? <==> v.JObj?) && (!v.JObj? ==> r.value == v)
    ensures r.Err? && r.error.TypeMissing? ==> JObj(r.error.node) == v || Below(JObj(r.error.node), v)
    decreases Depth(v), v, 7
  {
    match v
    case JObj(f) =>
      var c :- ConvertDataSpec(f);
      Ok(JObj(c))
    case JArr(_) =>
      if allowList then Ok(v) else Err(UnsupportedType("[]interface {}"))
    case JNull =>
      Err(UnsupportedType("<nil>"))
    case _ =>
      Ok(v)
  }

  // ---------------------------------------------------------------------------
  // Depth bookkeeping for the conversion's termination.
  // ---------------------------------------------------------------------------

  /** A node whose fields are fields of `n` or bounded by `n`'s fields is no deeper than `n`. */
  lemma DepthDominated(sub: Node, n: Node)
    requires Own(sub) <= Own(n)
    requires forall k {:trigger sub[k]} :: k in sub ==> (k in n && sub[k] == n[k]) || Depth(sub[k]) <= MaxDepth(n, n.Keys)
    ensures Depth(JObj(sub)) <= Depth(JObj(n))
  {
    forall k | k in sub
      ensures Depth(sub[k]) <= MaxDepth(n, n.Keys)
    {
      if k in n && sub[k] == n[k] {
        MaxDepthUpper(n, n.Keys, k);
      }
    }
    ObjDepthBound(sub, MaxDepth(n, n.Keys));
  }

  lemma TargetBelow(n: Node, t: string)
    ensures t in n ==> Depth(n[t]) <= Depth(JObj(n)) && Below(n[t], JObj(n))
  {
    if t in n {
      ObjDepthChild(n, t);
      FieldBelow(n, t);
    }
  }

  lemma StepBelow(n: Node, m: Node, t: string, x: Json)
    requires t in m && Below(x, m[t])
    requires Depth(m[t]) < Depth(JObj(n)) || (t in n && m[t] == n[t])
    ensures Below(x, JObj(n))
  {
    if t in n && m[t] == n[t] {
      TargetBelow(n, t);
      BelowTrans(x, n[t], JObj(n));
    }
  }

  lemma ListAtDepth(n: Node, k: string)
    ensures Depth(JArr(ListAt(n, k))) <= MaxDepth(n, n.Keys)
  {
    if k in n && n[k].JArr? {
      MaxDepthUpper(n, n.Keys, k);
    }
  }

  lemma UpstreamBranchesDepth(ts: seq<Json>, vb: Node, b: nat)
    requires Depth(JObj(vb)) <= b
    ensures Depth(JArr(UpstreamBranches(ts, vb))) <= b
  {
    var bs := UpstreamBranches(ts, vb);
    ObjDepthBound(ReferenceBranch, 0);
    ObjDepthBound(TemplateBranch, 0);
    UpstreamBranchesShape(ts, vb);
    forall i | 0 <= i < |bs|
      ensures Depth(bs[i]) <= b
    {
    }
    ArrDepthBound(bs, b);
  }

  lemma ValueBranchDepth(n: Node)
    ensures Depth(JObj(ValueBranch(n))) <= Depth(JObj(n))
  {
    var vb := ValueBranch(n);
    forall k | k in vb
      ensures (k in n && vb[k] == n[k]) || Depth(vb[k]) <= MaxDepth(n, n.Keys)
    {
      if k == "instillUpstreamType" {
        assert vb[k] == JStr("value");
      }
    }
    DepthDominated(vb, n);
  }

  lemma ScalarSpecDepth(n: Node)
    ensures Depth(JObj(ScalarSpec(n))) <= Depth(JObj(n))
  {
    var top := Depth(JObj(n));
    var desc := StringAt(n, "description");
    var ts := ListAt(n, "instillUpstreamTypes");
    ValueBranchDepth(n);
    ListAtDepth(n, "instillUpstreamTypes");
    ListAtDepth(n, "instillAcceptFormats");
    UpstreamBranchesDepth(ts, ValueBranch(n), top);
    FieldDepth(n, "instillShortDescription");
    ScalarShapeDepth(
      StringAt(n, "title"), desc,
      if "instillShortDescription" in n then n["instillShortDescription"] else JStr(desc),
      NumberAt(n, "instillUIOrder"), ts, UpstreamBranches(ts, ValueBranch(n)),
      if "instillAcceptFormats" in n then Some(ListAt(n, "instillAcceptFormats")) else None, top);
  }

  /** The replacement node is no deeper than the deepest of its lists and short description. */
  lemma ScalarShapeDepth(title: string, desc: string, short: Json, order: int, ts: seq<Json>, branches: seq<Json>,
                         formats: Option<seq<Json>>, b: nat)
    requires Depth(short) <= b && Depth(JArr(ts)) <= b && Depth(JArr(branches)) <= b
    requires formats.Some? ==> Depth(JArr(formats.value)) <= b
    ensures Depth(JObj(ScalarShape(title, desc, short, order, ts, branches, formats))) <= b
  {
    var s := ScalarShape(title, desc, short, order, ts, branches, formats);
    forall k | k in s
      ensures Depth(s[k]) <= b
    {
    }
    assert "type" !in s;
    ObjDepthBound(s, b);
  }

  lemma CompositesDepth(n: Node, c: Node)
    requires c.Keys == n.Keys && forall k {:trigger c[k]} :: k in n && k !in CompositeKeys ==> c[k] == n[k]
    requires "allOf" in n ==> Depth(c["allOf"]) <= Depth(n["allOf"])
    requires "anyOf" in n ==> Depth(c["anyOf"]) <= Depth(n["anyOf"])
    requires "oneOf" in n ==> Depth(c["oneOf"]) <= Depth(n["oneOf"])
    ensures Depth(JObj(c)) <= Depth(JObj(n))
  {
    forall k | k in c
      ensures (k in n && c[k] == n[k]) || Depth(c[k]) <= MaxDepth(n, n.Keys)
    {
      if k in CompositeKeys {
        MaxDepthUpper(n, n.Keys, k);
      }
    }
    DepthDominated(c, n);
  }

  /** The composite lists of an object node lie strictly below the original node. */
  lemma SecondPassDepth(n: Node, n1: Node, n4: Node)
    requires IsObjectType(n1) && Depth(JObj(n1)) <= Depth(JObj(n))
    requires SameAt(n4, n1, "allOf") && SameAt(n4, n1, "anyOf") && SameAt(n4, n1, "oneOf")
    ensures forall t {:trigger n4[t]} :: t in CompositeKeys && t in n4 ==> Depth(n4[t]) < Depth(JObj(n))
  {
    forall t | t in CompositeKeys && t in n4
      ensures Depth(n4[t]) < Depth(JObj(n))
    {
      ObjDepthChild(n1, t);
    }
  }

  lemma ObjectResultDepth(n: Node, n1: Node, n2: Node, n4: Node, c: Node)
    requires Depth(JObj(n1)) <= Depth(JObj(n)) && Depth(JObj(n2)) <= Depth(JObj(n1))
    requires n4.Keys == n2.Keys && forall k {:trigger n4[k]} :: k in n2 && k !in MemberKeys ==> n4[k] == n2[k]
    requires "properties" in n2 ==> Depth(n4["properties"]) <= Depth(n2["properties"])
    requires "patternProperties" in n2 ==> Depth(n4["patternProperties"]) <= Depth(n2["patternProperties"])
    requires c.Keys == n4.Keys && forall k {:trigger c[k]} :: k in n4 && k !in CompositeKeys ==> c[k] == n4[k]
    requires "allOf" in n4 ==> Depth(c["allOf"]) <= Depth(n4["allOf"])
    requires "anyOf" in n4 ==> Depth(c["anyOf"]) <= Depth(n4["anyOf"])
    requires "oneOf" in n4 ==> Depth(c["oneOf"]) <= Depth(n4["oneOf"])
    ensures Depth(JObj(c)) <= Depth(JObj(n))
  {
    forall k | k in c
      ensures (k in n2 && c[k] == n2[k]) || Depth(c[k]) <= MaxDepth(n2, n2.Keys)
    {
      if k in CompositeKeys || k in MemberKeys {
        MaxDepthUpper(n2, n2.Keys, k);
      }
    }
    DepthDominated(c, n2);
  }

  lemma BranchesDepth(xs: seq<Json>, ys: seq<Json>)
    requires |ys| == |xs|
    requires forall j :: 0 <= j < |ys| ==> Depth(ys[j]) <= Depth(xs[0 + j])
    ensures Depth(JArr(ys)) <= Depth(JArr(xs))
  {
    forall j | 0 <= j < |ys|
      ensures Depth(ys[j]) <= Depth(JArr(xs))
    {
      ArrDepthElem(xs, j);
    }
    ArrDepthBound(ys, Depth(JArr(xs)));
  }

  /** Storing a converted entry keeps the map's type marker and does not deepen it. */
  lemma EntryUpdateDepth(m: Node, rest: Node, k: string, v: Json)
    requires k in m && rest.Keys == m.Keys && Own(rest) == Own(m)
    requires Depth(JObj(rest)) <= Depth(JObj(m)) && Depth(v) <= Depth(m[k])
    requires (v.JObj? <==> m[k].JObj?) && (!m[k].JObj? ==> v == m[k])
    ensures Own(rest[k := v]) == Own(m)
    ensures Depth(JObj(rest[k := v])) <= Depth(JObj(m))
  {
    var out := rest[k := v];
    assert MaxDepth(rest, rest.Keys) <= MaxDepth(m, m.Keys);
    forall x | x in out
      ensures Depth(out[x]) <= MaxDepth(m, m.Keys)
    {
      if x == k {
        MaxDepthUpper(m, m.Keys, k);
      } else {
        MaxDepthUpper(rest, rest.Keys, x);
      }
    }
    ObjDepthBound(out, MaxDepth(m, m.Keys));
  }

  // ---------------------------------------------------------------------------
  // Properties of the conversion.
  // ---------------------------------------------------------------------------

  /** One branch per recognised upstream type, in the order of the list. */
  lemma {:induction false} UpstreamBranchesShape(ts: seq<Json>, vb: Node)
    ensures |UpstreamBranches(ts, vb)| == |RecognisedTags(ts)|
    ensures forall i :: 0 <= i < |RecognisedTags(ts)| ==> UpstreamBranches(ts, vb)[i] == BranchOf(RecognisedTags(ts)[i], vb)
  {
    if ts != [] {
      UpstreamBranchesShape(ts[1..], vb);
      var t := StrOf(ts[0]);
      var bs := UpstreamBranches(ts[1..], vb);
      var tags := RecognisedTags(ts[1..]);
      if IsUpstreamTag(t) {
        assert UpstreamBranches(ts, vb) == [BranchOf(t, vb)] + bs;
        assert RecognisedTags(ts) == [t] + tags;
        forall i | 0 <= i < |RecognisedTags(ts)|
          ensures UpstreamBranches(ts, vb)[i] == BranchOf(RecognisedTags(ts)[i], vb)
        {
          if i > 0 {
            assert UpstreamBranches(ts, vb)[i] == bs[i - 1];
            assert RecognisedTags(ts)[i] == tags[i - 1];
          }
        }
      } else {
        assert UpstreamBranches(ts, vb) == bs;
        assert RecognisedTags(ts) == tags;
      }
    }
  }

  // ---------------------------------------------------------------------------
  // What the conversion produces, stated by reference definitions.
  // ---------------------------------------------------------------------------

  /** An object value after conversion (when it converts); anything else is left as it is. */
  ghost function Converted(x: Json): Json {
    if ConvertBranch(x).Ok? then ConvertBranch(x).value else x
  }

  /** A composite branch converts when it is an object whose conversion succeeds. */
  ghost predicate BranchConverts(x: Json) {
    x.JObj? && ConvertDataSpec(x.fields).Ok?
  }

  /** The value under `allOf`, `anyOf` or `oneOf` converts when each branch of its list does. */
  ghost predicate CompositeConverts(v: Json) {
    v.JArr? ==> forall j :: 0 <= j < |v.items| ==> BranchConverts(v.items[j])
  }

  ghost function ConvertedComposite(v: Json): Json {
    if v.JArr? then JArr(ConvertedList(v.items, 0)) else v
  }

  /** The values `xs[i..]`, each converted. */
  ghost function ConvertedList(xs: seq<Json>, i: nat): (r: seq<Json>)
    requires i <= |xs|
    decreases |xs| - i
  {
    if i == |xs| then [] else [Converted(xs[i])] + ConvertedList(xs, i + 1)
  }

  /** Every composite list of the node converts. */
  ghost predicate CompositesConvert(m: Node) {
    ("allOf" in m ==> CompositeConverts(m["allOf"])) &&
    ("anyOf" in m ==> CompositeConverts(m["anyOf"])) &&
    ("oneOf" in m ==> CompositeConverts(m["oneOf"]))
  }

  /** The node with each of its composite lists converted branch by branch. */
  ghost function ConvertedComposites(m: Node): Node {
    map k | k in m :: if k in CompositeKeys then ConvertedComposite(m[k]) else m[k]
  }

  /** A member of `properties` (lists allowed) or `patternProperties` (lists refused) converts. */
  ghost predicate EntryConverts(v: Json, allowList: bool) {
    match v
    case JObj(f) => ConvertDataSpec(f).Ok?
    case JArr(_) => allowList
    case JNull => false
    case _ => true
  }

  ghost predicate MemberConverts(v: Json, allowList: bool) {
    v.JObj? ==> forall k :: k in v.fields ==> EntryConverts(v.fields[k], allowList)
  }

  ghost function ConvertedMember(v: Json): Json {
    if v.JObj? then JObj(map k | k in v.fields :: Converted(v.fields[k])) else v
  }

  ghost predicate MembersConvert(m: Node) {
    ("properties" in m ==> MemberConverts(m["properties"], true)) &&
    ("patternProperties" in m ==> MemberConverts(m["patternProperties"], false))
  }

  ghost function ConvertedMembers(m: Node): Node {
    map k | k in m :: if k in MemberKeys then ConvertedMember(m[k]) else m[k]
  }

  lemma BranchContent(x: Json)
    ensures ConvertBranch(x).Ok? <==> BranchConverts(x)
    ensures ConvertBranch(x).Ok? ==> ConvertBranch(x).value == Converted(x)
  {
  }

  lemma {:induction false} BranchesContent(xs: seq<Json>, i: nat)
    requires i <= |xs|
    ensures ConvertBranches(xs, i).Ok? <==> forall j :: i <= j < |xs| ==> BranchConverts(xs[j])
    decreases |xs| - i
  {
    if i < |xs| {
      BranchesContent(xs, i + 1);
      BranchContent(xs[i]);
      var e := ConvertBranch(xs[i]);
      var rest := ConvertBranches(xs, i + 1);
      var r := ConvertBranches(xs, i);
      assert r.Ok? <==> e.Ok? && rest.Ok?;
      if r.Ok? {
        forall j | i <= j < |xs|
          ensures BranchConverts(xs[j])
        {
          if j > i {
            assert i + 1 <= j;
          }
        }
      } else if e.Err? {
        assert !BranchConverts(xs[i]);
      } else {
        var j :| i + 1 <= j < |xs| && !BranchConverts(xs[j]);
      }
    }
  }

  lemma {:induction false} BranchesValue(xs: seq<Json>, i: nat)
    requires i <= |xs|
    ensures ConvertBranches(xs, i).Ok? ==> ConvertBranches(xs, i).value == ConvertedList(xs, i)
    decreases |xs| - i
  {
    var r := ConvertBranches(xs, i);
    if i < |xs| && r.Ok? {
      BranchesValue(xs, i + 1);
      BranchContent(xs[i]);
      var e := ConvertBranch(xs[i]);
      var rest := ConvertBranches(xs, i + 1);
      assert e.Ok? && rest.Ok? && r.value == [e.value] + rest.value;
    }
  }

  lemma TargetContent(n: Node, t: string)
    requires t in n
    ensures ConvertTarget(n, t).Ok? <==> CompositeConverts(n[t])
    ensures ConvertTarget(n, t).Ok? ==> ConvertTarget(n, t).value == n[t := ConvertedComposite(n[t])]
  {
    if n[t].JArr? {
      var xs := n[t].items;
      BranchesContent(xs, 0);
      BranchesValue(xs, 0);
      var r := ConvertBranches(xs, 0);
      if r.Ok? {
        assert r.value == ConvertedComposite(n[t]).items;
      }
    }
  }

  lemma CompositeAtContent(n: Node, m: Node, t: string)
    requires t in m ==> Depth(m[t]) < Depth(JObj(n)) || (t in n && m[t] == n[t])
    ensures ConvertCompositeAt(n, m, t).Ok? <==> (t in m ==> CompositeConverts(m[t]))
    ensures ConvertCompositeAt(n, m, t).Ok? ==>
              ConvertCompositeAt(n, m, t).value == if t in m then m[t := ConvertedComposite(m[t])] else m
  {
    if t in m {
      TargetContent(m, t);
    }
  }

  lemma CompositesContent(n: Node, m: Node)
    requires forall t {:trigger m[t]} :: t in CompositeKeys && t in m ==> Depth(m[t]) < Depth(JObj(n)) || (t in n && m[t] == n[t])
    ensures ConvertComposites(n, m).Ok? <==> CompositesConvert(m)
    ensures ConvertComposites(n, m).Ok? ==> ConvertComposites(n, m).value == ConvertedComposites(m)
  {
    CompositeAtContent(n, m, "allOf");
    var ra := ConvertCompositeAt(n, m, "allOf");
    if ra.Ok? {
      var a := ra.value;
      assert "anyOf" in a ==> a["anyOf"] == m["anyOf"];
      CompositeAtContent(n, a, "anyOf");
      var rb := ConvertCompositeAt(n, a, "anyOf");
      if rb.Ok? {
        var b := rb.value;
        assert "oneOf" in b ==> b["oneOf"] == m["oneOf"];
        CompositeAtContent(n, b, "oneOf");
        var rc := ConvertCompositeAt(n, b, "oneOf");
        if rc.Ok? {
          ComposedComposites(m, a, b, rc.value);
        }
      }
    }
  }

  /** Converting the three lists one after another converts all of them. */
  lemma ComposedComposites(m: Node, a: Node, b: Node, c: Node)
    requires a == if "allOf" in m then m["allOf" := ConvertedComposite(m["allOf"])] else m
    requires b == if "anyOf" in a then a["anyOf" := ConvertedComposite(a["anyOf"])] else a
    requires c == if "oneOf" in b then b["oneOf" := ConvertedComposite(b["oneOf"])] else b
    ensures c == ConvertedComposites(m)
  {
    forall k | k in m
      ensures c[k] == ConvertedComposites(m)[k]
    {
    }
  }

  lemma EntryContent(v: Json, allowList: bool)
    ensures ConvertEntry(v, allowList).Ok? <==> EntryConverts(v, allowList)
    ensures ConvertEntry(v, allowList).Ok? ==> ConvertEntry(v, allowList).value == Converted(v)
  {
  }

  /** An entry that fails to convert makes the whole walk fail. */
  lemma {:induction false} EntriesFail(m: Node, keys: seq<string>, i: nat, allowList: bool, j: nat)
    requires i <= j < |keys|
    requires forall j :: 0 <= j < |keys| ==> keys[j] in m
    requires !ConvertEntry(m[keys[j]], allowList).Ok?
    ensures !ConvertEntries(m, keys, i, allowList).Ok?
    decreases j - i
  {
    var e := ConvertEntry(m[keys[i]], allowList);
    if i < j && e.Ok? {
      EntriesFail(m, keys, i + 1, allowList, j);
      var rest := ConvertEntries(m, keys, i + 1, allowList);
      assert rest.Err?;
    }
  }

  /** The walk succeeds when every entry it visits converts. */
  lemma {:induction false} EntriesSucceed(m: Node, keys: seq<string>, i: nat, allowList: bool)
    requires i <= |keys|
    requires forall j :: 0 <= j < |keys| ==> keys[j] in m
    requires forall j :: i <= j < |keys| ==> ConvertEntry(m[keys[j]], allowList).Ok?
    ensures ConvertEntries(m, keys, i, allowList).Ok?
    decreases |keys| - i
  {
    if i < |keys| {
      EntriesSucceed(m, keys, i + 1, allowList);
      assert ConvertEntry(m[keys[i]], allowList).Ok?;
    }
  }

  /** After a successful walk, each visited key holds its entry converted. */
  lemma {:induction false} EntriesValue(m: Node, keys: seq<string>, i: nat, allowList: bool, j: nat)
    requires i <= j < |keys|
    requires forall j :: 0 <= j < |keys| ==> keys[j] in m
    requires ConvertEntries(m, keys, i, allowList).Ok?
    ensures ConvertEntry(m[keys[j]], allowList).Ok?
    ensures ConvertEntries(m, keys, i, allowList).value[keys[j]] == ConvertEntry(m[keys[j]], allowList).value
    decreases j - i
  {
    var e := ConvertEntry(m[keys[i]], allowList);
    var rest := ConvertEntries(m, keys, i + 1, allowList);
    var r := ConvertEntries(m, keys, i, allowList);
    assert e.Ok? && rest.Ok? && r.value == rest.value[keys[i] := e.value];
    if i < j && keys[j] != keys[i] {
      EntriesValue(m, keys, i + 1, allowList, j);
      assert r.value[keys[j]] == rest.value[keys[j]];
    }
  }

  /** The member loop succeeds exactly when every entry converts. */
  lemma MemberEntriesOk(v: Json, allowList: bool)
    requires v.JObj?
    ensures ConvertMember(v, allowList).Ok? <==> forall k :: k in v.fields ==> ConvertEntry(v.fields[k], allowList).Ok?
  {
    var f := v.fields;
    var ks := SortedKeys(f.Keys);
    var r := ConvertEntries(f, ks, 0, allowList);
    assert ConvertMember(v, allowList).Ok? <==> r.Ok?;
    if forall k :: k in f ==> ConvertEntry(f[k], allowList).Ok? {
      forall j | 0 <= j < |ks|
        ensures ConvertEntry(f[ks[j]], allowList).Ok?
      {
        assert ks[j] in f;
      }
      EntriesSucceed(f, ks, 0, allowList);
    } else {
      var k :| k in f && !ConvertEntry(f[k], allowList).Ok?;
      var j :| 0 <= j < |ks| && ks[j] == k;
      EntriesFail(f, ks, 0, allowList, j);
    }
  }

  /** Each entry of a converted member map is that entry converted. */
  lemma MemberEntriesValue(v: Json, allowList: bool)
    requires v.JObj? && ConvertMember(v, allowList).Ok?
    ensures ConvertMember(v, allowList).value.JObj?
    ensures ConvertMember(v, allowList).value.fields.Keys == v.fields.Keys
    ensures forall k :: k in v.fields ==>
              ConvertEntry(v.fields[k], allowList).Ok? &&
              ConvertMember(v, allowList).value.fields[k] == ConvertEntry(v.fields[k], allowList).value
  {
    var f := v.fields;
    var ks := SortedKeys(f.Keys);
    var r := ConvertEntries(f, ks, 0, allowList);
    assert r.Ok? && ConvertMember(v, allowList).value == JObj(r.value);
    forall k | k in f
      ensures ConvertEntry(f[k], allowList).Ok? && r.value[k] == ConvertEntry(f[k], allowList).value
    {
      var j :| 0 <= j < |ks| && ks[j] == k;
      EntriesValue(f, ks, 0, allowList, j);
    }
  }

  lemma MemberContent(v: Json, allowList: bool)
    ensures ConvertMember(v, allowList).Ok? <==> MemberConverts(v, allowList)
    ensures ConvertMember(v, allowList).Ok? ==> ConvertMember(v, allowList).value == ConvertedMember(v)
  {
    if v.JObj? {
      var f := v.fields;
      forall k | k in f
        ensures ConvertEntry(f[k], allowList).Ok? <==> EntryConverts(f[k], allowList)
        ensures ConvertEntry(f[k], allowList).Ok? ==> ConvertEntry(f[k], allowList).value == Converted(f[k])
      {
        EntryContent(f[k], allowList);
      }
      MemberEntriesOk(v, allowList);
      if ConvertMember(v, allowList).Ok? {
        MemberEntriesValue(v, allowList);
        var out := ConvertMember(v, allowList).value.fields;
        assert out == ConvertedMember(v).fields;
      }
    }
  }

  lemma MembersContent(n: Node, n2: Node)
    requires SameAt(n2, n, "properties") && SameAt(n2, n, "patternProperties")
    ensures ConvertMembers(n, n2).Ok? <==> MembersConvert(n2)
    ensures ConvertMembers(n, n2).Ok? ==> ConvertMembers(n, n2).value == ConvertedMembers(n2)
  {
    if "properties" in n2 {
      MemberContent(n2["properties"], true);
    }
    var n3 := if "properties" in n2 then n2["properties" := ConvertedMember(n2["properties"])] else n2;
    if "patternProperties" in n3 {
      MemberContent(n3["patternProperties"], false);
    }
    if ConvertMembers(n, n2).Ok? {
      ComposedMembers(n2, n3, ConvertMembers(n, n2).value);
    }
  }

  /** Converting `properties` and then `patternProperties` converts both. */
  lemma ComposedMembers(m: Node, a: Node, b: Node)
    requires a == if "properties" in m then m["properties" := ConvertedMember(m["properties"])] else m
    requires b == if "patternProperties" in a then a["patternProperties" := ConvertedMember(a["patternProperties"])] else a
    ensures b == ConvertedMembers(m)
  {
    forall k | k in m
      ensures b[k] == ConvertedMembers(m)[k]
    {
    }
  }

  // ---------------------------------------------------------------------------
  // The conversion of one node.
  // ---------------------------------------------------------------------------

  /**
   * An object node converts exactly when its formats can be read and every
   * branch and member converts, the composite branches twice; the result is
   * the node with its composite lists converted, then its defaults, then its
   * members converted and its composite lists converted once more.
   */
  lemma ConvertObjectNode(n: Node)
    requires "const" !in n && IsObjectType(n)
    ensures ConvertDataSpec(n).Ok? <==>
              CheckFreeForm(n).Ok? && CompositesConvert(n) && MembersConvert(n) && CompositesConvert(ConvertedComposites(n))
    ensures ConvertDataSpec(n).Ok? ==>
              ConvertDataSpec(n).value == ConvertedComposites(ConvertedMembers(ObjectDefaults(ConvertedComposites(n))))
  {
    var cf := CheckFreeForm(n);
    if cf.Err? {
      assert ConvertDataSpec(n) == Err(Panic);
    } else {
      assert ConvertDataSpec(n) == ConvertTyped(n);
      CompositesContent(n, n);
      var rc := ConvertComposites(n, n);
      if rc.Err? {
        assert ConvertTyped(n) == Err(rc.error);
      } else {
        var n1 := rc.value;
        CompositesDepth(n, n1);
        assert ConvertTyped(n) == ConvertObject(n, n1);
        ObjectAfterFirstPass(n, n1);
      }
    }
  }

  /**
   * A converted object node carries its `required` list, an empty one by
   * default, and its `instillEditOnNodeFields`, by default that `required`.
   */
  lemma ConvertedObjectDefaults(n: Node)
    requires "const" !in n && IsObjectType(n)
    ensures ConvertDataSpec(n).Ok? ==>
              var r := ConvertDataSpec(n).value;
              "required" in r && "instillEditOnNodeFields" in r &&
              r["required"] == (if "required" in n then n["required"] else JArr([])) &&
              r["instillEditOnNodeFields"] ==
                (if "instillEditOnNodeFields" in n then n["instillEditOnNodeFields"] else r["required"])
  {
    ConvertObjectNode(n);
    KeyFacts();
  }

  lemma ObjectAfterFirstPass(n: Node, n1: Node)
    requires IsObjectType(n1) && Depth(JObj(n1)) <= Depth(JObj(n))
    requires n1.Keys == n.Keys && forall k {:trigger n1[k]} :: k in n && k !in CompositeKeys ==> n1[k] == n[k]
    ensures ConvertObject(n, n1).Ok? <==> MembersConvert(n) && CompositesConvert(n1)
    ensures ConvertObject(n, n1).Ok? ==> ConvertObject(n, n1).value == ConvertedComposites(ConvertedMembers(ObjectDefaults(n1)))
  {
    var n2 := ObjectDefaults(n1);
    SameMembers(n, n1, n2);
    MembersContent(n, n2);
    var rm := ConvertMembers(n, n2);
    if rm.Err? {
      assert ConvertObject(n, n1) == Err(rm.error);
    } else {
      var n4 := rm.value;
      KeyFacts();
      assert SameAt(n4, n1, "allOf") && SameAt(n4, n1, "anyOf") && SameAt(n4, n1, "oneOf");
      SecondPassContent(n, n1, n4);
      assert ConvertObject(n, n1) == ConvertComposites(n, n4);
    }
  }

  /** The defaults leave the members of a node as they were. */
  lemma SameMembers(n: Node, n1: Node, n2: Node)
    requires n1.Keys == n.Keys && forall k {:trigger n1[k]} :: k in n && k !in CompositeKeys ==> n1[k] == n[k]
    requires n2 == ObjectDefaults(n1)
    ensures SameAt(n2, n, "properties") && SameAt(n2, n, "patternProperties")
    ensures MembersConvert(n2) == MembersConvert(n)
  {
    KeyFacts();
  }

  lemma SecondPassContent(n: Node, n1: Node, n4: Node)
    requires IsObjectType(n1) && Depth(JObj(n1)) <= Depth(JObj(n))
    requires SameAt(n4, n1, "allOf") && SameAt(n4, n1, "anyOf") && SameAt(n4, n1, "oneOf")
    ensures forall t {:trigger n4[t]} :: t in CompositeKeys && t in n4 ==> Depth(n4[t]) < Depth(JObj(n))
    ensures ConvertComposites(n, n4).Ok? <==> CompositesConvert(n1)
    ensures ConvertComposites(n, n4).Ok? ==> ConvertComposites(n, n4).value == ConvertedComposites(n4)
  {
    SecondPassDepth(n, n1, n4);
    CompositesContent(n, n4);
    SameComposites(n1, n4);
  }

  lemma SameComposites(a: Node, b: Node)
    requires SameAt(a, b, "allOf") && SameAt(a, b, "anyOf") && SameAt(a, b, "oneOf")
    ensures CompositesConvert(a) == CompositesConvert(b)
  {
  }

  /**
   * A node of any other type converts exactly when its formats can be read,
   * it is not rejected for a missing type, it is not empty and its composite
   * branches convert; the result is the scalar specification of the node with
   * its composite lists converted.
   */
  lemma ConvertScalarNode(n: Node)
    requires "const" !in n && !IsObjectType(n)
    ensures ConvertDataSpec(n).Ok? <==>
              CheckFreeForm(n).Ok? && !MissingType(n) && n != map[] && CompositesConvert(n)
    ensures ConvertDataSpec(n).Ok? ==> ConvertDataSpec(n).value == ScalarSpec(ConvertedComposites(n))
  {
    var cf := CheckFreeForm(n);
    if cf.Err? {
      assert ConvertDataSpec(n) == Err(Panic);
    } else if "type" !in n && !cf.value && !HasComposite(n) {
      assert ConvertDataSpec(n) == Err(TypeMissing(n));
    } else {
      assert ConvertDataSpec(n) == ConvertTyped(n);
      CompositesContent(n, n);
      var rc := ConvertComposites(n, n);
      if rc.Err? {
        assert ConvertTyped(n) == Err(rc.error);
      } else {
        assert ConvertTyped(n) == ConvertScalar(rc.value);
        assert rc.value.Keys == n.Keys;
      }
    }
  }
}
