/**
 * formatDataSpec: the display form of a task's input or output schema, as
 * published in the component definition's data specifications.
 */
module Format {
  import opened Wrappers
  import opened Strings
  import opened JsonValue
  import opened Schema

  /**
   * The node that replaces a node of any type but array and object. The
   * short description is copied from the description in every case: the
   * code looks the key up in the node it is building, which never has it.
   */
  function LeafSpec(n: Node): Node {
    var desc := JStr(StringAt(n, "description"));
    var base := map[
      "type" := JStr(StringAt(n, "type")),
      "title" := JStr(StringAt(n, "title")),
      "description" := desc,
      "instillShortDescription" := desc,
      "instillUIOrder" := JNum(NumberAt(n, "instillUIOrder"))];
    if "instillFormat" in n then base["instillFormat" := JStr(StringAt(n, "instillFormat"))] else base
  }

  /**
   * formatDataSpec. The clone of an empty Struct has no field map and is
   * returned as an empty Struct; a constant is kept; a node without `type`
   * that is not free-form is rejected, whatever composites it has; arrays
   * and objects are formatted in place and every other node is reduced to
   * its leaf form.
   */
  function FormatDataSpec(n: Node): (r: Result<Node, SchemaError>)
    decreases JObj(n), 5
  {
    if n == map[] then Ok(map[])
    else if "const" in n then Ok(n)
    else match CheckFreeForm(n)
      case Err(e) => Err(e)
      case Ok(free) =>
        if "type" !in n && !free then Err(TypeMissing(n))
        else if StringAt(n, "type") == "array" then FormatArray(n)
        else if StringAt(n, "type") == "object" then FormatObject(n)
        else Ok(LeafSpec(n))
  }

  /** An array node: `instillUIOrder` defaults to 0 and an object `items` is formatted. */
  function FormatArray(n: Node): (r: Result<Node, SchemaError>)
    decreases JObj(n), 4
  {
    var n1 := WithDefault(n, "instillUIOrder", JNum(0));
    if "items" in n then
      match n["items"]
      case JObj(f) =>
        var c :- FormatDataSpec(f);
        Ok(n1["items" := JObj(c)])
      case JArr(_) => Ok(n1)
      case _ => Err(UnsupportedItemsType)
    else
      Ok(n1)
  }

  /** The keys an object node's formatting writes. */
  const ObjectFormatKeys: set<string> :=
    {"instillUIOrder", "required", "instillEditOnNodeFields", "properties", "patternProperties"}

  /**
   * An object node: the defaults for `instillUIOrder`, `required` and
   * `instillEditOnNodeFields`, then `properties` and `patternProperties`
   * formatted. The composite branches are formatted too, but the results
   * are stored into a temporary slice and dropped: only their errors remain.
   */
  function FormatObject(n: Node): (r: Result<Node, SchemaError>)
    decreases JObj(n), 4
  {
    FormatObjectMembers(n, ObjectDefaults(WithDefault(n, "instillUIOrder", JNum(0))))
  }

  /** The member passes of an object node over the node with its defaults, `p`, then the composite check. */
  function FormatObjectMembers(n: Node, p: Node): (r: Result<Node, SchemaError>)
    decreases JObj(n), 3
  {
    var n2 :- FormatMembers(n, p, "properties", false);
    var n3 :- FormatMembers(n, n2, "patternProperties", true);
    var _ :- CompositesFormat(n);
    Ok(n3)
  }

  /** `{key}` when `n[key]` is a member map, which the member pass then writes back. */
  function MemberKeysOf(n: Node, key: string): set<string> {
    if key in n && n[key].JObj? then {key} else {}
  }

  /** The three composite lists of an object node, formatted for their errors alone. */
  function CompositesFormat(n: Node): (r: Result<(), SchemaError>)
    decreases JObj(n), 2
  {
    var a :- FormatComposite(n, "allOf");
    var b :- FormatComposite(n, "anyOf");
    var c :- FormatComposite(n, "oneOf");
    Ok(())
  }

  /** `o` holds under `key` what the member pass made of `n[key]`. */
  ghost predicate MemberAfter(n: Node, o: Node, key: string, objectsOnly: bool) {
    (key in o <==> key in n) &&
    (key in n && n[key].JObj? ==>
       var pm := n[key].fields;
       FormatEntries(pm, SortedKeys(pm.Keys), 0, objectsOnly).Ok? &&
       o[key] == JObj(FormatEntries(pm, SortedKeys(pm.Keys), 0, objectsOnly).value)) &&
    (key in n && !n[key].JObj? ==> objectsOnly && o[key] == n[key])
  }

  /**
   * The member map `n[key]`, formatted into `out`. Under `properties` a
   * value that is not a map is a nil dereference, and non-object members
   * are kept. Under `patternProperties` (`objectsOnly`) a value that is not
   * a map has no members, and a member that is not an object fails the
   * `map[string]any` assertion.
   */
  function FormatMembers(n: Node, out: Node, key: string, objectsOnly: bool): (r: Result<Node, SchemaError>)
    ensures r.Ok? ==> r.value.Keys == out.Keys + MemberKeysOf(n, key)
    ensures r.Ok? ==> forall k {:trigger r.value[k]} :: k in out && k != key ==> r.value[k] == out[k]
    decreases JObj(n), 1
  {
    if key !in n then Ok(out)
    else match n[key]
      case JObj(pm) =>
        var c :- FormatEntries(pm, SortedKeys(pm.Keys), 0, objectsOnly);
        Ok(out[key := JObj(c)])
      case _ =>
        if objectsOnly then Ok(out) else Err(Panic)
  }

  /** The entries `keys[i..]` of a member map, each formatted. */
  function FormatEntries(m: Node, keys: seq<string>, i: nat, objectsOnly: bool): (r: Result<Node, SchemaError>)
    requires i <= |keys|
    requires forall j :: 0 <= j < |keys| ==> keys[j] in m
    ensures r.Ok? ==> r.value.Keys == m.Keys
    decreases JObj(m), 1, |keys| - i
  {
    if i == |keys| then
      Ok(m)
    else
      var v :- FormatEntry(m[keys[i]], objectsOnly);
      var rest :- FormatEntries(m, keys, i + 1, objectsOnly);
      Ok(rest[keys[i] := v])
  }

  /** One member or branch: an object is formatted; anything else is kept, or refused under `objectsOnly`. */
  function FormatEntry(v: Json, objectsOnly: bool): (r: Result<Json, SchemaError>)
    decreases v, 6
  {
    match v
    case JObj(f) =>
      var c :- FormatDataSpec(f);
      Ok(JObj(c))
    case _ =>
      if objectsOnly then Err(Panic) else Ok(v)
  }

  /** The branches of the composite list `n[t]`; a value that is not a list has none. */
  function FormatComposite(n: Node, t: string): (r: Result<seq<Json>, SchemaError>)
    decreases JObj(n), 1
  {
    if t in n && n[t].JArr? then FormatBranches(n[t].items, 0) else Ok([])
  }

  function FormatBranches(xs: seq<Json>, i: nat): (r: Result<seq<Json>, SchemaError>)
    requires i <= |xs|
    decreases JArr(xs), 1, |xs| - i
  {
    if i == |xs| then
      Ok([])
    else
      var b :- FormatEntry(xs[i], true);
      var rest :- FormatBranches(xs, i + 1);
      Ok([b] + rest)
  }

  // ---------------------------------------------------------------------------
  // Formatting a formatted schema changes nothing.
  // ---------------------------------------------------------------------------

  /** Whether a node is free-form depends on its format keys alone. */
  lemma SameFreeForm(a: Node, b: Node)
    requires SameAt(a, b, "instillAcceptFormats") && SameAt(a, b, "instillFormat")
    ensures CheckFreeForm(a) == CheckFreeForm(b)
  {
    assert DeclaredFormats(a) == DeclaredFormats(b);
  }

  /** After a successful walk, each visited key holds its entry formatted. */
  lemma {:induction false} FormatEntriesValue(m: Node, keys: seq<string>, i: nat, objectsOnly: bool, j: nat)
    requires i <= j < |keys|
    requires forall j :: 0 <= j < |keys| ==> keys[j] in m
    requires FormatEntries(m, keys, i, objectsOnly).Ok?
    ensures FormatEntry(m[keys[j]], objectsOnly).Ok?
    ensures FormatEntries(m, keys, i, objectsOnly).value[keys[j]] == FormatEntry(m[keys[j]], objectsOnly).value
    decreases j - i
  {
    var e := FormatEntry(m[keys[i]], objectsOnly);
    var rest := FormatEntries(m, keys, i + 1, objectsOnly);
    var r := FormatEntries(m, keys, i, objectsOnly);
    assert e.Ok? && rest.Ok? && r.value == rest.value[keys[i] := e.value];
    if i < j && keys[j] != keys[i] {
      FormatEntriesValue(m, keys, i + 1, objectsOnly, j);
      assert r.value[keys[j]] == rest.value[keys[j]];
    }
  }

  /** A walk over entries that each format to themselves returns the map unchanged. */
  lemma {:induction false} FormatEntriesFixed(m: Node, keys: seq<string>, i: nat, objectsOnly: bool)
    requires i <= |keys|
    requires forall j :: 0 <= j < |keys| ==> keys[j] in m
    requires forall j :: i <= j < |keys| ==> FormatEntry(m[keys[j]], objectsOnly) == Ok(m[keys[j]])
    ensures FormatEntries(m, keys, i, objectsOnly) == Ok(m)
    decreases |keys| - i
  {
    if i < |keys| {
      FormatEntriesFixed(m, keys, i + 1, objectsOnly);
      assert FormatEntry(m[keys[i]], objectsOnly) == Ok(m[keys[i]]);
      assert m[keys[i] := m[keys[i]]] == m;
    }
  }

  /** Formatting a formatted schema returns it unchanged. */
  lemma {:induction false} FormatIdempotent(n: Node)
    requires FormatDataSpec(n).Ok?
    ensures FormatDataSpec(FormatDataSpec(n).value) == FormatDataSpec(n)
    decreases JObj(n), 5
  {
    if n != map[] && "const" !in n {
      assert CheckFreeForm(n).Ok?;
      if StringAt(n, "type") == "array" {
        assert FormatDataSpec(n) == FormatArray(n);
        ArrayIdempotent(n);
      } else if StringAt(n, "type") == "object" {
        assert FormatDataSpec(n) == FormatObject(n);
        ObjectIdempotent(n);
      } else {
        assert FormatDataSpec(n) == Ok(LeafSpec(n));
        LeafIdempotent(n);
      }
    }
  }

  lemma LeafIdempotent(n: Node)
    requires StringAt(n, "type") != "array" && StringAt(n, "type") != "object"
    ensures FormatDataSpec(LeafSpec(n)) == Ok(LeafSpec(n))
  {
    var leaf := LeafSpec(n);
    var f := StringAt(leaf, "instillFormat");
    assert DeclaredFormats(leaf) == if f != "" then [JStr(f)] else [];
    if f != "" {
      assert ScanFormats([JStr(f)], 1) == Ok(false);
    }
    assert CheckFreeForm(leaf).Ok?;
    assert LeafSpec(leaf) == leaf;
  }

  lemma ArrayIdempotent(n: Node)
    requires n != map[] && "const" !in n && StringAt(n, "type") == "array" && CheckFreeForm(n).Ok?
    requires FormatArray(n).Ok?
    ensures FormatDataSpec(FormatArray(n).value) == FormatArray(n)
    decreases JObj(n), 4
  {
    var out := FormatArray(n).value;
    var n1 := WithDefault(n, "instillUIOrder", JNum(0));
    assert out == n1 || ("items" in n && out == n1["items" := out["items"]]);
    assert out.Keys == n.Keys + {"instillUIOrder"};
    assert SameAt(out, n, "instillAcceptFormats") && SameAt(out, n, "instillFormat") && SameAt(out, n, "type");
    SameFreeForm(out, n);
    assert FormatDataSpec(out) == FormatArray(out);
    assert WithDefault(out, "instillUIOrder", JNum(0)) == out;
    if "items" in n && n["items"].JObj? {
      var f := n["items"].fields;
      FormatIdempotent(f);
      assert out["items"] == JObj(FormatDataSpec(f).value);
      assert out["items" := out["items"]] == out;
    }
  }

  /** What a successful object pass leaves: the defaults, both member maps formatted, the rest kept. */
  lemma ObjectOutline(n: Node)
    requires FormatObject(n).Ok?
    ensures FormatObject(n).value.Keys == n.Keys + {"instillUIOrder", "required", "instillEditOnNodeFields"}
    ensures forall k {:trigger FormatObject(n).value[k]} :: k in n && k !in ObjectFormatKeys ==> FormatObject(n).value[k] == n[k]
    ensures MemberAfter(n, FormatObject(n).value, "properties", false)
    ensures MemberAfter(n, FormatObject(n).value, "patternProperties", true)
    ensures CompositesFormat(n).Ok?
  {
    var p := ObjectDefaults(WithDefault(n, "instillUIOrder", JNum(0)));
    DefaultsOutline(n);
    assert FormatObject(n) == FormatObjectMembers(n, p);
    ObjectMembersOutline(n, p);
  }

  /** The defaults of an object node add three keys and keep the rest. */
  lemma DefaultsOutline(n: Node)
    ensures var p := ObjectDefaults(WithDefault(n, "instillUIOrder", JNum(0)));
      && p.Keys == n.Keys + {"instillUIOrder", "required", "instillEditOnNodeFields"}
      && SameAt(p, n, "properties") && SameAt(p, n, "patternProperties")
      && forall k {:trigger p[k]} :: k in n && k !in ObjectFormatKeys ==> p[k] == n[k]
  {
  }

  /** The two member passes and the composite check, over the node with its defaults `p`. */
  lemma ObjectMembersOutline(n: Node, p: Node)
    requires FormatObjectMembers(n, p).Ok?
    requires SameAt(p, n, "properties") && SameAt(p, n, "patternProperties")
    ensures FormatObjectMembers(n, p).value.Keys == p.Keys
    ensures forall k {:trigger FormatObjectMembers(n, p).value[k]} :: k in p && k != "properties" && k != "patternProperties" ==> FormatObjectMembers(n, p).value[k] == p[k]
    ensures MemberAfter(n, FormatObjectMembers(n, p).value, "properties", false)
    ensures MemberAfter(n, FormatObjectMembers(n, p).value, "patternProperties", true)
    ensures CompositesFormat(n).Ok?
  {
    var n2 := FormatMembers(n, p, "properties", false).value;
    var n3 := FormatMembers(n, n2, "patternProperties", true).value;
    assert FormatObjectMembers(n, p) == Ok(n3);
    MembersOutline(n, p, "properties", false);
    MembersOutline(n, n2, "patternProperties", true);
  }

  /** One member pass stores in its result what it made of `n[key]`, and keeps every other key. */
  lemma MembersOutline(n: Node, p: Node, key: string, objectsOnly: bool)
    requires FormatMembers(n, p, key, objectsOnly).Ok?
    requires SameAt(p, n, key)
    ensures MemberAfter(n, FormatMembers(n, p, key, objectsOnly).value, key, objectsOnly)
  {
  }

  lemma ObjectIdempotent(n: Node)
    requires n != map[] && "const" !in n && StringAt(n, "type") == "object" && CheckFreeForm(n).Ok?
    requires FormatObject(n).Ok?
    ensures FormatDataSpec(FormatObject(n).value) == FormatObject(n)
    decreases JObj(n), 4
  {
    var out := FormatObject(n).value;
    ObjectOutline(n);
    KeptOutside(n, out);
    SameFreeForm(out, n);
    ObjectDispatch(out);
    MemberPassFixed(n, out, "properties", false);
    MemberPassFixed(n, out, "patternProperties", true);
    SameComposites(n, out);
    ObjectPassFixed(n, out);
  }

  /** The keys an object pass does not write are those of the node. */
  lemma KeptOutside(n: Node, out: Node)
    requires out.Keys == n.Keys + {"instillUIOrder", "required", "instillEditOnNodeFields"}
    requires forall k {:trigger out[k]} :: k in n && k !in ObjectFormatKeys ==> out[k] == n[k]
    ensures SameAt(out, n, "instillAcceptFormats") && SameAt(out, n, "instillFormat") && SameAt(out, n, "type")
    ensures SameAt(n, out, "allOf") && SameAt(n, out, "anyOf") && SameAt(n, out, "oneOf")
    ensures "const" in out <==> "const" in n
  {
  }

  /** A formatted object node is formatted as an object, over itself as its own defaults. */
  lemma ObjectDispatch(out: Node)
    requires "instillUIOrder" in out && "required" in out && "instillEditOnNodeFields" in out
    requires "const" !in out && StringAt(out, "type") == "object" && CheckFreeForm(out).Ok?
    ensures FormatDataSpec(out) == FormatObjectMembers(out, out)
  {
    assert FormatDataSpec(out) == FormatObject(out);
    assert WithDefault(out, "instillUIOrder", JNum(0)) == out;
    assert ObjectDefaults(out) == out;
  }

  /** Both member passes and the composite check keep a node whose member maps are formatted. */
  lemma ObjectPassFixed(n: Node, out: Node)
    requires FormatMembers(out, out, "properties", false) == Ok(out)
    requires FormatMembers(out, out, "patternProperties", true) == Ok(out)
    requires CompositesFormat(n).Ok? && CompositesFormat(out) == CompositesFormat(n)
    ensures FormatObjectMembers(out, out) == Ok(out)
  {
  }

  /** The composite check reads the three composite lists alone. */
  lemma SameComposites(a: Node, b: Node)
    requires SameAt(a, b, "allOf") && SameAt(a, b, "anyOf") && SameAt(a, b, "oneOf")
    ensures CompositesFormat(a) == CompositesFormat(b)
  {
    assert FormatComposite(a, "allOf") == FormatComposite(b, "allOf");
    assert FormatComposite(a, "anyOf") == FormatComposite(b, "anyOf");
    assert FormatComposite(a, "oneOf") == FormatComposite(b, "oneOf");
  }

  /** The second pass over a formatted member map, stored in `o` under `key`, keeps `o`. */
  lemma MemberPassFixed(n: Node, o: Node, key: string, objectsOnly: bool)
    requires MemberAfter(n, o, key, objectsOnly)
    ensures FormatMembers(o, o, key, objectsOnly) == Ok(o)
    decreases JObj(n), 1
  {
    if key in n && n[key].JObj? {
      var pm := n[key].fields;
      MembersIdempotent(pm, objectsOnly);
      assert o[key := o[key]] == o;
    }
  }

  /** Formatting the entries of a formatted member map keeps the map. */
  lemma MembersIdempotent(pm: Node, objectsOnly: bool)
    requires FormatEntries(pm, SortedKeys(pm.Keys), 0, objectsOnly).Ok?
    ensures var c := FormatEntries(pm, SortedKeys(pm.Keys), 0, objectsOnly).value;
            FormatEntries(c, SortedKeys(c.Keys), 0, objectsOnly) == Ok(c)
    decreases JObj(pm), 2
  {
    var ks := SortedKeys(pm.Keys);
    var c := FormatEntries(pm, ks, 0, objectsOnly).value;
    assert c.Keys == pm.Keys;
    forall j | 0 <= j < |ks|
      ensures FormatEntry(c[ks[j]], objectsOnly) == Ok(c[ks[j]])
    {
      FormatEntriesValue(pm, ks, 0, objectsOnly, j);
      EntryIdempotent(pm[ks[j]], objectsOnly);
    }
    FormatEntriesFixed(c, ks, 0, objectsOnly);
  }

  lemma EntryIdempotent(v: Json, objectsOnly: bool)
    requires FormatEntry(v, objectsOnly).Ok?
    ensures FormatEntry(FormatEntry(v, objectsOnly).value, objectsOnly) == FormatEntry(v, objectsOnly)
    decreases v, 6
  {
    if v.JObj? {
      FormatIdempotent(v.fields);
    }
  }

  // ---------------------------------------------------------------------------
  // What formatting makes of each kind of node.
  // ---------------------------------------------------------------------------

  /** An empty schema and a constant come back as they are. */
  lemma FormatKeepsTrivial(n: Node)
    ensures n == map[] ==> FormatDataSpec(n) == Ok(n)
    ensures "const" in n ==> FormatDataSpec(n) == Ok(n)
  {
  }

  /**
   * A node without `type` that is not free-form is rejected even when it has
   * composite branches, while the conversion into a component specification
   * accepts it exactly when those branches convert, giving its scalar form.
   */
  lemma FormatStricterThanConvert(n: Node)
    requires "const" !in n && "type" !in n && CheckFreeForm(n) == Ok(false) && HasComposite(n)
    ensures FormatDataSpec(n) == Err(TypeMissing(n))
    ensures ConvertDataSpec(n) != Err(TypeMissing(n))
    ensures ConvertDataSpec(n).Ok? <==> CompositesConvert(n)
    ensures ConvertDataSpec(n).Ok? ==> ConvertDataSpec(n).value == ScalarSpec(ConvertedComposites(n))
  {
    ConvertTypeMissing(n);
    ConvertScalarNode(n);
  }

  /** A node without `type` that is not free-form is rejected with itself as the culprit. */
  lemma FormatRejectsMissingType(n: Node)
    requires n != map[] && "const" !in n && "type" !in n && CheckFreeForm(n) == Ok(false)
    ensures FormatDataSpec(n) == Err(TypeMissing(n))
  {
  }

  /** A node of any type but array and object that passes the checks is replaced by its leaf form. */
  lemma FormatLeaf(n: Node)
    requires n != map[] && "const" !in n && CheckFreeForm(n).Ok?
    requires "type" in n || CheckFreeForm(n).value
    requires StringAt(n, "type") != "array" && StringAt(n, "type") != "object"
    ensures FormatDataSpec(n) == Ok(LeafSpec(n))
  {
  }

  /**
   * The leaf form keeps the type, title, description, order and (when there
   * is one) format, and nothing else; its short description is its description.
   */
  lemma LeafShape(n: Node)
    ensures var r := LeafSpec(n);
      && r.Keys == {"type", "title", "description", "instillShortDescription", "instillUIOrder"} +
                   (if "instillFormat" in n then {"instillFormat"} else {})
      && r["type"] == JStr(StringAt(n, "type"))
      && r["title"] == JStr(StringAt(n, "title"))
      && r["description"] == JStr(StringAt(n, "description"))
      && r["instillShortDescription"] == r["description"]
      && r["instillUIOrder"] == JNum(NumberAt(n, "instillUIOrder"))
  {
  }

  /**
   * An array node gets `instillUIOrder` 0 when it has none and its object
   * `items` formatted; list `items` are kept and any other `items` are
   * refused. Every other key is kept.
   */
  lemma FormatArrayShape(n: Node)
    requires n != map[] && "const" !in n && CheckFreeForm(n).Ok? && StringAt(n, "type") == "array"
    ensures "items" in n && !n["items"].JObj? && !n["items"].JArr? ==> FormatDataSpec(n) == Err(UnsupportedItemsType)
    ensures "items" in n && n["items"].JObj? ==>
              (FormatDataSpec(n).Ok? <==> FormatDataSpec(n["items"].fields).Ok?)
    ensures FormatDataSpec(n).Ok? ==>
              var r := FormatDataSpec(n).value;
              && r.Keys == n.Keys + {"instillUIOrder"}
              && r["instillUIOrder"] == (if "instillUIOrder" in n then n["instillUIOrder"] else JNum(0))
              && ("items" in n && n["items"].JObj? ==> r["items"] == JObj(FormatDataSpec(n["items"].fields).value))
              && forall k {:trigger r[k]} :: k in n && k != "instillUIOrder" && k != "items" ==> r[k] == n[k]
  {
    assert FormatDataSpec(n) == FormatArray(n);
  }

  /** The defaults of a formatted object node. */
  lemma FormatObjectDefaults(n: Node)
    requires FormatObject(n).Ok?
    ensures var r := FormatObject(n).value;
      && "instillUIOrder" in r && "required" in r && "instillEditOnNodeFields" in r
      && r["instillUIOrder"] == (if "instillUIOrder" in n then n["instillUIOrder"] else JNum(0))
      && r["required"] == (if "required" in n then n["required"] else JArr([]))
      && r["instillEditOnNodeFields"] == (if "instillEditOnNodeFields" in n then n["instillEditOnNodeFields"] else r["required"])
  {
    var p := ObjectDefaults(WithDefault(n, "instillUIOrder", JNum(0)));
    DefaultValues(n);
    DefaultsOutline(n);
    assert FormatObject(n) == FormatObjectMembers(n, p);
    ObjectMembersOutline(n, p);
  }

  lemma DefaultValues(n: Node)
    ensures var p := ObjectDefaults(WithDefault(n, "instillUIOrder", JNum(0)));
      && SameAt(p, n, "properties") && SameAt(p, n, "patternProperties")
      && p["instillUIOrder"] == (if "instillUIOrder" in n then n["instillUIOrder"] else JNum(0))
      && p["required"] == (if "required" in n then n["required"] else JArr([]))
      && p["instillEditOnNodeFields"] == (if "instillEditOnNodeFields" in n then n["instillEditOnNodeFields"] else p["required"])
  {
  }

  /** An object node fails when a composite branch fails, and `properties` that are not a map are a nil dereference. */
  lemma FormatObjectErrors(n: Node)
    ensures CompositesFormat(n).Err? ==> FormatObject(n).Err?
    ensures "properties" in n && !n["properties"].JObj? ==> FormatObject(n) == Err(Panic)
  {
    var p := ObjectDefaults(WithDefault(n, "instillUIOrder", JNum(0)));
    assert FormatObject(n) == FormatObjectMembers(n, p);
    MembersErrors(n, p);
  }

  lemma MembersErrors(n: Node, p: Node)
    ensures CompositesFormat(n).Err? ==> FormatObjectMembers(n, p).Err?
    ensures "properties" in n && !n["properties"].JObj? ==> FormatObjectMembers(n, p) == Err(Panic)
  {
    if "properties" in n && !n["properties"].JObj? {
      assert FormatMembers(n, p, "properties", false) == Err(Panic);
    }
  }
}
