/**
 * refineResourceSpec: the resource specification of a component, with a
 * short description on every node that has none and every member schema
 * refined in turn.
 */
module Refine {
  import opened Wrappers
  import opened Strings
  import opened JsonValue
  import opened Schema

  /**
   * refineResourceSpec. The clone of an empty Struct has no field map, so the
   * first write into it (the short description) is a write into a nil map.
   * Otherwise the short description defaults to the description, the
   * members of `properties` and `patternProperties` are refined, and the
   * composite branches are refined for their errors alone: each result is
   * stored into a fresh slice made by AsSlice and so dropped.
   */
  function RefineResourceSpec(n: Node): (r: Result<Node, SchemaError>)
    decreases JObj(n), 4
  {
    if n == map[] then Err(Panic)
    else RefinePasses(n, WithDefault(n, "instillShortDescription", JStr(StringAt(n, "description"))))
  }

  /** The two member passes over the node with its short description, `p`, then the composite check. */
  function RefinePasses(n: Node, p: Node): (r: Result<Node, SchemaError>)
    decreases JObj(n), 3
  {
    var n2 :- RefineMembers(n, p, "properties");
    var n3 :- RefineMembers(n, n2, "patternProperties");
    var _ :- RefineComposites(n);
    Ok(n3)
  }

  /**
   * The member map `n[key]`, refined into `out`. A value that is not a map
   * has no members (AsMap of a nil Struct is empty).
   */
  function RefineMembers(n: Node, out: Node, key: string): (r: Result<Node, SchemaError>)
    ensures r.Ok? ==> r.value.Keys == out.Keys + MemberKeys(n, key)
    ensures r.Ok? ==> forall k {:trigger r.value[k]} :: k in out && k != key ==> r.value[k] == out[k]
    decreases JObj(n), 1
  {
    if key in n && n[key].JObj? then
      var pm := n[key].fields;
      var c :- RefineEntries(pm, SortedKeys(pm.Keys), 0);
      Ok(out[key := JObj(c)])
    else
      Ok(out)
  }

  /** `{key}` when `n[key]` is a member map, which the member pass then writes back. */
  function MemberKeys(n: Node, key: string): set<string> {
    if key in n && n[key].JObj? then {key} else {}
  }

  /** The entries `keys[i..]` of a member map, each refined. */
  function RefineEntries(m: Node, keys: seq<string>, i: nat): (r: Result<Node, SchemaError>)
    requires i <= |keys|
    requires forall j :: 0 <= j < |keys| ==> keys[j] in m
    ensures r.Ok? ==> r.value.Keys == m.Keys
    decreases JObj(m), 1, |keys| - i
  {
    if i == |keys| then
      Ok(m)
    else
      var v :- RefineEntry(m[keys[i]]);
      var rest :- RefineEntries(m, keys, i + 1);
      Ok(rest[keys[i] := v])
  }

  /**
   * One member or branch, as AsMap and AsSlice present it: a map is refined,
   * a string, boolean or number is kept, and a list or null is refused with
   * the Go type `%T` prints for it.
   */
  function RefineEntry(v: Json): (r: Result<Json, SchemaError>)
    decreases v, 5
  {
    match v
    case JObj(f) =>
      var c :- RefineResourceSpec(f);
      Ok(JObj(c))
    case JArr(_) => Err(UnsupportedType("[]interface {}"))
    case JNull => Err(UnsupportedType("<nil>"))
    case _ => Ok(v)
  }

  /** The composite lists `allOf`, `anyOf` and `oneOf` in this order; a value that is not a list has no branches. */
  function RefineComposites(n: Node): (r: Result<(), SchemaError>)
    decreases JObj(n), 2
  {
    var _ :- RefineComposite(n, "allOf");
    var _ :- RefineComposite(n, "anyOf");
    var _ :- RefineComposite(n, "oneOf");
    Ok(())
  }

  function RefineComposite(n: Node, t: string): (r: Result<(), SchemaError>)
    decreases JObj(n), 1
  {
    if t in n && n[t].JArr? then RefineBranches(n[t].items, 0) else Ok(())
  }

  function RefineBranches(xs: seq<Json>, i: nat): (r: Result<(), SchemaError>)
    requires i <= |xs|
    decreases JArr(xs), 1, |xs| - i
  {
    if i == |xs| then
      Ok(())
    else
      var _ :- RefineEntry(xs[i]);
      RefineBranches(xs, i + 1)
  }

  // ---------------------------------------------------------------------------
  // The member walk.
  // ---------------------------------------------------------------------------

  /** After a successful walk, each visited key holds its entry refined. */
  lemma {:induction false} EntriesValue(m: Node, keys: seq<string>, i: nat, j: nat)
    requires i <= j < |keys|
    requires forall j :: 0 <= j < |keys| ==> keys[j] in m
    requires RefineEntries(m, keys, i).Ok?
    ensures RefineEntry(m[keys[j]]).Ok?
    ensures RefineEntries(m, keys, i).value[keys[j]] == RefineEntry(m[keys[j]]).value
    decreases j - i
  {
    var e := RefineEntry(m[keys[i]]);
    var rest := RefineEntries(m, keys, i + 1);
    var r := RefineEntries(m, keys, i);
    assert e.Ok? && rest.Ok? && r.value == rest.value[keys[i] := e.value];
    if i < j && keys[j] != keys[i] {
      EntriesValue(m, keys, i + 1, j);
      assert r.value[keys[j]] == rest.value[keys[j]];
    }
  }

  /** An entry that fails to refine makes the whole walk fail. */
  lemma {:induction false} EntriesFail(m: Node, keys: seq<string>, i: nat, j: nat)
    requires i <= j < |keys|
    requires forall j :: 0 <= j < |keys| ==> keys[j] in m
    requires RefineEntry(m[keys[j]]).Err?
    ensures RefineEntries(m, keys, i).Err?
    decreases j - i
  {
    var e := RefineEntry(m[keys[i]]);
    if i < j && e.Ok? {
      EntriesFail(m, keys, i + 1, j);
      var rest := RefineEntries(m, keys, i + 1);
      assert rest.Err?;
    }
  }

  /** A walk over entries that each refine to themselves returns the map unchanged. */
  lemma {:induction false} EntriesFixed(m: Node, keys: seq<string>, i: nat)
    requires i <= |keys|
    requires forall j :: 0 <= j < |keys| ==> keys[j] in m
    requires forall j :: i <= j < |keys| ==> RefineEntry(m[keys[j]]) == Ok(m[keys[j]])
    ensures RefineEntries(m, keys, i) == Ok(m)
    decreases |keys| - i
  {
    if i < |keys| {
      EntriesFixed(m, keys, i + 1);
      assert RefineEntry(m[keys[i]]) == Ok(m[keys[i]]);
      assert m[keys[i] := m[keys[i]]] == m;
    }
  }

  /** A member map fails to refine exactly when one of its entries does. */
  lemma MembersFail(pm: Node)
    ensures RefineEntries(pm, SortedKeys(pm.Keys), 0).Err? <==> exists k :: k in pm && RefineEntry(pm[k]).Err?
  {
    var ks := SortedKeys(pm.Keys);
    if exists k :: k in pm && RefineEntry(pm[k]).Err? {
      var k :| k in pm && RefineEntry(pm[k]).Err?;
      var j :| 0 <= j < |ks| && ks[j] == k;
      EntriesFail(pm, ks, 0, j);
    } else {
      EntriesNoFail(pm, ks, 0);
    }
  }

  /** The walk succeeds when no entry it visits fails. */
  lemma {:induction false} EntriesNoFail(m: Node, keys: seq<string>, i: nat)
    requires i <= |keys|
    requires forall j :: 0 <= j < |keys| ==> keys[j] in m
    requires forall j :: i <= j < |keys| ==> RefineEntry(m[keys[j]]).Ok?
    ensures RefineEntries(m, keys, i).Ok?
    decreases |keys| - i
  {
    if i < |keys| {
      EntriesNoFail(m, keys, i + 1);
      assert RefineEntry(m[keys[i]]).Ok?;
    }
  }

  // ---------------------------------------------------------------------------
  // What a successful refinement leaves.
  // ---------------------------------------------------------------------------

  /** `o` holds under `key` what the member pass made of `n[key]`, or `n[key]` itself when that is no map. */
  ghost predicate RefinedAt(n: Node, o: Node, key: string) {
    (key in o <==> key in n) &&
    (key in n && n[key].JObj? ==>
       var pm := n[key].fields;
       RefineEntries(pm, SortedKeys(pm.Keys), 0).Ok? &&
       o[key] == JObj(RefineEntries(pm, SortedKeys(pm.Keys), 0).value)) &&
    (key in n && !n[key].JObj? ==> o[key] == n[key])
  }

  /** The keys the refinement writes. */
  const RefineKeys: set<string> := {"instillShortDescription", "properties", "patternProperties"}

  /**
   * A successful refinement adds a short description (the description, when
   * there was none), refines both member maps and keeps every other key,
   * the composite lists among them; and every composite branch refines.
   */
  lemma RefineOutline(n: Node)
    requires RefineResourceSpec(n).Ok?
    ensures n != map[]
    ensures RefineResourceSpec(n).value.Keys == n.Keys + {"instillShortDescription"}
    ensures RefineResourceSpec(n).value["instillShortDescription"] ==
              if "instillShortDescription" in n then n["instillShortDescription"] else JStr(StringAt(n, "description"))
    ensures forall k {:trigger RefineResourceSpec(n).value[k]} ::
              k in n && k !in RefineKeys ==> RefineResourceSpec(n).value[k] == n[k]
    ensures RefinedAt(n, RefineResourceSpec(n).value, "properties")
    ensures RefinedAt(n, RefineResourceSpec(n).value, "patternProperties")
    ensures RefineComposites(n).Ok?
  {
    var p := WithDefault(n, "instillShortDescription", JStr(StringAt(n, "description")));
    ShortDescriptionDefault(n);
    assert RefineResourceSpec(n) == RefinePasses(n, p);
    PassesOutline(n, p);
  }

  lemma ShortDescriptionDefault(n: Node)
    ensures var p := WithDefault(n, "instillShortDescription", JStr(StringAt(n, "description")));
      && p.Keys == n.Keys + {"instillShortDescription"}
      && SameAt(p, n, "properties") && SameAt(p, n, "patternProperties")
      && forall k {:trigger p[k]} :: k in n && k !in RefineKeys ==> p[k] == n[k]
  {
  }

  /** The two member passes and the composite check, over the node with its short description `p`. */
  lemma PassesOutline(n: Node, p: Node)
    requires RefinePasses(n, p).Ok?
    requires SameAt(p, n, "properties") && SameAt(p, n, "patternProperties")
    ensures RefinePasses(n, p).value.Keys == p.Keys
    ensures forall k {:trigger RefinePasses(n, p).value[k]} ::
              k in p && k != "properties" && k != "patternProperties" ==> RefinePasses(n, p).value[k] == p[k]
    ensures RefinedAt(n, RefinePasses(n, p).value, "properties")
    ensures RefinedAt(n, RefinePasses(n, p).value, "patternProperties")
    ensures RefineComposites(n).Ok?
  {
    var n2 := RefineMembers(n, p, "properties").value;
    var n3 := RefineMembers(n, n2, "patternProperties").value;
    assert RefinePasses(n, p) == Ok(n3);
    MembersOutline(n, p, "properties");
    MembersOutline(n, n2, "patternProperties");
  }

  lemma MembersOutline(n: Node, p: Node, key: string)
    requires RefineMembers(n, p, key).Ok?
    requires SameAt(p, n, key)
    ensures RefinedAt(n, RefineMembers(n, p, key).value, key)
  {
  }

  // ---------------------------------------------------------------------------
  // Errors.
  // ---------------------------------------------------------------------------

  /**
   * An empty schema is a write into a nil map; a composite branch that fails
   * makes the refinement fail although its result is dropped; and so does a
   * member that fails, a null or list member among them.
   */
  lemma RefineErrors(n: Node, key: string, k: string)
    ensures n == map[] ==> RefineResourceSpec(n) == Err(Panic)
    ensures n != map[] && RefineComposites(n).Err? ==> RefineResourceSpec(n).Err?
    ensures n != map[] && (key == "properties" || key == "patternProperties") &&
            key in n && n[key].JObj? && k in n[key].fields && RefineEntry(n[key].fields[k]).Err? ==>
              RefineResourceSpec(n).Err?
  {
    if n != map[] {
      var p := WithDefault(n, "instillShortDescription", JStr(StringAt(n, "description")));
      assert RefineResourceSpec(n) == RefinePasses(n, p);
      if (key == "properties" || key == "patternProperties") &&
         key in n && n[key].JObj? && k in n[key].fields && RefineEntry(n[key].fields[k]).Err? {
        MembersFail(n[key].fields);
        PassesFail(n, p, key);
      }
    }
  }

  lemma PassesFail(n: Node, p: Node, key: string)
    requires key == "properties" || key == "patternProperties"
    requires key in n && n[key].JObj?
    requires RefineEntries(n[key].fields, SortedKeys(n[key].fields.Keys), 0).Err?
    ensures RefinePasses(n, p).Err?
  {
    assert forall o :: RefineMembers(n, o, key).Err?;
  }

  /** An empty member schema is refused as well. */
  lemma RefineEmptyMember()
    ensures RefineEntry(JObj(map[])) == Err(Panic)
    ensures RefineEntry(JNull) == Err(UnsupportedType("<nil>"))
  {
  }

  // ---------------------------------------------------------------------------
  // Refining a refined schema changes nothing.
  // ---------------------------------------------------------------------------

  /** Refining a refined schema returns it unchanged. */
  lemma {:induction false} RefineIdempotent(n: Node)
    requires RefineResourceSpec(n).Ok?
    ensures RefineResourceSpec(RefineResourceSpec(n).value) == RefineResourceSpec(n)
    decreases JObj(n), 4
  {
    var out := RefineResourceSpec(n).value;
    RefineOutline(n);
    KeptOutside(n, out);
    RefineDispatch(out);
    MemberPassFixed(n, out, "properties");
    MemberPassFixed(n, out, "patternProperties");
    SameComposites(n, out);
    PassFixed(n, out);
  }

  lemma KeptOutside(n: Node, out: Node)
    requires out.Keys == n.Keys + {"instillShortDescription"}
    requires forall k {:trigger out[k]} :: k in n && k !in RefineKeys ==> out[k] == n[k]
    ensures SameAt(n, out, "allOf") && SameAt(n, out, "anyOf") && SameAt(n, out, "oneOf")
  {
  }

  /** A refined schema already has its short description. */
  lemma RefineDispatch(out: Node)
    requires "instillShortDescription" in out
    ensures RefineResourceSpec(out) == RefinePasses(out, out)
  {
    assert out != map[];
    assert WithDefault(out, "instillShortDescription", JStr(StringAt(out, "description"))) == out;
  }

  /** The composite check reads the three composite lists alone. */
  lemma SameComposites(a: Node, b: Node)
    requires SameAt(a, b, "allOf") && SameAt(a, b, "anyOf") && SameAt(a, b, "oneOf")
    ensures RefineComposites(a) == RefineComposites(b)
  {
    assert RefineComposite(a, "allOf") == RefineComposite(b, "allOf");
    assert RefineComposite(a, "anyOf") == RefineComposite(b, "anyOf");
    assert RefineComposite(a, "oneOf") == RefineComposite(b, "oneOf");
  }

  lemma PassFixed(n: Node, out: Node)
    requires RefineMembers(out, out, "properties") == Ok(out)
    requires RefineMembers(out, out, "patternProperties") == Ok(out)
    requires RefineComposites(n).Ok? && RefineComposites(out) == RefineComposites(n)
    ensures RefinePasses(out, out) == Ok(out)
  {
  }

  /** The second pass over a refined member map, stored in `o` under `key`, keeps `o`. */
  lemma MemberPassFixed(n: Node, o: Node, key: string)
    requires RefinedAt(n, o, key)
    ensures RefineMembers(o, o, key) == Ok(o)
    decreases JObj(n), 1
  {
    if key in n && n[key].JObj? {
      MembersIdempotent(n[key].fields);
      assert o[key := o[key]] == o;
    }
  }

  /** Refining the entries of a refined member map keeps the map. */
  lemma MembersIdempotent(pm: Node)
    requires RefineEntries(pm, SortedKeys(pm.Keys), 0).Ok?
    ensures var c := RefineEntries(pm, SortedKeys(pm.Keys), 0).value;
            RefineEntries(c, SortedKeys(c.Keys), 0) == Ok(c)
    decreases JObj(pm), 2
  {
    var ks := SortedKeys(pm.Keys);
    var c := RefineEntries(pm, ks, 0).value;
    assert c.Keys == pm.Keys;
    forall j | 0 <= j < |ks|
      ensures RefineEntry(c[ks[j]]) == Ok(c[ks[j]])
    {
      EntriesValue(pm, ks, 0, j);
      EntryIdempotent(pm[ks[j]]);
    }
    EntriesFixed(c, ks, 0);
  }

  lemma EntryIdempotent(v: Json)
    requires RefineEntry(v).Ok?
    ensures RefineEntry(RefineEntry(v).value) == RefineEntry(v)
    decreases v, 5
  {
    if v.JObj? {
      RefineIdempotent(v.fields);
    }
  }
}
