/**
 * The three field indices a component builds from its schemas: the dotted
 * paths of its secret setup fields, the accepted formats of each input
 * field and the format of each output field. Each walk visits the members
 * of a `properties` map; under an object-typed member it descends first into
 * the `properties` of every `oneOf` branch and then into the member's own
 * `properties`, with the member's path and a dot as the new prefix.
 *
 * Members are visited in Go's map order, which is not fixed: the walks pick
 * each next key arbitrarily, and their contracts say what is added at each
 * path whatever the order.
 */
module Fields {
  import opened Wrappers
  import opened JsonValue

  /** Which index a walk builds. */
  datatype Index = Secrets | AcceptFormats | OutputFormats

  /** `instillSecret` is the boolean true or the string "true". */
  predicate IsSecret(child: Node) {
    "instillSecret" in child && (child["instillSecret"] == JBool(true) || StrOf(child["instillSecret"]) == "true")
  }

  /** The string values of a list, with "" for every entry that is not a string. */
  function Names(fs: seq<Json>): (r: seq<string>)
    ensures |r| == |fs|
    ensures forall i :: 0 <= i < |fs| ==> r[i] == StrOf(fs[i])
  {
    seq(|fs|, i requires 0 <= i < |fs| => StrOf(fs[i]))
  }

  /** What a walk records for the member schema `child` at `path`. */
  ghost function Emit(w: Index, path: string, child: Node): multiset<string> {
    match w
    case Secrets =>
      if IsSecret(child) then multiset{path} else multiset{}
    case AcceptFormats =>
      if "instillAcceptFormats" in child then multiset(Names(ListOf(child["instillAcceptFormats"]))) else multiset{}
    case OutputFormats =>
      if "instillFormat" in child then multiset{StrOf(child["instillFormat"])} else multiset{}
  }

  /** A node whose `properties` is a member map. */
  predicate HasProps(node: Node) {
    "properties" in node && node["properties"].JObj?
  }

  // ---------------------------------------------------------------------------
  // What each walk records at `path`, as a multiset: the sum over the members
  // `ks` of what each member contributes. Sums of multisets do not depend on
  // the order of the members.
  // ---------------------------------------------------------------------------

  ghost function Bag(w: Index, pm: Node, ks: set<string>, prefix: string, path: string): multiset<string>
    requires ks <= pm.Keys
    decreases JObj(pm), 1, ks
  {
    if ks == {} then multiset{}
    else
      var k := Pick(ks);
      KeyBag(w, pm, k, prefix, path) + Bag(w, pm, ks - {k}, prefix, path)
  }

  /** One member: its own record, and below an object-typed member its `oneOf` branches and its `properties`. */
  ghost function KeyBag(w: Index, pm: Node, k: string, prefix: string, path: string): multiset<string>
    requires k in pm
    decreases JObj(pm), 0
  {
    match pm[k]
    case JObj(child) =>
      var here := prefix + k;
      LeafBag(w, here, child, path) +
      (if IsObjectType(child) then OneOfBag(w, child, here + ".", path) + PropsBag(w, child, here + ".", path)
       else multiset{})
    case _ => multiset{}
  }

  /** What the member schema `child` at `here` records at `path` itself. */
  ghost function LeafBag(w: Index, here: string, child: Node, path: string): multiset<string> {
    if path == here then Emit(w, path, child) else multiset{}
  }

  ghost function OneOfBag(w: Index, node: Node, prefix: string, path: string): multiset<string>
    decreases JObj(node), 2
  {
    if "oneOf" in node && node["oneOf"].JArr? then
      BranchBags(w, node["oneOf"].items, |node["oneOf"].items|, prefix, path)
    else multiset{}
  }

  /** The branches `xs[..i]`. */
  ghost function BranchBags(w: Index, xs: seq<Json>, i: nat, prefix: string, path: string): multiset<string>
    requires i <= |xs|
    decreases JArr(xs), 0, i
  {
    if i == 0 then multiset{}
    else BranchBags(w, xs, i - 1, prefix, path) + BranchBag(w, xs[i - 1], prefix, path)
  }

  /** One `oneOf` branch: the `properties` of a branch that is an object. */
  ghost function BranchBag(w: Index, x: Json, prefix: string, path: string): multiset<string>
    decreases x, 3
  {
    match x
    case JObj(f) => PropsBag(w, f, prefix, path)
    case _ => multiset{}
  }

  ghost function PropsBag(w: Index, node: Node, prefix: string, path: string): multiset<string>
    decreases JObj(node), 2
  {
    if HasProps(node) then
      var pp := node["properties"].fields;
      Bag(w, pp, pp.Keys, prefix, path)
    else multiset{}
  }

  /** Any member may be taken out of the sum first. */
  lemma {:induction false} BagRemove(w: Index, pm: Node, ks: set<string>, k: string, prefix: string, path: string)
    requires ks <= pm.Keys && k in ks
    ensures Bag(w, pm, ks, prefix, path) == KeyBag(w, pm, k, prefix, path) + Bag(w, pm, ks - {k}, prefix, path)
    decreases ks
  {
    var j := Pick(ks);
    if j != k {
      BagRemove(w, pm, ks - {j}, k, prefix, path);
      BagRemove(w, pm, ks - {k}, j, prefix, path);
      assert ks - {j} - {k} == ks - {k} - {j};
    }
  }

  lemma BagAdd(w: Index, pm: Node, ks: set<string>, k: string, prefix: string, path: string)
    requires ks <= pm.Keys && k in pm && k !in ks
    ensures Bag(w, pm, ks + {k}, prefix, path) == Bag(w, pm, ks, prefix, path) + KeyBag(w, pm, k, prefix, path)
  {
    BagRemove(w, pm, ks + {k}, k, prefix, path);
    assert ks + {k} - {k} == ks;
  }

  /** A value is recorded at `path` exactly when some member records it. */
  lemma {:induction false} BagMember(w: Index, pm: Node, ks: set<string>, prefix: string, path: string, x: string)
    requires ks <= pm.Keys
    ensures x in Bag(w, pm, ks, prefix, path) <==> exists k :: k in ks && x in KeyBag(w, pm, k, prefix, path)
    decreases ks
  {
    if ks != {} {
      var j := Pick(ks);
      BagMember(w, pm, ks - {j}, prefix, path, x);
      if x in KeyBag(w, pm, j, prefix, path) {
        assert j in ks;
      }
    }
  }

  /** A member records only at its own path or below it. */
  lemma {:induction false} KeyBagPaths(w: Index, pm: Node, k: string, prefix: string, path: string)
    requires k in pm
    requires !(prefix + k <= path)
    ensures KeyBag(w, pm, k, prefix, path) == multiset{}
    decreases JObj(pm), 0
  {
    if pm[k].JObj? && IsObjectType(pm[k].fields) {
      var child := pm[k].fields;
      var here := prefix + k;
      assert here <= here + ".";
      OneOfBagPaths(w, child, here + ".", path);
      PropsBagPaths(w, child, here + ".", path);
    }
  }

  lemma {:induction false} OneOfBagPaths(w: Index, node: Node, prefix: string, path: string)
    requires !(prefix <= path)
    ensures OneOfBag(w, node, prefix, path) == multiset{}
    decreases JObj(node), 2
  {
    if "oneOf" in node && node["oneOf"].JArr? {
      BranchBagsPaths(w, node["oneOf"].items, |node["oneOf"].items|, prefix, path);
    }
  }

  lemma {:induction false} BranchBagsPaths(w: Index, xs: seq<Json>, i: nat, prefix: string, path: string)
    requires i <= |xs| && !(prefix <= path)
    ensures BranchBags(w, xs, i, prefix, path) == multiset{}
    decreases JArr(xs), 0, i
  {
    if i > 0 {
      BranchBagsPaths(w, xs, i - 1, prefix, path);
      if xs[i - 1].JObj? {
        PropsBagPaths(w, xs[i - 1].fields, prefix, path);
      }
    }
  }

  lemma {:induction false} PropsBagPaths(w: Index, node: Node, prefix: string, path: string)
    requires !(prefix <= path)
    ensures PropsBag(w, node, prefix, path) == multiset{}
    decreases JObj(node), 2
  {
    if HasProps(node) {
      var pp := node["properties"].fields;
      BagPaths(w, pp, pp.Keys, prefix, path);
    }
  }

  /** A walk under `prefix` records nothing at a path that does not start with `prefix`. */
  lemma {:induction false} BagPaths(w: Index, pm: Node, ks: set<string>, prefix: string, path: string)
    requires ks <= pm.Keys && !(prefix <= path)
    ensures Bag(w, pm, ks, prefix, path) == multiset{}
    decreases JObj(pm), 1, ks
  {
    if ks != {} {
      var k := Pick(ks);
      assert prefix <= prefix + k;
      KeyBagPaths(w, pm, k, prefix, path);
      BagPaths(w, pm, ks - {k}, prefix, path);
    }
  }

  /** The secret walk records only the path it is asked about. */
  lemma {:induction false} SecretBagOnly(pm: Node, ks: set<string>, prefix: string, path: string, x: string)
    requires ks <= pm.Keys && x != path
    ensures x !in Bag(Secrets, pm, ks, prefix, path)
    decreases JObj(pm), 1, ks
  {
    if ks != {} {
      var k := Pick(ks);
      SecretKeyOnly(pm, k, prefix, path, x);
      SecretBagOnly(pm, ks - {k}, prefix, path, x);
    }
  }

  lemma {:induction false} SecretKeyOnly(pm: Node, k: string, prefix: string, path: string, x: string)
    requires k in pm && x != path
    ensures x !in KeyBag(Secrets, pm, k, prefix, path)
    decreases JObj(pm), 0
  {
    if pm[k].JObj? && IsObjectType(pm[k].fields) {
      var child := pm[k].fields;
      var here := prefix + k;
      SecretOneOfOnly(child, here + ".", path, x);
      if HasProps(child) {
        var pp := child["properties"].fields;
        SecretBagOnly(pp, pp.Keys, here + ".", path, x);
      }
    }
  }

  lemma {:induction false} SecretOneOfOnly(node: Node, prefix: string, path: string, x: string)
    requires x != path
    ensures x !in OneOfBag(Secrets, node, prefix, path)
    decreases JObj(node), 2
  {
    if "oneOf" in node && node["oneOf"].JArr? {
      SecretBranchesOnly(node["oneOf"].items, |node["oneOf"].items|, prefix, path, x);
    }
  }

  lemma {:induction false} SecretBranchesOnly(xs: seq<Json>, i: nat, prefix: string, path: string, x: string)
    requires i <= |xs| && x != path
    ensures x !in BranchBags(Secrets, xs, i, prefix, path)
    decreases JArr(xs), 0, i
  {
    if i > 0 {
      SecretBranchesOnly(xs, i - 1, prefix, path, x);
      if xs[i - 1].JObj? {
        var f := xs[i - 1].fields;
        assert BranchBag(Secrets, xs[i - 1], prefix, path) == PropsBag(Secrets, f, prefix, path);
        if HasProps(f) {
          var pp := f["properties"].fields;
          SecretBagOnly(pp, pp.Keys, prefix, path, x);
        }
      }
    }
  }

  /** Whatever a member schema records for itself is in the walk's record at the member's path. */
  lemma MemberRecorded(w: Index, pm: Node, ks: set<string>, k: string, prefix: string)
    requires ks <= pm.Keys && k in ks && pm[k].JObj?
    ensures Emit(w, prefix + k, pm[k].fields) <= Bag(w, pm, ks, prefix, prefix + k)
  {
    BagRemove(w, pm, ks, k, prefix, prefix + k);
    KeyBagSplit(w, pm, k, prefix, prefix + k);
  }

  // ---------------------------------------------------------------------------
  // The sums, one step at a time.
  // ---------------------------------------------------------------------------

  lemma KeyBagSplit(w: Index, pm: Node, k: string, prefix: string, path: string)
    requires k in pm && pm[k].JObj?
    ensures var child := pm[k].fields;
      KeyBag(w, pm, k, prefix, path) ==
        LeafBag(w, prefix + k, child, path) +
        (if IsObjectType(child) then OneOfBag(w, child, prefix + k + ".", path) + PropsBag(w, child, prefix + k + ".", path)
         else multiset{})
  {
  }

  lemma BranchBagsStep(w: Index, xs: seq<Json>, i: nat, prefix: string, path: string)
    requires i < |xs|
    ensures BranchBags(w, xs, i + 1, prefix, path) == BranchBags(w, xs, i, prefix, path) + BranchBag(w, xs[i], prefix, path)
  {
  }

  // ---------------------------------------------------------------------------
  // The secret walk.
  // ---------------------------------------------------------------------------

  /** `r` extends `acc` by `bag[p]` more copies of `p`. */
  ghost predicate PathsAdded(acc: seq<string>, r: seq<string>, p: string, bag: multiset<string>) {
    acc <= r && multiset(r)[p] == multiset(acc)[p] + bag[p]
  }

  lemma PathsAddedTrans(a: seq<string>, b: seq<string>, c: seq<string>, p: string, x: multiset<string>, y: multiset<string>)
    requires PathsAdded(a, b, p, x) && PathsAdded(b, c, p, y)
    ensures PathsAdded(a, c, p, x + y)
  {
  }

  /**
   * traverseSecretField: appends to `acc` the dotted path of every secret
   * member reached from the member map `pm`.
   */
  method TraverseSecretField(pm: Node, prefix: string, acc: seq<string>) returns (r: seq<string>)
    ensures forall p :: PathsAdded(acc, r, p, Bag(Secrets, pm, pm.Keys, prefix, p))
    decreases JObj(pm), 1
  {
    r := acc;
    var todo := pm.Keys;
    ghost var done: set<string> := {};
    while todo != {}
      invariant todo + done == pm.Keys && todo !! done
      invariant forall p :: PathsAdded(acc, r, p, Bag(Secrets, pm, done, prefix, p))
      decreases todo
    {
      var key :| key in todo;
      var r1 := SecretFieldAt(pm, key, prefix, r);
      forall p
        ensures PathsAdded(acc, r1, p, Bag(Secrets, pm, done + {key}, prefix, p))
      {
        PathsAddedTrans(acc, r, r1, p, Bag(Secrets, pm, done, prefix, p), KeyBag(Secrets, pm, key, prefix, p));
        BagAdd(Secrets, pm, done, key, prefix, p);
      }
      r := r1;
      todo := todo - {key};
      done := done + {key};
    }
  }

  /** The secret member schema `child` at `here`. */
  method SecretLeaf(child: Node, here: string, acc: seq<string>) returns (r: seq<string>)
    ensures forall p :: PathsAdded(acc, r, p, LeafBag(Secrets, here, child, p))
  {
    r := acc;
    if IsSecret(child) {
      r := r + [here];
    }
  }

  /** One member of the secret walk. */
  method SecretFieldAt(pm: Node, key: string, prefix: string, acc: seq<string>) returns (r: seq<string>)
    requires key in pm
    ensures forall p :: PathsAdded(acc, r, p, KeyBag(Secrets, pm, key, prefix, p))
    decreases JObj(pm), 0
  {
    r := acc;
    if pm[key].JObj? {
      var child := pm[key].fields;
      var here := prefix + key;
      var r0 := SecretLeaf(child, here, acc);
      var r1, r2 := r0, r0;
      if IsObjectType(child) {
        r1 := SecretOneOf(child, here + ".", r0);
        r2 := SecretProps(child, here + ".", r1);
      }
      forall p
        ensures PathsAdded(acc, r2, p, KeyBag(Secrets, pm, key, prefix, p))
      {
        KeyBagSplit(Secrets, pm, key, prefix, p);
        if IsObjectType(child) {
          PathsAddedTrans(acc, r0, r1, p, LeafBag(Secrets, here, child, p), OneOfBag(Secrets, child, here + ".", p));
          PathsAddedTrans(acc, r1, r2, p, LeafBag(Secrets, here, child, p) + OneOfBag(Secrets, child, here + ".", p),
                          PropsBag(Secrets, child, here + ".", p));
        } else {
          assert LeafBag(Secrets, here, child, p) + multiset{} == LeafBag(Secrets, here, child, p);
        }
      }
      r := r2;
    }
  }

  method SecretProps(node: Node, prefix: string, acc: seq<string>) returns (r: seq<string>)
    ensures forall p :: PathsAdded(acc, r, p, PropsBag(Secrets, node, prefix, p))
    decreases JObj(node), 2
  {
    r := acc;
    if HasProps(node) {
      r := TraverseSecretField(node["properties"].fields, prefix, acc);
    }
  }

  /** The `properties` of every `oneOf` branch of `node`, in list order. */
  method SecretOneOf(node: Node, prefix: string, acc: seq<string>) returns (r: seq<string>)
    ensures forall p :: PathsAdded(acc, r, p, OneOfBag(Secrets, node, prefix, p))
    decreases JObj(node), 3
  {
    r := acc;
    if "oneOf" in node && node["oneOf"].JArr? {
      var xs := node["oneOf"].items;
      var i := 0;
      while i < |xs|
        invariant 0 <= i <= |xs|
        invariant forall p :: PathsAdded(acc, r, p, BranchBags(Secrets, xs, i, prefix, p))
      {
        var r1 := r;
        if xs[i].JObj? {
          r1 := SecretProps(xs[i].fields, prefix, r);
        }
        ghost var next := i + 1;
        forall p
          ensures PathsAdded(acc, r1, p, BranchBags(Secrets, xs, next, prefix, p))
        {
          BranchBagsStep(Secrets, xs, i, prefix, p);
          PathsAddedTrans(acc, r, r1, p, BranchBags(Secrets, xs, i, prefix, p), BranchBag(Secrets, xs[i], prefix, p));
        }
        r := r1;
        i := i + 1;
      }
    }
  }

  // ---------------------------------------------------------------------------
  // The accept-formats walk.
  // ---------------------------------------------------------------------------

  function Get(m: map<string, seq<string>>, p: string): seq<string> {
    if p in m then m[p] else []
  }

  /** Each list of `acc` grew by the formats in `bag`, and a path got a list only when some format was added. */
  ghost predicate FormatsAdded(acc: map<string, seq<string>>, r: map<string, seq<string>>, p: string, bag: multiset<string>) {
    (p in r <==> p in acc || bag != multiset{}) &&
    Get(acc, p) <= Get(r, p) &&
    multiset(Get(r, p)) == multiset(Get(acc, p)) + bag
  }

  lemma FormatsAddedTrans(a: map<string, seq<string>>, b: map<string, seq<string>>, c: map<string, seq<string>>,
                          p: string, x: multiset<string>, y: multiset<string>)
    requires FormatsAdded(a, b, p, x) && FormatsAdded(b, c, p, y)
    ensures FormatsAdded(a, c, p, x + y)
  {
  }

  /**
   * traverseInputAcceptFormatsFields: appends, at the dotted path of every
   * member reached from `pm`, each of the member's accepted formats, without
   * removing duplicates.
   */
  method TraverseAcceptFormats(pm: Node, prefix: string, acc: map<string, seq<string>>) returns (r: map<string, seq<string>>)
    ensures forall p :: FormatsAdded(acc, r, p, Bag(AcceptFormats, pm, pm.Keys, prefix, p))
    decreases JObj(pm), 1
  {
    r := acc;
    var todo := pm.Keys;
    ghost var done: set<string> := {};
    while todo != {}
      invariant todo + done == pm.Keys && todo !! done
      invariant forall p :: FormatsAdded(acc, r, p, Bag(AcceptFormats, pm, done, prefix, p))
      decreases todo
    {
      var key :| key in todo;
      var r1 := AcceptFormatsAt(pm, key, prefix, r);
      forall p
        ensures FormatsAdded(acc, r1, p, Bag(AcceptFormats, pm, done + {key}, prefix, p))
      {
        FormatsAddedTrans(acc, r, r1, p, Bag(AcceptFormats, pm, done, prefix, p), KeyBag(AcceptFormats, pm, key, prefix, p));
        BagAdd(AcceptFormats, pm, done, key, prefix, p);
      }
      r := r1;
      todo := todo - {key};
      done := done + {key};
    }
  }

  /** The accepted formats of the member schema `child`, appended at `here` in list order. */
  method AcceptLeaf(child: Node, here: string, acc: map<string, seq<string>>) returns (r: map<string, seq<string>>)
    ensures forall p :: FormatsAdded(acc, r, p, LeafBag(AcceptFormats, here, child, p))
    ensures "instillAcceptFormats" in child ==> Get(r, here) == Get(acc, here) + Names(ListOf(child["instillAcceptFormats"]))
  {
    r := acc;
    if "instillAcceptFormats" in child {
      var names := Names(ListOf(child["instillAcceptFormats"]));
      r := AppendNames(acc, here, names);
      AppendedNames(acc, here, names, r);
    }
  }

  /** Appends `names` one by one to the list at `here`; the list is created by the first append. */
  method AppendNames(acc: map<string, seq<string>>, here: string, names: seq<string>) returns (r: map<string, seq<string>>)
    ensures r == if names == [] then acc else acc[here := Get(acc, here) + names]
  {
    r := acc;
    var i := 0;
    while i < |names|
      invariant 0 <= i <= |names|
      invariant r == if i == 0 then acc else acc[here := Get(acc, here) + names[..i]]
    {
      assert Get(r, here) == Get(acc, here) + names[..i];
      assert names[..i + 1] == names[..i] + [names[i]];
      ghost var r0 := r;
      r := r[here := Get(r, here) + [names[i]]];
      assert r == acc[here := Get(acc, here) + names[..i + 1]] by {
        assert r.Keys == acc.Keys + {here};
        assert forall p :: p in r ==> r[p] == (if p == here then Get(acc, here) + names[..i + 1] else acc[p]);
      }
      i := i + 1;
    }
    assert names[..|names|] == names;
  }

  lemma AppendedNames(acc: map<string, seq<string>>, here: string, names: seq<string>, r: map<string, seq<string>>)
    requires r == if names == [] then acc else acc[here := Get(acc, here) + names]
    ensures FormatsAdded(acc, r, here, multiset(names))
    ensures forall p :: p != here ==> FormatsAdded(acc, r, p, multiset{})
  {
  }

  /** One member of the accept-formats walk. */
  method AcceptFormatsAt(pm: Node, key: string, prefix: string, acc: map<string, seq<string>>) returns (r: map<string, seq<string>>)
    requires key in pm
    ensures forall p :: FormatsAdded(acc, r, p, KeyBag(AcceptFormats, pm, key, prefix, p))
    decreases JObj(pm), 0
  {
    r := acc;
    if pm[key].JObj? {
      var child := pm[key].fields;
      var here := prefix + key;
      var r0 := AcceptLeaf(child, here, acc);
      var r1, r2 := r0, r0;
      if IsObjectType(child) {
        r1 := AcceptOneOf(child, here + ".", r0);
        r2 := AcceptProps(child, here + ".", r1);
      }
      AcceptKeyStep(pm, key, prefix, acc, r0, r1, r2);
      r := r2;
    }
  }

  method AcceptProps(node: Node, prefix: string, acc: map<string, seq<string>>) returns (r: map<string, seq<string>>)
    ensures forall p :: FormatsAdded(acc, r, p, PropsBag(AcceptFormats, node, prefix, p))
    decreases JObj(node), 2
  {
    r := acc;
    if HasProps(node) {
      r := TraverseAcceptFormats(node["properties"].fields, prefix, acc);
    }
  }

  /** The `properties` of every `oneOf` branch of `node`, in list order. */
  method AcceptOneOf(node: Node, prefix: string, acc: map<string, seq<string>>) returns (r: map<string, seq<string>>)
    ensures forall p :: FormatsAdded(acc, r, p, OneOfBag(AcceptFormats, node, prefix, p))
    decreases JObj(node), 3
  {
    r := acc;
    if "oneOf" in node && node["oneOf"].JArr? {
      var xs := node["oneOf"].items;
      var i := 0;
      while i < |xs|
        invariant 0 <= i <= |xs|
        invariant forall p :: FormatsAdded(acc, r, p, BranchBags(AcceptFormats, xs, i, prefix, p))
      {
        var r1 := r;
        if xs[i].JObj? {
          r1 := AcceptProps(xs[i].fields, prefix, r);
        }
        AcceptBranchStep(xs, i, i + 1, prefix, acc, r, r1);
        r := r1;
        i := i + 1;
      }
    }
  }

  lemma AcceptBranchStep(xs: seq<Json>, i: nat, next: nat, prefix: string, acc: map<string, seq<string>>,
                         r: map<string, seq<string>>, r1: map<string, seq<string>>)
    requires i < |xs| && next == i + 1
    requires forall p :: FormatsAdded(acc, r, p, BranchBags(AcceptFormats, xs, i, prefix, p))
    requires forall p :: FormatsAdded(r, r1, p, BranchBag(AcceptFormats, xs[i], prefix, p))
    ensures forall p :: FormatsAdded(acc, r1, p, BranchBags(AcceptFormats, xs, next, prefix, p))
  {
    forall p
      ensures FormatsAdded(acc, r1, p, BranchBags(AcceptFormats, xs, next, prefix, p))
    {
      BranchBagsStep(AcceptFormats, xs, i, prefix, p);
      FormatsAddedTrans(acc, r, r1, p, BranchBags(AcceptFormats, xs, i, prefix, p), BranchBag(AcceptFormats, xs[i], prefix, p));
    }
  }

  lemma AcceptKeyStep(pm: Node, key: string, prefix: string, acc: map<string, seq<string>>,
                      r0: map<string, seq<string>>, r1: map<string, seq<string>>, r2: map<string, seq<string>>)
    requires key in pm && pm[key].JObj?
    requires forall p :: FormatsAdded(acc, r0, p, LeafBag(AcceptFormats, prefix + key, pm[key].fields, p))
    requires IsObjectType(pm[key].fields) ==>
      (forall p :: FormatsAdded(r0, r1, p, OneOfBag(AcceptFormats, pm[key].fields, prefix + key + ".", p))) &&
      (forall p :: FormatsAdded(r1, r2, p, PropsBag(AcceptFormats, pm[key].fields, prefix + key + ".", p)))
    requires !IsObjectType(pm[key].fields) ==> r2 == r0
    ensures forall p :: FormatsAdded(acc, r2, p, KeyBag(AcceptFormats, pm, key, prefix, p))
  {
    var child := pm[key].fields;
    var here := prefix + key;
    forall p
      ensures FormatsAdded(acc, r2, p, KeyBag(AcceptFormats, pm, key, prefix, p))
    {
      KeyBagSplit(AcceptFormats, pm, key, prefix, p);
      if IsObjectType(child) {
        FormatsAddedTrans(acc, r0, r1, p, LeafBag(AcceptFormats, here, child, p), OneOfBag(AcceptFormats, child, here + ".", p));
        FormatsAddedTrans(acc, r1, r2, p, LeafBag(AcceptFormats, here, child, p) + OneOfBag(AcceptFormats, child, here + ".", p),
                        PropsBag(AcceptFormats, child, here + ".", p));
      } else {
        assert LeafBag(AcceptFormats, here, child, p) + multiset{} == LeafBag(AcceptFormats, here, child, p);
      }
    }
  }

  // ---------------------------------------------------------------------------
  // The output-formats walk. A later write to a path replaces an earlier one,
  // so what the walk leaves at `path` is given as the set of values its last
  // write there may carry: within one member, its own format is written
  // first, then what its `oneOf` branches write in list order, then what its
  // `properties` write; across the members of a map, whose order is not
  // fixed, the last write may come from any of them.
  // ---------------------------------------------------------------------------

  /** What a write of one of `x` followed by a write of one of `y` may leave: one of `y` unless `y` writes nothing. */
  function Later(x: set<string>, y: set<string>): (r: set<string>)
    ensures r <= x + y && (r == {} <==> x + y == {})
    ensures y != {} ==> r == y
  {
    if y != {} then y else x
  }

  ghost function Written(pm: Node, ks: set<string>, prefix: string, path: string): set<string>
    requires ks <= pm.Keys
    decreases JObj(pm), 1, ks
  {
    if ks == {} then {}
    else
      var k := Pick(ks);
      KeyWritten(pm, k, prefix, path) + Written(pm, ks - {k}, prefix, path)
  }

  /** One member: its own format, then its `oneOf` branches, then its `properties`, the last that writes deciding. */
  ghost function KeyWritten(pm: Node, k: string, prefix: string, path: string): set<string>
    requires k in pm
    decreases JObj(pm), 0
  {
    match pm[k]
    case JObj(child) =>
      var here := prefix + k;
      var leaf := LeafWritten(here, child, path);
      if IsObjectType(child) then
        Later(Later(leaf, OneOfWritten(child, here + ".", path)), PropsWritten(child, here + ".", path))
      else leaf
    case _ => {}
  }

  /**
   * Below an object-typed member, its own `properties` decide wherever they
   * write; its `oneOf` branches decide only where those do not.
   */
  lemma MemberWriteOrder(pm: Node, k: string, prefix: string, path: string)
    requires k in pm && pm[k].JObj? && IsObjectType(pm[k].fields)
    ensures var child, here := pm[k].fields, prefix + k;
      (PropsWritten(child, here + ".", path) != {} ==>
         KeyWritten(pm, k, prefix, path) == PropsWritten(child, here + ".", path)) &&
      (PropsWritten(child, here + ".", path) == {} && OneOfWritten(child, here + ".", path) != {} ==>
         KeyWritten(pm, k, prefix, path) == OneOfWritten(child, here + ".", path))
  {
  }

  /** The format the member schema `child` at `here` writes at `path` itself. */
  ghost function LeafWritten(here: string, child: Node, path: string): set<string> {
    if path == here && "instillFormat" in child then {StrOf(child["instillFormat"])} else {}
  }

  ghost function OneOfWritten(node: Node, prefix: string, path: string): set<string>
    decreases JObj(node), 2
  {
    if "oneOf" in node && node["oneOf"].JArr? then
      BranchesWritten(node["oneOf"].items, |node["oneOf"].items|, prefix, path)
    else {}
  }

  /** The branches `xs[..i]`, in list order. */
  ghost function BranchesWritten(xs: seq<Json>, i: nat, prefix: string, path: string): set<string>
    requires i <= |xs|
    decreases JArr(xs), 0, i
  {
    if i == 0 then {}
    else Later(BranchesWritten(xs, i - 1, prefix, path), BranchWritten(xs[i - 1], prefix, path))
  }

  ghost function BranchWritten(x: Json, prefix: string, path: string): set<string>
    decreases x, 3
  {
    match x
    case JObj(f) => PropsWritten(f, prefix, path)
    case _ => {}
  }

  ghost function PropsWritten(node: Node, prefix: string, path: string): set<string>
    decreases JObj(node), 2
  {
    if HasProps(node) then
      var pp := node["properties"].fields;
      Written(pp, pp.Keys, prefix, path)
    else {}
  }

  /** Any member may be taken out of the union first. */
  lemma {:induction false} WrittenRemove(pm: Node, ks: set<string>, k: string, prefix: string, path: string)
    requires ks <= pm.Keys && k in ks
    ensures Written(pm, ks, prefix, path) == KeyWritten(pm, k, prefix, path) + Written(pm, ks - {k}, prefix, path)
    decreases ks
  {
    var j := Pick(ks);
    if j != k {
      WrittenRemove(pm, ks - {j}, k, prefix, path);
      WrittenRemove(pm, ks - {k}, j, prefix, path);
      assert ks - {j} - {k} == ks - {k} - {j};
    }
  }

  lemma WrittenAdd(pm: Node, ks: set<string>, k: string, prefix: string, path: string)
    requires ks <= pm.Keys && k in pm && k !in ks
    ensures Written(pm, ks + {k}, prefix, path) == Written(pm, ks, prefix, path) + KeyWritten(pm, k, prefix, path)
  {
    WrittenRemove(pm, ks + {k}, k, prefix, path);
    assert ks + {k} - {k} == ks;
  }

  // What stays at a path is one of the values written there (the multiset of
  // the writes is `Bag(OutputFormats, ...)`), and something stays exactly when
  // something is written.

  ghost predicate LastOf(c: set<string>, bag: multiset<string>) {
    (forall x :: x in c ==> x in bag) && (c == {} <==> bag == multiset{})
  }

  lemma {:induction false} WrittenInBag(pm: Node, ks: set<string>, prefix: string, path: string)
    requires ks <= pm.Keys
    ensures LastOf(Written(pm, ks, prefix, path), Bag(OutputFormats, pm, ks, prefix, path))
    decreases JObj(pm), 1, ks
  {
    if ks != {} {
      var k := Pick(ks);
      KeyWrittenInBag(pm, k, prefix, path);
      WrittenInBag(pm, ks - {k}, prefix, path);
    }
  }

  lemma {:induction false} KeyWrittenInBag(pm: Node, k: string, prefix: string, path: string)
    requires k in pm
    ensures LastOf(KeyWritten(pm, k, prefix, path), KeyBag(OutputFormats, pm, k, prefix, path))
    decreases JObj(pm), 0
  {
    if pm[k].JObj? {
      var child := pm[k].fields;
      var here := prefix + k;
      KeyBagSplit(OutputFormats, pm, k, prefix, path);
      if IsObjectType(child) {
        OneOfWrittenInBag(child, here + ".", path);
        PropsWrittenInBag(child, here + ".", path);
      } else {
        assert LeafBag(OutputFormats, here, child, path) + multiset{} == LeafBag(OutputFormats, here, child, path);
      }
    }
  }

  lemma {:induction false} OneOfWrittenInBag(node: Node, prefix: string, path: string)
    ensures LastOf(OneOfWritten(node, prefix, path), OneOfBag(OutputFormats, node, prefix, path))
    decreases JObj(node), 2
  {
    if "oneOf" in node && node["oneOf"].JArr? {
      BranchesWrittenInBag(node["oneOf"].items, |node["oneOf"].items|, prefix, path);
    }
  }

  lemma {:induction false} BranchesWrittenInBag(xs: seq<Json>, i: nat, prefix: string, path: string)
    requires i <= |xs|
    ensures LastOf(BranchesWritten(xs, i, prefix, path), BranchBags(OutputFormats, xs, i, prefix, path))
    decreases JArr(xs), 0, i
  {
    if i > 0 {
      BranchesWrittenInBag(xs, i - 1, prefix, path);
      if xs[i - 1].JObj? {
        PropsWrittenInBag(xs[i - 1].fields, prefix, path);
      }
    }
  }

  lemma {:induction false} PropsWrittenInBag(node: Node, prefix: string, path: string)
    ensures LastOf(PropsWritten(node, prefix, path), PropsBag(OutputFormats, node, prefix, path))
    decreases JObj(node), 2
  {
    if HasProps(node) {
      var pp := node["properties"].fields;
      WrittenInBag(pp, pp.Keys, prefix, path);
    }
  }

  /** The entry at `p` was last written with one of `c`'s values when `c` is not empty, and is kept otherwise. */
  ghost predicate FormatWritten(acc: map<string, string>, r: map<string, string>, p: string, c: set<string>) {
    (p in r <==> p in acc || c != {}) &&
    (c != {} ==> p in r && r[p] in c) &&
    (c == {} && p in acc ==> p in r && r[p] == acc[p])
  }

  /** Two walks one after the other: the second decides wherever it writes. */
  lemma FormatWrittenTrans(a: map<string, string>, b: map<string, string>, c: map<string, string>,
                           p: string, x: set<string>, y: set<string>)
    requires FormatWritten(a, b, p, x) && FormatWritten(b, c, p, y)
    ensures FormatWritten(a, c, p, Later(x, y))
  {
  }

  /** Two walks in either order: one of the two decides. */
  lemma FormatWrittenEither(a: map<string, string>, b: map<string, string>, c: map<string, string>,
                            p: string, x: set<string>, y: set<string>)
    requires FormatWritten(a, b, p, x) && FormatWritten(b, c, p, y)
    ensures FormatWritten(a, c, p, x + y)
  {
    FormatWrittenTrans(a, b, c, p, x, y);
  }

  /**
   * traverseOutputFormatsFields: writes, at the dotted path of every member
   * reached from `pm` that declares `instillFormat`, that format; when a
   * path is reached more than once the last write stays.
   */
  method TraverseOutputFormats(pm: Node, prefix: string, acc: map<string, string>) returns (r: map<string, string>)
    ensures forall p :: FormatWritten(acc, r, p, Written(pm, pm.Keys, prefix, p))
    decreases JObj(pm), 1
  {
    r := acc;
    var todo := pm.Keys;
    ghost var done: set<string> := {};
    while todo != {}
      invariant todo + done == pm.Keys && todo !! done
      invariant forall p :: FormatWritten(acc, r, p, Written(pm, done, prefix, p))
      decreases todo
    {
      var key :| key in todo;
      var r1 := OutputFormatAt(pm, key, prefix, r);
      forall p
        ensures FormatWritten(acc, r1, p, Written(pm, done + {key}, prefix, p))
      {
        FormatWrittenEither(acc, r, r1, p, Written(pm, done, prefix, p), KeyWritten(pm, key, prefix, p));
        WrittenAdd(pm, done, key, prefix, p);
      }
      r := r1;
      todo := todo - {key};
      done := done + {key};
    }
  }

  /** The format of the member schema `child`, written at `here`. */
  method OutputLeaf(child: Node, here: string, acc: map<string, string>) returns (r: map<string, string>)
    ensures forall p :: FormatWritten(acc, r, p, LeafWritten(here, child, p))
  {
    r := acc;
    if "instillFormat" in child {
      r := r[here := StrOf(child["instillFormat"])];
    }
  }

  /** One member of the output-formats walk. */
  method OutputFormatAt(pm: Node, key: string, prefix: string, acc: map<string, string>) returns (r: map<string, string>)
    requires key in pm
    ensures forall p :: FormatWritten(acc, r, p, KeyWritten(pm, key, prefix, p))
    decreases JObj(pm), 0
  {
    r := acc;
    if pm[key].JObj? {
      var child := pm[key].fields;
      var here := prefix + key;
      var r0 := OutputLeaf(child, here, acc);
      var r1, r2 := r0, r0;
      if IsObjectType(child) {
        r1 := OutputOneOf(child, here + ".", r0);
        r2 := OutputProps(child, here + ".", r1);
      }
      OutputKeyStep(pm, key, prefix, acc, r0, r1, r2);
      r := r2;
    }
  }

  method OutputProps(node: Node, prefix: string, acc: map<string, string>) returns (r: map<string, string>)
    ensures forall p :: FormatWritten(acc, r, p, PropsWritten(node, prefix, p))
    decreases JObj(node), 2
  {
    r := acc;
    if HasProps(node) {
      r := TraverseOutputFormats(node["properties"].fields, prefix, acc);
    }
  }

  /** The `properties` of every `oneOf` branch of `node`, in list order. */
  method OutputOneOf(node: Node, prefix: string, acc: map<string, string>) returns (r: map<string, string>)
    ensures forall p :: FormatWritten(acc, r, p, OneOfWritten(node, prefix, p))
    decreases JObj(node), 3
  {
    r := acc;
    if "oneOf" in node && node["oneOf"].JArr? {
      var xs := node["oneOf"].items;
      var i := 0;
      while i < |xs|
        invariant 0 <= i <= |xs|
        invariant forall p :: FormatWritten(acc, r, p, BranchesWritten(xs, i, prefix, p))
      {
        var r1 := r;
        if xs[i].JObj? {
          r1 := OutputProps(xs[i].fields, prefix, r);
        }
        OutputBranchStep(xs, i, i + 1, prefix, acc, r, r1);
        r := r1;
        i := i + 1;
      }
    }
  }

  lemma OutputBranchStep(xs: seq<Json>, i: nat, next: nat, prefix: string, acc: map<string, string>,
                         r: map<string, string>, r1: map<string, string>)
    requires i < |xs| && next == i + 1
    requires forall p :: FormatWritten(acc, r, p, BranchesWritten(xs, i, prefix, p))
    requires forall p :: FormatWritten(r, r1, p, BranchWritten(xs[i], prefix, p))
    ensures forall p :: FormatWritten(acc, r1, p, BranchesWritten(xs, next, prefix, p))
  {
    forall p
      ensures FormatWritten(acc, r1, p, BranchesWritten(xs, next, prefix, p))
    {
      FormatWrittenTrans(acc, r, r1, p, BranchesWritten(xs, i, prefix, p), BranchWritten(xs[i], prefix, p));
    }
  }

  lemma OutputKeyStep(pm: Node, key: string, prefix: string, acc: map<string, string>,
                      r0: map<string, string>, r1: map<string, string>, r2: map<string, string>)
    requires key in pm && pm[key].JObj?
    requires forall p :: FormatWritten(acc, r0, p, LeafWritten(prefix + key, pm[key].fields, p))
    requires IsObjectType(pm[key].fields) ==>
      (forall p :: FormatWritten(r0, r1, p, OneOfWritten(pm[key].fields, prefix + key + ".", p))) &&
      (forall p :: FormatWritten(r1, r2, p, PropsWritten(pm[key].fields, prefix + key + ".", p)))
    requires !IsObjectType(pm[key].fields) ==> r2 == r0
    ensures forall p :: FormatWritten(acc, r2, p, KeyWritten(pm, key, prefix, p))
  {
    var child := pm[key].fields;
    var here := prefix + key;
    forall p
      ensures FormatWritten(acc, r2, p, KeyWritten(pm, key, prefix, p))
    {
      if IsObjectType(child) {
        var leaf := LeafWritten(here, child, p);
        FormatWrittenTrans(acc, r0, r1, p, leaf, OneOfWritten(child, here + ".", p));
        FormatWrittenTrans(acc, r1, r2, p, Later(leaf, OneOfWritten(child, here + ".", p)), PropsWritten(child, here + ".", p));
      }
    }
  }
}
