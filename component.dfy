/**
 * The Component object: loading a component definition from its definition,
 * setup and task documents, and the three field indices built beside it (the
 * secret setup fields, the accepted formats of each task input field and the
 * format of each task output field). Also the global-configuration lookup of
 * credentials.
 *
 * Documents arrive already parsed: the definition document as a JSON object,
 * the setup document as an optional JSON object and the task document, with
 * its references resolved, as a map from task id to task definition.
 */
module Component {
  import opened Wrappers
  import opened Strings
  import opened JsonValue
  import opened Schema
  import opened Refine
  import opened Definition
  import opened Fields

  // ---------------------------------------------------------------------------
  // ReadFromGlobalConfig
  // ---------------------------------------------------------------------------

  /**
   * ReadFromGlobalConfig: the value stored under `key` with its hyphens
   * removed, when that value is a string, and "" otherwise.
   */
  function ReadFromGlobalConfig(key: string, secrets: map<string, Json>): (r: string)
    ensures var k := Without(key, '-');
      (k in secrets && secrets[k].JStr? ==> r == secrets[k].s) &&
      (!(k in secrets && secrets[k].JStr?) ==> r == "")
  {
    DeleteChar(key, '-');
    var sanitized := ReplaceAll(key, "-", "");
    if sanitized in secrets && secrets[sanitized].JStr? then secrets[sanitized].s else ""
  }

  /** Keys that differ only in their hyphens read the same credential. */
  lemma ReadIgnoresHyphens(a: string, b: string, secrets: map<string, Json>)
    requires Without(a, '-') == Without(b, '-')
    ensures ReadFromGlobalConfig(a, secrets) == ReadFromGlobalConfig(b, secrets)
  {
    DeleteChar(a, '-');
    DeleteChar(b, '-');
  }

  // ---------------------------------------------------------------------------
  // The loaded definition
  // ---------------------------------------------------------------------------

  /** A pb.ComponentDefinition, as far as loading fills it in. */
  datatype ComponentDefinition = ComponentDefinition(
    id: string,
    title: string,
    name: string,
    tasks: seq<TaskCard>,
    componentSpecification: Node,
    dataSpecifications: map<string, DataSpec>)

  /** The strings of a list, or None when an entry is not a string. */
  function Strs(xs: seq<Json>): (r: Option<seq<string>>)
    ensures r.Some? <==> forall i :: 0 <= i < |xs| ==> xs[i].JStr?
    ensures r.Some? ==> |r.value| == |xs| && forall i :: 0 <= i < |xs| ==> xs[i] == JStr(r.value[i])
  {
    if xs == [] then Some([])
    else if !xs[0].JStr? then None
    else match Strs(xs[1..])
      case None => None
      case Some(rest) => Some([xs[0].s] + rest)
  }

  /**
   * The `availableTasks` of the definition document: a list of strings; a
   * missing entry, a non-list or a non-string element fails the type assertion.
   */
  function AvailableTasks(def: Node): (r: Result<seq<string>, LoadError>)
    ensures r.Ok? <==> ("availableTasks" in def && def["availableTasks"].JArr? &&
      forall i :: 0 <= i < |def["availableTasks"].items| ==> def["availableTasks"].items[i].JStr?)
    ensures r.Ok? ==> (|r.value| == |def["availableTasks"].items| &&
      forall i :: 0 <= i < |r.value| ==> def["availableTasks"].items[i] == JStr(r.value[i]))
    ensures r.Err? ==> r.error == AvailableTasksMalformed
  {
    if "availableTasks" !in def || !def["availableTasks"].JArr? then Err(AvailableTasksMalformed)
    else match Strs(def["availableTasks"].items)
      case None => Err(AvailableTasksMalformed)
      case Some(ts) => Ok(ts)
  }

  /**
   * The component specification once the setup is applied: without a setup
   * it is kept; with one, the refined setup replaces the whole `properties`
   * entry, as the only member `setup`.
   */
  function SpecWithSetup(spec: Node, setup: Option<Node>): (r: Result<Node, LoadError>)
    ensures setup.None? ==> r == Ok(spec)
    ensures setup.Some? ==> (r.Ok? <==> RefineResourceSpec(setup.value).Ok?)
    ensures setup.Some? && r.Err? ==> r.error == SetupError(RefineResourceSpec(setup.value).error)
    ensures setup.Some? && r.Ok? ==>
      r.value.Keys == spec.Keys + {"properties"} &&
      r.value["properties"] == JObj(map["setup" := JObj(RefineResourceSpec(setup.value).value)]) &&
      forall k :: k in spec && k != "properties" ==> r.value[k] == spec[k]
  {
    match setup
    case None => Ok(spec)
    case Some(s) =>
      match RefineResourceSpec(s)
      case Err(e) => Err(SetupError(e))
      case Ok(refined) => Ok(spec["properties" := JObj(map["setup" := JObj(refined)])])
  }

  /** The setup schema inside a component specification: `properties.setup`, or nothing. */
  function SetupOf(spec: Node): Node {
    StructAt(StructAt(spec, "properties"), "setup")
  }

  /** The task definitions a definition document selects from `defined`. */
  function StructsOf(def: Node, defined: map<string, Node>): map<string, Node>
    requires AvailableTasks(def).Ok?
  {
    TaskStructs(AvailableTasks(def).value, defined)
  }

  function CardsOf(def: Node, defined: map<string, Node>): seq<TaskCard>
    requires AvailableTasks(def).Ok?
  {
    TaskCards(AvailableTasks(def).value, StructsOf(def, defined))
  }

  function GeneratedSpec(def: Node, defined: map<string, Node>): Result<Node, LoadError>
    requires AvailableTasks(def).Ok?
  {
    ComponentSpec(StringAt(def, "title"), CardsOf(def, defined), StructsOf(def, defined))
  }

  /**
   * The error of the first stage of loading that fails, among the stages
   * whose order is fixed: reading `availableTasks`, generating the component
   * specification and refining the setup.
   */
  function StageError(def: Node, setup: Option<Node>, defined: map<string, Node>): Option<LoadError> {
    if AvailableTasks(def).Err? then Some(AvailableTasks(def).error)
    else if GeneratedSpec(def, defined).Err? then Some(GeneratedSpec(def, defined).error)
    else if SpecWithSetup(GeneratedSpec(def, defined).value, setup).Err? then
      Some(SpecWithSetup(GeneratedSpec(def, defined).value, setup).error)
    else None
  }

  /** Every stage of loading succeeds, the data specifications of every task included. */
  predicate LoadSucceeds(def: Node, setup: Option<Node>, defined: map<string, Node>) {
    StageError(def, setup, defined).None? && AllDataSpecsOk(StructsOf(def, defined))
  }

  /** The definition a successful load produces. */
  function Loaded(def: Node, setup: Option<Node>, defined: map<string, Node>): ComponentDefinition
    requires LoadSucceeds(def, setup, defined)
  {
    var structs := StructsOf(def, defined);
    var id := StringAt(def, "id");
    ComponentDefinition(
      id, StringAt(def, "title"), "component-definitions/" + id,
      CardsOf(def, defined),
      SpecWithSetup(GeneratedSpec(def, defined).value, setup).value,
      DataSpecsOf(structs))
  }

  /**
   * The definition the component holds once loading has got past selecting
   * the tasks: its name and tasks, then, stage by stage, the generated
   * specification (nothing when generating it fails), the setup applied to it,
   * and the data specifications (nothing when one of them fails).
   */
  function StoredDefinition(def: Node, setup: Option<Node>, defined: map<string, Node>): (d: ComponentDefinition)
    requires AvailableTasks(def).Ok?
    ensures d.id == StringAt(def, "id") && d.tasks == CardsOf(def, defined)
    ensures LoadSucceeds(def, setup, defined) ==> d == Loaded(def, setup, defined)
    ensures !LoadSucceeds(def, setup, defined) ==> d.dataSpecifications == map[]
    ensures GeneratedSpec(def, defined).Err? ==> d.componentSpecification == map[]
    ensures GeneratedSpec(def, defined).Ok? && SpecWithSetup(GeneratedSpec(def, defined).value, setup).Err? ==>
      d.componentSpecification == GeneratedSpec(def, defined).value
  {
    var id := StringAt(def, "id");
    var shell := ComponentDefinition(id, StringAt(def, "title"), "component-definitions/" + id, CardsOf(def, defined), map[], map[]);
    var spec := GeneratedSpec(def, defined);
    if spec.Err? then shell
    else
      var full := SpecWithSetup(spec.value, setup);
      if full.Err? then shell.(componentSpecification := spec.value)
      else if !AllDataSpecsOk(StructsOf(def, defined)) then shell.(componentSpecification := full.value)
      else shell.(componentSpecification := full.value, dataSpecifications := DataSpecsOf(StructsOf(def, defined)))
  }

  /** The input (or output) schema of every task: the object under `key`, empty when there is none. */
  function SchemasAt(structs: map<string, Node>, key: string): (r: map<string, Node>)
    ensures r.Keys == structs.Keys
  {
    map k | k in structs :: StructAt(structs[k], key)
  }

  /**
   * After loading, the setup schema of the component specification is the
   * refined setup document when there is one, and empty otherwise (the
   * generated specification has no `properties`).
   */
  lemma SetupAfterLoad(spec: Node, setup: Option<Node>)
    requires "properties" !in spec && SpecWithSetup(spec, setup).Ok?
    ensures setup.None? ==> SetupOf(SpecWithSetup(spec, setup).value) == map[]
    ensures setup.Some? ==> SetupOf(SpecWithSetup(spec, setup).value) == RefineResourceSpec(setup.value).value
  {
  }

  // ---------------------------------------------------------------------------
  // The field indices
  // ---------------------------------------------------------------------------

  /**
   * What a walk from the root of a schema records at `path`: its
   * `properties`, then the `properties` of each of its `oneOf` branches, all
   * with the empty prefix.
   */
  ghost function SchemaBag(w: Index, schema: Node, path: string): multiset<string> {
    PropsBag(w, schema, "", path) + OneOfBag(w, schema, "", path)
  }

  /** What the output walk leaves at a path: the root `properties` first, then the root `oneOf` branches. */
  ghost function SchemaWritten(schema: Node, path: string): set<string> {
    Later(PropsWritten(schema, "", path), OneOfWritten(schema, "", path))
  }

  /** A schema records at a path only that path as a secret. */
  lemma SecretsAtOwnPath(schema: Node, path: string, x: string)
    requires x in SchemaBag(Secrets, schema, path)
    ensures x == path
  {
    if x != path {
      SecretOneOfOnly(schema, "", path, x);
      if HasProps(schema) {
        var pp := schema["properties"].fields;
        SecretBagOnly(pp, pp.Keys, "", path, x);
      }
    }
  }

  /** A top-level member of the setup whose `instillSecret` is set is a secret field under its own name. */
  lemma TopLevelSecret(schema: Node, k: string)
    requires HasProps(schema) && k in schema["properties"].fields
    requires schema["properties"].fields[k].JObj? && IsSecret(schema["properties"].fields[k].fields)
    ensures k in SchemaBag(Secrets, schema, k)
  {
    var pp := schema["properties"].fields;
    MemberRecorded(Secrets, pp, pp.Keys, k, "");
    assert "" + k == k;
  }

  /** The accepted formats of every task, as the per-task walks append them to empty lists. */
  ghost predicate AcceptIndexed(index: map<string, map<string, seq<string>>>, schemas: map<string, Node>) {
    index.Keys == schemas.Keys &&
    forall t, p :: t in schemas ==> FormatsAdded(map[], index[t], p, SchemaBag(AcceptFormats, schemas[t], p))
  }

  /** The output format of every task, as the per-task walks write them into empty maps. */
  ghost predicate OutputIndexed(index: map<string, map<string, string>>, schemas: map<string, Node>) {
    index.Keys == schemas.Keys &&
    forall t, p :: t in schemas ==> FormatWritten(map[], index[t], p, SchemaWritten(schemas[t], p))
  }

  /**
   * What loading yields: the error of the first fixed-order stage that fails;
   * otherwise the error of one task whose data specification fails, or the
   * loaded definition when every stage succeeds.
   */
  ghost predicate Built(def: Node, setup: Option<Node>, defined: map<string, Node>, r: Result<ComponentDefinition, LoadError>) {
    (StageError(def, setup, defined).Some? ==> r == Err(StageError(def, setup, defined).value)) &&
    (r.Ok? <==> LoadSucceeds(def, setup, defined)) &&
    (r.Ok? ==> r.value == Loaded(def, setup, defined)) &&
    (StageError(def, setup, defined).None? && r.Err? ==>
      exists k :: k in StructsOf(def, defined) && !DataSpecOk(StructsOf(def, defined)[k]) &&
        r.error == DataSpecError(DataSpecErrorOf(StructsOf(def, defined)[k])))
  }

  /** What loading yields, and the task definitions it selects when it succeeds. */
  ghost predicate Outcome(def: Node, setup: Option<Node>, defined: map<string, Node>,
                          r: Result<ComponentDefinition, LoadError>, selected: map<string, Node>) {
    Built(def, setup, defined, r) && (r.Ok? ==> AvailableTasks(def).Ok? && selected == StructsOf(def, defined))
  }

  /**
   * The stages of loading that do not touch the component: reading
   * `availableTasks`, selecting the task definitions and building the
   * definition. Also yields the selected task definitions and, once the
   * tasks are selected, the definition as far as it was built.
   */
  method Assemble(def: Node, setup: Option<Node>, defined: map<string, Node>)
    returns (r: Result<ComponentDefinition, LoadError>, structs: map<string, Node>, stored: Option<ComponentDefinition>)
    ensures Outcome(def, setup, defined, r, structs)
    ensures AvailableTasks(def).Err? ==> stored.None? && r.Err?
    ensures AvailableTasks(def).Ok? ==>
      structs == StructsOf(def, defined) && stored == Some(StoredDefinition(def, setup, defined))
    ensures r.Ok? ==> stored == Some(r.value)
  {
    var available := AvailableTasks(def);
    if available.Err? {
      return Err(available.error), map[], None;
    }
    var cards;
    cards, structs := LoadTasks(available.value, defined);
    var d;
    r, d := BuildDefinition(def, setup, defined, cards, structs);
    stored := Some(d);
  }

  /**
   * The definition built from the selected tasks: its name, its tasks, the
   * component specification with the setup applied and the data
   * specifications, or the error of the first stage that fails.
   */
  method BuildDefinition(def: Node, setup: Option<Node>, defined: map<string, Node>,
                         cards: seq<TaskCard>, structs: map<string, Node>)
    returns (r: Result<ComponentDefinition, LoadError>, stored: ComponentDefinition)
    requires AvailableTasks(def).Ok? && structs == StructsOf(def, defined) && cards == CardsOf(def, defined)
    ensures Built(def, setup, defined, r)
    ensures stored == StoredDefinition(def, setup, defined)
    ensures r.Ok? ==> stored == r.value
  {
    var id := StringAt(def, "id");
    var title := StringAt(def, "title");
    stored := ComponentDefinition(id, title, "component-definitions/" + id, cards, map[], map[]);
    var spec := GenerateComponentSpec(title, cards, structs);
    assert spec == GeneratedSpec(def, defined);
    if spec.Err? {
      return Err(spec.error), stored;
    }
    stored := stored.(componentSpecification := spec.value);
    var full := SpecWithSetup(spec.value, setup);
    if full.Err? {
      return Err(full.error), stored;
    }
    stored := stored.(componentSpecification := full.value);
    assert StageError(def, setup, defined).None?;
    var dataSpecs := GenerateDataSpecs(structs);
    if dataSpecs.Err? {
      return Err(DataSpecError(dataSpecs.error)), stored;
    }
    stored := stored.(dataSpecifications := dataSpecs.value);
    r := Ok(stored);
  }

  /** The Component: its definition and the indices built from it. */
  class Component {
    var definition: Option<ComponentDefinition>
    var secretFields: seq<string>
    var taskInputSchemas: map<string, Node>
    var taskOutputSchemas: map<string, Node>
    var inputAcceptFormatsFields: map<string, map<string, seq<string>>>
    var outputFormatsFields: map<string, map<string, string>>

    constructor ()
      ensures definition.None? && secretFields == []
      ensures taskInputSchemas == map[] && taskOutputSchemas == map[]
      ensures inputAcceptFormatsFields == map[] && outputFormatsFields == map[]
    {
      definition := None;
      secretFields := [];
      taskInputSchemas := map[];
      taskOutputSchemas := map[];
      inputAcceptFormatsFields := map[];
      outputFormatsFields := map[];
    }

    /**
     * LoadDefinition: clears the secret fields, reads the available tasks,
     * keeps their definitions and their input and output schemas, then
     * builds the definition stage by stage (the component specification,
     * with the refined setup as its only property when there is a setup, and
     * the data specifications) and finally the three indices. Stops at the
     * first stage that fails, leaving what the earlier stages stored.
     */
    method LoadDefinition(def: Node, setup: Option<Node>, defined: map<string, Node>)
      returns (err: Option<LoadError>, ghost outcome: Result<ComponentDefinition, LoadError>, ghost selected: map<string, Node>)
      modifies this
      ensures Outcome(def, setup, defined, outcome, selected)
      ensures err == if outcome.Err? then Some(outcome.error) else None
      ensures Stored(def, setup, defined, old(definition), old(taskInputSchemas), old(taskOutputSchemas))
      ensures outcome.Err? ==>
        secretFields == [] &&
        inputAcceptFormatsFields == old(inputAcceptFormatsFields) && outputFormatsFields == old(outputFormatsFields)
      ensures outcome.Ok? ==>
        definition == Some(outcome.value) &&
        Indexed(outcome.value, old(inputAcceptFormatsFields), old(outputFormatsFields))
    {
      secretFields := [];
      var d, structs, stored := Assemble(def, setup, defined);
      Keep(def, setup, defined, structs, stored);
      outcome, selected := d, structs;
      if d.Err? {
        return Some(d.error), outcome, selected;
      }
      BuildIndices(d.value);
      return None, outcome, selected;
    }

    /**
     * What loading leaves in the definition and the task schemas: the
     * `previous` values when `availableTasks` cannot be read, and otherwise
     * the selected tasks' schemas and the definition as far as it was built.
     */
    ghost predicate Stored(def: Node, setup: Option<Node>, defined: map<string, Node>, previous: Option<ComponentDefinition>,
                           previousInputs: map<string, Node>, previousOutputs: map<string, Node>)
      reads this`definition, this`taskInputSchemas, this`taskOutputSchemas
    {
      (AvailableTasks(def).Err? ==>
        definition == previous && taskInputSchemas == previousInputs && taskOutputSchemas == previousOutputs) &&
      (AvailableTasks(def).Ok? ==>
        definition == Some(StoredDefinition(def, setup, defined)) &&
        taskInputSchemas == SchemasAt(StructsOf(def, defined), "input") &&
        taskOutputSchemas == SchemasAt(StructsOf(def, defined), "output"))
    }

    /** Stores the task schemas and the definition once the tasks are selected. */
    method Keep(def: Node, setup: Option<Node>, defined: map<string, Node>,
                structs: map<string, Node>, stored: Option<ComponentDefinition>)
      requires AvailableTasks(def).Err? ==> stored.None?
      requires AvailableTasks(def).Ok? ==>
        structs == StructsOf(def, defined) && stored == Some(StoredDefinition(def, setup, defined))
      modifies this`definition, this`taskInputSchemas, this`taskOutputSchemas
      ensures Stored(def, setup, defined, old(definition), old(taskInputSchemas), old(taskOutputSchemas))
      ensures definition == if stored.Some? then stored else old(definition)
    {
      if stored.Some? {
        StoreTaskSchemas(structs);
        definition := stored;
      }
    }

    /** initSecretField, initInputAcceptFormatsFields and initOutputFormatsFields, in this order. */
    method BuildIndices(d: ComponentDefinition)
      modifies this`secretFields, this`inputAcceptFormatsFields, this`outputFormatsFields
      ensures Indexed(d, old(inputAcceptFormatsFields), old(outputFormatsFields))
    {
      InitSecretField(d);
      InitInputAcceptFormatsFields();
      InitOutputFormatsFields();
    }

    /**
     * The three indices of a loaded definition `d`: the secret fields of its
     * setup and the formats of every task's input and output fields. A
     * format index is kept at its `previous` value when there is no task.
     */
    ghost predicate Indexed(d: ComponentDefinition, previousAccept: map<string, map<string, seq<string>>>,
                            previousOutput: map<string, map<string, string>>)
      reads this
    {
      (forall p :: multiset(secretFields)[p] == SchemaBag(Secrets, SetupOf(d.componentSpecification), p)[p]) &&
      (taskInputSchemas != map[] ==> AcceptIndexed(inputAcceptFormatsFields, taskInputSchemas)) &&
      (taskInputSchemas == map[] ==> inputAcceptFormatsFields == previousAccept) &&
      (taskOutputSchemas != map[] ==> OutputIndexed(outputFormatsFields, taskOutputSchemas)) &&
      (taskOutputSchemas == map[] ==> outputFormatsFields == previousOutput)
    }

    /** The input and output schema of every task, kept for the format indices. */
    method StoreTaskSchemas(structs: map<string, Node>)
      modifies this`taskInputSchemas, this`taskOutputSchemas
      ensures taskInputSchemas == SchemasAt(structs, "input")
      ensures taskOutputSchemas == SchemasAt(structs, "output")
    {
      var inputs: map<string, Node> := map[];
      var outputs: map<string, Node> := map[];
      var todo := structs.Keys;
      while todo != {}
        invariant todo <= structs.Keys
        invariant inputs.Keys == outputs.Keys == structs.Keys - todo
        invariant forall k :: k in inputs ==> inputs[k] == StructAt(structs[k], "input")
        invariant forall k :: k in outputs ==> outputs[k] == StructAt(structs[k], "output")
        decreases todo
      {
        var k :| k in todo;
        inputs := inputs[k := StructAt(structs[k], "input")];
        outputs := outputs[k := StructAt(structs[k], "output")];
        todo := todo - {k};
      }
      taskInputSchemas := inputs;
      taskOutputSchemas := outputs;
    }

    /**
     * IsSecretField: whether `target` is one of the secret fields, by a scan
     * of the list.
     */
    method IsSecretField(target: string) returns (b: bool)
      ensures b <==> target in secretFields
    {
      var i := 0;
      while i < |secretFields|
        invariant 0 <= i <= |secretFields|
        invariant target !in secretFields[..i]
      {
        if secretFields[i] == target {
          return true;
        }
        assert secretFields[..i + 1] == secretFields[..i] + [secretFields[i]];
        i := i + 1;
      }
      assert secretFields[..i] == secretFields;
      return false;
    }

    /**
     * initSecretField: the dotted path of every secret field of the setup
     * schema `properties.setup`, found through its `properties` and then
     * through its `oneOf` branches; a path is listed once per time the walk
     * reaches it.
     */
    method InitSecretField(d: ComponentDefinition)
      modifies this`secretFields
      ensures forall p :: multiset(secretFields)[p] == SchemaBag(Secrets, SetupOf(d.componentSpecification), p)[p]
      ensures forall p :: p in secretFields <==> p in SchemaBag(Secrets, SetupOf(d.componentSpecification), p)
    {
      var setup := SetupOf(d.componentSpecification);
      var r := SecretProps(setup, "", []);
      var r1 := SecretOneOf(setup, "", r);
      forall p
        ensures PathsAdded([], r1, p, SchemaBag(Secrets, setup, p))
      {
        PathsAddedTrans([], r, r1, p, PropsBag(Secrets, setup, "", p), OneOfBag(Secrets, setup, "", p));
      }
      secretFields := r1;
    }

    /**
     * initInputAcceptFormatsFields: for every task, the accepted formats of
     * each input field, from the task's input schema. The index is stored
     * once per task, so with no task it keeps its previous value.
     */
    method InitInputAcceptFormatsFields()
      modifies this`inputAcceptFormatsFields
      ensures taskInputSchemas != map[] ==> AcceptIndexed(inputAcceptFormatsFields, taskInputSchemas)
      ensures taskInputSchemas == map[] ==> inputAcceptFormatsFields == old(inputAcceptFormatsFields)
    {
      var index: map<string, map<string, seq<string>>> := map[];
      var todo := taskInputSchemas.Keys;
      while todo != {}
        invariant todo <= taskInputSchemas.Keys
        invariant index.Keys == taskInputSchemas.Keys - todo
        invariant forall t, p :: t in index ==> FormatsAdded(map[], index[t], p, SchemaBag(AcceptFormats, taskInputSchemas[t], p))
        invariant todo == taskInputSchemas.Keys ==> inputAcceptFormatsFields == old(inputAcceptFormatsFields)
        invariant todo != taskInputSchemas.Keys ==> inputAcceptFormatsFields == index
        decreases todo
      {
        var task :| task in todo;
        var input := taskInputSchemas[task];
        var m := AcceptProps(input, "", map[]);
        var m1 := AcceptOneOf(input, "", m);
        forall p
          ensures FormatsAdded(map[], m1, p, SchemaBag(AcceptFormats, input, p))
        {
          FormatsAddedTrans(map[], m, m1, p, PropsBag(AcceptFormats, input, "", p), OneOfBag(AcceptFormats, input, "", p));
        }
        index := index[task := m1];
        inputAcceptFormatsFields := index;
        todo := todo - {task};
      }
    }

    /**
     * initOutputFormatsFields: for every task, the format of each output
     * field, from the task's output schema. The index is stored once per
     * task, so with no task it keeps its previous value.
     */
    method InitOutputFormatsFields()
      modifies this`outputFormatsFields
      ensures taskOutputSchemas != map[] ==> OutputIndexed(outputFormatsFields, taskOutputSchemas)
      ensures taskOutputSchemas == map[] ==> outputFormatsFields == old(outputFormatsFields)
    {
      var index: map<string, map<string, string>> := map[];
      var todo := taskOutputSchemas.Keys;
      while todo != {}
        invariant todo <= taskOutputSchemas.Keys
        invariant index.Keys == taskOutputSchemas.Keys - todo
        invariant forall t, p :: t in index ==> FormatWritten(map[], index[t], p, SchemaWritten(taskOutputSchemas[t], p))
        invariant todo == taskOutputSchemas.Keys ==> outputFormatsFields == old(outputFormatsFields)
        invariant todo != taskOutputSchemas.Keys ==> outputFormatsFields == index
        decreases todo
      {
        var task :| task in todo;
        var output := taskOutputSchemas[task];
        var m := OutputProps(output, "", map[]);
        var m1 := OutputOneOf(output, "", m);
        forall p
          ensures FormatWritten(map[], m1, p, SchemaWritten(output, p))
        {
          FormatWrittenTrans(map[], m, m1, p, PropsWritten(output, "", p), OneOfWritten(output, "", p));
        }
        index := index[task := m1];
        outputFormatsFields := index;
        todo := todo - {task};
      }
    }
  }
}
