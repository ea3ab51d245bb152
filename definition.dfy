/**
 * Assembly of a component definition from its task definitions: task titles,
 * the task cards, the component specification with one `oneOf` branch per
 * task, the per-task data specifications, and the selection of the task
 * definitions a component makes available.
 */
module Definition {
  import opened Wrappers
  import opened Strings
  import opened JsonValue
  import opened Schema
  import opened Format

  // ---------------------------------------------------------------------------
  // TaskIDToTitle
  // ---------------------------------------------------------------------------

  const TaskPrefix := "TASK_"

  /** TaskIDToTitle: drops every "TASK_", turns underscores into spaces and title-cases the words. */
  function TaskIdToTitle(id: string): (r: string)
    ensures '_' !in r
    ensures |r| == |ReplaceAll(id, TaskPrefix, "")|
  {
    var s := ReplaceAll(id, TaskPrefix, "");
    ReplaceCharByChar(s, '_', ' ');
    var t := ReplaceAll(s, "_", " ");
    assert forall i :: 0 <= i < |t| ==> t[i] != '_';
    TitleCase(t)
  }

  /** A title built from an id without "TASK_" or underscores is the id in title case. */
  lemma TitleOfPlainId(id: string)
    requires '_' !in id
    ensures TaskIdToTitle(id) == TitleCase(id)
  {
    NoPrefixWithoutUnderscore(id);
    ReplaceAbsentChar(id, '_', " ");
  }

  lemma {:induction false} NoPrefixWithoutUnderscore(s: string)
    requires '_' !in s
    ensures ReplaceAll(s, TaskPrefix, "") == s
    decreases |s|
  {
    if s != [] {
      assert !(|TaskPrefix| <= |s| && s[..|TaskPrefix|] == TaskPrefix) by {
        if |TaskPrefix| <= |s| {
          assert s[..|TaskPrefix|][4] == s[4];
        }
      }
      NoPrefixWithoutUnderscore(s[1..]);
      assert [s[0]] + s[1..] == s;
    }
  }

  /**
   * The title is the id with every "TASK_" dropped and every underscore made
   * a space, in which each word starts upper case and continues lower case.
   */
  lemma TitleWords(id: string)
    ensures var s := ReplaceAll(ReplaceAll(id, TaskPrefix, ""), "_", " ");
      var r := TaskIdToTitle(id);
      |r| == |s| &&
      forall i :: 0 <= i < |s| ==> r[i] == if StartsWord(s, i) then ToUpper(s[i]) else ToLower(s[i])
  {
    ReplaceCharByChar(ReplaceAll(id, TaskPrefix, ""), '_', ' ');
  }

  /** A task id of the usual form: "TASK_GET_COMMIT" is titled "Get Commit". */
  lemma TitleOfTaskId()
    ensures TaskIdToTitle("TASK_GET_COMMIT") == "Get Commit"
  {
    GetCommitUnprefixed();
    GetCommitSpaced();
    GetCommitTitled();
  }

  lemma GetCommitUnprefixed()
    ensures ReplaceAll("TASK_GET_COMMIT", TaskPrefix, "") == "GET_COMMIT"
  {
    var id, rest := "TASK_GET_COMMIT", "GET_COMMIT";
    assert id[..|TaskPrefix|] == TaskPrefix && id[|TaskPrefix|..] == rest;
    forall k | 0 <= k < |rest| - 1
      ensures !(rest[k] == 'T' && rest[k + 1] == 'A')
    {
      if k == 2 {
        assert rest[k + 1] == '_';
      } else {
        assert rest[k] != 'T';
      }
    }
    NoTaskPrefix(rest);
  }

  lemma GetCommitSpaced()
    ensures ReplaceAll("GET_COMMIT", "_", " ") == "GET COMMIT"
  {
    ReplaceCharByChar("GET_COMMIT", '_', ' ');
  }

  lemma GetCommitTitled()
    ensures TitleCase("GET COMMIT") == "Get Commit"
  {
    var s, r := "GET COMMIT", TitleCase("GET COMMIT");
    forall i | 0 <= i < |s|
      ensures r[i] == "Get Commit"[i]
    {
      assert StartsWord(s, i) <==> i == 0 || i == 4;
    }
  }

  /** Dropping "TASK_" leaves a text in which no "T" is followed by "A" as it is. */
  lemma {:induction false} NoTaskPrefix(s: string)
    requires forall k :: 0 <= k < |s| - 1 ==> !(s[k] == 'T' && s[k + 1] == 'A')
    ensures ReplaceAll(s, TaskPrefix, "") == s
    decreases |s|
  {
    if s != [] {
      assert !(|TaskPrefix| <= |s| && s[..|TaskPrefix|] == TaskPrefix) by {
        if |TaskPrefix| <= |s| {
          assert s[..|TaskPrefix|][0] == s[0] && s[..|TaskPrefix|][1] == s[1];
        }
      }
      var t := s[1..];
      assert forall k :: 0 <= k < |t| ==> t[k] == s[k + 1];
      NoTaskPrefix(t);
      assert [s[0]] + s[1..] == s;
    }
  }

  // ---------------------------------------------------------------------------
  // generateComponentTaskCards
  // ---------------------------------------------------------------------------

  /** A pb.ComponentTask. */
  datatype TaskCard = TaskCard(name: string, title: string, description: string)

  /** The card of task `name`: its `title`, falling back to the title built from the id, and its short description. */
  function CardOf(name: string, task: Node): (c: TaskCard)
    ensures c.name == name
    ensures StringAt(task, "title") != "" ==> c.title == StringAt(task, "title")
    ensures StringAt(task, "title") == "" ==> c.title == TaskIdToTitle(name)
    ensures c.description == StringAt(task, "instillShortDescription")
  {
    var title := StringAt(task, "title");
    TaskCard(name, if title == "" then TaskIdToTitle(name) else title, StringAt(task, "instillShortDescription"))
  }

  /** The entries of `tasks[..n]` that are keys of the task definitions, in order. */
  function Selected(tasks: seq<string>, keys: set<string>, n: nat): (r: seq<string>)
    requires n <= |tasks|
    ensures forall x :: x in r ==> x in keys
    decreases n
  {
    if n == 0 then []
    else Selected(tasks, keys, n - 1) + (if tasks[n - 1] in keys then [tasks[n - 1]] else [])
  }

  /** The positions in `tasks[..n]` whose entries are selected, ascending. */
  ghost function Positions(tasks: seq<string>, keys: set<string>, n: nat): seq<nat>
    requires n <= |tasks|
    decreases n
  {
    if n == 0 then []
    else Positions(tasks, keys, n - 1) + (if tasks[n - 1] in keys then [n - 1] else [])
  }

  /**
   * The selection keeps exactly the entries that are keys, in the order of
   * `tasks`: it lists `tasks` at strictly ascending positions, and a position
   * is listed exactly when its entry is a key.
   */
  lemma {:induction false} SelectedOrder(tasks: seq<string>, keys: set<string>, n: nat)
    requires n <= |tasks|
    ensures |Positions(tasks, keys, n)| == |Selected(tasks, keys, n)|
    ensures forall a :: 0 <= a < |Positions(tasks, keys, n)| ==>
      Positions(tasks, keys, n)[a] < n && Selected(tasks, keys, n)[a] == tasks[Positions(tasks, keys, n)[a]]
    ensures forall a, b :: 0 <= a < b < |Positions(tasks, keys, n)| ==> Positions(tasks, keys, n)[a] < Positions(tasks, keys, n)[b]
    ensures forall j :: 0 <= j < n ==> (j in Positions(tasks, keys, n) <==> tasks[j] in keys)
    decreases n
  {
    if n > 0 {
      SelectedOrder(tasks, keys, n - 1);
    }
  }

  /** A task is selected exactly when it is available and defined. */
  lemma SelectedMembers(tasks: seq<string>, keys: set<string>, x: string)
    ensures x in Selected(tasks, keys, |tasks|) <==> x in tasks && x in keys
  {
    SelectedOrder(tasks, keys, |tasks|);
    var pos := Positions(tasks, keys, |tasks|);
    var sel := Selected(tasks, keys, |tasks|);
    if x in tasks && x in keys {
      var j :| 0 <= j < |tasks| && tasks[j] == x;
      assert j in pos;
      var a :| 0 <= a < |pos| && pos[a] == j;
      assert sel[a] == x;
    }
    if x in sel {
      var a :| 0 <= a < |sel| && sel[a] == x;
      assert tasks[pos[a]] == x;
    }
  }

  /** The cards of the selected tasks, in the order of the selection. */
  function TaskCards(tasks: seq<string>, structs: map<string, Node>): (cards: seq<TaskCard>)
    ensures |cards| == |Selected(tasks, structs.Keys, |tasks|)|
  {
    var sel := Selected(tasks, structs.Keys, |tasks|);
    seq(|sel|, i requires 0 <= i < |sel| => CardOf(sel[i], structs[sel[i]]))
  }

  /**
   * The cards name exactly the available tasks that have a definition, and
   * each card is built from its own task's definition.
   */
  lemma TaskCardsNames(tasks: seq<string>, structs: map<string, Node>)
    ensures var cards := TaskCards(tasks, structs);
      (forall x :: (exists i :: 0 <= i < |cards| && cards[i].name == x) <==> x in tasks && x in structs) &&
      (forall i :: 0 <= i < |cards| ==> cards[i].name in structs && cards[i] == CardOf(cards[i].name, structs[cards[i].name]))
  {
    var cards := TaskCards(tasks, structs);
    var sel := Selected(tasks, structs.Keys, |tasks|);
    forall x
      ensures (exists i :: 0 <= i < |cards| && cards[i].name == x) <==> x in tasks && x in structs
    {
      SelectedMembers(tasks, structs.Keys, x);
      if x in tasks && x in structs {
        var i :| 0 <= i < |sel| && sel[i] == x;
        assert cards[i].name == x;
      }
    }
  }

  /** The cards follow the order of `tasks`: the names of two cards appear there in the same order. */
  lemma TaskCardsOrder(tasks: seq<string>, structs: map<string, Node>)
    ensures var cards := TaskCards(tasks, structs);
      forall i, j :: 0 <= i < j < |cards| ==>
        exists a, b :: 0 <= a < b < |tasks| && tasks[a] == cards[i].name && tasks[b] == cards[j].name
  {
    var cards := TaskCards(tasks, structs);
    var pos := Positions(tasks, structs.Keys, |tasks|);
    SelectedOrder(tasks, structs.Keys, |tasks|);
    forall i, j | 0 <= i < j < |cards|
      ensures exists a, b :: 0 <= a < b < |tasks| && tasks[a] == cards[i].name && tasks[b] == cards[j].name
    {
      assert tasks[pos[i]] == cards[i].name && tasks[pos[j]] == cards[j].name;
    }
  }

  /** generateComponentTaskCards: one card per available task that has a definition, in the order of `tasks`. */
  method GenerateComponentTaskCards(tasks: seq<string>, structs: map<string, Node>) returns (cards: seq<TaskCard>)
    ensures cards == TaskCards(tasks, structs)
  {
    cards := [];
    var i := 0;
    while i < |tasks|
      invariant 0 <= i <= |tasks|
      invariant var sel := Selected(tasks, structs.Keys, i);
        |cards| == |sel| && forall j :: 0 <= j < |cards| ==> cards[j] == CardOf(sel[j], structs[sel[j]])
    {
      var k := tasks[i];
      if k in structs {
        cards := cards + [CardOf(k, structs[k])];
      }
      i := i + 1;
    }
  }

  // ---------------------------------------------------------------------------
  // loadTasks
  // ---------------------------------------------------------------------------

  /** The task definitions kept: those of the available tasks. */
  ghost predicate AreTaskStructs(structs: map<string, Node>, available: seq<string>, defined: map<string, Node>) {
    (forall t :: t in structs <==> t in available && t in defined) &&
    (forall t :: t in structs ==> structs[t] == defined[t])
  }

  /** The definitions of the available tasks. */
  function TaskStructs(available: seq<string>, defined: map<string, Node>): (structs: map<string, Node>)
    ensures AreTaskStructs(structs, available, defined)
  {
    map t | t in defined.Keys && t in available :: defined[t]
  }

  /**
   * loadTasks, once the task file is parsed into `defined`: keeps the
   * definition of every available task and builds the task cards.
   */
  method LoadTasks(available: seq<string>, defined: map<string, Node>) returns (cards: seq<TaskCard>, structs: map<string, Node>)
    ensures AreTaskStructs(structs, available, defined)
    ensures structs == TaskStructs(available, defined)
    ensures cards == TaskCards(available, structs)
  {
    structs := map[];
    var i := 0;
    while i < |available|
      invariant 0 <= i <= |available|
      invariant forall t :: t in structs <==> t in available[..i] && t in defined
      invariant forall t :: t in structs ==> structs[t] == defined[t]
    {
      var t := available[i];
      if t in defined {
        structs := structs[t := defined[t]];
      }
      assert available[..i + 1] == available[..i] + [t];
      i := i + 1;
    }
    assert available[..i] == available;
    assert structs == TaskStructs(available, defined);
    cards := GenerateComponentTaskCards(available, structs);
  }

  // ---------------------------------------------------------------------------
  // generateComponentSpec
  // ---------------------------------------------------------------------------

  /** Why building a component definition stops. */
  datatype LoadError =
    | TaskInputError(title: string, task: string, cause: SchemaError)  // "task %s: %s error: %+v"
    | MissingTask(task: string)                                        // a card without a task definition: nil dereference
    | SetupError(cause: SchemaError)                                   // from refineResourceSpec
    | DataSpecError(cause: SchemaError)                                // from generateDataSpecs
    | AvailableTasksMalformed                                          // a failed type assertion on availableTasks

  const SchemaUri := "http://json-schema.org/draft-07/schema#"

  /** The fixed schema of every task's `condition` field. */
  const Condition: Node := map[
    "type" := JStr("string"),
    "instillUIOrder" := JNum(1),
    "instillShortDescription" := JStr("config whether the component will be executed or skipped"),
    "instillAcceptFormats" := JArr([JStr("string")]),
    "instillUpstreamTypes" := JArr([JStr("value"), JStr("template")])]

  /** The `task` field of a branch: the task name as a constant, its title and, when not empty, its descriptions. */
  function TaskField(card: TaskCard, task: Node): (f: Node)
    ensures f.Keys == {"const", "title"}
                      + (if StringAt(task, "description") != "" then {"description"} else {})
                      + (if card.description != "" then {"instillShortDescription"} else {})
    ensures f["const"] == JStr(card.name) && f["title"] == JStr(card.title)
    ensures "description" in f ==> f["description"] == JStr(StringAt(task, "description"))
    ensures "instillShortDescription" in f ==> f["instillShortDescription"] == JStr(card.description)
  {
    var f := map["const" := JStr(card.name), "title" := JStr(card.title)];
    var d := StringAt(task, "description");
    var f1 := if d != "" then f["description" := JStr(d)] else f;
    if card.description != "" then f1["instillShortDescription" := JStr(card.description)] else f1
  }

  /** The input schema of a task definition, as read from its clone: nothing when absent or not an object. */
  function InputOf(task: Node): Node {
    StructAt(task, "input")
  }

  /** The `oneOf` branch of one task, given its converted input schema. */
  function BranchFor(card: TaskCard, task: Node, input: Node): (b: Node)
    ensures b.Keys == {"type", "properties"} && b["type"] == JStr("object")
    ensures var p := b["properties"];
      p.JObj? &&
      p.fields.Keys == {"task", "condition", "input"} + (if "metadata" in task then {"metadata"} else {}) &&
      p.fields["task"] == JObj(TaskField(card, task)) &&
      p.fields["condition"] == JObj(Condition) &&
      p.fields["input"] == JObj(input) &&
      ("metadata" in task ==> p.fields["metadata"] == JObj(StructOf(task["metadata"])))
  {
    var props := map["task" := JObj(TaskField(card, task)), "condition" := JObj(Condition), "input" := JObj(input)];
    map["type" := JStr("object"),
        "properties" := JObj(if "metadata" in task then props["metadata" := JObj(StructOf(task["metadata"]))] else props)]
  }

  /** The task of a card has a definition whose input converts. */
  predicate CardConverts(card: TaskCard, structs: map<string, Node>) {
    card.name in structs && ConvertDataSpec(InputOf(structs[card.name])).Ok?
  }

  /** The error reported for a card that does not convert. */
  function CardError(title: string, card: TaskCard, structs: map<string, Node>): LoadError
    requires !CardConverts(card, structs)
  {
    if card.name !in structs then MissingTask(card.name)
    else TaskInputError(title, card.name, ConvertDataSpec(InputOf(structs[card.name])).error)
  }

  /** The `oneOf` branch of a card that converts. */
  function CardBranch(card: TaskCard, structs: map<string, Node>): Json
    requires CardConverts(card, structs)
  {
    var task := structs[card.name];
    JObj(BranchFor(card, task, ConvertDataSpec(InputOf(task)).value))
  }

  /** The branch of one card, or why it cannot be built. */
  function CardResult(title: string, card: TaskCard, structs: map<string, Node>): Result<Json, LoadError> {
    if CardConverts(card, structs) then Ok(CardBranch(card, structs)) else Err(CardError(title, card, structs))
  }

  /** The branch of every card, or why it cannot be built. */
  function CardResults(title: string, cards: seq<TaskCard>, structs: map<string, Node>): (rs: seq<Result<Json, LoadError>>)
    ensures |rs| == |cards|
  {
    seq(|cards|, i requires 0 <= i < |cards| => CardResult(title, cards[i], structs))
  }

  /** The values of `rs` in order, or the first error among them. */
  function Collect(rs: seq<Result<Json, LoadError>>): Result<seq<Json>, LoadError> {
    if rs == [] then Ok([])
    else if rs[0].Err? then Err(rs[0].error)
    else
      var rest :- Collect(rs[1..]);
      Ok([rs[0].value] + rest)
  }

  /** Collecting succeeds exactly when every entry is a value, and keeps them all in order. */
  lemma {:induction false} CollectOk(rs: seq<Result<Json, LoadError>>)
    ensures Collect(rs).Ok? <==> forall i :: 0 <= i < |rs| ==> rs[i].Ok?
    ensures Collect(rs).Ok? ==> |Collect(rs).value| == |rs| && forall i :: 0 <= i < |rs| ==> Collect(rs).value[i] == rs[i].value
  {
    if rs != [] && rs[0].Ok? {
      CollectOk(rs[1..]);
      assert forall i :: 1 <= i < |rs| ==> rs[i] == rs[1..][i - 1];
    }
  }

  /** When every entry is a value, collecting gives exactly those values. */
  lemma CollectAll(rs: seq<Result<Json, LoadError>>, vs: seq<Json>)
    requires |vs| == |rs| && forall j :: 0 <= j < |rs| ==> rs[j] == Ok(vs[j])
    ensures Collect(rs) == Ok(vs)
  {
    CollectOk(rs);
    assert Collect(rs).value == vs;
  }

  /** Collecting reports the first error. */
  lemma {:induction false} CollectFirstError(rs: seq<Result<Json, LoadError>>, k: nat)
    requires k < |rs| && rs[k].Err? && forall j :: 0 <= j < k ==> rs[j].Ok?
    ensures Collect(rs) == Err(rs[k].error)
  {
    if k > 0 {
      CollectFirstError(rs[1..], k - 1);
    }
  }

  /** The component specification around its `oneOf` branches. */
  function SpecShell(title: string, branches: seq<Json>): Node {
    map[
      "$schema" := JStr(SchemaUri),
      "title" := JStr(title + " Component"),
      "type" := JStr("object"),
      "oneOf" := JArr(branches)]
  }

  function ComponentSpec(title: string, cards: seq<TaskCard>, structs: map<string, Node>): Result<Node, LoadError> {
    var bs :- Collect(CardResults(title, cards, structs));
    Ok(SpecShell(title, bs))
  }

  /** generateComponentSpec. */
  method GenerateComponentSpec(title: string, cards: seq<TaskCard>, structs: map<string, Node>) returns (r: Result<Node, LoadError>)
    ensures r == ComponentSpec(title, cards, structs)
  {
    ghost var rs := CardResults(title, cards, structs);
    var branches: seq<Json> := [];
    var i := 0;
    while i < |cards|
      invariant 0 <= i <= |cards|
      invariant |branches| == i && forall j :: 0 <= j < i ==> rs[j] == Ok(branches[j])
    {
      var b := BuildBranch(title, cards[i], structs);
      if b.Err? {
        CollectFirstError(rs, i);
        r := Err(b.error);
        return;
      }
      assert rs[i] == b;
      branches := branches + [b.value];
      i := i + 1;
    }
    CollectAll(rs, branches);
    r := Ok(SpecShell(title, branches));
  }

  /** One iteration of the loop. */
  method BuildBranch(title: string, card: TaskCard, structs: map<string, Node>) returns (b: Result<Json, LoadError>)
    ensures b == CardResult(title, card, structs)
  {
    if card.name !in structs {
      return Err(MissingTask(card.name));
    }
    var task := structs[card.name];
    var input := ConvertDataSpec(InputOf(task));
    if input.Err? {
      return Err(TaskInputError(title, card.name, input.error));
    }
    b := Ok(JObj(BranchFor(card, task, input.value)));
  }

  /** The component specification is built exactly when every card's input converts. */
  lemma ComponentSpecSucceeds(title: string, cards: seq<TaskCard>, structs: map<string, Node>)
    ensures ComponentSpec(title, cards, structs).Ok? <==> forall i :: 0 <= i < |cards| ==> CardConverts(cards[i], structs)
  {
    var rs := CardResults(title, cards, structs);
    CollectOk(rs);
    assert forall i :: 0 <= i < |cards| ==> (rs[i].Ok? <==> CardConverts(cards[i], structs));
  }

  /**
   * A built component specification is the draft-07 object schema titled
   * "<title> Component" whose `oneOf` holds each card's branch, in card order.
   */
  lemma ComponentSpecShape(title: string, cards: seq<TaskCard>, structs: map<string, Node>)
    requires ComponentSpec(title, cards, structs).Ok?
    ensures var s := ComponentSpec(title, cards, structs).value;
      s.Keys == {"$schema", "title", "type", "oneOf"} &&
      s["$schema"] == JStr(SchemaUri) &&
      s["title"] == JStr(title + " Component") &&
      s["type"] == JStr("object") &&
      s["oneOf"].JArr? && |s["oneOf"].items| == |cards| &&
      forall i :: 0 <= i < |cards| ==> CardConverts(cards[i], structs) && s["oneOf"].items[i] == CardBranch(cards[i], structs)
  {
    var rs := CardResults(title, cards, structs);
    CollectOk(rs);
    var bs := Collect(rs).value;
    forall i | 0 <= i < |cards|
      ensures CardConverts(cards[i], structs) && bs[i] == CardBranch(cards[i], structs)
    {
      assert rs[i] == CardResult(title, cards[i], structs);
    }
  }

  /** A failure reports the first card whose input does not convert. */
  lemma ComponentSpecFirstError(title: string, cards: seq<TaskCard>, structs: map<string, Node>, k: nat)
    requires k < |cards| && !CardConverts(cards[k], structs)
    requires forall j :: 0 <= j < k ==> CardConverts(cards[j], structs)
    ensures ComponentSpec(title, cards, structs) == Err(CardError(title, cards[k], structs))
  {
    var rs := CardResults(title, cards, structs);
    assert forall j :: 0 <= j < k ==> rs[j].Ok?;
    CollectFirstError(rs, k);
  }

  /** A task whose definition has no input object cannot be converted: its clone has no field map. */
  lemma NoInputNoSpec(card: TaskCard, structs: map<string, Node>)
    requires card.name in structs && InputOf(structs[card.name]) == map[]
    ensures !CardConverts(card, structs)
    ensures ConvertDataSpec(InputOf(structs[card.name])) == Err(Panic)
  {
    assert CheckFreeForm(map[]) == Ok(true);
  }

  // ---------------------------------------------------------------------------
  // generateDataSpecs
  // ---------------------------------------------------------------------------

  /** A pb.DataSpecification: the formatted input and output schemas, nil when the task has none. */
  datatype DataSpec = DataSpec(input: Option<Node>, output: Option<Node>)

  /** The schema under `key` of a task definition: absent unless it is an object. */
  function SchemaAt(task: Node, key: string): Option<Node> {
    if key in task && task[key].JObj? then Some(task[key].fields) else None
  }

  /** formatDataSpec on a possibly nil Struct: nil is returned as nil. */
  function FormatSchema(s: Option<Node>): (r: Result<Option<Node>, SchemaError>)
    ensures s.None? ==> r == Ok(None)
    ensures s.Some? ==> (r.Ok? <==> FormatDataSpec(s.value).Ok?)
    ensures s.Some? && r.Ok? ==> r.value == Some(FormatDataSpec(s.value).value)
    ensures s.Some? && r.Err? ==> r.error == FormatDataSpec(s.value).error
  {
    match s
    case None => Ok(None)
    case Some(n) =>
      var f :- FormatDataSpec(n);
      Ok(Some(f))
  }

  predicate DataSpecOk(task: Node) {
    FormatSchema(SchemaAt(task, "input")).Ok? && FormatSchema(SchemaAt(task, "output")).Ok?
  }

  /** The data specification of a task whose schemas both format. */
  function DataSpecOf(task: Node): DataSpec
    requires DataSpecOk(task)
  {
    DataSpec(FormatSchema(SchemaAt(task, "input")).value, FormatSchema(SchemaAt(task, "output")).value)
  }

  /** The error of a task whose schemas do not both format: the input is formatted first. */
  function DataSpecErrorOf(task: Node): SchemaError
    requires !DataSpecOk(task)
  {
    var i := FormatSchema(SchemaAt(task, "input"));
    if i.Err? then i.error else FormatSchema(SchemaAt(task, "output")).error
  }

  /** Both schemas of every task format. */
  predicate AllDataSpecsOk(structs: map<string, Node>) {
    forall k :: k in structs ==> DataSpecOk(structs[k])
  }

  /** The data specification of every task, when all of them format. */
  function DataSpecsOf(structs: map<string, Node>): (r: map<string, DataSpec>)
    requires AllDataSpecsOk(structs)
    ensures r.Keys == structs.Keys
  {
    map k | k in structs :: DataSpecOf(structs[k])
  }

  /**
   * generateDataSpecs: the data specification of every task, or the error
   * of one task that fails (tasks are visited in map order, so which one is
   * not fixed).
   */
  method GenerateDataSpecs(structs: map<string, Node>) returns (r: Result<map<string, DataSpec>, SchemaError>)
    ensures r.Ok? <==> AllDataSpecsOk(structs)
    ensures r.Ok? ==> r.value == DataSpecsOf(structs)
    ensures r.Err? ==> exists k :: k in structs && !DataSpecOk(structs[k]) && r.error == DataSpecErrorOf(structs[k])
  {
    var specs: map<string, DataSpec> := map[];
    var todo := structs.Keys;
    while todo != {}
      invariant todo <= structs.Keys
      invariant specs.Keys == structs.Keys - todo
      invariant forall k :: k in specs ==> DataSpecOk(structs[k]) && specs[k] == DataSpecOf(structs[k])
      decreases todo
    {
      var k :| k in todo;
      var input := FormatSchema(SchemaAt(structs[k], "input"));
      if input.Err? {
        return Err(input.error);
      }
      var output := FormatSchema(SchemaAt(structs[k], "output"));
      if output.Err? {
        return Err(output.error);
      }
      specs := specs[k := DataSpec(input.value, output.value)];
      todo := todo - {k};
    }
    assert specs == DataSpecsOf(structs);
    r := Ok(specs);
  }
}
