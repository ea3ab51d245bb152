# Component definitions and the GitHub component, in Dafny

This project models two parts of the pipeline backend's component layer:

- The shared component base (`pkg/component/base/component.go`). It covers:
  - loading a component definition from its definition document, task file and setup document;
  - converting each task's data specification (a JSON Schema with `instill*` extensions) into the component specification's `oneOf` branch;
  - formatting the data specifications;
  - refining the setup's resource specification;
  - building the three field indices (secret fields, input accept formats, output formats);
  - reading a credential from the global configuration.
- The GitHub application component (`pkg/component/application/github/v0/main.go`). It covers:
  - binding an execution to its task handler;
  - running a batch of jobs;
  - identifying and parsing webhook deliveries;
  - subscribing and unsubscribing the pipeline's callback to a repository's `star` events through the repository's webhooks.

Data is modelled on values:

- A JSON value is the datatype `JsonValue.Json`.
- A protobuf `Struct` is a `Node` (`map<string, Json>`).
- Go's errors and panics are the error side of `Wrappers.Result`. A panic is `Panic`, since a panic while loading aborts start-up just as an error does.

Parts that change state in place are classes:

- The component and its indices are the class `Component.Component`.
- The job sinks are `GitHub.Sinks`.
- GitHub's webhook API is `GitHub.HookStore`. It holds the hooks of every repository, hands out fresh ids and has a schedule of calls that fail.

The walks that build the indices, the job loop, and the register and unregister loops are methods with loop invariants. Each is proved against a specification function. The schema transforms are recursive functions. Each has lemmas stating:

- the shape of its result;
- the error cases;
- idempotence where the source relies on it.

Go visits map keys in no fixed order. The schema transforms visit them in ascending order (`Strings.SortedKeys`). That order only decides which of several errors is reported. The index walks pick keys nondeterministically (`:|`), and their contracts hold for every order.

## Model

| member | source | states |
|---|---|---|
| Strings.Cut | pkg/component/application/github/v0/main.go:202-205 | strings.Cut on "/": found exactly when the separator occurs; then the input is before + "/" + after, and before holds no separator |
| Strings.IndexOf | pkg/component/application/github/v0/main.go:202 | the first position of a character, or None exactly when it is absent |
| Strings.TitleCase | pkg/component/base/component.go:392-396 | ASCII title casing in place of cases.Title: the first letter of every word upper case, every other letter lower case, the length kept |
| Strings.DeleteChar | pkg/component/base/component.go:1215-1222 | replacing "-" by "" removes every hyphen and keeps every other character in order |
| Strings.ReplaceCharByChar | pkg/component/base/component.go:392-396 | replacing "_" by " " substitutes character by character and keeps the length |
| Strings.SortedKeysOrdered | pkg/component/base/component.go:246 | the key order used for map iteration lists each key once, strictly ascending |
| JsonValue.WithDefault | pkg/component/base/component.go:953-955 | "set when absent": the key is present afterwards, an existing value is kept, every other key is untouched |
| Schema.ScanFormats | pkg/component/base/component.go:790-810 | the checkFreeForm scan can fail only with the type-assertion panic |
| Schema.ScanFindsNone | pkg/component/base/component.go:790-810 | the scan returns false exactly when every accepted format is a string other than the wildcards "*", "semi-structured/*" and "semi-structured/json" |
| Schema.ScanFindsWildcard | pkg/component/base/component.go:790-810 | the scan returns true exactly when a wildcard comes before any entry that is not a string |
| Schema.ScanFails | pkg/component/base/component.go:790-810 | the scan panics exactly when a non-string entry comes before any wildcard |
| Schema.CheckFreeFormMeaning | pkg/component/base/component.go:790-810 | a node that declares no accepted formats is free-form; with all-string formats it is free-form exactly when one is a wildcard; failure is only a panic |
| Schema.RecognisedTags | pkg/component/base/component.go:349-380 | only "value", "reference" and "template" upstream types produce `anyOf` branches |
| Schema.UpstreamBranchesShape | pkg/component/base/component.go:349-380 | one `anyOf` branch per recognised upstream type, in the order of `instillUpstreamTypes` |
| Schema.ConvertDataSpec | pkg/component/base/component.go:200-386 | conversion never deepens the schema; a missing-type error names the node itself or a node below it |
| Schema.ConvertKeepsConst | pkg/component/base/component.go:203-205 | a node with `const` is returned unchanged |
| Schema.ConvertTypeMissing | pkg/component/base/component.go:207-220 | the node is rejected as "type missing" exactly when it has no `type`, is not free-form and has no composite branch |
| Schema.ConvertObjectNode | pkg/component/base/component.go:222-320 | an object node converts exactly when its formats read, its members convert and its composite branches convert in both passes; the result is defaults, then members converted, with the composite lists converted before and after |
| Schema.ConvertScalarNode | pkg/component/base/component.go:321-384 | any other node converts exactly when its formats read, it has a type or a format, it is not empty and its composites convert; the result is its scalar `anyOf` form |
| Schema.ScalarSpecDepth | pkg/component/base/component.go:321-384 | the scalar `anyOf` form is no deeper than the node it replaces, so the conversion recursion terminates |
| Schema.ObjectDefaults | pkg/component/base/component.go:235-243 | an object node has `required`, an empty list unless present, and `instillEditOnNodeFields`, the (possibly defaulted) `required` unless present; every other key is kept |
| Schema.ConvertedObjectDefaults | pkg/component/base/component.go:235-243 | a converted object node carries `required`, an empty list unless present, and `instillEditOnNodeFields`, that `required` unless present; present values are kept |
| Schema.ConvertMember | pkg/component/base/component.go:245-304 | `properties` and `patternProperties` members keep their keys; non-object members are kept as they are |
| Schema.ConvertEntry | pkg/component/base/component.go:247-278 | a member keeps its kind: an object converts to an object; a list is kept under `properties` and refused under `patternProperties`; strings, numbers and booleans are kept; null is refused |
| Schema.MemberEntriesOk | pkg/component/base/component.go:245-304 | the member loop succeeds exactly when every member converts |
| Schema.MemberEntriesValue | pkg/component/base/component.go:245-304 | each member of the converted map is that member converted |
| Schema.ConvertBranch | pkg/component/base/component.go:222-233 | a composite branch converts to an object; a non-object branch is a nil Struct and fails |
| Schema.TargetContent | pkg/component/base/component.go:222-233 | one composite list converts exactly when all its branches do, and is replaced by their conversions |
| Schema.CompositesContent | pkg/component/base/component.go:305-319 | the `allOf`, `anyOf`, `oneOf` loop converts exactly when all three lists convert, giving all three converted |
| Format.FormatIdempotent | pkg/component/base/component.go:484-603 | formatting a formatted data specification returns it unchanged |
| Format.FormatKeepsTrivial | pkg/component/base/component.go:486-495 | an empty schema and a constant come back unchanged |
| Format.FormatRejectsMissingType | pkg/component/base/component.go:497-500 | a non-free-form node without `type` is rejected with itself as the culprit |
| Format.FormatStricterThanConvert | pkg/component/base/component.go:497-500 | formatting rejects a typeless, non-free-form node with composite branches, while conversion does not report it as missing its type and accepts it exactly when its composite branches convert, giving its scalar form |
| Format.FormatArrayShape | pkg/component/base/component.go:501-519 | an array gets `instillUIOrder` 0 when absent and object `items` formatted; list `items` are kept, other `items` are refused; every other key is kept |
| Format.FormatObjectDefaults | pkg/component/base/component.go:520-530 | an object node gets `instillUIOrder` 0, `required` [] and `instillEditOnNodeFields` = `required` when absent |
| Format.ObjectOutline | pkg/component/base/component.go:520-578 | a formatted object has exactly three added keys, both member maps formatted and every other key kept, and its composite branches format |
| Format.FormatObjectErrors | pkg/component/base/component.go:531-578 | a failing composite branch fails the object; `properties` that are not a map are a nil dereference |
| Format.FormatLeaf | pkg/component/base/component.go:579-601 | a node of any other type is replaced by its leaf form |
| Format.LeafShape | pkg/component/base/component.go:579-601 | the leaf form keeps only type, title, description, order and (if present) `instillFormat`; its short description is its description |
| Format.FormatMembers | pkg/component/base/component.go:531-562 | a member pass adds the members' keys and keeps every other key |
| Refine.RefineOutline | pkg/component/base/component.go:950-1036 | a refined schema gains `instillShortDescription` (the description when absent), has both member maps refined and every other key kept, and its composite branches refine |
| Refine.RefineErrors | pkg/component/base/component.go:950-1036 | an empty schema panics; a failing composite branch fails the refinement although its result is dropped; so does a failing member |
| Refine.RefineEmptyMember | pkg/component/base/component.go:958-979 | an empty member schema panics and a null member is an unsupported type |
| Refine.MembersFail | pkg/component/base/component.go:957-1005 | a member map fails exactly when one of its members fails |
| Refine.RefineIdempotent | pkg/component/base/component.go:950-1036 | refining a refined schema returns it unchanged |
| Refine.RefineMembers | pkg/component/base/component.go:957-1005 | a member pass adds the members' keys and keeps every other key |
| Definition.TitleOfPlainId | pkg/component/base/component.go:392-396 | an id without "TASK_" or underscores gets the id in title case |
| Definition.TitleWords | pkg/component/base/component.go:392-396 | TaskIDToTitle: with every "TASK_" dropped and every underscore a space, each word of the id starts upper case and continues lower case |
| Definition.TitleOfTaskId | pkg/component/base/component.go:392-396 | "TASK_GET_COMMIT" is titled "Get Commit" |
| Definition.SelectedOrder | pkg/component/base/component.go:398-418 | the selection lists exactly the available tasks that are defined, at strictly ascending positions |
| Definition.SelectedMembers | pkg/component/base/component.go:398-418 | a task is selected exactly when it is available and defined |
| Definition.TaskCardsNames | pkg/component/base/component.go:398-418 | the cards name exactly the available, defined tasks, each built from its own definition (title falling back to TaskIDToTitle) |
| Definition.TaskCardsOrder | pkg/component/base/component.go:398-418 | the cards follow the order of `availableTasks` |
| Definition.GenerateComponentTaskCards | pkg/component/base/component.go:398-418 | the loop builds the cards the specification function gives |
| Definition.LoadTasks | pkg/component/base/component.go:690-712 | keeps the definition of every available task (and only those) and builds their cards |
| Definition.GenerateComponentSpec | pkg/component/base/component.go:420-482 | the loop builds the component specification the specification function gives, stopping at the first failing card |
| Definition.ComponentSpecSucceeds | pkg/component/base/component.go:420-482 | the component specification is built exactly when every card's input converts |
| Definition.ComponentSpecShape | pkg/component/base/component.go:420-482 | the result is the draft-07 object schema titled "<title> Component" with one `oneOf` branch per card, in card order |
| Definition.ComponentSpecFirstError | pkg/component/base/component.go:420-482 | a failure reports the first card whose input does not convert |
| Definition.NoInputNoSpec | pkg/component/base/component.go:452-457 | a task without an input object cannot be converted |
| Definition.GenerateDataSpecs | pkg/component/base/component.go:669-688 | succeeds exactly when every task's input and output format, giving all of them; otherwise reports the error of some failing task |
| Component.ReadFromGlobalConfig | pkg/component/base/component.go:1215-1222 | the string stored under the key with its hyphens removed, and "" when there is none |
| Component.ReadIgnoresHyphens | pkg/component/base/component.go:1215-1222 | keys differing only in hyphens read the same credential |
| Component.AvailableTasks | pkg/component/base/component.go:864-867 | `availableTasks` reads exactly when it is a list of strings, giving them in order |
| Component.SpecWithSetup | pkg/component/base/component.go:914-928 | without a setup the specification is kept; with one, the refined setup becomes the only property `setup`, or its refinement error is reported |
| Component.SetupAfterLoad | pkg/component/base/component.go:914-928 | after loading, `properties.setup` is the refined setup document, or empty without one |
| Component.TopLevelSecret | pkg/component/base/component.go:1053-1089 | a top-level setup member with `instillSecret` is a secret field under its own name |
| Component.Assemble | pkg/component/base/component.go:849-940 | the stages of loading yield the error of the first failing stage, or the loaded definition; once the tasks are selected, also the definition as far as it was built |
| Component.StoredDefinition | pkg/component/base/component.go:891-937 | the definition held after loading: the loaded one on success; no data specifications after a failure; no component specification when generating it fails; the generated one without the setup when refining the setup fails |
| Component.BuildDefinition | pkg/component/base/component.go:891-940 | the definition built from the selected tasks, or the first stage's error, with the definition as far as it was built |
| Component.Component.LoadDefinition | pkg/component/base/component.go:849-948 | clears the secret fields; once the tasks are selected, stores each task's input and output schema and the definition as far as it was built, even when a later stage fails; on success builds the three indices; reports the first failing stage |
| Component.Component.IsSecretField | pkg/component/base/component.go:1039-1046 | true exactly when the target is among the secret fields |
| Component.Component.InitSecretField | pkg/component/base/component.go:1053-1066 | the secret fields are the dotted paths of every secret member of `properties.setup`, each counted as often as the walk reaches it |
| Component.Component.InitInputAcceptFormatsFields | pkg/component/base/component.go:1102-1118 | every task's index holds each input field's accepted formats; with no task the index is left as it was |
| Component.Component.InitOutputFormatsFields | pkg/component/base/component.go:1150-1167 | every task's index holds at each output path the format of the last write there: the root `properties` first, then the root `oneOf` branches in order; with no task the index is left as it was |
| Fields.TraverseSecretField | pkg/component/base/component.go:1068-1089 | appends the dotted path of every secret member reached through `properties` and `oneOf` branches, as a multiset per path |
| Fields.TraverseAcceptFormats | pkg/component/base/component.go:1120-1143 | appends each reached member's accepted formats at its dotted path, duplicates kept |
| Fields.TraverseOutputFormats | pkg/component/base/component.go:1169-1190 | writes each reached member's `instillFormat` at its dotted path; the last write stays: under a member, its own format, then its `oneOf` branches in order, then its `properties`, while members of one map may come in any order |
| Fields.MemberWriteOrder | pkg/component/base/component.go:1177-1184 | under an object-typed member, its own `properties` decide wherever they write, and its `oneOf` branches only where those do not |
| Fields.WrittenInBag | pkg/component/base/component.go:1169-1190 | what stays at a path is one of the formats written there, and something stays exactly when something is written |
| Fields.SecretBagOnly | pkg/component/base/component.go:1068-1089 | the secret walk records only the path it is asked about |
| Fields.BagPaths | pkg/component/base/component.go:1068-1190 | a walk under a prefix records nothing at a path outside that prefix |
| Fields.BagMember | pkg/component/base/component.go:1068-1190 | a value is recorded at a path exactly when some member records it there |
| GitHub.TaskOf | pkg/component/application/github/v0/main.go:22-32 | every handler serves one of the nine task names |
| GitHub.CreateExecution | pkg/component/application/github/v0/main.go:74-108 | binds exactly the nine tasks to their handlers; any other task is refused with "not supported task: <task>" and "<task> task is not supported." |
| GitHub.DispatchComplete | pkg/component/application/github/v0/main.go:81-105 | every handler is reached from its own task |
| GitHub.Execute | pkg/component/application/github/v0/main.go:110-138 | runs every job in order and returns no error; the sinks receive exactly the calls each job makes |
| GitHub.JobIsolation | pkg/component/application/github/v0/main.go:110-138 | the calls for job i are those the job makes alone, whatever the other jobs do |
| GitHub.JobOutcome | pkg/component/application/github/v0/main.go:111-134 | output is written exactly when read, defaults and handler succeed; an error is reported exactly when a step fails, and it is the job's last call |
| GitHub.JobCallsOwn | pkg/component/application/github/v0/main.go:111-134 | a job makes one or two sink calls, all for itself |
| GitHub.ConcatIsolation | pkg/component/application/github/v0/main.go:110-138 | when every job's calls carry its own index, the calls for job i in the whole batch are exactly that job's own calls |
| GitHub.Atoi | pkg/component/application/github/v0/main.go:150-153 | strconv.Atoi: a result within the 64-bit range, or a NumError naming "Atoi" and the input |
| GitHub.AtoiItoa | pkg/component/application/github/v0/main.go:150 | Atoi reads back the decimal form of every 64-bit value |
| GitHub.AtoiAccepts | pkg/component/application/github/v0/main.go:150 | Atoi accepts only an optional sign followed by digits |
| GitHub.IdentifyEvent | pkg/component/application/github/v0/main.go:140-159 | a ping is skipped with an empty response; a hook id yields its identifier or the Atoi error; with neither header nothing is identified |
| GitHub.IdentifyRegistered | pkg/component/application/github/v0/main.go:148-157 | a delivery from a registered hook is identified by the identifier RegisterEvent answered |
| GitHub.ParseEvent | pkg/component/application/github/v0/main.go:161-185 | a supported event passes the message on unchanged with an empty response; a missing event header panics; others are "not supported event: <event>.<action>" |
| GitHub.ParseEventAccepts | pkg/component/application/github/v0/main.go:172-173 | the joined key accepts exactly the event "star" with the action "created" |
| GitHub.HookStore.ListHooks | pkg/component/application/github/v0/main.go:212-215 | every hook of the repository, or a vendor error on a failing call |
| GitHub.HookStore.EditHook | pkg/component/application/github/v0/main.go:223-228 | sets only `active` of the named hook; an unknown id is NotFound; other repositories are untouched |
| GitHub.HookStore.CreateHook | pkg/component/application/github/v0/main.go:239-251 | appends a hook with a fresh id; other repositories are untouched; on failure nothing changes |
| GitHub.SetActiveUnique | pkg/component/application/github/v0/main.go:223-225 | with unique ids, setting `active` touches the named hook and no other |
| GitHub.FirstMatch | pkg/component/application/github/v0/main.go:219-231 | the first hook posting to the callback with "star" first, if any |
| GitHub.RegisterEvent | pkg/component/application/github/v0/main.go:187-256 | a repository without "/" is refused and nothing changes; otherwise the first matching hook is reactivated or a new hook is created, the answer is its "hook-id", and a vendor failure leaves the repository's hooks as they were |
| GitHub.RegisteredShape | pkg/component/application/github/v0/main.go:217-253 | registration keeps every other hook, leaves the answered one active, posting to the callback with "star" first, and adds a hook only when none matched |
| GitHub.Subscribe | pkg/component/application/github/v0/main.go:208-255 | the hook calls behind registration: succeeds exactly when neither of its two vendor calls fails, answering the reactivated or created hook's id; a failure leaves the repository's hooks as they were |
| GitHub.RegisterIdempotent | pkg/component/application/github/v0/main.go:217-253 | registering twice adds no second hook and answers the same id |
| GitHub.ReregisterReuses | pkg/component/application/github/v0/main.go:217-286 | re-registering after unregistering reactivates the same hook |
| GitHub.UnregisterEvent | pkg/component/application/github/v0/main.go:258-288 | a repository without "/" is refused; otherwise every hook named by a "hook-id" is set inactive in order, stopping at the first failed edit |
| GitHub.Unsubscribe | pkg/component/application/github/v0/main.go:277-287 | deactivates the named hooks in order; without error every named hook is inactive, after a failed edit only a prefix of them is |
| GitHub.DeactivatedMeaning | pkg/component/application/github/v0/main.go:277-286 | unregistering never deletes or reconfigures a hook: named hooks end inactive, every other hook is unchanged |
| GitHub.HookIdsPrefix | pkg/component/application/github/v0/main.go:277-286 | the ids edited before a failure are a proper prefix of all the named ids |
| GitHub.IndexOfId | pkg/component/application/github/v0/main.go:223 | the last position holding a hook with this id, or None when no hook has it |

## Left out

- Reading the embedded files and the JSON and YAML parsing (`protojson`, `json.Unmarshal`) are not modelled. The definition document, the setup document and the parsed task file are inputs. A definition document that is not an object, and `id` or `title` of the wrong type, are not modelled.
- Event specifications (`generateEventSpecs`) and `RenderJSON` are not modelled.
- Go's map iteration order: the schema transforms visit keys in ascending order. This decides only which of several errors is reported.
- Definition.GenerateDataSpecs: which failing task's error is reported is left open, as in the source.
- Fields.TraverseAcceptFormats: the order of formats at one path is stated as a multiset, because in the source it depends on map order.
- Component.Component.InitInputAcceptFormatsFields: inherits that multiset per path from Fields.TraverseAcceptFormats.
- Component.Component.LoadDefinition: the outcome is a ghost result beside the returned error. The `sync.Once` around it in `Init` is not modelled.
- Schema.ConvertDataSpec: upstream-type branches appear in the order of the `instillUpstreamTypes` entries, as the code appends them.
- Schema.ConvertDataSpec: composite branches of an object node are converted twice, as the code does.
- Schema.ConvertDataSpec: where the code drops the results of `AsSlice` conversions, the model drops them too.
- Format.LeafShape: states the short description of the leaf form as the code writes it.
- Format.FormatRejectsMissingType: follows the code's missing-type check, which ignores composite branches.
- Component.SpecWithSetup: replaces the whole `properties` with `{setup}`, as the code does.
- Component.Component.InitInputAcceptFormatsFields: the index is assigned inside the per-task loop, as in the code, so with no task it keeps its old value.
- Component.Component.InitOutputFormatsFields: the same holds for the output index.
- Component.Component.LoadDefinition: a `oneOf` (at a schema root or under an object-typed member) or an input member's `instillAcceptFormats` that is present but not a list makes the source's index walks panic, since they read `.Values` of a nil list (component.go:1061-1179), although conversion accepts it through the nil-safe `AsSlice`. The model's walks read such a value as an empty list, and loading succeeds.
- Fields.TraverseSecretField, Fields.TraverseAcceptFormats and Fields.TraverseOutputFormats: the same non-list values are read as empty lists instead of panicking.
- GitHub.Execute: reading the input, `FillInDefaultValues`, the task handlers and writing the output are parameters. Their bodies (the GitHub REST calls) are not modelled.
- GitHub.HookStore.ListHooks: lists every hook. The source passes empty list options, so go-github returns only GitHub's first page.
- GitHub.HookStore: network and authorisation failures of the API are a fixed schedule of failing call numbers. Authentication through `newClient` is not modelled.
- GitHub.RegisterEvent: the repository name is an input rather than decoded from the event configuration, and the callback host is a parameter rather than read from the global configuration.
- GitHub.RegisterEvent: requires hooks with a non-empty event list, where the source would panic on `Events[0]`.
- GitHub.UnregisterEvent: requires every "hook-id" to be a number, where the source's `float64` assertion would panic. Ids are integers rather than float64.
- GitHub.ParseEvent: the payload's `action` is an input rather than decoded from the message. A message that does not decode is not modelled.
- GitHub.IdentifyEvent: only the first value of each header is read, as in the source.
- Strings.TitleCase: only ASCII letters and digits form words, and only ASCII letters change case. cases.Title follows Unicode word breaking, so an apostrophe inside a word ("don't") does not start a new word there, and it also cases non-ASCII letters. Task ids are upper-case ASCII words joined by underscores, where the two agree.
- JsonValue.Json: numbers are integers. Protobuf `Struct` numbers are float64, so fractional values and float rounding are not modelled.
- Setup and configuration decoding (`ToStructValue`, the unmarshaler's errors) are not modelled.
