# BrowserAct n8n node: a verified model of its core

The BrowserAct node for n8n starts a browser-automation task on the BrowserAct
service, waits for it to finish and emits its result. It can run an *agent*
(a free-text task given to an agent) or a *workflow* (a saved workflow whose
input parameters and platform credentials the user fills in). This project
models in Dafny the parts of the node that decide what happens:

- `text.dfy` (`Text`): the string operations the node relies on. These are
  ECMAScript `trim` (its exact set of whitespace code points), `startsWith`
  followed by `replace(prefix, '')`, and `join`.
- `budget.dfy` (`Budget`): the poll budget. `Number(timeout) || 3600` seconds
  is turned into at most `QUERY_LIMIT` (16560) status checks, one every
  `QUERY_DELAY` (5000) ms.
- `schema.dfy` (`FieldSchema`): the resource-mapper callback
  `getWorkflowInputs`. It finds the `INPUT_PARAMETERS` node of a workflow's
  configuration and produces one `input-<name>` field per declared input. It
  produces a `password-<platform>` / `account-<platform>` pair per declared
  credential platform, in the reversed order its `reduce` gives.
- `options.dfy` (`LoadOptions`): the dropdown loaders `getWorkflows` and
  `getAgents`.
- `payload.dfy` (`Payload`): the workflow branch of `execute`. The `forEach`
  over the schema routes each filled value to the input parameters or to the
  credentials map. Every blank value is collected for one batch error. Then the
  run-task body is assembled.
  - The credentials map is an insertion-ordered association list, because
    `Object.entries` lists string keys in insertion order.
  - `BuildWorkflowPayload` is the loop as the node runs it. Its body is the
    method `RouteEntry`. Both are proved equal to the fold `BuildWorkflowBody`,
    and the properties are proved about that fold.
- `lifecycle.dfy` (`Lifecycle`): `execute` itself.
  - For each item it builds the body (`PrepareItem`) and starts the task.
  - An item whose reply has no id is skipped.
  - The first task that gets an id is polled (`Poll`) until a terminal status
    or until the budget runs out. In the latter case the task is stopped and
    fetched once more. Then one record is emitted and `execute` returns.

The service is not called. Its replies are parameters:
- `runReplies(i)` is the id in the run-task reply for item `i`.
- `getReplies(j)` is the body of the `j`-th get-task reply.
- The methods return the trace of calls they make (`RunTask`, `GetTask`,
  `StopTask`), so properties about what is sent, and in which order, are
  stated on that trace.

Each method is proved equal to a specification function: `Poll` to
`PollSpec`, `Execute` to `ExecuteSpec`, `BuildWorkflowPayload` to
`BuildWorkflowBody` and `PrepareItem` to `Prepare`. The lemmas are about those
functions. The item loop is specified by `LoopFrom` over the sequence of
prepared requests (`Requests(items)`) and budgets (`Limits(items)`). The lemmas
about the whole run are therefore stated for any such sequences, and
`ExecuteSpec(items, …)` is `LoopFrom(Requests(items), Limits(items), 0, …)`.

Some behaviour of the code is worth pointing out, because one might expect
otherwise:

- A run-task reply without an id adds no record. The loop moves on to the
  next item (`continue`), so when no item gets an id `execute` returns an empty
  list (`NoIdNoRecord`). One might expect an error record for that case, but
  the code emits none. The error record `{error: "Error", taskId}` only
  appears when the detail fetched after a stop has no body
  (`ErrorDetailOnlyAfterStop`, `RecordOf`).
- The agent branch checks nothing. An empty task or agent id is sent as it is
  (`AgentUnchecked`); one might expect a validation error, but the code raises
  none.
- The reversed order of the credential pairs is made by `getWorkflowInputs`'s
  `reduce` (`CredentialFieldsReversed`), not by the payload builder. The
  builder keeps the order in which platforms first appear in the schema
  (`PutNew`, `PutLast`, `GeneratedSchemaRoundTrip`).
- A get-task reply without a body inside the poll loop throws a `TypeError`
  when its `status` is read, and that ends `execute` (`ReadFailure`,
  `DetailReadError`).
- A failed stop call is not caught. It is a transport error like any other
  (see "Left out").

## Model

| member | source | states |
|---|---|---|
| Text.Trim | nodes/BrowserAct/BrowserAct.node.ts:291-292 | `trim()` gives the value with a whitespace prefix and a whitespace suffix cut off, the rest kept as the middle slice; the result is empty exactly when the value is all ECMAScript whitespace, and otherwise neither starts nor ends with whitespace |
| Text.RemovePrefix | nodes/BrowserAct/BrowserAct.node.ts:294 | on a string that starts with the prefix, `replace(prefix, '')` leaves the suffix that the prefix completes to the string |
| Text.PrefixRoundTrip | nodes/BrowserAct/BrowserAct.node.ts:293-294 | removing the prefix from `prefix + rest` gives `rest`; a string starts with the prefix and leaves `rest` exactly when it is `prefix + rest` |
| Text.JoinContainsEach | nodes/BrowserAct/BrowserAct.node.ts:325 | every name joined with ", " occurs in the joined string |
| Text.Join | nodes/BrowserAct/BrowserAct.node.ts:325 | `join(', ')` of a nonempty list starts with the first name |
| Budget.EffectiveTimeout | nodes/BrowserAct/BrowserAct.node.ts:267 | the timeout is never zero; it is 3600 exactly when the parameter is not a number, zero or 3600, and otherwise it is the parameter |
| Budget.PollLimit | nodes/BrowserAct/BrowserAct.node.ts:268 | the limit is at most QUERY_LIMIT; below the cap it is the least number of 5-second delays that covers the timeout; it equals the cap exactly when the timeout exceeds QUERY_LIMIT - 1 delays |
| Budget.DefaultLimit | nodes/BrowserAct/helper.ts:16-17 | a missing or zero timeout gives 720 polls (one hour of 5-second delays) |
| Budget.LimitExamples | nodes/BrowserAct/BrowserAct.node.ts:267-268 | a negative timeout gives no poll, 10 seconds give 2 polls, a day is cut down to QUERY_LIMIT |
| Budget.LimitMonotone | nodes/BrowserAct/BrowserAct.node.ts:268 | a longer (nonzero) timeout never gives fewer polls |
| FieldSchema.FindInputNode | nodes/BrowserAct/BrowserAct.node.ts:169-170 | `find` gives nothing exactly when no node has type INPUT_PARAMETERS, and otherwise the first such node |
| FieldSchema.InputProperties | nodes/BrowserAct/BrowserAct.node.ts:169-171 | the properties are those of the first node of the input type in `dsl.nodes` when it has any; otherwise (no nodes, no input node, or no properties) they are empty |
| FieldSchema.GetWorkflowInputs | nodes/BrowserAct/BrowserAct.node.ts:169-212 | a configuration whose input node is missing, or declares neither inputs nor credentials, yields no fields |
| FieldSchema.NoInputNodeNoFields | nodes/BrowserAct/BrowserAct.node.ts:169-171 | without `dsl.nodes`, or without a node of the input type, the field list is empty rather than an error |
| FieldSchema.CredentialFieldsReversed | nodes/BrowserAct/BrowserAct.node.ts:188-208 | `CredentialFields`, the reduce, puts the k-th platform from the back at pair k, password before account, with the initial accumulator behind all pairs |
| FieldSchema.CredentialFieldsSplit | nodes/BrowserAct/BrowserAct.node.ts:188-208 | the pair of the first declared platform ends up last |
| FieldSchema.FieldIds | nodes/BrowserAct/BrowserAct.node.ts:180-211 | there is one field per declared name and two per platform; input fields come first in declared order with id `input-<name>` and the name as display name; then the pairs `password-<p>`, `account-<p>` in reversed platform order; stripping each prefix gives back the name or platform |
| LoadOptions.GetWorkflows | nodes/BrowserAct/BrowserAct.node.ts:226-231 | the loader fails exactly when `items` is present but not an array (the TypeError of `.map`); a missing `items` gives no options |
| LoadOptions.GetAgents | nodes/BrowserAct/BrowserAct.node.ts:244-255 | the loader fails exactly when `items` is not an array, with an API error that carries the reply |
| LoadOptions.ToOptionsAt | nodes/BrowserAct/BrowserAct.node.ts:250-255 | one option per listed entity, in order, showing its name and storing its id |
| LoadOptions.OptionsRoundTrip | nodes/BrowserAct/BrowserAct.node.ts:228-231 | the listed entities can be read back from the options unchanged |
| LoadOptions.LoadersAgreeOnArrays | nodes/BrowserAct/BrowserAct.node.ts:226-255 | on an array reply both loaders give the same options; they differ only in how they fail |
| Payload.Get | nodes/BrowserAct/BrowserAct.node.ts:296 | `credentialsMap[key]` is present exactly when `key` was entered |
| Payload.PutKeys | nodes/BrowserAct/BrowserAct.node.ts:296-299 | setting a field of a new platform appends the platform to the key order; an existing platform keeps its place |
| Payload.PutGet | nodes/BrowserAct/BrowserAct.node.ts:296-307 | only the slot of the platform changes, and only the field set (`account` or `password`), to the value |
| Payload.PutSpec | nodes/BrowserAct/BrowserAct.node.ts:296-307 | the whole effect of `Put`, one assignment `credentialsMap[p][field] = value`: the key order, the new slot of the platform, every other slot unchanged |
| Payload.PutDistinct | nodes/BrowserAct/BrowserAct.node.ts:296-298 | no platform is entered twice |
| Payload.PutNew | nodes/BrowserAct/BrowserAct.node.ts:296-299 | a platform not yet in the map goes last, with only the assigned field set |
| Payload.PutLast | nodes/BrowserAct/BrowserAct.node.ts:304-307 | assigning to the platform entered last updates it in place |
| Payload.PrefixesExclusive | nodes/BrowserAct/BrowserAct.node.ts:293-309 | an id carries at most one of the prefixes `account-`, `password-`, `input-`, so an entry is routed at most one way |
| Payload.CredentialStepAccount | nodes/BrowserAct/BrowserAct.node.ts:293-300 | a filled `account-<p>` entry sets the account of `p` to the trimmed value and does nothing else |
| Payload.CredentialStepPassword | nodes/BrowserAct/BrowserAct.node.ts:301-308 | a filled `password-<p>` entry sets the password of `p` to the trimmed value and does nothing else |
| Payload.CredentialStepOther | nodes/BrowserAct/BrowserAct.node.ts:291-318 | a blank entry, or one with neither credential prefix, leaves the credentials map unchanged |
| Payload.RouteEntry | nodes/BrowserAct/BrowserAct.node.ts:290-318 | one call of the `forEach` callback adds exactly one step to each of the missing list, the input list and the credentials map |
| Payload.FoldsSnoc | nodes/BrowserAct/BrowserAct.node.ts:290-318 | reading one more schema entry extends the three accumulators by that entry's step |
| Payload.BuildWorkflowPayload | nodes/BrowserAct/BrowserAct.node.ts:279-336 | the loop as the node runs it gives exactly the body or error of `BuildWorkflowBody` |
| Payload.BuildWorkflowBody | nodes/BrowserAct/BrowserAct.node.ts:279-336 | the builder fails with the select-a-workflow error exactly when no workflow is selected; a missing-fields error always names at least one field; a built body runs the selected workflow |
| Payload.MissingMessageNamesEach | nodes/BrowserAct/BrowserAct.node.ts:322-326 | the missing-fields message names every missing field |
| Payload.MissingComplete | nodes/BrowserAct/BrowserAct.node.ts:290-318 | batch validation: every blank field is reported by display name, and only blank fields are |
| Payload.Missing | nodes/BrowserAct/BrowserAct.node.ts:290-318 | each schema entry adds at most one missing name (which ones is stated by `MissingComplete`) |
| Payload.BuildFailsOnBlank | nodes/BrowserAct/BrowserAct.node.ts:279-327 | no selected workflow gives the select-a-workflow error; otherwise the builder fails exactly when some field is blank, with one error listing every blank field |
| Payload.InputsComplete | nodes/BrowserAct/BrowserAct.node.ts:309-314 | every filled `input-<name>` field becomes the parameter `{name, trimmed value}` |
| Payload.InputsSound | nodes/BrowserAct/BrowserAct.node.ts:309-314 | every input parameter comes from a filled `input-<name>` field of the schema and carries its trimmed value |
| Payload.RouteInputs | nodes/BrowserAct/BrowserAct.node.ts:309-314 | both directions: the input parameters are exactly the filled `input-` fields |
| Payload.Inputs | nodes/BrowserAct/BrowserAct.node.ts:309-314 | each schema entry adds at most one input parameter (which ones is stated by `RouteInputs`) |
| Payload.CredentialsAt | nodes/BrowserAct/BrowserAct.node.ts:293-308 | `Credentials`, the map after the `forEach`, has platform `q` exactly when a filled `account-q` or `password-q` field exists, and then holds their trimmed values |
| Payload.CredentialsDistinct | nodes/BrowserAct/BrowserAct.node.ts:296-298 | the credentials map never holds a platform twice |
| Payload.FlattenEntries | nodes/BrowserAct/BrowserAct.node.ts:331-335 | `Object.entries(...).map` gives one record per platform of the map, in key order, each carrying the account and password stored for that platform |
| Payload.BuildCredentials | nodes/BrowserAct/BrowserAct.node.ts:331-335 | the body's credentials have one record per platform with a filled credential field, no platform twice, each with that platform's trimmed account and password (absent when not filled) |
| Payload.GeneratedSchemaRoundTrip | nodes/BrowserAct/BrowserAct.node.ts:180-211 | on the fields `getWorkflowInputs` generates, all filled and with distinct platforms, the builder succeeds; it sends every declared input in declared order and one credential record per platform, in the order of the generated fields (the reverse of the declared order) |
| Payload.GeneratedNothingMissing | nodes/BrowserAct/BrowserAct.node.ts:322-327 | no generated field is reported missing once every declared input and credential has a value |
| Payload.GeneratedInputs | nodes/BrowserAct/BrowserAct.node.ts:309-314 | on generated fields the input parameters are the declared names with their trimmed values, in declared order |
| Payload.GeneratedCredentials | nodes/BrowserAct/BrowserAct.node.ts:293-308 | on generated fields with distinct platforms the credentials map lists the platforms in reverse declared order, each with both values |
| Lifecycle.FirstDecisive | nodes/BrowserAct/BrowserAct.node.ts:367-380 | the first reply within the budget that ends the loop (a terminal status, or no body), if there is one |
| Lifecycle.Poll | nodes/BrowserAct/BrowserAct.node.ts:363-392 | the poll loop and its stop step make exactly the calls of `PollSpec` and end as it says |
| Lifecycle.PollSpec | nodes/BrowserAct/BrowserAct.node.ts:363-392 | polling always ends with a get-task call on the polled task, whether or not it stopped the task |
| Lifecycle.PollProtocol | nodes/BrowserAct/BrowserAct.node.ts:367-392 | polling starts no task and makes at most one stop, all on the polled task; no stop happens exactly when some reply within the budget ends the loop, and then the first such reply is reported; otherwise the budget is used up, the stop is followed by one last get, and that detail is reported whatever its status |
| Lifecycle.NoBudgetStopsAtOnce | nodes/BrowserAct/BrowserAct.node.ts:367 | with a budget of zero or less the task is stopped at once and fetched once |
| Lifecycle.ErrorDetailOnlyAfterStop | nodes/BrowserAct/BrowserAct.node.ts:382-398 | an empty detail can only be reported after a stop, when the last get has no body |
| Lifecycle.RecordOf | nodes/BrowserAct/BrowserAct.node.ts:394-398 | the record is the error record `{error: "Error", taskId}` exactly when the detail has no body, and otherwise the detail itself |
| Lifecycle.TenSecondRun | nodes/BrowserAct/BrowserAct.node.ts:267-380 | a 10-second timeout, a running task, then a finished one: two gets, no stop, the finished detail |
| Lifecycle.PrepareItem | nodes/BrowserAct/BrowserAct.node.ts:270-349 | the endpoint and body of an item, or what it throws, are those of `Prepare` |
| Lifecycle.Prepare | nodes/BrowserAct/BrowserAct.node.ts:270-349 | only the workflow branch can throw; when an item is prepared, the `workflow` endpoint is used exactly for resource `workflow` with operation `runWorkflow` |
| Lifecycle.AgentUnchecked | nodes/BrowserAct/BrowserAct.node.ts:341-349 | outside the workflow branch nothing is checked; the agent branch sends task and agent id as given; other pairs send an empty body to `agent` |
| Lifecycle.WorkflowValidation | nodes/BrowserAct/BrowserAct.node.ts:279-327 | a workflow item throws exactly when no workflow is selected (citing the item index) or some field is blank (one error naming every blank field) |
| Lifecycle.Execute | nodes/BrowserAct/BrowserAct.node.ts:260-404 | the loop over the items gives exactly the outcome and call trace of `ExecuteSpec` |
| Lifecycle.SkippedPrefix | nodes/BrowserAct/BrowserAct.node.ts:353-361 | items that get no id only add their run-task call, in item order, and leave the outcome to the later items |
| Lifecycle.NoIdNoRecord | nodes/BrowserAct/BrowserAct.node.ts:359-361 | when no item gets an id, one run-task call per item is made and nothing is emitted |
| Lifecycle.FirstIdEnds | nodes/BrowserAct/BrowserAct.node.ts:359-400 | the first item that gets an id is polled and ends `execute`: its record (or the read error) is the outcome, and no later task is started |
| Lifecycle.FailureStops | nodes/BrowserAct/BrowserAct.node.ts:279-327 | an item that fails its checks throws before its run-task call, after the earlier items' run-task calls, and nothing later runs |
| Lifecycle.LoopFrom | nodes/BrowserAct/BrowserAct.node.ts:351-403 | the item loop from any position emits at most one record |
| Lifecycle.ExecuteSpec | nodes/BrowserAct/BrowserAct.node.ts:263-403 | `execute` emits at most one record, and with no items it makes no call and returns an empty list |

## Left out

- HTTP: `browserActRequest`, its base URL and headers, and the credentials
  type are not modelled. The replies are parameters.
- Transport errors (non-2xx replies, network failures) from any call are not
  modelled, including a failing stop call.
- A run-task reply that is itself `null` is not modelled. Reading `.id` from
  it would throw; `runReplies` only gives an id or its absence.
- `sleep(QUERY_DELAY)` and time are not modelled; the budget counts polls.
- The `log` calls are not modelled.
- The node description (the UI properties) is not modelled.
- n8n's `getNodeParameter` is not modelled; each item's parameters are given as
  an `ItemParams` value.
- Budget.EffectiveTimeout: the timeout is a whole number of seconds. A
  fractional timeout, which `Number(...)` allows, is not modelled.
- Payload.Filled: only string values are modelled. JavaScript coercions of
  non-string field values are not.
- Payload.PutSpec: `Object.entries` lists integer-like keys (a platform named
  `"1"`) before the others in ascending order, and keys such as `constructor`
  already exist on every object. The model keeps plain insertion order for
  every platform name.
- FieldSchema.GetWorkflowInputs: names and platforms are strings. A declared
  entry without `name` or `platform` (which would print as `undefined`) is not
  modelled. A falsy `value` is read as no entries, as `|| []` does; a truthy
  `value` that is not an array makes `.map` (line 180) or `.reduce` (line 188)
  throw a `TypeError`, and that error path is not modelled (such a value is
  read as no entries too).
- FieldSchema.Field: the attributes that are the same for every field (`type`
  'string', `required`, `display`, `defaultMatch`) are not carried.
- Payload.BuildWorkflowPayload: a missing `schema` is taken as the empty list,
  which is what `?.forEach` amounts to.
- Lifecycle.TaskDetail: a get-task reply is either no body or an object. Falsy
  non-object replies such as `""` or `0` are not modelled.
