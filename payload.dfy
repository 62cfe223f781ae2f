/** The request bodies `execute` sends to `/<endpoint>/run-task`, and the
    workflow payload builder with its batch validation
    (nodes/BrowserAct/BrowserAct.node.ts:270-349). */
module Payload {
  import opened Wrappers
  import Text
  import FieldSchema

  /** The `workflowConfig` parameter: the user's values keyed by field id
      (`None` when `value` is null or the parameter is missing) and the fields of
      the chosen workflow (a missing `schema` is the empty list). */
  datatype WorkflowConfig = WorkflowConfig(value: Option<map<string, string>>, schema: seq<FieldSchema.Field>)

  datatype InputParameter = InputParameter(name: string, value: string)

  /** The object `credentialsMap[platform]`: the fields set so far. */
  datatype Slot = Slot(account: Option<string>, password: Option<string>)

  datatype Secret = Account | Password

  /** `credentialsMap`, a plain object whose keys `Object.entries` lists in
      insertion order: an association list, oldest key first. */
  type CredentialsMap = seq<(string, Slot)>

  datatype Credential = Credential(platform: string, account: Option<string>, password: Option<string>)

  /** `runTaskBody`: `{}` when neither mode applies, the agent body, or the
      workflow body. */
  datatype RunBody =
    | EmptyBody
    | AgentBody(task: string, agentId: string)
    | WorkflowBody(workflowId: string, inputParameters: seq<InputParameter>, credentials: seq<Credential>)

  /** The two `NodeOperationError`s of the builder. */
  datatype BuildError = NoWorkflowSelected | MissingFields(names: seq<string>)

  const SELECT_WORKFLOW_MESSAGE: string := "Please select a workflow to run"
  const MISSING_FIELDS_MESSAGE: string := "Please fill in the required fields: "

  function Message(e: BuildError): string
  {
    match e
    case NoWorkflowSelected => SELECT_WORKFLOW_MESSAGE
    case MissingFields(names) => MISSING_FIELDS_MESSAGE + Text.Join(names, ", ")
  }

  /** `workflowConfig.value[id]?.trim()` is truthy. */
  predicate Filled(values: map<string, string>, id: string)
  {
    id in values && Text.Trim(values[id]) != []
  }

  predicate NoDup<T(==)>(xs: seq<T>)
  {
    forall i, j :: 0 <= i < j < |xs| ==> xs[i] != xs[j]
  }

  // ---------------------------------------------------------------------------
  // The credentials map

  function Keys(m: CredentialsMap): (ks: seq<string>)
  {
    seq(|m|, k requires 0 <= k < |m| => m[k].0)
  }

  /** `credentialsMap[p]`. */
  function Get(m: CredentialsMap, p: string): (r: Option<Slot>)
    ensures r.Some? <==> p in Keys(m)
  {
    if m == [] then None
    else
      assert Keys(m) == [m[0].0] + Keys(m[1..]);
      if m[0].0 == p then Some(m[0].1)
      else Get(m[1..], p)
  }

  function SlotOf(m: CredentialsMap, p: string): Slot
  {
    match Get(m, p)
    case None => Slot(None, None)
    case Some(s) => s
  }

  function Assign(s: Slot, which: Secret, v: string): Slot
  {
    match which
    case Account => s.(account := Some(v))
    case Password => s.(password := Some(v))
  }

  /** `if (!credentialsMap[p]) credentialsMap[p] = {}; credentialsMap[p][which] = v`. */
  function Put(m: CredentialsMap, p: string, which: Secret, v: string): CredentialsMap
  {
    if m == [] then [(p, Assign(Slot(None, None), which, v))]
    else if m[0].0 == p then [(p, Assign(m[0].1, which, v))] + m[1..]
    else [m[0]] + Put(m[1..], p, which, v)
  }

  /** A new key goes last; an old key keeps its place. */
  lemma {:induction false} PutKeys(m: CredentialsMap, p: string, which: Secret, v: string)
    ensures Keys(Put(m, p, which, v)) == if p in Keys(m) then Keys(m) else Keys(m) + [p]
  {
    if m != [] {
      var r := Put(m, p, which, v);
      assert Keys(m) == [m[0].0] + Keys(m[1..]);
      if m[0].0 == p {
        assert r[1..] == m[1..];
        assert Keys(r) == [p] + Keys(m[1..]);
      } else {
        var r' := Put(m[1..], p, which, v);
        assert r[1..] == r';
        assert Keys(r) == [m[0].0] + Keys(r');
        PutKeys(m[1..], p, which, v);
        if p !in Keys(m) {
          assert Keys(r) == [m[0].0] + (Keys(m[1..]) + [p]);
          AppendAssoc([m[0].0], Keys(m[1..]), [p]);
        }
      }
    }
  }

  /** Only the slot of `p` changes, and it gets `which` set to `v`. */
  lemma {:induction false} PutGet(m: CredentialsMap, p: string, which: Secret, v: string, q: string)
    ensures Get(Put(m, p, which, v), q) == if q == p then Some(Assign(SlotOf(m, p), which, v)) else Get(m, q)
  {
    if m != [] {
      var r := Put(m, p, which, v);
      if m[0].0 == p {
        assert r[0] == (p, Assign(m[0].1, which, v)) && r[1..] == m[1..];
      } else {
        assert r[0] == m[0] && r[1..] == Put(m[1..], p, which, v);
        PutGet(m[1..], p, which, v, q);
      }
    }
  }

  /** The whole effect of `Put`: where the key stands, and every key's slot. */
  lemma PutSpec(m: CredentialsMap, p: string, which: Secret, v: string)
    ensures Keys(Put(m, p, which, v)) == if p in Keys(m) then Keys(m) else Keys(m) + [p]
    ensures Get(Put(m, p, which, v), p) == Some(Assign(SlotOf(m, p), which, v))
    ensures forall q :: q != p ==> Get(Put(m, p, which, v), q) == Get(m, q)
  {
    PutKeys(m, p, which, v);
    PutGet(m, p, which, v, p);
    forall q | q != p ensures Get(Put(m, p, which, v), q) == Get(m, q) {
      PutGet(m, p, which, v, q);
    }
  }

  /** `Object.entries(credentialsMap).map(([platform, info]) => ({platform, ...info}))`. */
  function Flatten(m: CredentialsMap): seq<Credential>
  {
    seq(|m|, k requires 0 <= k < |m| => Credential(m[k].0, m[k].1.account, m[k].1.password))
  }

  function Platforms(cs: seq<Credential>): seq<string>
  {
    seq(|cs|, k requires 0 <= k < |cs| => cs[k].platform)
  }

  lemma PutDistinct(m: CredentialsMap, p: string, which: Secret, v: string)
    requires NoDup(Keys(m))
    ensures NoDup(Keys(Put(m, p, which, v)))
  {
    PutKeys(m, p, which, v);
    var ks := Keys(m);
    if p !in ks {
      forall i, j | 0 <= i < j < |ks| + 1 ensures (ks + [p])[i] != (ks + [p])[j] {
        if j == |ks| { assert ks[i] in ks; }
      }
    }
  }

  lemma {:induction false} GetAt(m: CredentialsMap, k: nat)
    requires NoDup(Keys(m)) && k < |m|
    ensures Get(m, m[k].0) == Some(m[k].1)
  {
    if k > 0 {
      assert Keys(m)[0] != Keys(m)[k];
      assert NoDup(Keys(m[1..])) by {
        assert Keys(m[1..]) == Keys(m)[1..];
      }
      GetAt(m[1..], k - 1);
    }
  }

  /** `Object.entries(credentialsMap).map(...)` lists the platforms in the
      map's key order, each record carrying the account and password stored
      for its platform. */
  lemma FlattenEntries(m: CredentialsMap)
    requires NoDup(Keys(m))
    ensures Platforms(Flatten(m)) == Keys(m)
    ensures forall k :: 0 <= k < |m| ==>
      Get(m, Flatten(m)[k].platform) == Some(Slot(Flatten(m)[k].account, Flatten(m)[k].password))
  {
    forall k | 0 <= k < |m| {
      GetAt(m, k);
    }
  }

  lemma {:induction false} PutNew(m: CredentialsMap, p: string, which: Secret, v: string)
    requires p !in Keys(m)
    ensures Put(m, p, which, v) == m + [(p, Assign(Slot(None, None), which, v))]
  {
    if m != [] {
      assert p != m[0].0 by { assert Keys(m)[0] == m[0].0; }
      assert p !in Keys(m[1..]) by { assert Keys(m[1..]) == Keys(m)[1..]; }
      PutNew(m[1..], p, which, v);
      assert m == [m[0]] + m[1..];
    }
  }

  lemma {:induction false} PutLast(m: CredentialsMap, p: string, s: Slot, which: Secret, v: string)
    requires p !in Keys(m)
    ensures Put(m + [(p, s)], p, which, v) == m + [(p, Assign(s, which, v))]
  {
    if m != [] {
      assert p != m[0].0 by { assert Keys(m)[0] == m[0].0; }
      assert p !in Keys(m[1..]) by { assert Keys(m[1..]) == Keys(m)[1..]; }
      assert (m + [(p, s)])[0] == m[0] && (m + [(p, s)])[1..] == m[1..] + [(p, s)];
      PutLast(m[1..], p, s, which, v);
      assert m == [m[0]] + m[1..];
    }
  }

  // ---------------------------------------------------------------------------
  // Routing the schema entries: the `schema.forEach`, one array at a time

  /** What one entry adds to `missingFields`: its display name when its value is blank. */
  function MissingStep(f: FieldSchema.Field, values: map<string, string>): seq<string>
  {
    if Filled(values, f.id) then [] else [f.displayName]
  }

  /** A field whose value goes to `input_parameters`: filled, with an `input-` id. */
  predicate RoutesInput(f: FieldSchema.Field, values: map<string, string>)
  {
    Filled(values, f.id) && Text.StartsWith(f.id, FieldSchema.INPUT_PREFIX)
  }

  /** `{name, value}` for such a field: the id without its prefix, the trimmed value. */
  function RoutedInput(f: FieldSchema.Field, values: map<string, string>): InputParameter
    requires RoutesInput(f, values)
  {
    InputParameter(Text.RemovePrefix(f.id, FieldSchema.INPUT_PREFIX), Text.Trim(values[f.id]))
  }

  /** What one entry adds to `input_parameters`. */
  function InputStep(f: FieldSchema.Field, values: map<string, string>): seq<InputParameter>
  {
    if RoutesInput(f, values) then [RoutedInput(f, values)] else []
  }

  /** What one entry does to `credentialsMap`: a filled `account-<p>` or
      `password-<p>` entry sets that field of platform `p`. */
  function CredentialStep(c: CredentialsMap, f: FieldSchema.Field, values: map<string, string>): CredentialsMap
  {
    if !Filled(values, f.id) then c
    else
      var value := Text.Trim(values[f.id]);
      var c1 :=
        if Text.StartsWith(f.id, FieldSchema.ACCOUNT_PREFIX)
        then Put(c, Text.RemovePrefix(f.id, FieldSchema.ACCOUNT_PREFIX), Account, value)
        else c;
      if Text.StartsWith(f.id, FieldSchema.PASSWORD_PREFIX)
      then Put(c1, Text.RemovePrefix(f.id, FieldSchema.PASSWORD_PREFIX), Password, value)
      else c1
  }

  /** `missingFields` after the `forEach` over `schema`. */
  function Missing(schema: seq<FieldSchema.Field>, values: map<string, string>): (r: seq<string>)
    ensures |r| <= |schema|
  {
    if schema == [] then []
    else Missing(schema[..|schema| - 1], values) + MissingStep(schema[|schema| - 1], values)
  }

  /** `input_parameters` after the `forEach` over `schema`. */
  function Inputs(schema: seq<FieldSchema.Field>, values: map<string, string>): (r: seq<InputParameter>)
    ensures |r| <= |schema|
  {
    if schema == [] then []
    else Inputs(schema[..|schema| - 1], values) + InputStep(schema[|schema| - 1], values)
  }

  /** `credentialsMap` after the `forEach` over `schema`, starting from `c`. */
  function CredentialsOnto(c: CredentialsMap, schema: seq<FieldSchema.Field>, values: map<string, string>): CredentialsMap
  {
    if schema == [] then c
    else CredentialStep(CredentialsOnto(c, schema[..|schema| - 1], values), schema[|schema| - 1], values)
  }

  function Credentials(schema: seq<FieldSchema.Field>, values: map<string, string>): CredentialsMap
  {
    CredentialsOnto([], schema, values)
  }

  /** The workflow branch of `execute`: the body it sends, or the error it throws. */
  function BuildWorkflowBody(workflowId: string, config: WorkflowConfig): (r: Result<RunBody, BuildError>)
    ensures r == Err(NoWorkflowSelected) <==> config.value.None?
    ensures r.Err? && r.error.MissingFields? ==> r.error.names != []
    ensures r.Ok? ==> r.value.WorkflowBody? && r.value.workflowId == workflowId
  {
    match config.value
    case None => Err(NoWorkflowSelected)
    case Some(values) =>
      var missing := Missing(config.schema, values);
      if |missing| > 0 then Err(MissingFields(missing))
      else Ok(WorkflowBody(workflowId, Inputs(config.schema, values), Flatten(Credentials(config.schema, values))))
  }

  /** One call of the `forEach` callback: a blank value is reported missing; a
      filled one goes to the credentials map and to the input list as its id's
      prefixes say. */
  method RouteEntry(item: FieldSchema.Field, values: map<string, string>, missing: seq<string>,
                    inputs: seq<InputParameter>, credentials: CredentialsMap)
    returns (missing': seq<string>, inputs': seq<InputParameter>, credentials': CredentialsMap)
    ensures missing' == missing + MissingStep(item, values)
    ensures inputs' == inputs + InputStep(item, values)
    ensures credentials' == CredentialStep(credentials, item, values)
  {
    missing', inputs', credentials' := missing, inputs, credentials;
    if item.id in values && Text.Trim(values[item.id]) != [] {
      var value := Text.Trim(values[item.id]);
      if Text.StartsWith(item.id, FieldSchema.ACCOUNT_PREFIX) {
        var key := Text.RemovePrefix(item.id, FieldSchema.ACCOUNT_PREFIX);
        credentials' := Put(credentials', key, Account, value);
      }
      if Text.StartsWith(item.id, FieldSchema.PASSWORD_PREFIX) {
        var key := Text.RemovePrefix(item.id, FieldSchema.PASSWORD_PREFIX);
        credentials' := Put(credentials', key, Password, value);
      }
      if Text.StartsWith(item.id, FieldSchema.INPUT_PREFIX) {
        inputs' := inputs' + [InputParameter(Text.RemovePrefix(item.id, FieldSchema.INPUT_PREFIX), value)];
      }
    } else {
      missing' := missing' + [item.displayName];
    }
  }

  /** The three folds over one more entry. */
  lemma FoldsSnoc(schema: seq<FieldSchema.Field>, i: nat, values: map<string, string>)
    requires i < |schema|
    ensures Missing(schema[..i + 1], values) == Missing(schema[..i], values) + MissingStep(schema[i], values)
    ensures Inputs(schema[..i + 1], values) == Inputs(schema[..i], values) + InputStep(schema[i], values)
    ensures Credentials(schema[..i + 1], values) == CredentialStep(Credentials(schema[..i], values), schema[i], values)
  {
    assert schema[..i + 1][..i] == schema[..i];
  }

  /** The workflow branch as the node runs it: a loop over the schema that pushes
      to the missing list and the input list and updates the credentials map. */
  method BuildWorkflowPayload(workflowId: string, config: WorkflowConfig)
    returns (result: Result<RunBody, BuildError>)
    ensures result == BuildWorkflowBody(workflowId, config)
  {
    if config.value.None? {
      return Err(NoWorkflowSelected);
    }
    var values := config.value.value;
    var missingFields: seq<string> := [];
    var inputParameters: seq<InputParameter> := [];
    var credentialsMap: CredentialsMap := [];
    var i := 0;
    while i < |config.schema|
      invariant 0 <= i <= |config.schema|
      invariant missingFields == Missing(config.schema[..i], values)
      invariant inputParameters == Inputs(config.schema[..i], values)
      invariant credentialsMap == Credentials(config.schema[..i], values)
    {
      FoldsSnoc(config.schema, i, values);
      missingFields, inputParameters, credentialsMap :=
        RouteEntry(config.schema[i], values, missingFields, inputParameters, credentialsMap);
      i := i + 1;
    }
    assert config.schema[..i] == config.schema;
    if |missingFields| > 0 {
      return Err(MissingFields(missingFields));
    }
    return Ok(WorkflowBody(workflowId, inputParameters, Flatten(credentialsMap)));
  }

  // ---------------------------------------------------------------------------
  // What the builder promises

  /** The missing-fields message names every missing field. */
  lemma {:induction false} MissingMessageNamesEach(names: seq<string>, k: nat)
    requires k < |names|
    ensures Text.Occurs(names[k], Message(MissingFields(names)))
  {
    var joined := Text.Join(names, ", ");
    var m := Message(MissingFields(names));
    Text.JoinContainsEach(names, ", ", k);
    var o :| Text.OccursAt(names[k], joined, o);
    var off := |MISSING_FIELDS_MESSAGE|;
    assert m[off + o..off + o + |names[k]|] == joined[o..o + |names[k]|];
    assert Text.OccursAt(names[k], m, off + o);
  }

  /** The ids of the schema entries, in order. */
  function Ids(schema: seq<FieldSchema.Field>): seq<string>
  {
    seq(|schema|, k requires 0 <= k < |schema| => schema[k].id)
  }

  /** Some entry of the schema has id `id`, and its value is filled in. */
  predicate Present(schema: seq<FieldSchema.Field>, values: map<string, string>, id: string)
  {
    id in Ids(schema) && Filled(values, id)
  }

  /** The trimmed value of field `id` if the schema has it filled in. */
  function SecretValue(schema: seq<FieldSchema.Field>, values: map<string, string>, id: string): Option<string>
  {
    if Present(schema, values, id) then Some(Text.Trim(values[id])) else None
  }

  lemma PresentStep(schema: seq<FieldSchema.Field>, values: map<string, string>, id: string)
    requires schema != []
    ensures Present(schema, values, id) <==>
      Present(schema[..|schema| - 1], values, id) || (id == schema[|schema| - 1].id && Filled(values, id))
  {
    assert Ids(schema) == Ids(schema[..|schema| - 1]) + [schema[|schema| - 1].id];
  }

  /** An id carries at most one of the three prefixes. */
  lemma PrefixesExclusive(id: string)
    ensures !(Text.StartsWith(id, FieldSchema.ACCOUNT_PREFIX) && Text.StartsWith(id, FieldSchema.PASSWORD_PREFIX))
    ensures !(Text.StartsWith(id, FieldSchema.ACCOUNT_PREFIX) && Text.StartsWith(id, FieldSchema.INPUT_PREFIX))
    ensures !(Text.StartsWith(id, FieldSchema.PASSWORD_PREFIX) && Text.StartsWith(id, FieldSchema.INPUT_PREFIX))
  {
    if Text.StartsWith(id, FieldSchema.ACCOUNT_PREFIX) { assert id[0] == id[..8][0] == 'a'; }
    if Text.StartsWith(id, FieldSchema.PASSWORD_PREFIX) { assert id[0] == id[..9][0] == 'p'; }
  }

  /** Some blank field of the schema has display name `n`. */
  ghost predicate BlankNamed(schema: seq<FieldSchema.Field>, values: map<string, string>, n: string)
  {
    exists k :: 0 <= k < |schema| && !Filled(values, schema[k].id) && schema[k].displayName == n
  }

  lemma {:induction false} MissingReportsBlanks(schema: seq<FieldSchema.Field>, values: map<string, string>)
    ensures forall k :: 0 <= k < |schema| && !Filled(values, schema[k].id) ==>
      schema[k].displayName in Missing(schema, values)
  {
    if schema != [] {
      var s' := schema[..|schema| - 1];
      MissingReportsBlanks(s', values);
      forall k | 0 <= k < |schema| && !Filled(values, schema[k].id)
        ensures schema[k].displayName in Missing(schema, values)
      {
        if k < |s'| { assert schema[k] == s'[k]; }
      }
    }
  }

  lemma {:induction false} MissingOnlyBlanks(schema: seq<FieldSchema.Field>, values: map<string, string>)
    ensures forall n :: n in Missing(schema, values) ==> BlankNamed(schema, values, n)
  {
    if schema != [] {
      var s' := schema[..|schema| - 1];
      MissingOnlyBlanks(s', values);
      forall n | n in Missing(schema, values) ensures BlankNamed(schema, values, n) {
        if n in Missing(s', values) {
          assert BlankNamed(s', values, n);
          var k :| 0 <= k < |s'| && !Filled(values, s'[k].id) && s'[k].displayName == n;
          assert schema[k] == s'[k];
        } else {
          var k := |schema| - 1;
          assert !Filled(values, schema[k].id) && schema[k].displayName == n;
        }
      }
    }
  }

  /** Batch validation: every field left blank is reported, by display name,
      and only such fields are. */
  lemma MissingComplete(schema: seq<FieldSchema.Field>, values: map<string, string>)
    ensures var m := Missing(schema, values);
      (forall k :: 0 <= k < |schema| && !Filled(values, schema[k].id) ==> schema[k].displayName in m)
      && (forall n :: n in m ==> BlankNamed(schema, values, n))
  {
    MissingReportsBlanks(schema, values);
    MissingOnlyBlanks(schema, values);
  }

  /** The builder fails exactly when the workflow is not selected or some field
      is blank; in the latter case the error lists every blank field. */
  lemma BuildFailsOnBlank(workflowId: string, config: WorkflowConfig)
    ensures config.value.None? ==> BuildWorkflowBody(workflowId, config) == Err(NoWorkflowSelected)
    ensures config.value.Some? ==>
      (BuildWorkflowBody(workflowId, config).Err? <==>
         exists k :: 0 <= k < |config.schema| && !Filled(config.value.value, config.schema[k].id))
    ensures config.value.Some? && BuildWorkflowBody(workflowId, config).Err? ==>
      var e := BuildWorkflowBody(workflowId, config).error;
      e.MissingFields? && forall k :: 0 <= k < |config.schema| && !Filled(config.value.value, config.schema[k].id) ==>
        config.schema[k].displayName in e.names
  {
    if config.value.Some? {
      var m := Missing(config.schema, config.value.value);
      var values := config.value.value;
      MissingComplete(config.schema, values);
      if |m| > 0 {
        assert m[0] in m;
        assert BlankNamed(config.schema, values, m[0]);
      }
    }
  }

  lemma {:induction false} InputsComplete(schema: seq<FieldSchema.Field>, values: map<string, string>)
    ensures forall k :: 0 <= k < |schema| && RoutesInput(schema[k], values) ==>
      RoutedInput(schema[k], values) in Inputs(schema, values)
  {
    forall k | 0 <= k < |schema| && RoutesInput(schema[k], values)
      ensures RoutedInput(schema[k], values) in Inputs(schema, values)
    {
      InputsHas(schema, values, k);
    }
  }

  lemma {:induction false} InputsHas(schema: seq<FieldSchema.Field>, values: map<string, string>, k: nat)
    requires k < |schema| && RoutesInput(schema[k], values)
    ensures RoutedInput(schema[k], values) in Inputs(schema, values)
    decreases |schema|, 1
  {
    if k < |schema| - 1 {
      HasEarlier(schema, values, k);
    } else {
      HasLast(schema, values);
    }
  }

  lemma {:induction false} HasLast(schema: seq<FieldSchema.Field>, values: map<string, string>)
    requires schema != [] && RoutesInput(schema[|schema| - 1], values)
    ensures RoutedInput(schema[|schema| - 1], values) in Inputs(schema, values)
  {
    InputsSnocStep(schema, values);
    InputStepRouted(schema[|schema| - 1], values);
  }

  lemma {:induction false} HasEarlier(schema: seq<FieldSchema.Field>, values: map<string, string>, k: nat)
    requires k < |schema| - 1 && RoutesInput(schema[k], values)
    ensures RoutedInput(schema[k], values) in Inputs(schema, values)
    decreases |schema|, 0
  {
    var s' := schema[..|schema| - 1];
    assert schema[k] == s'[k];
    InputsHas(s', values, k);
    InputsSnocStep(schema, values);
    InMore(RoutedInput(s'[k], values), Inputs(s', values), InputStep(schema[|schema| - 1], values));
  }

  lemma InputsSnocStep(schema: seq<FieldSchema.Field>, values: map<string, string>)
    requires schema != []
    ensures Inputs(schema, values) == Inputs(schema[..|schema| - 1], values) + InputStep(schema[|schema| - 1], values)
  {
  }

  lemma InMore<T>(x: T, a: seq<T>, b: seq<T>)
    requires x in a
    ensures x in a + b
  {
  }

  lemma InputStepRouted(f: FieldSchema.Field, values: map<string, string>)
    requires RoutesInput(f, values)
    ensures RoutedInput(f, values) in InputStep(f, values)
  {
  }

  lemma {:induction false} InputsSound(schema: seq<FieldSchema.Field>, values: map<string, string>)
    ensures forall x :: x in Inputs(schema, values) ==>
      Present(schema, values, FieldSchema.INPUT_PREFIX + x.name)
      && x.value == Text.Trim(values[FieldSchema.INPUT_PREFIX + x.name])
  {
    if schema != [] {
      var s', f := schema[..|schema| - 1], schema[|schema| - 1];
      InputsSound(s', values);
      forall x | x in Inputs(schema, values)
        ensures Present(schema, values, FieldSchema.INPUT_PREFIX + x.name)
        ensures x.value == Text.Trim(values[FieldSchema.INPUT_PREFIX + x.name])
      {
        PresentStep(schema, values, FieldSchema.INPUT_PREFIX + x.name);
        if x !in Inputs(s', values) {
          assert x in InputStep(f, values);
          Text.PrefixRoundTrip(FieldSchema.INPUT_PREFIX, x.name, f.id);
        }
      }
    }
  }

  /** Every filled `input-<name>` field becomes the parameter `{name, value}`
      with the trimmed value, and every parameter comes from such a field. */
  lemma RouteInputs(schema: seq<FieldSchema.Field>, values: map<string, string>)
    ensures var ins := Inputs(schema, values);
      (forall k :: 0 <= k < |schema| && RoutesInput(schema[k], values) ==> RoutedInput(schema[k], values) in ins)
      && (forall x :: x in ins ==>
           Present(schema, values, FieldSchema.INPUT_PREFIX + x.name)
           && x.value == Text.Trim(values[FieldSchema.INPUT_PREFIX + x.name]))
  {
    InputsComplete(schema, values);
    InputsSound(schema, values);
  }

  /** An entry that is blank or has neither credential prefix leaves the map alone. */
  lemma CredentialStepOther(c: CredentialsMap, f: FieldSchema.Field, values: map<string, string>)
    requires !Filled(values, f.id)
      || (!Text.StartsWith(f.id, FieldSchema.ACCOUNT_PREFIX) && !Text.StartsWith(f.id, FieldSchema.PASSWORD_PREFIX))
    ensures CredentialStep(c, f, values) == c
  {
  }

  /** A filled `account-<p>` entry sets the account of `p` and nothing else. */
  lemma CredentialStepAccount(c: CredentialsMap, f: FieldSchema.Field, values: map<string, string>)
    requires Filled(values, f.id) && Text.StartsWith(f.id, FieldSchema.ACCOUNT_PREFIX)
    ensures CredentialStep(c, f, values)
      == Put(c, Text.RemovePrefix(f.id, FieldSchema.ACCOUNT_PREFIX), Account, Text.Trim(values[f.id]))
  {
    PrefixesExclusive(f.id);
  }

  /** A filled `password-<p>` entry sets the password of `p` and nothing else. */
  lemma CredentialStepPassword(c: CredentialsMap, f: FieldSchema.Field, values: map<string, string>)
    requires Filled(values, f.id) && Text.StartsWith(f.id, FieldSchema.PASSWORD_PREFIX)
    ensures CredentialStep(c, f, values)
      == Put(c, Text.RemovePrefix(f.id, FieldSchema.PASSWORD_PREFIX), Password, Text.Trim(values[f.id]))
  {
    PrefixesExclusive(f.id);
  }

  /** What the credentials map `c` holds for platform `q`, given the schema read so far. */
  ghost predicate SlotFor(c: CredentialsMap, schema: seq<FieldSchema.Field>, values: map<string, string>, q: string)
  {
    (q in Keys(c) <==>
       Present(schema, values, FieldSchema.ACCOUNT_PREFIX + q) || Present(schema, values, FieldSchema.PASSWORD_PREFIX + q))
    && (q in Keys(c) ==>
       Get(c, q).value == Slot(SecretValue(schema, values, FieldSchema.ACCOUNT_PREFIX + q),
                               SecretValue(schema, values, FieldSchema.PASSWORD_PREFIX + q)))
  }

  lemma PresentSnoc(s: seq<FieldSchema.Field>, f: FieldSchema.Field, values: map<string, string>, id: string)
    ensures Present(s + [f], values, id) <==> Present(s, values, id) || (id == f.id && Filled(values, id))
  {
    assert (s + [f])[..|s|] == s;
    PresentStep(s + [f], values, id);
  }

  /** A field that routes nothing leaves what is known about `q` as it was. */
  lemma SlotOther(c: CredentialsMap, s: seq<FieldSchema.Field>, f: FieldSchema.Field, values: map<string, string>, q: string)
    requires SlotFor(c, s, values, q)
    requires !Filled(values, f.id)
      || (!Text.StartsWith(f.id, FieldSchema.ACCOUNT_PREFIX) && !Text.StartsWith(f.id, FieldSchema.PASSWORD_PREFIX))
    ensures SlotFor(c, s + [f], values, q)
  {
    var AP, PP := FieldSchema.ACCOUNT_PREFIX, FieldSchema.PASSWORD_PREFIX;
    PresentSnoc(s, f, values, AP + q);
    PresentSnoc(s, f, values, PP + q);
    Text.PrefixRoundTrip(AP, q, AP + q);
    Text.PrefixRoundTrip(PP, q, PP + q);
  }

  /** A filled credential field for platform `key` sets the `which` value of
      `key` to its trimmed value; what is known about `q` follows. */
  lemma SlotPut(c: CredentialsMap, s: seq<FieldSchema.Field>, f: FieldSchema.Field, values: map<string, string>,
                q: string, prefix: string, other: string, which: Secret)
    requires (prefix, other, which) in {(FieldSchema.ACCOUNT_PREFIX, FieldSchema.PASSWORD_PREFIX, Account),
                                        (FieldSchema.PASSWORD_PREFIX, FieldSchema.ACCOUNT_PREFIX, Password)}
    requires SlotFor(c, s, values, q)
    requires Filled(values, f.id) && Text.StartsWith(f.id, prefix)
    ensures SlotFor(Put(c, Text.RemovePrefix(f.id, prefix), which, Text.Trim(values[f.id])), s + [f], values, q)
  {
    var key := Text.RemovePrefix(f.id, prefix);
    var r := Put(c, key, which, Text.Trim(values[f.id]));
    PrefixesExclusive(f.id);
    PresentSnoc(s, f, values, prefix + q);
    PresentSnoc(s, f, values, other + q);
    Text.PrefixRoundTrip(prefix, q, prefix + q);
    Text.PrefixRoundTrip(other, q, other + q);
    Text.PrefixRoundTrip(prefix, key, f.id);
    PutKeys(c, key, which, Text.Trim(values[f.id]));
    PutGet(c, key, which, Text.Trim(values[f.id]), q);
    if key == q {
      SlotPutSame(c, s, f, values, q, prefix, other, which);
    } else {
      assert q in Keys(r) <==> q in Keys(c);
    }
  }

  lemma SlotPutSame(c: CredentialsMap, s: seq<FieldSchema.Field>, f: FieldSchema.Field, values: map<string, string>,
                    q: string, prefix: string, other: string, which: Secret)
    requires (prefix, other, which) in {(FieldSchema.ACCOUNT_PREFIX, FieldSchema.PASSWORD_PREFIX, Account),
                                        (FieldSchema.PASSWORD_PREFIX, FieldSchema.ACCOUNT_PREFIX, Password)}
    requires SlotFor(c, s, values, q)
    requires Filled(values, f.id) && f.id == prefix + q
    requires Present(s + [f], values, other + q) == Present(s, values, other + q)
    ensures SlotFor(Put(c, q, which, Text.Trim(values[f.id])), s + [f], values, q)
  {
    PutKeys(c, q, which, Text.Trim(values[f.id]));
    PutGet(c, q, which, Text.Trim(values[f.id]), q);
    PresentSnoc(s, f, values, prefix + q);
  }

  /** For one platform `q`: the credentials map has `q` exactly when a filled
      `account-q` or `password-q` field exists, and then holds their trimmed values. */
  lemma {:induction false} CredentialsAt(schema: seq<FieldSchema.Field>, values: map<string, string>, q: string)
    ensures SlotFor(Credentials(schema, values), schema, values, q)
  {
    var AP, PP := FieldSchema.ACCOUNT_PREFIX, FieldSchema.PASSWORD_PREFIX;
    if schema != [] {
      var s', f := schema[..|schema| - 1], schema[|schema| - 1];
      CredentialsAt(s', values, q);
      var c' := Credentials(s', values);
      assert schema == s' + [f];
      assert Credentials(schema, values) == CredentialStep(c', f, values);
      if Filled(values, f.id) && Text.StartsWith(f.id, AP) {
        CredentialStepAccount(c', f, values);
        SlotPut(c', s', f, values, q, AP, PP, Account);
      } else if Filled(values, f.id) && Text.StartsWith(f.id, PP) {
        CredentialStepPassword(c', f, values);
        SlotPut(c', s', f, values, q, PP, AP, Password);
      } else {
        CredentialStepOther(c', f, values);
        SlotOther(c', s', f, values, q);
      }
    }
  }

  /** No platform is entered twice in the credentials map. */
  lemma {:induction false} CredentialsDistinct(schema: seq<FieldSchema.Field>, values: map<string, string>)
    ensures NoDup(Keys(Credentials(schema, values)))
  {
    if schema != [] {
      var s', f := schema[..|schema| - 1], schema[|schema| - 1];
      CredentialsDistinct(s', values);
      var c' := Credentials(s', values);
      assert Credentials(schema, values) == CredentialStep(c', f, values);
      if Filled(values, f.id) && Text.StartsWith(f.id, FieldSchema.ACCOUNT_PREFIX) {
        CredentialStepAccount(c', f, values);
        PutDistinct(c', Text.RemovePrefix(f.id, FieldSchema.ACCOUNT_PREFIX), Account, Text.Trim(values[f.id]));
      } else if Filled(values, f.id) && Text.StartsWith(f.id, FieldSchema.PASSWORD_PREFIX) {
        CredentialStepPassword(c', f, values);
        PutDistinct(c', Text.RemovePrefix(f.id, FieldSchema.PASSWORD_PREFIX), Password, Text.Trim(values[f.id]));
      } else {
        CredentialStepOther(c', f, values);
      }
    }
  }

  /** The credentials of the workflow body: one record per platform that has a
      filled `account-` or `password-` field, no platform twice, each carrying
      that platform's trimmed account and password (absent when the schema has
      no filled field for it). */
  lemma BuildCredentials(schema: seq<FieldSchema.Field>, values: map<string, string>)
    ensures var cs := Flatten(Credentials(schema, values));
      NoDup(Platforms(cs))
      && (forall p :: p in Platforms(cs) <==>
            Present(schema, values, FieldSchema.ACCOUNT_PREFIX + p) || Present(schema, values, FieldSchema.PASSWORD_PREFIX + p))
      && (forall k :: 0 <= k < |cs| ==>
            cs[k].account == SecretValue(schema, values, FieldSchema.ACCOUNT_PREFIX + cs[k].platform)
            && cs[k].password == SecretValue(schema, values, FieldSchema.PASSWORD_PREFIX + cs[k].platform))
  {
    var c := Credentials(schema, values);
    var cs := Flatten(c);
    assert Platforms(cs) == Keys(c);
    CredentialsDistinct(schema, values);
    forall p
      ensures p in Platforms(cs) <==>
        Present(schema, values, FieldSchema.ACCOUNT_PREFIX + p) || Present(schema, values, FieldSchema.PASSWORD_PREFIX + p)
    {
      CredentialsAt(schema, values, p);
    }
    forall k | 0 <= k < |cs|
      ensures cs[k].account == SecretValue(schema, values, FieldSchema.ACCOUNT_PREFIX + cs[k].platform)
      ensures cs[k].password == SecretValue(schema, values, FieldSchema.PASSWORD_PREFIX + cs[k].platform)
    {
      GetAt(c, k);
      CredentialsAt(schema, values, c[k].0);
    }
  }

  // ---------------------------------------------------------------------------
  // Round trip with the field schema of `getWorkflowInputs`

  lemma {:induction false} InputsAppend(a: seq<FieldSchema.Field>, b: seq<FieldSchema.Field>, values: map<string, string>)
    ensures Inputs(a + b, values) == Inputs(a, values) + Inputs(b, values)
    decreases |b|
  {
    if b == [] {
      assert a + b == a;
    } else {
      assert (a + b)[..|a + b| - 1] == a + b[..|b| - 1];
      InputsAppend(a, b[..|b| - 1], values);
    }
  }

  lemma {:induction false} CredentialsOntoAppend(c: CredentialsMap, a: seq<FieldSchema.Field>, b: seq<FieldSchema.Field>, values: map<string, string>)
    ensures CredentialsOnto(c, a + b, values) == CredentialsOnto(CredentialsOnto(c, a, values), b, values)
    decreases |b|
  {
    if b == [] {
      assert a + b == a;
    } else {
      assert (a + b)[..|a + b| - 1] == a + b[..|b| - 1];
      CredentialsOntoAppend(c, a, b[..|b| - 1], values);
    }
  }

  /** Entries without the `input-` prefix add no input parameter. */
  lemma {:induction false} InputsNone(schema: seq<FieldSchema.Field>, values: map<string, string>)
    requires forall k :: 0 <= k < |schema| ==> !Text.StartsWith(schema[k].id, FieldSchema.INPUT_PREFIX)
    ensures Inputs(schema, values) == []
  {
    if schema != [] {
      InputsNone(schema[..|schema| - 1], values);
    }
  }

  /** Entries without a credential prefix leave the credentials map alone. */
  lemma {:induction false} CredentialsNone(c: CredentialsMap, schema: seq<FieldSchema.Field>, values: map<string, string>)
    requires forall k :: 0 <= k < |schema| ==>
      !Text.StartsWith(schema[k].id, FieldSchema.ACCOUNT_PREFIX) && !Text.StartsWith(schema[k].id, FieldSchema.PASSWORD_PREFIX)
    ensures CredentialsOnto(c, schema, values) == c
  {
    if schema != [] {
      CredentialsNone(c, schema[..|schema| - 1], values);
      CredentialStepOther(CredentialsOnto(c, schema[..|schema| - 1], values), schema[|schema| - 1], values);
    }
  }

  /** The trimmed value of field `id`, empty when there is none. */
  function TrimmedValue(values: map<string, string>, id: string): string
  {
    if id in values then Text.Trim(values[id]) else []
  }

  /** The parameters expected from filled input fields for `names`. */
  ghost function Params(names: seq<string>, values: map<string, string>): seq<InputParameter>
  {
    seq(|names|, k requires 0 <= k < |names| =>
      InputParameter(names[k], TrimmedValue(values, FieldSchema.INPUT_PREFIX + names[k])))
  }

  /** A filled input field for `name` adds exactly the parameter for `name`. */
  lemma InputStepOfInputField(name: string, values: map<string, string>)
    requires Filled(values, FieldSchema.INPUT_PREFIX + name)
    ensures InputStep(FieldSchema.InputField(name), values)
      == [InputParameter(name, TrimmedValue(values, FieldSchema.INPUT_PREFIX + name))]
  {
    Text.PrefixRoundTrip(FieldSchema.INPUT_PREFIX, name, FieldSchema.INPUT_PREFIX + name);
  }

  lemma InputsSnoc(schema: seq<FieldSchema.Field>, f: FieldSchema.Field, values: map<string, string>)
    ensures Inputs(schema + [f], values) == Inputs(schema, values) + InputStep(f, values)
  {
    assert (schema + [f])[..|schema|] == schema;
  }

  lemma ParamsSnoc(names: seq<string>, name: string, values: map<string, string>)
    ensures Params(names + [name], values)
      == Params(names, values) + [InputParameter(name, TrimmedValue(values, FieldSchema.INPUT_PREFIX + name))]
  {
  }

  lemma InputFieldsSnoc(names: seq<string>, name: string)
    ensures FieldSchema.InputFields(names + [name]) == FieldSchema.InputFields(names) + [FieldSchema.InputField(name)]
  {
  }

  lemma {:induction false} InputsOfInputFields(names: seq<string>, values: map<string, string>)
    requires forall n :: n in names ==> Filled(values, FieldSchema.INPUT_PREFIX + n)
    ensures Inputs(FieldSchema.InputFields(names), values) == Params(names, values)
  {
    if names != [] {
      var names', last := names[..|names| - 1], names[|names| - 1];
      assert names == names' + [last];
      assert last in names;
      InputsOfInputFields(names', values);
      InputFieldsSnoc(names', last);
      InputsSnoc(FieldSchema.InputFields(names'), FieldSchema.InputField(last), values);
      InputStepOfInputField(last, values);
      ParamsSnoc(names', last, values);
    }
  }

  /** The credentials map expected from filled pairs for `platforms`: the
      platforms in reverse order, each with both values. */
  ghost function Expected(platforms: seq<string>, values: map<string, string>): CredentialsMap
  {
    seq(|platforms|, k requires 0 <= k < |platforms| =>
      var p := platforms[|platforms| - 1 - k];
      (p, FilledSlot(values, p)))
  }

  lemma NoDupTail<T>(xs: seq<T>)
    requires xs != [] && NoDup(xs)
    ensures NoDup(xs[1..])
  {
    forall i, j | 0 <= i < j < |xs[1..]| ensures xs[1..][i] != xs[1..][j] {
      assert xs[1..][i] == xs[i + 1] && xs[1..][j] == xs[j + 1];
    }
  }

  /** The slot a filled pair for `p` produces. */
  function FilledSlot(values: map<string, string>, p: string): Slot
  {
    Slot(Some(TrimmedValue(values, FieldSchema.ACCOUNT_PREFIX + p)), Some(TrimmedValue(values, FieldSchema.PASSWORD_PREFIX + p)))
  }

  lemma ExpectedSplit(platforms: seq<string>, values: map<string, string>)
    requires platforms != []
    ensures Expected(platforms, values)
      == Expected(platforms[1..], values) + [(platforms[0], FilledSlot(values, platforms[0]))]
  {
    var a := Expected(platforms, values);
    var b := Expected(platforms[1..], values) + [(platforms[0], FilledSlot(values, platforms[0]))];
    assert |a| == |b|;
    forall k | 0 <= k < |a| ensures a[k] == b[k] {
      if k < |platforms| - 1 {
        assert platforms[1..][|platforms| - 2 - k] == platforms[|platforms| - 1 - k];
      }
    }
  }

  lemma KeysOfExpected(platforms: seq<string>, values: map<string, string>, k: nat)
    requires k < |Expected(platforms, values)|
    ensures Expected(platforms, values)[k].0 == platforms[|platforms| - 1 - k]
  {
  }

  /** The first platform is not yet a key once the others are entered. */
  lemma FreshPlatform(c0: CredentialsMap, platforms: seq<string>, values: map<string, string>)
    requires platforms != [] && NoDup(platforms)
    requires platforms[0] !in Keys(c0)
    ensures platforms[0] !in Keys(c0 + Expected(platforms[1..], values))
  {
    var p, rest := platforms[0], platforms[1..];
    var m := c0 + Expected(rest, values);
    forall i | 0 <= i < |m| ensures m[i].0 != p {
      if i >= |c0| {
        KeysOfExpected(rest, values, i - |c0|);
        var j := |rest| - 1 - (i - |c0|);
        assert m[i].0 == rest[j] == platforms[j + 1];
      } else {
        assert m[i] == c0[i];
        assert c0[i].0 == Keys(c0)[i];
      }
    }
  }

  lemma CredentialsOntoPair(m: CredentialsMap, a: FieldSchema.Field, b: FieldSchema.Field, values: map<string, string>)
    ensures CredentialsOnto(m, [a, b], values) == CredentialStep(CredentialStep(m, a, values), b, values)
  {
    assert [a, b][..1] == [a];
    assert [a][..0] == [];
    assert CredentialsOnto(m, [a], values) == CredentialStep(CredentialsOnto(m, [], values), a, values);
  }

  /** A filled `password-<p>` entry for a new platform appends it with only a password. */
  lemma PasswordStepNew(m: CredentialsMap, p: string, values: map<string, string>)
    requires p !in Keys(m) && Filled(values, FieldSchema.PASSWORD_PREFIX + p)
    ensures CredentialStep(m, FieldSchema.PasswordField(p), values)
      == m + [(p, Slot(None, Some(TrimmedValue(values, FieldSchema.PASSWORD_PREFIX + p))))]
  {
    var pw := FieldSchema.PasswordField(p);
    Text.PrefixRoundTrip(FieldSchema.PASSWORD_PREFIX, p, pw.id);
    CredentialStepPassword(m, pw, values);
    PutNew(m, p, Password, TrimmedValue(values, pw.id));
  }

  /** A filled `account-<p>` entry for the platform entered last sets its account. */
  lemma AccountStepLast(m: CredentialsMap, p: string, s: Slot, values: map<string, string>)
    requires p !in Keys(m) && Filled(values, FieldSchema.ACCOUNT_PREFIX + p)
    ensures CredentialStep(m + [(p, s)], FieldSchema.AccountField(p), values)
      == m + [(p, s.(account := Some(TrimmedValue(values, FieldSchema.ACCOUNT_PREFIX + p))))]
  {
    var ac := FieldSchema.AccountField(p);
    Text.PrefixRoundTrip(FieldSchema.ACCOUNT_PREFIX, p, ac.id);
    CredentialStepAccount(m + [(p, s)], ac, values);
    PutLast(m, p, s, Account, TrimmedValue(values, ac.id));
  }

  /** A filled pair for a new platform appends that platform's slot. */
  lemma PairStep(m: CredentialsMap, p: string, values: map<string, string>)
    requires p !in Keys(m)
    requires Filled(values, FieldSchema.ACCOUNT_PREFIX + p) && Filled(values, FieldSchema.PASSWORD_PREFIX + p)
    ensures CredentialsOnto(m, [FieldSchema.PasswordField(p), FieldSchema.AccountField(p)], values)
      == m + [(p, FilledSlot(values, p))]
  {
    CredentialsOntoPair(m, FieldSchema.PasswordField(p), FieldSchema.AccountField(p), values);
    PasswordStepNew(m, p, values);
    AccountStepLast(m, p, Slot(None, Some(TrimmedValue(values, FieldSchema.PASSWORD_PREFIX + p))), values);
  }

  /** One more platform in front of the declared list adds its pair at the end. */
  lemma PairsStep(c0: CredentialsMap, platforms: seq<string>, values: map<string, string>)
    requires platforms != [] && NoDup(platforms) && platforms[0] !in Keys(c0)
    requires Filled(values, FieldSchema.ACCOUNT_PREFIX + platforms[0]) && Filled(values, FieldSchema.PASSWORD_PREFIX + platforms[0])
    requires CredentialsOnto(c0, FieldSchema.CredentialFields([], platforms[1..]), values) == c0 + Expected(platforms[1..], values)
    ensures CredentialsOnto(c0, FieldSchema.CredentialFields([], platforms), values) == c0 + Expected(platforms, values)
  {
    var p, rest := platforms[0], platforms[1..];
    var xs := FieldSchema.CredentialFields([], rest);
    var pair := [FieldSchema.PasswordField(p), FieldSchema.AccountField(p)];
    var m := c0 + Expected(rest, values);
    var e := (p, FilledSlot(values, p));
    FieldSchema.CredentialFieldsSplit(platforms);
    CredentialsOntoAppend(c0, xs, pair, values);
    assert CredentialsOnto(c0, FieldSchema.CredentialFields([], platforms), values) == CredentialsOnto(m, pair, values);
    FreshPlatform(c0, platforms, values);
    PairStep(m, p, values);
    ExpectedSplit(platforms, values);
    AppendAssoc(c0, Expected(rest, values), [e]);
  }

  lemma AppendAssoc<T>(a: seq<T>, b: seq<T>, c: seq<T>)
    ensures (a + b) + c == a + (b + c)
  {
  }

  /** Filled pairs for distinct platforms, entered after `c0`, give `c0`
      followed by the expected slots. */
  lemma {:induction false} CredentialsOfPairs(c0: CredentialsMap, platforms: seq<string>, values: map<string, string>)
    requires NoDup(platforms)
    requires forall p :: p in platforms ==> Filled(values, FieldSchema.ACCOUNT_PREFIX + p) && Filled(values, FieldSchema.PASSWORD_PREFIX + p)
    requires forall p :: p in platforms ==> p !in Keys(c0)
    ensures CredentialsOnto(c0, FieldSchema.CredentialFields([], platforms), values) == c0 + Expected(platforms, values)
    decreases |platforms|
  {
    if platforms == [] {
      assert c0 + Expected(platforms, values) == c0;
    } else {
      var rest := platforms[1..];
      NoDupTail(platforms);
      assert forall q :: q in rest ==> q in platforms;
      CredentialsOfPairs(c0, rest, values);
      assert platforms[0] in platforms;
      PairsStep(c0, platforms, values);
    }
  }

  /** An input field's id carries no credential prefix. */
  lemma InputFieldPrefixes(names: seq<string>)
    ensures forall k :: 0 <= k < |names| ==>
      !Text.StartsWith(FieldSchema.InputFields(names)[k].id, FieldSchema.ACCOUNT_PREFIX)
      && !Text.StartsWith(FieldSchema.InputFields(names)[k].id, FieldSchema.PASSWORD_PREFIX)
  {
    forall k | 0 <= k < |names|
      ensures !Text.StartsWith(FieldSchema.InputFields(names)[k].id, FieldSchema.ACCOUNT_PREFIX)
      ensures !Text.StartsWith(FieldSchema.InputFields(names)[k].id, FieldSchema.PASSWORD_PREFIX)
    {
      var id := FieldSchema.InputFields(names)[k].id;
      Text.PrefixRoundTrip(FieldSchema.INPUT_PREFIX, names[k], id);
      PrefixesExclusive(id);
    }
  }

  /** A credential field's id carries no `input-` prefix. */
  lemma CredentialFieldPrefixes(platforms: seq<string>)
    ensures forall k :: 0 <= k < |FieldSchema.CredentialFields([], platforms)| ==>
      !Text.StartsWith(FieldSchema.CredentialFields([], platforms)[k].id, FieldSchema.INPUT_PREFIX)
  {
    var cs := FieldSchema.CredentialFields([], platforms);
    FieldSchema.CredentialFieldsReversed([], platforms);
    forall k | 0 <= k < |cs|
      ensures !Text.StartsWith(cs[k].id, FieldSchema.INPUT_PREFIX)
    {
      var p := platforms[|platforms| - 1 - k / 2];
      assert cs[k] == FieldSchema.CredentialAt(platforms, k);
      Text.PrefixRoundTrip(FieldSchema.PASSWORD_PREFIX, p, cs[k].id);
      Text.PrefixRoundTrip(FieldSchema.ACCOUNT_PREFIX, p, cs[k].id);
      PrefixesExclusive(cs[k].id);
    }
  }

  /** A schema whose every field is filled reports nothing missing. */
  lemma {:induction false} NothingMissing(schema: seq<FieldSchema.Field>, values: map<string, string>)
    requires forall k :: 0 <= k < |schema| ==> Filled(values, schema[k].id)
    ensures Missing(schema, values) == []
  {
    if schema != [] {
      NothingMissing(schema[..|schema| - 1], values);
    }
  }

  /** Every generated field is filled in when every declared name and platform has its values. */
  lemma GeneratedFilled(names: seq<string>, platforms: seq<string>, values: map<string, string>)
    requires forall n :: n in names ==> Filled(values, FieldSchema.INPUT_PREFIX + n)
    requires forall p :: p in platforms ==> Filled(values, FieldSchema.ACCOUNT_PREFIX + p) && Filled(values, FieldSchema.PASSWORD_PREFIX + p)
    ensures var fs := FieldSchema.Fields(names, platforms);
      forall k :: 0 <= k < |fs| ==> Filled(values, fs[k].id)
  {
    var fs := FieldSchema.Fields(names, platforms);
    FieldSchema.CredentialFieldsReversed([], platforms);
    forall k | 0 <= k < |fs| ensures Filled(values, fs[k].id) {
      if k < |names| {
        InputFieldFilled(names, platforms, values, k);
      } else {
        CredentialFilled(platforms, values, k - |names|);
        assert fs[k] == FieldSchema.CredentialAt(platforms, k - |names|);
      }
    }
  }

  lemma InputFieldFilled(names: seq<string>, platforms: seq<string>, values: map<string, string>, k: nat)
    requires k < |names| && Filled(values, FieldSchema.INPUT_PREFIX + names[k])
    ensures k < |FieldSchema.Fields(names, platforms)|
    ensures Filled(values, FieldSchema.Fields(names, platforms)[k].id)
  {
    assert FieldSchema.Fields(names, platforms)[k] == FieldSchema.InputField(names[k]);
  }

  lemma CredentialFilled(platforms: seq<string>, values: map<string, string>, i: nat)
    requires i < 2 * |platforms|
    requires forall p :: p in platforms ==> Filled(values, FieldSchema.ACCOUNT_PREFIX + p) && Filled(values, FieldSchema.PASSWORD_PREFIX + p)
    ensures Filled(values, FieldSchema.CredentialAt(platforms, i).id)
  {
    assert platforms[|platforms| - 1 - i / 2] in platforms;
  }

  /** No generated field is reported missing once every declared name and platform has its values. */
  lemma GeneratedNothingMissing(names: seq<string>, platforms: seq<string>, values: map<string, string>)
    requires forall n :: n in names ==> Filled(values, FieldSchema.INPUT_PREFIX + n)
    requires forall p :: p in platforms ==> Filled(values, FieldSchema.ACCOUNT_PREFIX + p) && Filled(values, FieldSchema.PASSWORD_PREFIX + p)
    ensures Missing(FieldSchema.Fields(names, platforms), values) == []
  {
    var fs := FieldSchema.Fields(names, platforms);
    GeneratedFilled(names, platforms, values);
    NothingMissing(fs, values);
  }

  /** The generated fields give one input parameter per declared name, in order. */
  lemma GeneratedInputs(names: seq<string>, platforms: seq<string>, values: map<string, string>)
    requires forall n :: n in names ==> Filled(values, FieldSchema.INPUT_PREFIX + n)
    ensures Inputs(FieldSchema.Fields(names, platforms), values) == Params(names, values)
  {
    var ins := FieldSchema.InputFields(names);
    var cs := FieldSchema.CredentialFields([], platforms);
    CredentialFieldPrefixes(platforms);
    InputsAppend(ins, cs, values);
    InputsOfInputFields(names, values);
    InputsNone(cs, values);
    assert Params(names, values) + [] == Params(names, values);
  }

  /** The generated fields give one credentials slot per declared platform, in reverse order. */
  lemma GeneratedCredentials(names: seq<string>, platforms: seq<string>, values: map<string, string>)
    requires forall p :: p in platforms ==> Filled(values, FieldSchema.ACCOUNT_PREFIX + p) && Filled(values, FieldSchema.PASSWORD_PREFIX + p)
    requires NoDup(platforms)
    ensures Credentials(FieldSchema.Fields(names, platforms), values) == Expected(platforms, values)
  {
    var ins := FieldSchema.InputFields(names);
    var cs := FieldSchema.CredentialFields([], platforms);
    InputFieldPrefixes(names);
    CredentialsOntoAppend([], ins, cs, values);
    CredentialsNone([], ins, values);
    CredentialsOfPairs([], platforms, values);
    assert [] + Expected(platforms, values) == Expected(platforms, values);
  }

  /** The fields `getWorkflowInputs` generates, once all filled in, give a
      workflow body whose input parameters are the declared names in declared
      order with their trimmed values, and whose credentials are the declared
      platforms, in reverse order, each with its trimmed account and password. */
  lemma GeneratedSchemaRoundTrip(workflowId: string, names: seq<string>, platforms: seq<string>, values: map<string, string>)
    requires forall n :: n in names ==> Filled(values, FieldSchema.INPUT_PREFIX + n)
    requires forall p :: p in platforms ==> Filled(values, FieldSchema.ACCOUNT_PREFIX + p) && Filled(values, FieldSchema.PASSWORD_PREFIX + p)
    requires NoDup(platforms)
    ensures BuildWorkflowBody(workflowId, WorkflowConfig(Some(values), FieldSchema.Fields(names, platforms)))
      == Ok(WorkflowBody(workflowId, Params(names, values), Flatten(Expected(platforms, values))))
  {
    GeneratedNothingMissing(names, platforms, values);
    GeneratedInputs(names, platforms, values);
    GeneratedCredentials(names, platforms, values);
  }
}
