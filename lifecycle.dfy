/** The run of `execute` (nodes/BrowserAct/BrowserAct.node.ts:260-404): for each
    input item, build the run-task body, start the task, and for the first
    task that gets an id poll its status until it ends or the budget runs out,
    stopping it in the latter case.

    The remote service is an oracle: `runReplies(i)` is the id in the reply to
    the run-task call of item `i`, and `getReplies(j)` is the body of the reply
    to the `j`-th get-task call. Every item makes one run-task call until one
    of them gets an id or fails, so the run-task call of item `i` is the `i`-th
    one; only one task is ever polled, so its get-task calls are numbered from 0.
    The calls made are returned as a trace. */
module Lifecycle {
  import opened Wrappers
  import Budget
  import Payload

  /** The `endpointType` of an item, `agent` or `workflow`: the path segment of its three calls. */
  datatype Endpoint = AgentEndpoint | WorkflowEndpoint

  /** One request to the service: `POST /<endpoint>/run-task`,
      `GET /<endpoint>/get-task?task_id=<id>` or `PUT /<endpoint>/stop-task?task_id=<id>`. */
  datatype Call =
    | RunTask(endpoint: Endpoint, body: Payload.RunBody)
    | GetTask(endpoint: Endpoint, taskId: string)
    | StopTask(endpoint: Endpoint, taskId: string)

  /** The body of a get-task reply: nothing (`null`), or an object whose
      `status` may be absent; `rest` stands for its other fields. */
  datatype TaskDetail = NoBody | Body(status: Option<string>, rest: string)

  /** The statuses after which a task no longer changes. */
  const TERMINAL_STATUSES: seq<string> := ["finished", "canceled", "paused", "failed"]

  predicate IsTerminal(d: TaskDetail)
  {
    d.Body? && d.status.Some? && d.status.value in TERMINAL_STATUSES
  }

  /** A reply that ends the poll loop: a terminal status, or no body at all,
      whose `status` cannot be read. */
  predicate Decisive(d: TaskDetail)
  {
    d.NoBody? || IsTerminal(d)
  }

  /** The first of the first `n` replies that ends the poll loop. */
  function FirstDecisive(replies: nat -> TaskDetail, n: nat): (r: Option<nat>)
    ensures r.None? <==> forall k :: 0 <= k < n ==> !Decisive(replies(k))
    ensures r.Some? ==>
      r.value < n && Decisive(replies(r.value)) && forall k :: 0 <= k < r.value ==> !Decisive(replies(k))
  {
    if n == 0 then None
    else
      match FirstDecisive(replies, n - 1)
      case Some(j) => Some(j)
      case None => if Decisive(replies(n - 1)) then Some(n - 1) else None
  }

  /** How the polling of a task ends: with the detail to report, or with the
      `TypeError` of reading `status` from a reply without a body. */
  datatype PollEnd = Found(detail: TaskDetail) | ReadFailure

  function Gets(ep: Endpoint, taskId: string, n: nat): (calls: seq<Call>)
  {
    seq(n, _ => GetTask(ep, taskId))
  }

  /** The number of loop rounds a limit allows: none when it is negative. */
  function Rounds(limit: int): nat
  {
    if limit < 0 then 0 else limit
  }

  /** The poll loop and its stop step, as a function of the budget and the replies. */
  function PollSpec(ep: Endpoint, taskId: string, limit: int, replies: nat -> TaskDetail): (r: (seq<Call>, PollEnd))
    ensures r.0 != [] && r.0[|r.0| - 1] == GetTask(ep, taskId)
  {
    var n := Rounds(limit);
    match FirstDecisive(replies, n)
    case Some(j) =>
      (Gets(ep, taskId, j + 1), if replies(j).NoBody? then ReadFailure else Found(replies(j)))
    case None =>
      (Gets(ep, taskId, n) + [StopTask(ep, taskId), GetTask(ep, taskId)], Found(replies(n)))
  }

  /** Polls task `taskId` at most `limit` times; when no terminal status came,
      stops the task and fetches its detail once more. */
  method Poll(ep: Endpoint, taskId: string, limit: int, replies: nat -> TaskDetail)
    returns (calls: seq<Call>, result: PollEnd)
    ensures (calls, result) == PollSpec(ep, taskId, limit, replies)
  {
    calls := [];
    var taskDetail := NoBody;
    var needStop := true;
    var j := 0;
    while j < limit
      invariant 0 <= j <= Rounds(limit)
      invariant calls == Gets(ep, taskId, j)
      invariant FirstDecisive(replies, j).None?
      invariant needStop
    {
      var detail := replies(j);
      calls := calls + [GetTask(ep, taskId)];
      assert calls == Gets(ep, taskId, j + 1);
      if detail.NoBody? {
        assert FirstDecisive(replies, j + 1) == Some(j);
        LaterBudget(replies, j, limit);
        return calls, ReadFailure;
      }
      if detail.status.Some? && detail.status.value in TERMINAL_STATUSES {
        taskDetail := detail;
        needStop := false;
        assert FirstDecisive(replies, j + 1) == Some(j);
        LaterBudget(replies, j, limit);
        break;
      }
      j := j + 1;
    }
    if needStop {
      calls := calls + [StopTask(ep, taskId)];
      taskDetail := replies(j);
      calls := calls + [GetTask(ep, taskId)];
      assert calls == Gets(ep, taskId, j) + [StopTask(ep, taskId), GetTask(ep, taskId)];
    }
    result := Found(taskDetail);
  }

  /** The first ending reply among the first `j + 1` stays the first among more. */
  lemma LaterBudget(replies: nat -> TaskDetail, j: nat, limit: int)
    requires j < limit
    requires FirstDecisive(replies, j + 1) == Some(j)
    ensures FirstDecisive(replies, Rounds(limit)) == Some(j)
  {
  }

  /** Kinds of calls, for counting them in a trace. */
  datatype Kind = Run | Get | Stop

  function KindOf(c: Call): Kind
  {
    match c
    case RunTask(_, _) => Run
    case GetTask(_, _) => Get
    case StopTask(_, _) => Stop
  }

  function Count(calls: seq<Call>, kind: Kind): (n: nat)
    ensures n <= |calls|
  {
    if calls == [] then 0
    else (if KindOf(calls[0]) == kind then 1 else 0) + Count(calls[1..], kind)
  }

  lemma {:induction false} CountAppend(a: seq<Call>, b: seq<Call>, kind: Kind)
    ensures Count(a + b, kind) == Count(a, kind) + Count(b, kind)
  {
    if a == [] {
      assert a + b == b;
    } else {
      assert (a + b)[0] == a[0];
      assert (a + b)[1..] == a[1..] + b;
      CountAppend(a[1..], b, kind);
    }
  }

  lemma {:induction false} CountGets(ep: Endpoint, taskId: string, n: nat)
    ensures Count(Gets(ep, taskId, n), Get) == n
    ensures Count(Gets(ep, taskId, n), Run) == 0 && Count(Gets(ep, taskId, n), Stop) == 0
  {
    if n > 0 {
      assert Gets(ep, taskId, n)[1..] == Gets(ep, taskId, n - 1);
      CountGets(ep, taskId, n - 1);
    }
  }

  /** The poll protocol: no task is started; every call concerns the polled task
      on its endpoint; at most `limit` get calls come before the task ends, and
      the first terminal status ends the loop without a stop; otherwise exactly
      one stop follows the budget, then exactly one last get, whose detail is
      reported whatever its status. */
  lemma PollProtocol(ep: Endpoint, taskId: string, limit: int, replies: nat -> TaskDetail)
    ensures var calls := PollSpec(ep, taskId, limit, replies).0;
      Count(calls, Run) == 0 && Count(calls, Stop) <= 1
    ensures var calls := PollSpec(ep, taskId, limit, replies).0;
      forall k :: 0 <= k < |calls| ==>
        (calls[k].GetTask? || calls[k].StopTask?) && calls[k].endpoint == ep && calls[k].taskId == taskId
    ensures var calls := PollSpec(ep, taskId, limit, replies).0;
      Count(calls, Stop) == 0 <==> exists k :: 0 <= k < Rounds(limit) && Decisive(replies(k))
    ensures var (calls, res) := PollSpec(ep, taskId, limit, replies);
      Count(calls, Stop) == 0 ==>
        var j := Count(calls, Get) - 1;
        0 <= j < Rounds(limit) && Decisive(replies(j)) && (forall k :: 0 <= k < j ==> !Decisive(replies(k)))
        && res == (if replies(j).NoBody? then ReadFailure else Found(replies(j)))
        && (res.Found? ==> IsTerminal(res.detail))
    ensures var (calls, res) := PollSpec(ep, taskId, limit, replies);
      Count(calls, Stop) == 1 ==>
        Count(calls, Get) == Rounds(limit) + 1
        && (forall k :: 0 <= k < Rounds(limit) ==> !Decisive(replies(k)))
        && |calls| >= 2 && calls[|calls| - 2] == StopTask(ep, taskId) && calls[|calls| - 1] == GetTask(ep, taskId)
        && res == Found(replies(Rounds(limit)))
  {
    var n := Rounds(limit);
    match FirstDecisive(replies, n)
    case Some(j) =>
      CountGets(ep, taskId, j + 1);
    case None =>
      var tail := [StopTask(ep, taskId), GetTask(ep, taskId)];
      var calls := Gets(ep, taskId, n) + tail;
      CountGets(ep, taskId, n);
      CountAppend(Gets(ep, taskId, n), tail, Run);
      CountAppend(Gets(ep, taskId, n), tail, Get);
      CountAppend(Gets(ep, taskId, n), tail, Stop);
      assert tail[1..] == [GetTask(ep, taskId)];
      assert tail[1..][1..] == [];
      assert Count(tail, Stop) == 1 && Count(tail, Get) == 1 && Count(tail, Run) == 0;
      assert calls[|calls| - 2] == StopTask(ep, taskId);
      assert !exists k :: 0 <= k < n && Decisive(replies(k));
  }

  /** With a budget of zero or less nothing is polled: the task is stopped at once. */
  lemma NoBudgetStopsAtOnce(ep: Endpoint, taskId: string, limit: int, replies: nat -> TaskDetail)
    requires limit <= 0
    ensures PollSpec(ep, taskId, limit, replies)
      == ([StopTask(ep, taskId), GetTask(ep, taskId)], Found(replies(0)))
  {
    assert FirstDecisive(replies, Rounds(limit)) == None;
    assert Gets(ep, taskId, 0) + [StopTask(ep, taskId), GetTask(ep, taskId)] == [StopTask(ep, taskId), GetTask(ep, taskId)];
  }

  // ---------------------------------------------------------------------------
  // Items

  /** The node parameters of one item, as `getNodeParameter` gives them.
      `timeout` is `None` when it is not a number. */
  datatype ItemParams = ItemParams(
    resource: string,
    operation: string,
    timeout: Option<int>,
    workflowId: string,
    workflowConfig: Payload.WorkflowConfig,
    agentId: string,
    task: string)

  /** What `execute` throws: a node error, with the item index for the missing
      workflow only, or the `TypeError` of reading `status` from an empty reply. */
  datatype Failure = NodeOperationError(message: string, itemIndex: Option<nat>) | DetailReadError

  /** The one record `execute` emits: the task detail, or `{error: 'Error', taskId}`
      when the last detail fetched has no body. */
  datatype Record = DetailRecord(detail: TaskDetail) | ErrorRecord(error: string, taskId: string)

  const ERROR_MARKER: string := "Error"

  datatype Outcome = Emitted(records: seq<Record>) | Threw(failure: Failure)

  datatype Execution = Execution(outcome: Outcome, trace: seq<Call>)

  predicate RunsWorkflow(item: ItemParams)
  {
    item.resource == "workflow" && item.operation == "runWorkflow"
  }

  /** The endpoint and the run-task body of item `index`, or what it throws first. */
  function Prepare(item: ItemParams, index: nat): (r: Result<(Endpoint, Payload.RunBody), Failure>)
    ensures r.Err? ==> RunsWorkflow(item)
    ensures r.Ok? ==> (r.value.0 == WorkflowEndpoint <==> RunsWorkflow(item))
  {
    if RunsWorkflow(item) then
      match Payload.BuildWorkflowBody(item.workflowId, item.workflowConfig)
      case Err(e) =>
        if e.NoWorkflowSelected? then Err(NodeOperationError(Payload.SELECT_WORKFLOW_MESSAGE, Some(index)))
        else Err(NodeOperationError(Payload.Message(e), None))
      case Ok(body) => Ok((WorkflowEndpoint, body))
    else if item.resource == "agent" && item.operation == "runAgent" then
      Ok((AgentEndpoint, Payload.AgentBody(item.task, item.agentId)))
    else
      Ok((AgentEndpoint, Payload.EmptyBody))
  }

  /** `if (!taskId)`: an id that is missing or empty. */
  predicate HasId(id: Option<string>)
  {
    id.Some? && id.value != ""
  }

  function RecordOf(detail: TaskDetail, taskId: string): (r: Record)
    ensures r.ErrorRecord? <==> detail.NoBody?
    ensures r.ErrorRecord? ==> r.error == ERROR_MARKER && r.taskId == taskId
    ensures r.DetailRecord? ==> r.detail == detail
  {
    if detail.Body? then DetailRecord(detail) else ErrorRecord(ERROR_MARKER, taskId)
  }

  /** What the loop body makes of one item before its run-task call. */
  type Request = Result<(Endpoint, Payload.RunBody), Failure>

  function Requests(items: seq<ItemParams>): (reqs: seq<Request>)
    ensures |reqs| == |items|
  {
    seq(|items|, i requires 0 <= i < |items| => Prepare(items[i], i))
  }

  /** The poll budget of each item. */
  function Limits(items: seq<ItemParams>): (limits: seq<int>)
    ensures |limits| == |items|
  {
    seq(|items|, i requires 0 <= i < |items| => Budget.PollLimit(items[i].timeout))
  }

  /** The loop over the items from item `i` on, given what each item prepares
      and the budget each allows. */
  function LoopFrom(reqs: seq<Request>, limits: seq<int>, i: nat,
               runReplies: nat -> Option<string>, getReplies: nat -> TaskDetail): (e: Execution)
    requires |limits| == |reqs| && i <= |reqs|
    ensures e.outcome.Emitted? ==> |e.outcome.records| <= 1
    decreases |reqs| - i
  {
    if i == |reqs| then Execution(Emitted([]), [])
    else
      match reqs[i]
      case Err(f) => Execution(Threw(f), [])
      case Ok((ep, body)) =>
        var run := RunTask(ep, body);
        var id := runReplies(i);
        if !HasId(id) then
          var rest := LoopFrom(reqs, limits, i + 1, runReplies, getReplies);
          Execution(rest.outcome, [run] + rest.trace)
        else
          var (calls, end) := PollSpec(ep, id.value, limits[i], getReplies);
          match end
          case ReadFailure => Execution(Threw(DetailReadError), [run] + calls)
          case Found(d) => Execution(Emitted([RecordOf(d, id.value)]), [run] + calls)
  }

  /** `execute` on the given items. */
  function ExecuteSpec(items: seq<ItemParams>, runReplies: nat -> Option<string>, getReplies: nat -> TaskDetail): (e: Execution)
    ensures e.outcome.Emitted? ==> |e.outcome.records| <= 1
    ensures items == [] ==> e == Execution(Emitted([]), [])
  {
    LoopFrom(Requests(items), Limits(items), 0, runReplies, getReplies)
  }

  /** Lines 270-349 of the loop body: the workflow branch builds and checks
      the workflow body; the agent branch takes task and agent id as they are;
      any other resource and operation send an empty body to the agent endpoint. */
  method PrepareItem(item: ItemParams, index: nat) returns (r: Result<(Endpoint, Payload.RunBody), Failure>)
    ensures r == Prepare(item, index)
  {
    var runTaskBody := Payload.EmptyBody;
    var endpoint := AgentEndpoint;
    if item.resource == "workflow" && item.operation == "runWorkflow" {
      var built := Payload.BuildWorkflowPayload(item.workflowId, item.workflowConfig);
      if built.Err? {
        if built.error.NoWorkflowSelected? {
          return Err(NodeOperationError(Payload.SELECT_WORKFLOW_MESSAGE, Some(index)));
        }
        return Err(NodeOperationError(Payload.Message(built.error), None));
      }
      runTaskBody := built.value;
      endpoint := WorkflowEndpoint;
    }
    if item.resource == "agent" && item.operation == "runAgent" {
      runTaskBody := Payload.AgentBody(item.task, item.agentId);
    }
    return Ok((endpoint, runTaskBody));
  }

  /** Unfolding `LoopFrom` at an item that is skipped. */
  lemma SkipStep(reqs: seq<Request>, limits: seq<int>, i: nat, runReplies: nat -> Option<string>,
                 getReplies: nat -> TaskDetail, ep: Endpoint, body: Payload.RunBody)
    requires |limits| == |reqs| && i < |reqs| && reqs[i] == Ok((ep, body)) && !HasId(runReplies(i))
    ensures LoopFrom(reqs, limits, i, runReplies, getReplies)
      == Execution(LoopFrom(reqs, limits, i + 1, runReplies, getReplies).outcome,
                   [RunTask(ep, body)] + LoopFrom(reqs, limits, i + 1, runReplies, getReplies).trace)
  {
  }

  /** Unfolding `LoopFrom` at the item whose task is polled. */
  lemma PollStep(reqs: seq<Request>, limits: seq<int>, i: nat, runReplies: nat -> Option<string>,
                 getReplies: nat -> TaskDetail, ep: Endpoint, body: Payload.RunBody)
    requires |limits| == |reqs| && i < |reqs| && reqs[i] == Ok((ep, body)) && HasId(runReplies(i))
    ensures var (calls, end) := PollSpec(ep, runReplies(i).value, limits[i], getReplies);
      LoopFrom(reqs, limits, i, runReplies, getReplies)
        == Execution(if end.ReadFailure? then Threw(DetailReadError)
                     else Emitted([RecordOf(end.detail, runReplies(i).value)]),
                     [RunTask(ep, body)] + calls)
  {
  }

  /** The loop over the items: builds each body as the node does, starts the
      task, skips it when the reply has no id, and otherwise polls it and returns. */
  method Execute(items: seq<ItemParams>, runReplies: nat -> Option<string>, getReplies: nat -> TaskDetail)
    returns (outcome: Outcome, trace: seq<Call>)
    ensures Execution(outcome, trace) == ExecuteSpec(items, runReplies, getReplies)
  {
    ghost var reqs, limits := Requests(items), Limits(items);
    var returnData: seq<Record> := [];
    trace := [];
    var i := 0;
    while i < |items|
      invariant 0 <= i <= |items|
      invariant returnData == []
      invariant LoopFrom(reqs, limits, 0, runReplies, getReplies)
        == Execution(LoopFrom(reqs, limits, i, runReplies, getReplies).outcome,
                     trace + LoopFrom(reqs, limits, i, runReplies, getReplies).trace)
    {
      var item := items[i];
      var limit := Budget.PollLimit(item.timeout);
      assert limit == limits[i];
      var prepared := PrepareItem(item, i);
      assert prepared == reqs[i];
      if prepared.Err? {
        outcome := Threw(prepared.error);
        AppendNil(trace);
        return;
      }
      var (endpoint, runTaskBody) := prepared.value;
      var run := RunTask(endpoint, runTaskBody);
      var taskId := runReplies(i);
      if !(taskId.Some? && taskId.value != "") {
        SkipStep(reqs, limits, i, runReplies, getReplies, endpoint, runTaskBody);
        Payload.AppendAssoc(trace, [run], LoopFrom(reqs, limits, i + 1, runReplies, getReplies).trace);
        trace := trace + [run];
        i := i + 1;
        continue;
      }
      var calls, polled := Poll(endpoint, taskId.value, limit, getReplies);
      PollStep(reqs, limits, i, runReplies, getReplies, endpoint, runTaskBody);
      Payload.AppendAssoc(trace, [run], calls);
      trace := trace + [run] + calls;
      if polled.ReadFailure? {
        outcome := Threw(DetailReadError);
        return;
      }
      returnData := returnData + [RecordOf(polled.detail, taskId.value)];
      assert returnData == [RecordOf(polled.detail, taskId.value)];
      outcome := Emitted(returnData);
      return;
    }
    outcome := Emitted(returnData);
    AppendNil(trace);
  }

  // ---------------------------------------------------------------------------
  // What `execute` promises

  /** An error record only comes from the detail fetched after a stop, when
      that detail has no body: a detail found by the loop is terminal. */
  lemma ErrorDetailOnlyAfterStop(ep: Endpoint, taskId: string, limit: int, replies: nat -> TaskDetail)
    ensures var (calls, res) := PollSpec(ep, taskId, limit, replies);
      res == Found(NoBody) ==> Count(calls, Stop) == 1 && replies(Rounds(limit)).NoBody?
  {
    PollProtocol(ep, taskId, limit, replies);
  }

  /** A timeout of ten seconds allows two polls; a task that is running at the
      first poll and finished at the second is reported after two get calls,
      without a stop. */
  lemma TenSecondRun(ep: Endpoint, taskId: string, replies: nat -> TaskDetail)
    requires replies(0).Body? && replies(0).status == Some("running")
    requires replies(1).Body? && replies(1).status == Some("finished")
    ensures PollSpec(ep, taskId, Budget.PollLimit(Some(10)), replies)
      == ([GetTask(ep, taskId), GetTask(ep, taskId)], Found(replies(1)))
  {
    Budget.LimitExamples(10);
    assert !Decisive(replies(0));
    assert FirstDecisive(replies, 1) == None;
    assert FirstDecisive(replies, 2) == Some(1);
    assert Gets(ep, taskId, 2) == [GetTask(ep, taskId), GetTask(ep, taskId)];
  }

  /** Outside the workflow branch nothing is checked: the agent branch sends
      whatever task and agent id it is given, and any other pair of resource and
      operation sends an empty body to the agent endpoint. */
  lemma AgentUnchecked(item: ItemParams, index: nat)
    ensures !RunsWorkflow(item) ==> Prepare(item, index).Ok? && Prepare(item, index).value.0 == AgentEndpoint
    ensures item.resource == "agent" && item.operation == "runAgent" ==>
      Prepare(item, index) == Ok((AgentEndpoint, Payload.AgentBody(item.task, item.agentId)))
  {
  }

  /** The workflow branch throws exactly when no workflow is selected, citing
      the item, or when some field is blank, with one error naming every blank field. */
  lemma WorkflowValidation(item: ItemParams, index: nat)
    requires RunsWorkflow(item)
    ensures var config := item.workflowConfig;
      Prepare(item, index).Err? <==>
        config.value.None? || exists k :: 0 <= k < |config.schema| && !Payload.Filled(config.value.value, config.schema[k].id)
    ensures item.workflowConfig.value.None? ==>
      Prepare(item, index) == Err(NodeOperationError(Payload.SELECT_WORKFLOW_MESSAGE, Some(index)))
    ensures var config := item.workflowConfig;
      config.value.Some? && Prepare(item, index).Err? ==>
        var missing := Payload.Missing(config.schema, config.value.value);
        Prepare(item, index) == Err(NodeOperationError(Payload.Message(Payload.MissingFields(missing)), None))
        && forall k :: 0 <= k < |config.schema| && !Payload.Filled(config.value.value, config.schema[k].id) ==>
             config.schema[k].displayName in missing
  {
    Payload.BuildFailsOnBlank(item.workflowId, item.workflowConfig);
  }

  /** Item `m` is started and gets no id back. */
  predicate Skips(reqs: seq<Request>, m: nat, runReplies: nat -> Option<string>)
    requires m < |reqs|
  {
    reqs[m].Ok? && !HasId(runReplies(m))
  }

  /** The run-task call of an item that passes its checks. */
  function RunOf(req: Request): Call
    requires req.Ok?
  {
    RunTask(req.value.0, req.value.1)
  }

  /** Items that get no id only add their run-task call and leave the rest to
      the items after them. */
  lemma {:induction false} SkippedPrefix(reqs: seq<Request>, limits: seq<int>, i: nat, k: nat,
                                         runReplies: nat -> Option<string>, getReplies: nat -> TaskDetail)
    requires |limits| == |reqs| && i <= k <= |reqs|
    requires forall m :: i <= m < k ==> Skips(reqs, m, runReplies)
    ensures var e, e' := LoopFrom(reqs, limits, i, runReplies, getReplies), LoopFrom(reqs, limits, k, runReplies, getReplies);
      e.outcome == e'.outcome && |e.trace| == (k - i) + |e'.trace| && e.trace[k - i..] == e'.trace
      && forall t :: 0 <= t < k - i ==> Skips(reqs, i + t, runReplies) && e.trace[t] == RunOf(reqs[i + t])
    decreases k - i
  {
    if i < k {
      assert Skips(reqs, i, runReplies);
      var (ep, body) := reqs[i].value;
      SkipStep(reqs, limits, i, runReplies, getReplies, ep, body);
      SkippedPrefix(reqs, limits, i + 1, k, runReplies, getReplies);
      var e, e1 := LoopFrom(reqs, limits, i, runReplies, getReplies), LoopFrom(reqs, limits, i + 1, runReplies, getReplies);
      assert e.trace == [RunTask(ep, body)] + e1.trace;
      forall t | 0 <= t < k - i ensures Skips(reqs, i + t, runReplies) && e.trace[t] == RunOf(reqs[i + t]) {
        assert Skips(reqs, i + t, runReplies);
        if t > 0 {
          assert e.trace[t] == e1.trace[t - 1];
          assert i + 1 + (t - 1) == i + t;
        }
      }
    }
  }

  /** When no item gets an id, nothing is emitted and only run-task calls are made, one per item. */
  lemma NoIdNoRecord(reqs: seq<Request>, limits: seq<int>, runReplies: nat -> Option<string>, getReplies: nat -> TaskDetail)
    requires |limits| == |reqs|
    requires forall m :: 0 <= m < |reqs| ==> Skips(reqs, m, runReplies)
    ensures var e := LoopFrom(reqs, limits, 0, runReplies, getReplies);
      e.outcome == Emitted([]) && |e.trace| == |reqs|
      && forall t :: 0 <= t < |reqs| ==> Skips(reqs, t, runReplies) && e.trace[t] == RunOf(reqs[t])
  {
    assert LoopFrom(reqs, limits, |reqs|, runReplies, getReplies) == Execution(Emitted([]), []);
    SkippedPrefix(reqs, limits, 0, |reqs|, runReplies, getReplies);
  }

  /** The first item that gets an id ends `execute`: its task is polled, exactly
      one record (or the read error) comes out, and no later item is started. */
  lemma FirstIdEnds(reqs: seq<Request>, limits: seq<int>, k: nat,
                    runReplies: nat -> Option<string>, getReplies: nat -> TaskDetail)
    requires |limits| == |reqs| && k < |reqs|
    requires forall m :: 0 <= m < k ==> Skips(reqs, m, runReplies)
    requires reqs[k].Ok? && HasId(runReplies(k))
    ensures var e := LoopFrom(reqs, limits, 0, runReplies, getReplies);
      var (ep, id) := (reqs[k].value.0, runReplies(k).value);
      var (calls, end) := PollSpec(ep, id, limits[k], getReplies);
      e.outcome == (if end.ReadFailure? then Threw(DetailReadError) else Emitted([RecordOf(end.detail, id)]))
      && |e.trace| == k + 1 + |calls|
      && (forall t :: 0 <= t < k ==> Skips(reqs, t, runReplies) && e.trace[t] == RunOf(reqs[t]))
      && e.trace[k] == RunOf(reqs[k])
      && e.trace[k + 1..] == calls
      && forall t :: k < t < |e.trace| ==> !e.trace[t].RunTask?
  {
    SkippedPrefix(reqs, limits, 0, k, runReplies, getReplies);
    var (ep, body) := reqs[k].value;
    var id := runReplies(k).value;
    PollStep(reqs, limits, k, runReplies, getReplies, ep, body);
    var e := LoopFrom(reqs, limits, 0, runReplies, getReplies);
    var calls := PollSpec(ep, id, limits[k], getReplies).0;
    PollCallsNoRun(ep, id, limits[k], getReplies);
    TailOfTrace(e.trace, k, RunTask(ep, body), calls);
  }

  lemma PollCallsNoRun(ep: Endpoint, taskId: string, limit: int, replies: nat -> TaskDetail)
    ensures var calls := PollSpec(ep, taskId, limit, replies).0;
      forall t :: 0 <= t < |calls| ==> !calls[t].RunTask?
  {
    PollProtocol(ep, taskId, limit, replies);
  }

  lemma TailOfTrace(trace: seq<Call>, k: nat, run: Call, calls: seq<Call>)
    requires k <= |trace| && trace[k..] == [run] + calls
    requires forall t :: 0 <= t < |calls| ==> !calls[t].RunTask?
    ensures |trace| == k + 1 + |calls| && trace[k] == run && trace[k + 1..] == calls
    ensures forall t :: k < t < |trace| ==> !trace[t].RunTask?
  {
    assert trace[k] == trace[k..][0];
    assert trace[k + 1..] == trace[k..][1..];
    forall t | k < t < |trace| ensures !trace[t].RunTask? {
      assert trace[t] == calls[t - k - 1];
    }
  }

  /** A failing check throws before the item's run-task call, and no later item is started. */
  lemma FailureStops(reqs: seq<Request>, limits: seq<int>, k: nat,
                     runReplies: nat -> Option<string>, getReplies: nat -> TaskDetail)
    requires |limits| == |reqs| && k < |reqs|
    requires forall m :: 0 <= m < k ==> Skips(reqs, m, runReplies)
    requires reqs[k].Err?
    ensures var e := LoopFrom(reqs, limits, 0, runReplies, getReplies);
      e.outcome == Threw(reqs[k].error) && |e.trace| == k
      && forall t :: 0 <= t < k ==> Skips(reqs, t, runReplies) && e.trace[t] == RunOf(reqs[t])
  {
    SkippedPrefix(reqs, limits, 0, k, runReplies, getReplies);
  }

  lemma AppendNil(a: seq<Call>)
    ensures a + [] == a
  {
  }
}
