/** The resource-mapper callback `getWorkflowInputs`
    (nodes/BrowserAct/BrowserAct.node.ts:159-213): from a workflow's
    configuration it builds the list of fields the user has to fill in. */
module FieldSchema {
  import opened Wrappers
  import Text

  const INPUT_PREFIX: string := "input-"
  const ACCOUNT_PREFIX: string := "account-"
  const PASSWORD_PREFIX: string := "password-"
  /** The `type` of the workflow node that declares the inputs. */
  const INPUT_NODE_TYPE: string := "INPUT_PARAMETERS"

  /** One resource-mapper field. The attributes every field shares (`type`
      'string', `required`, `display`, `defaultMatch`) are constants and are
      not carried. */
  datatype Field = Field(id: string, displayName: string)

  /** The `properties` of the input node: the names in `input_parameters.value`
      and the platforms in `credentials.value`, `None` when absent or falsy. */
  datatype Properties = Properties(inputParameters: Option<seq<string>>, credentials: Option<seq<string>>)

  datatype DslNode = DslNode(nodeType: string, properties: Option<Properties>)

  /** The reply of `/workflow/get-workflow-config`: `dsl.nodes`, `None` when
      the reply, its `dsl` or its `nodes` is absent. */
  datatype ConfigResponse = ConfigResponse(nodes: Option<seq<DslNode>>)

  /** Node `k` is the first node of the input type. */
  ghost predicate FirstInputNodeAt(nodes: seq<DslNode>, k: int)
  {
    0 <= k < |nodes| && nodes[k].nodeType == INPUT_NODE_TYPE
    && forall j :: 0 <= j < k ==> nodes[j].nodeType != INPUT_NODE_TYPE
  }

  /** `nodes.find(item => item.type === 'INPUT_PARAMETERS')`: the first node of
      that type, or nothing when there is none. */
  function FindInputNode(nodes: seq<DslNode>): (r: Option<DslNode>)
    ensures r.None? <==> forall k :: 0 <= k < |nodes| ==> nodes[k].nodeType != INPUT_NODE_TYPE
    ensures r.Some? ==> exists k :: FirstInputNodeAt(nodes, k) && nodes[k] == r.value
  {
    if nodes == [] then None
    else if nodes[0].nodeType == INPUT_NODE_TYPE then
      assert FirstInputNodeAt(nodes, 0);
      Some(nodes[0])
    else
      var r := FindInputNode(nodes[1..]);
      if r.Some? then
        assert exists k :: FirstInputNodeAt(nodes, k) && nodes[k] == r.value by {
          var k :| FirstInputNodeAt(nodes[1..], k) && nodes[1..][k] == r.value;
          forall j | 0 <= j < k + 1 ensures nodes[j].nodeType != INPUT_NODE_TYPE {
            if j > 0 { assert nodes[j] == nodes[1..][j - 1]; }
          }
          assert FirstInputNodeAt(nodes, k + 1) && nodes[k + 1] == r.value;
        }
        r
      else
        assert forall k :: 0 <= k < |nodes| ==> nodes[k].nodeType != INPUT_NODE_TYPE by {
          forall k | 0 <= k < |nodes| ensures nodes[k].nodeType != INPUT_NODE_TYPE {
            if k > 0 { assert nodes[k] == nodes[1..][k - 1]; }
          }
        }
        r
  }

  /** `response?.dsl?.nodes?.find(...)?.properties || {}`. */
  function InputProperties(response: ConfigResponse): (p: Properties)
    ensures p != Properties(None, None) ==> response.nodes.Some? && FindInputNode(response.nodes.value).Some?
    ensures p != Properties(None, None) ==>
      exists k :: FirstInputNodeAt(response.nodes.value, k) && response.nodes.value[k].properties == Some(p)
    ensures response.nodes.Some? ==> forall k ::
      (FirstInputNodeAt(response.nodes.value, k) && response.nodes.value[k].properties.Some?)
      ==> p == response.nodes.value[k].properties.value
  {
    FirstInputNodeUnique(response);
    var none := Properties(None, None);
    match response.nodes
    case None => none
    case Some(nodes) =>
      match FindInputNode(nodes)
      case None => none
      case Some(node) =>
        match node.properties
        case None => none
        case Some(p) => p
  }

  /** At most one index holds the first input node. */
  lemma FirstInputNodeUnique(response: ConfigResponse)
    ensures response.nodes.Some? ==> forall k, k' ::
      (FirstInputNodeAt(response.nodes.value, k) && FirstInputNodeAt(response.nodes.value, k'))
      ==> k == k'
  {
  }

  function InputField(name: string): Field
  {
    Field(INPUT_PREFIX + name, name)
  }

  function PasswordField(platform: string): Field
  {
    Field(PASSWORD_PREFIX + platform, "Password: " + platform)
  }

  function AccountField(platform: string): Field
  {
    Field(ACCOUNT_PREFIX + platform, "Account: " + platform)
  }

  /** `input_parameters.map(...)`: one `input-<name>` field per declared name. */
  function InputFields(names: seq<string>): seq<Field>
  {
    seq(|names|, k requires 0 <= k < |names| => InputField(names[k]))
  }

  /** `credentials.reduce((acc, item) => [password, account, ...acc], acc)`:
      each platform puts its pair in front of what came before. */
  function CredentialFields(acc: seq<Field>, platforms: seq<string>): seq<Field>
    decreases platforms
  {
    if platforms == [] then acc
    else CredentialFields([PasswordField(platforms[0]), AccountField(platforms[0])] + acc, platforms[1..])
  }

  /** `[...inputParameters, ...credentials]` for the declared names and platforms. */
  function Fields(names: seq<string>, platforms: seq<string>): seq<Field>
  {
    InputFields(names) + CredentialFields([], platforms)
  }

  /** The fields `getWorkflowInputs` returns for a configuration reply. */
  function GetWorkflowInputs(response: ConfigResponse): (fields: seq<Field>)
    ensures var p := InputProperties(response);
      p.inputParameters.None? && p.credentials.None? ==> fields == []
  {
    var p := InputProperties(response);
    var names := match p.inputParameters case None => [] case Some(ns) => ns;
    var platforms := match p.credentials case None => [] case Some(ps) => ps;
    Fields(names, platforms)
  }

  /** Field `i` of the credential list: pairs in reverse platform order,
      password before account. */
  function CredentialAt(platforms: seq<string>, i: int): Field
    requires 0 <= i < 2 * |platforms|
  {
    var p := platforms[|platforms| - 1 - i / 2];
    if i % 2 == 0 then PasswordField(p) else AccountField(p)
  }

  /** The reduce puts the platforms in reverse order: the k-th pair from the
      front is `password-`, then `account-`, of the k-th platform from the back,
      and the initial accumulator ends up behind all the pairs. */
  lemma {:induction false} CredentialFieldsReversed(acc: seq<Field>, platforms: seq<string>)
    decreases platforms
    ensures var r := CredentialFields(acc, platforms);
      |r| == 2 * |platforms| + |acc|
      && r[2 * |platforms|..] == acc
      && forall i :: 0 <= i < 2 * |platforms| ==> r[i] == CredentialAt(platforms, i)
  {
    if platforms != [] {
      var n := |platforms|;
      var acc' := [PasswordField(platforms[0]), AccountField(platforms[0])] + acc;
      CredentialFieldsReversed(acc', platforms[1..]);
      var r := CredentialFields(acc, platforms);
      assert r == CredentialFields(acc', platforms[1..]);
      assert r[2 * (n - 1)..] == acc';
      assert r[2 * n..] == acc'[2..];
      forall i | 0 <= i < 2 * n
        ensures r[i] == CredentialAt(platforms, i)
      {
        if i < 2 * (n - 1) {
          assert r[i] == CredentialAt(platforms[1..], i);
          assert platforms[1..][n - 2 - i / 2] == platforms[n - 1 - i / 2];
        } else {
          assert r[i] == acc'[i - 2 * (n - 1)];
        }
      }
    }
  }

  /** The pair of the first declared platform comes last. */
  lemma {:induction false} CredentialFieldsSplit(platforms: seq<string>)
    requires platforms != []
    ensures CredentialFields([], platforms)
      == CredentialFields([], platforms[1..]) + [PasswordField(platforms[0]), AccountField(platforms[0])]
  {
    var pair := [PasswordField(platforms[0]), AccountField(platforms[0])];
    var a := CredentialFields(pair, platforms[1..]);
    var b := CredentialFields([], platforms[1..]) + pair;
    CredentialFieldsReversed(pair, platforms[1..]);
    CredentialFieldsReversed([], platforms[1..]);
    assert pair + [] == pair;
    assert CredentialFields([], platforms) == a;
    assert |a| == |b|;
    forall i | 0 <= i < |a| ensures a[i] == b[i] {
      var m := |platforms[1..]|;
      if i >= 2 * m {
        assert a[2 * m..] == pair;
        assert a[i] == pair[i - 2 * m];
      }
    }
  }

  /** Every generated id carries the prefix of its kind, and removing the prefix
      gives back the declared name or platform: input fields come first, in
      declared order, then the password/account pairs. */
  lemma {:induction false} FieldIds(names: seq<string>, platforms: seq<string>)
    ensures var fs := Fields(names, platforms);
      |fs| == |names| + 2 * |platforms|
      && (forall k :: 0 <= k < |names| ==>
            Text.StartsWith(fs[k].id, INPUT_PREFIX)
            && Text.RemovePrefix(fs[k].id, INPUT_PREFIX) == names[k]
            && fs[k].displayName == names[k])
      && (forall k :: 0 <= k < |platforms| ==>
            var p := platforms[|platforms| - 1 - k];
            Text.StartsWith(fs[|names| + 2 * k].id, PASSWORD_PREFIX)
            && Text.RemovePrefix(fs[|names| + 2 * k].id, PASSWORD_PREFIX) == p
            && Text.StartsWith(fs[|names| + 2 * k + 1].id, ACCOUNT_PREFIX)
            && Text.RemovePrefix(fs[|names| + 2 * k + 1].id, ACCOUNT_PREFIX) == p)
  {
    var fs := Fields(names, platforms);
    var cs := CredentialFields([], platforms);
    CredentialFieldsReversed([], platforms);
    forall k | 0 <= k < |names|
      ensures Text.StartsWith(fs[k].id, INPUT_PREFIX) && Text.RemovePrefix(fs[k].id, INPUT_PREFIX) == names[k]
    {
      Text.PrefixRoundTrip(INPUT_PREFIX, names[k], fs[k].id);
    }
    forall k | 0 <= k < |platforms|
      ensures var p := platforms[|platforms| - 1 - k];
        Text.StartsWith(fs[|names| + 2 * k].id, PASSWORD_PREFIX)
        && Text.RemovePrefix(fs[|names| + 2 * k].id, PASSWORD_PREFIX) == p
        && Text.StartsWith(fs[|names| + 2 * k + 1].id, ACCOUNT_PREFIX)
        && Text.RemovePrefix(fs[|names| + 2 * k + 1].id, ACCOUNT_PREFIX) == p
    {
      var p := platforms[|platforms| - 1 - k];
      assert fs[|names| + 2 * k] == cs[2 * k] == CredentialAt(platforms, 2 * k) == PasswordField(p);
      assert fs[|names| + 2 * k + 1] == cs[2 * k + 1] == CredentialAt(platforms, 2 * k + 1) == AccountField(p);
      Text.PrefixRoundTrip(PASSWORD_PREFIX, p, PASSWORD_PREFIX + p);
      Text.PrefixRoundTrip(ACCOUNT_PREFIX, p, ACCOUNT_PREFIX + p);
    }
  }

  /** Without an input node, or with one that declares nothing, there is
      nothing to fill in. */
  lemma NoInputNodeNoFields(response: ConfigResponse)
    requires response.nodes.None?
      || forall k :: 0 <= k < |response.nodes.value| ==> response.nodes.value[k].nodeType != INPUT_NODE_TYPE
    ensures GetWorkflowInputs(response) == []
  {
  }
}
