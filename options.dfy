/** The option loaders `getWorkflows` and `getAgents`
    (nodes/BrowserAct/BrowserAct.node.ts:216-256): they turn the first page of
    the service's workflow or agent list into dropdown options. */
module LoadOptions {
  import opened Wrappers

  /** An agent or workflow as listed by the service. */
  datatype Entity = Entity(id: string, name: string)

  /** A dropdown option: the label shown and the value stored. */
  datatype OptionEntry = OptionEntry(name: string, value: string)

  /** The `items` of a list reply: absent or falsy, present but not an array,
      or an array. */
  datatype Items = NoItems | NotAnArray | Array(entities: seq<Entity>)

  /** What a loader throws: the node's API error carrying the reply (`getAgents`),
      or the runtime's type error when `.map` is called on a non-array (`getWorkflows`). */
  datatype LoadError = ApiError(items: Items) | TypeError

  /** `entities.map(e => ({ name: e.name, value: e.id }))`. */
  function ToOptions(entities: seq<Entity>): seq<OptionEntry>
  {
    if entities == [] then []
    else [OptionEntry(entities[0].name, entities[0].id)] + ToOptions(entities[1..])
  }

  /** Reads an option back as the entity it was made from. */
  function FromOptions(options: seq<OptionEntry>): seq<Entity>
  {
    if options == [] then []
    else [Entity(options[0].value, options[0].name)] + FromOptions(options[1..])
  }

  /** `getWorkflows`: `response.items || []`, then the mapping. */
  function GetWorkflows(items: Items): (r: Result<seq<OptionEntry>, LoadError>)
    ensures r.Err? <==> items.NotAnArray?
    ensures items.NoItems? ==> r == Ok([])
  {
    match items
    case NoItems => Ok([])
    case NotAnArray => Err(TypeError)
    case Array(es) => Ok(ToOptions(es))
  }

  /** `getAgents`: an error carrying the reply unless `items` is an array. */
  function GetAgents(items: Items): (r: Result<seq<OptionEntry>, LoadError>)
    ensures r.Err? <==> !items.Array?
    ensures r.Err? ==> r.error == ApiError(items)
  {
    if !items.Array? then Err(ApiError(items))
    else Ok(ToOptions(items.entities))
  }

  /** Each option shows the entity's name and stores its id, one option per
      entity, in the listed order. */
  lemma {:induction false} ToOptionsAt(entities: seq<Entity>)
    ensures |ToOptions(entities)| == |entities|
    ensures forall k :: 0 <= k < |entities| ==>
      ToOptions(entities)[k] == OptionEntry(entities[k].name, entities[k].id)
  {
    if entities != [] {
      ToOptionsAt(entities[1..]);
      forall k | 0 < k < |entities|
        ensures ToOptions(entities)[k] == OptionEntry(entities[k].name, entities[k].id)
      {
        assert entities[1..][k - 1] == entities[k];
      }
    }
  }

  /** No entity is lost or altered: the options give back the listed entities. */
  lemma {:induction false} OptionsRoundTrip(entities: seq<Entity>)
    ensures FromOptions(ToOptions(entities)) == entities
  {
    if entities != [] {
      OptionsRoundTrip(entities[1..]);
      assert ToOptions(entities)[1..] == ToOptions(entities[1..]);
    }
  }

  /** On an array reply both loaders give the same options; they differ only in
      how they fail on other replies. */
  lemma LoadersAgreeOnArrays(es: seq<Entity>)
    ensures GetAgents(Array(es)) == GetWorkflows(Array(es)) == Ok(ToOptions(es))
  {
  }
}
