/**
 * The Bevy Remote Protocol surface the client uses: the JSON-RPC 2.0 bodies of
 * its three read requests, and the typed results it reads back.
 */
module Protocol {
  import opened Wrappers
  import opened Json

  const ParentPath := "bevy_hierarchy::components::parent::Parent"
  const ChildrenPath := "bevy_hierarchy::components::children::Children"
  const NamePath := "bevy_core::name::Name"

  /**
   * One element of a `bevy/query` result. `name` is the `name` field of the Name
   * component, `children` the Children component and `parent` the Parent component,
   * each None when the entity does not have it. The `has` map is never read.
   */
  datatype QueryEntity = QueryEntity(
    entity: int,
    name: Option<string>,
    children: Option<seq<int>>,
    parent: Option<int>)

  datatype ResponseError = ResponseError(code: int, message: string)

  /** The result of `bevy/get`: the values that could be read, and an error per path that could not. */
  datatype GetResult = GetResult(
    components: seq<(string, Value)>,
    errors: seq<(string, ResponseError)>)

  /** The read requests: query all entities, list one entity's components, get some component values. */
  datatype Request =
    | Query(option: seq<string>)
    | List(entity: int)
    | Get(entity: int, components: seq<string>)

  function Strings(ss: seq<string>): seq<Value> {
    seq(|ss|, i requires 0 <= i < |ss| => Str(ss[i]))
  }

  /** The strings of an array whose items are all strings. */
  function ReadStrings(vs: seq<Value>): (r: Option<seq<string>>)
    ensures r.Some? ==> |r.value| == |vs|
  {
    if vs == [] then Some([])
    else if !vs[0].Str? then None
    else match ReadStrings(vs[1..])
      case None => None
      case Some(rest) => Some([vs[0].s] + rest)
  }

  lemma {:induction false} ReadStringsOfStrings(ss: seq<string>)
    ensures ReadStrings(Strings(ss)) == Some(ss)
  {
    if ss != [] {
      assert Strings(ss)[1..] == Strings(ss[1..]);
      ReadStringsOfStrings(ss[1..]);
      assert [ss[0]] + ss[1..] == ss;
    }
  }

  function MethodName(req: Request): string {
    match req
    case Query(_) => "bevy/query"
    case List(_) => "bevy/list"
    case Get(_, _) => "bevy/get"
  }

  function Params(req: Request): Value {
    match req
    case Query(option) => Object([("data", Object([("option", Array(Strings(option)))]))])
    case List(entity) => Object([("entity", Number(entity))])
    case Get(entity, components) =>
      Object([("entity", Number(entity)), ("components", Array(Strings(components)))])
  }

  /** A JSON-RPC 2.0 request envelope. */
  function Envelope(id: int, name: string, params: Value): Value {
    Object([("jsonrpc", Str("2.0")), ("method", Str(name)), ("id", Number(id)), ("params", params)])
  }

  /** The body sent for a request with the given id. */
  function Encode(id: int, req: Request): Value {
    Envelope(id, MethodName(req), Params(req))
  }

  /** A string-array field that may be missing (then it is empty). */
  function OptionalStrings(v: Value, key: string): Option<seq<string>> {
    match Field(v, key)
    case None => Some([])
    case Some(Array(items)) => ReadStrings(items)
    case Some(_) => None
  }

  function ReadParams(name: string, params: Value): Option<Request> {
    if name == "bevy/query" then
      match Field(params, "data")
      case Some(data) =>
        (match OptionalStrings(data, "option")
         case Some(option) => Some(Query(option))
         case None => None)
      case None => None
    else if name == "bevy/list" then
      match Field(params, "entity")
      case Some(Number(entity)) => Some(List(entity))
      case _ => None
    else if name == "bevy/get" then
      match (Field(params, "entity"), Field(params, "components"))
      case (Some(Number(entity)), Some(Array(items))) =>
        (match ReadStrings(items)
         case Some(components) => Some(Get(entity, components))
         case None => None)
      case _ => None
    else None
  }

  /** How the remote reads a request body: its id and the request it makes. */
  function Decode(body: Value): Option<(int, Request)> {
    var version, name, id, params :=
      Field(body, "jsonrpc"), Field(body, "method"), Field(body, "id"), Field(body, "params");
    if version == Some(Str("2.0")) && name.Some? && name.value.Str? && id.Some? && id.value.Number? && params.Some? then
      match ReadParams(name.value.s, params.value)
      case Some(req) => Some((id.value.n, req))
      case None => None
    else None
  }

  lemma EnvelopeFields(id: int, name: string, params: Value)
    ensures Field(Envelope(id, name, params), "jsonrpc") == Some(Str("2.0"))
    ensures Field(Envelope(id, name, params), "method") == Some(Str(name))
    ensures Field(Envelope(id, name, params), "id") == Some(Number(id))
    ensures Field(Envelope(id, name, params), "params") == Some(params)
  {
    var ms := Envelope(id, name, params).members;
    assert "jsonrpc" != "method" && "jsonrpc" != "id" && "jsonrpc" != "params";
    assert "method" != "id" && "method" != "params" && "id" != "params";
    assert Find(ms[3..], "params") == Some(params);
    assert Find(ms[2..], "id") == Some(Number(id));
    assert Find(ms[2..], "params") == Find(ms[3..], "params");
    assert Find(ms[1..], "method") == Some(Str(name));
    assert Find(ms[1..], "id") == Find(ms[2..], "id");
    assert Find(ms[1..], "params") == Find(ms[2..], "params");
  }

  lemma GetParamsFields(entity: int, components: seq<string>)
    ensures Field(Params(Get(entity, components)), "entity") == Some(Number(entity))
    ensures Field(Params(Get(entity, components)), "components") == Some(Array(Strings(components)))
  {
    var ms := Params(Get(entity, components)).members;
    assert "entity" != "components";
    assert Find(ms[1..], "components") == Some(Array(Strings(components)));
  }

  /** The parameters of each kind of request read back as that request. */
  lemma ReadParamsOfParams(req: Request)
    ensures ReadParams(MethodName(req), Params(req)) == Some(req)
  {
    match req
    case Query(option) =>
      ReadStringsOfStrings(option);
      assert Field(Params(req), "data") == Some(Object([("option", Array(Strings(option)))]));
    case List(entity) =>
    case Get(entity, components) =>
      ReadStringsOfStrings(components);
      GetParamsFields(entity, components);
  }

  /** Every request body reads back as the request and id it was written for. */
  lemma DecodeEncode(id: int, req: Request)
    ensures Decode(Encode(id, req)) == Some((id, req))
  {
    EnvelopeFields(id, MethodName(req), Params(req));
    ReadParamsOfParams(req);
  }

  /** The `bevy/query` body of `query_all_entities`: id 0, with Parent, Children and Name as optional components. */
  function QueryBody(): Value {
    Encode(0, Query([ParentPath, ChildrenPath, NamePath]))
  }

  /** The `bevy/list` body for one entity; the entity is also the request id. */
  function ListBody(entity: int): Value {
    Encode(entity, List(entity))
  }

  /** The `bevy/get` body for a single component of one entity; the entity is also the request id. */
  function GetBody(entity: int, component: string): Value {
    Encode(entity, Get(entity, [component]))
  }

  /** The `bevy/query` body of the older, stateless provider: id 0 and an empty `data`, so no optional components. */
  function PlainQueryBody(): Value {
    Envelope(0, "bevy/query", Object([("data", Object([]))]))
  }

  lemma QueryBodyDecodes()
    ensures Decode(QueryBody()) == Some((0, Query([ParentPath, ChildrenPath, NamePath])))
  {
    DecodeEncode(0, Query([ParentPath, ChildrenPath, NamePath]));
  }

  lemma ListBodyDecodes(entity: int)
    ensures Decode(ListBody(entity)) == Some((entity, List(entity)))
  {
    DecodeEncode(entity, List(entity));
  }

  lemma GetBodyDecodes(entity: int, component: string)
    ensures Decode(GetBody(entity, component)) == Some((entity, Get(entity, [component])))
  {
    DecodeEncode(entity, Get(entity, [component]));
  }

  lemma PlainQueryBodyDecodes()
    ensures Decode(PlainQueryBody()) == Some((0, Query([])))
  {
    var params := Object([("data", Object([]))]);
    EnvelopeFields(0, "bevy/query", params);
    assert Field(params, "data") == Some(Object([]));
    assert OptionalStrings(Object([]), "option") == Some([]);
    assert ReadParams("bevy/query", params) == Some(Query([]));
  }
}
