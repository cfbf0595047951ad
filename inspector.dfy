/**
 * The older, stateless `BevyInspectorProvider` of `bevyInspector.ts`: every
 * expansion posts one request to the fixed endpoint and maps the reply straight
 * to tree items, keeping nothing. A `None` reply is a failed request, which the
 * source turns into an empty list.
 */
module Inspector {
  import opened Wrappers
  import opened Json
  import opened Protocol
  import opened TreeProvider
  import ShortName

  /** The endpoint every request of this provider is posted to (`url + ":" + port`). */
  const Endpoint := "http://127.0.0.1" + ":" + "15702"

  /** The label of `BevyComponentError`. */
  const ErrorLabel := "Component is either not registered, or not reflected."

  /** `BevyObject`: the three kinds of tree item this provider creates. */
  datatype Node =
    | EntityNode(entityId: int)
    | ComponentNode(componentPath: string, entityId: int)
    | ErrorNode

  /**
   * What each node shows: the `TreeItem` its constructor sets up. An entity is
   * labelled with the text of its id, which reads back as the id; a component
   * with its short name, with the full path as description and tooltip; the
   * error leaf with its message, and only it cannot be expanded.
   */
  function Item(n: Node): (t: TreeItem)
    ensures t.collapsibleState == NotCollapsible <==> n.ErrorNode?
    ensures n.EntityNode? ==> ParseInt(t.title) == n.entityId && t.tooltip == Some(t.title) && t.description == None
    ensures n.ComponentNode? ==>
      t.title == ShortName.ShortName(n.componentPath)
      && t.description == Some(n.componentPath) && t.tooltip == Some(n.componentPath)
    ensures n.ErrorNode? ==> t.title == ErrorLabel && t.description == None && t.tooltip == None
  {
    match n
    case EntityNode(id) =>
      ParseIntToString(id);
      TreeItem(IntToString(id), Collapsed, None, Some(IntToString(id)))
    case ComponentNode(path, _) => TreeItem(ShortName.ShortName(path), Collapsed, Some(path), Some(path))
    case ErrorNode => TreeItem(ErrorLabel, NotCollapsible, None, None)
  }

  /** `bevy_list_entities`: one entity node per returned entity, in reply order; none when the request fails. */
  function ListEntities(reply: Option<seq<int>>): (ns: seq<Node>)
    ensures reply.None? ==> ns == []
    ensures reply.Some? ==> |ns| == |reply.value| && forall i :: 0 <= i < |ns| ==> ns[i] == EntityNode(reply.value[i])
  {
    match reply
    case None => []
    case Some(ids) => seq(|ids|, i requires 0 <= i < |ids| => EntityNode(ids[i]))
  }

  /**
   * `bevy_get_entity_components`: one component node per listed path, in reply
   * order, all for the expanded entity; none when the request fails.
   */
  function EntityComponents(entity: int, reply: Option<seq<string>>): (ns: seq<Node>)
    ensures reply.None? ==> ns == []
    ensures reply.Some? ==>
      |ns| == |reply.value| && forall i :: 0 <= i < |ns| ==> ns[i] == ComponentNode(reply.value[i], entity)
  {
    match reply
    case None => []
    case Some(paths) => seq(|paths|, i requires 0 <= i < |paths| => ComponentNode(paths[i], entity))
  }

  /**
   * `bevy_get_component_values`: the error leaf appears exactly when the request
   * succeeded and its `errors` map has a member, and then it is the only node;
   * otherwise nothing appears, since the values are not rendered.
   */
  function ComponentValues(reply: Option<GetResult>): (ns: seq<Node>)
    ensures ns != [] <==> reply.Some? && |reply.value.errors| > 0
    ensures ns != [] ==> ns == [ErrorNode]
  {
    if reply.Some? && |reply.value.errors| > 0 then [ErrorNode] else []
  }

  /**
   * Where `getChildren` posts for an element, and what. Every request goes to
   * the fixed endpoint; the root posts the plain query, an entity a list for
   * itself, a component a get for its path, and the error leaf nothing.
   */
  function RequestFor(element: Option<Node>): (r: Option<(string, Value)>)
    ensures r.None? <==> element == Some(ErrorNode)
    ensures r.Some? ==> r.value.0 == Endpoint
    ensures element.None? ==> Decode(r.value.1) == Some((0, Query([])))
    ensures element.Some? && element.value.EntityNode? ==>
      Decode(r.value.1) == Some((element.value.entityId, List(element.value.entityId)))
    ensures element.Some? && element.value.ComponentNode? ==>
      Decode(r.value.1) == Some((element.value.entityId, Get(element.value.entityId, [element.value.componentPath])))
  {
    match element
    case None => PlainQueryBodyDecodes(); Some((Endpoint, PlainQueryBody()))
    case Some(EntityNode(id)) => ListBodyDecodes(id); Some((Endpoint, ListBody(id)))
    case Some(ComponentNode(path, id)) => GetBodyDecodes(id, path); Some((Endpoint, GetBody(id, path)))
    case Some(ErrorNode) => None
  }

  /**
   * `getChildren`: dispatch on the node kind. A failed request gives no nodes,
   * the error leaf has no children, and the error leaf appears only under a
   * component.
   */
  function Children(element: Option<Node>, queryReply: Option<seq<int>>,
                    listReply: Option<seq<string>>, getReply: Option<GetResult>): (ns: seq<Node>)
    ensures queryReply.None? && listReply.None? && getReply.None? ==> ns == []
    ensures element == Some(ErrorNode) ==> ns == []
    ensures ErrorNode in ns ==> element.Some? && element.value.ComponentNode?
  {
    match element
    case None => ListEntities(queryReply)
    case Some(EntityNode(id)) => EntityComponents(id, listReply)
    case Some(ComponentNode(path, id)) => ComponentValues(getReply)
    case Some(ErrorNode) => []
  }

  /** Distinct entities get distinct labels: the label of an entity node determines its id. */
  lemma EntityLabelsDistinct(ids: seq<int>)
    ensures var ns := ListEntities(Some(ids));
      forall i, j :: 0 <= i < |ns| && 0 <= j < |ns| ==>
        (Item(ns[i]).title == Item(ns[j]).title <==> ids[i] == ids[j])
  {
    var ns := ListEntities(Some(ids));
    forall i, j | 0 <= i < |ns| && 0 <= j < |ns|
      ensures Item(ns[i]).title == Item(ns[j]).title <==> ids[i] == ids[j]
    {
      IntToStringInjective(ids[i], ids[j]);
    }
  }

  /** For a qualified path the label is its last segment. */
  lemma ComponentNodeLabel(entity: int, q: string, n: string, generic: string)
    requires '<' !in q && '<' !in n && !ShortName.HasSep(n)
    requires q == [] || q[|q| - 1] != ':'
    requires generic == [] || generic[0] == '<'
    ensures Item(ComponentNode(q + "::" + n + generic, entity)).title == n
  {
    ShortName.ShortNameOfQualified(q, n, generic);
  }
}
