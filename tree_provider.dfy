/**
 * `BevyInspectorProvider`, the tree view over the `BevyRemote` cache: which
 * cache query answers which node, and how a node becomes a tree item
 * (`BevyTreeObject`).
 */
module TreeProvider {
  import opened Wrappers
  import opened Json
  import opened OrderedMap
  import opened Parms
  import opened Protocol
  import opened Cache
  import opened Remote
  import ShortName

  /** `BevyRemoteObject`: the three kinds of tree node. */
  datatype RemoteObject =
    | EntityObject(entity: Entity)
    | ComponentObject(component: Component)
    | ParmObject(parm: Parm)

  function EntityObjects(es: seq<Entity>): (os: seq<RemoteObject>)
    ensures |os| == |es| && forall i :: 0 <= i < |es| ==> os[i] == EntityObject(es[i])
  {
    seq(|es|, i requires 0 <= i < |es| => EntityObject(es[i]))
  }

  function ComponentObjects(cs: seq<Component>): (os: seq<RemoteObject>)
    ensures |os| == |cs| && forall i :: 0 <= i < |cs| ==> os[i] == ComponentObject(cs[i])
  {
    seq(|cs|, i requires 0 <= i < |cs| => ComponentObject(cs[i]))
  }

  function ParmObjects(ps: seq<Parm>): (os: seq<RemoteObject>)
    ensures |os| == |ps| && forall i :: 0 <= i < |ps| ==> os[i] == ParmObject(ps[i])
  {
    seq(|ps|, i requires 0 <= i < |ps| => ParmObject(ps[i]))
  }

  /** Which source answers a `getChildren` call. */
  datatype Route =
    | AllEntities                             // get_all_entities()
    | ComponentsOfEntity(id: int)             // get_components_of_entity(id)
    | ChildrenOfEntity(id: int)               // get_children_of(entity)
    | ParentOfEntity(id: int)                 // get_parent_of(entity)
    | ParmsOfComponent(id: int, path: string) // get_parms_of_entity_component(entity, path)
    | Subparms(subparms: Option<seq<Parm>>)   // element.subparms

  /** The dispatch of `getChildren` on the node kind and, for components, on the short name. */
  function RouteOf(element: Option<RemoteObject>): Route {
    match element
    case None => AllEntities
    case Some(EntityObject(e)) => ComponentsOfEntity(e.id)
    case Some(ComponentObject(c)) =>
      if c.name == "Children" then ChildrenOfEntity(c.entity)
      else if c.name == "Parent" then ParentOfEntity(c.entity)
      else ParmsOfComponent(c.entity, c.path)
    case Some(ParmObject(p)) => Subparms(p.subparms)
  }

  /**
   * The name test sees only the last segment: any component whose path is
   * `q::Children` or `q::Parent`, with or without generic arguments, is routed to
   * the hierarchy lookups, whatever `q` is; every other component is asked for its
   * parameters under its full path.
   */
  lemma RouteOfQualifiedComponent(entity: int, q: string, n: string, generic: string, value: Option<Value>)
    requires '<' !in q && '<' !in n && !ShortName.HasSep(n)
    requires q == [] || q[|q| - 1] != ':'
    requires generic == [] || generic[0] == '<'
    ensures var path := q + "::" + n + generic;
      var r := RouteOf(Some(ComponentObject(BuildComponent(entity, path, value))));
      && (n == "Children" ==> r == ChildrenOfEntity(entity))
      && (n == "Parent" ==> r == ParentOfEntity(entity))
      && (n != "Children" && n != "Parent" ==> r == ParmsOfComponent(entity, path))
  {
    ShortName.ShortNameOfQualified(q, n, generic);
  }

  /** Bevy's own Children component expands to the cached children. */
  lemma RouteOfChildrenPath(entity: int, value: Option<Value>)
    ensures RouteOf(Some(ComponentObject(BuildComponent(entity, ChildrenPath, value)))) == ChildrenOfEntity(entity)
  {
    var q, n := "bevy_hierarchy::components::children", "Children";
    assert ChildrenPath == q + "::" + n + "";
    assert !ShortName.HasSep(n);
    RouteOfQualifiedComponent(entity, q, n, "", value);
  }

  /** Bevy's own Parent component expands to the cached parent. */
  lemma RouteOfParentPath(entity: int, value: Option<Value>)
    ensures RouteOf(Some(ComponentObject(BuildComponent(entity, ParentPath, value)))) == ParentOfEntity(entity)
  {
    var q, n := "bevy_hierarchy::components::parent", "Parent";
    assert ParentPath == q + "::" + n + "";
    assert !ShortName.HasSep(n);
    RouteOfQualifiedComponent(entity, q, n, "", value);
  }

  /** The Name component expands to its parameters, fetched under its full path. */
  lemma RouteOfNamePath(entity: int, value: Option<Value>)
    ensures RouteOf(Some(ComponentObject(BuildComponent(entity, NamePath, value)))) == ParmsOfComponent(entity, NamePath)
  {
    var q, n := "bevy_core::name", "Name";
    assert NamePath == q + "::" + n + "";
    assert !ShortName.HasSep(n);
    RouteOfQualifiedComponent(entity, q, n, "", value);
  }

  /** The nodes `getChildren` returns for a route, read from the cache as it is once the route's request has been answered. */
  function Answer(s: Store, route: Route): Option<seq<RemoteObject>>
    requires StoreValid(s)
  {
    match route
    case AllEntities => Some(EntityObjects(Roots(s)))
    case ComponentsOfEntity(id) => Some(ComponentObjects(ComponentsOf(s, id)))
    case ChildrenOfEntity(id) =>
      (match ChildrenOf(s, id) case None => None case Some(es) => Some(EntityObjects(es)))
    case ParentOfEntity(id) => Some(EntityObjects(ParentOf(s, id)))
    case ParmsOfComponent(id, path) => Some(ParmObjects(ParmsOf(s, id, path)))
    case Subparms(ps) => (match ps case None => None case Some(ps) => Some(ParmObjects(ps)))
  }

  /** The cache once the request a route posts has been answered by `reply`; the synchronous lookups post nothing. */
  function AfterRequest(s: Store, route: Route, queryReply: Option<seq<QueryEntity>>,
                        listReply: Option<seq<string>>, getReply: Option<GetResult>): Store
  {
    match route
    case AllEntities => if queryReply.Some? then ApplyQuery(s, queryReply.value) else s
    case ComponentsOfEntity(id) => if listReply.Some? then ApplyList(s, id, listReply.value) else s
    case ParmsOfComponent(id, path) => if getReply.Some? then ApplyValues(s, id, getReply.value.components) else s
    case _ => s
  }

  class InspectorProvider {
    const remote: BevyRemote

    constructor (remote: BevyRemote)
      ensures this.remote == remote
    {
      this.remote := remote;
    }

    /**
     * `getChildren`: the node's children, or `None` where the source yields
     * `undefined` (a leaf parameter, or an entity without a cached Children list).
     * The reply arguments stand for the answer to the one request the route posts.
     */
    method GetChildren(element: Option<RemoteObject>, queryReply: Option<seq<QueryEntity>>,
                       listReply: Option<seq<string>>, getReply: Option<GetResult>)
      returns (children: Option<seq<RemoteObject>>)
      requires remote.Valid()
      modifies remote
      ensures remote.Valid()
      ensures remote.entities == AfterRequest(old(remote.entities), RouteOf(element), queryReply, listReply, getReply)
      ensures children == Answer(remote.entities, RouteOf(element))
    {
      match RouteOf(element)
      case AllEntities =>
        var _, _, roots := remote.GetAllEntities(queryReply);
        children := Some(EntityObjects(roots));
      case ComponentsOfEntity(id) =>
        var _, components := remote.GetComponentsOfEntity(id, listReply);
        children := Some(ComponentObjects(components));
      case ChildrenOfEntity(id) =>
        var kids := ChildrenOf(remote.entities, id);
        children := if kids.Some? then Some(EntityObjects(kids.value)) else None;
      case ParentOfEntity(id) =>
        children := Some(EntityObjects(ParentOf(remote.entities, id)));
      case ParmsOfComponent(id, path) =>
        var _, parms := remote.GetParmsOfEntityComponent(id, path, getReply);
        children := Some(ParmObjects(parms));
      case Subparms(ps) =>
        children := if ps.Some? then Some(ParmObjects(ps.value)) else None;
    }
  }

  /**
   * Expanding a `Children` component of a cached entity lists the cached records
   * of its children, in the order of its Children list, skipping ids not cached:
   * the children of `a + b` are those of `a` followed by those of `b`
   * (`Cache.ResolveConcat`, `Cache.ResolveOne`).
   */
  lemma ChildrenNodeListsCachedChildren(s: Store, c: Component)
    requires StoreValid(s)
    requires c.name == "Children" && c.entity in s.items && s.items[c.entity].children.Some?
    ensures var kids := s.items[c.entity].children.value;
      var r := Answer(s, RouteOf(Some(ComponentObject(c))));
      && r.Some?
      && r.value == EntityObjects(Resolve(s, kids))
      && |r.value| <= |kids|
      && (forall o :: o in r.value <==>
            exists i :: 0 <= i < |kids| && kids[i] in s.items && o == EntityObject(s.items[kids[i]]))
      && ((forall i :: 0 <= i < |kids| ==> kids[i] in s.items) ==>
            |r.value| == |kids| && forall i :: 0 <= i < |kids| ==> r.value[i] == EntityObject(s.items[kids[i]]))
  {
    var kids := s.items[c.entity].children.value;
    var es := Resolve(s, kids);
    var os := EntityObjects(es);
    assert Answer(s, RouteOf(Some(ComponentObject(c)))) == Some(os);
    forall o ensures o in os <==> exists i :: 0 <= i < |kids| && kids[i] in s.items && o == EntityObject(s.items[kids[i]])
    {
      if o in os {
        var k :| 0 <= k < |os| && os[k] == o;
        assert es[k] in es;
      }
      if exists i :: 0 <= i < |kids| && kids[i] in s.items && o == EntityObject(s.items[kids[i]]) {
        var i :| 0 <= i < |kids| && kids[i] in s.items && o == EntityObject(s.items[kids[i]]);
        assert s.items[kids[i]] in es;
        var k :| 0 <= k < |es| && es[k] == s.items[kids[i]];
        assert os[k] == o;
      }
    }
  }

  /**
   * `getChildren` yields `undefined` exactly for a parameter without
   * sub-parameters (for a parameter built from a value: a scalar, by
   * `Parms.BuildParm`) and for a Children component whose entity is unknown or
   * has no Children list.
   */
  lemma AnswerUndefined(s: Store, element: Option<RemoteObject>)
    requires StoreValid(s)
    ensures Answer(s, RouteOf(element)).None? <==>
      || (element.Some? && element.value.ParmObject? && element.value.parm.subparms.None?)
      || (element.Some? && element.value.ComponentObject? && element.value.component.name == "Children"
          && (element.value.component.entity !in s.items
              || s.items[element.value.component.entity].children.None?))
  {
  }

  /**
   * Only the root level, an entity and a component other than Children and
   * Parent post a request; expanding a Children or Parent component or a
   * parameter leaves the cache as it is.
   */
  lemma LookupsPostNothing(s: Store, element: Option<RemoteObject>, queryReply: Option<seq<QueryEntity>>,
                           listReply: Option<seq<string>>, getReply: Option<GetResult>)
    requires element.Some? && (element.value.ParmObject? ||
               (element.value.ComponentObject? && element.value.component.name in {"Children", "Parent"}))
    ensures AfterRequest(s, RouteOf(element), queryReply, listReply, getReply) == s
  {
  }

  /** Expanding a `Parent` component gives the parent's record, or nothing when its id is 0 or not cached. */
  lemma ParentNodeListsParent(s: Store, c: Component)
    requires StoreValid(s)
    requires c.name == "Parent"
    ensures var r := Answer(s, RouteOf(Some(ComponentObject(c))));
      var e := c.entity;
      && r.Some? && |r.value| <= 1
      && (|r.value| == 1 <==>
            e in s.items && s.items[e].parent.Some? && s.items[e].parent.value != 0 && s.items[e].parent.value in s.items)
      && (|r.value| == 1 ==> r.value[0] == EntityObject(s.items[s.items[e].parent.value]))
  {
  }

  /** The root level lists every cached record without a parent, and nothing else. */
  lemma RootLevelListsParentless(s: Store)
    requires StoreValid(s)
    ensures var r := Answer(s, RouteOf(None));
      && r.Some?
      && (forall o :: o in r.value ==> o.EntityObject? && o.entity in Values(s) && o.entity.parent.None?)
      && (forall e :: e in Values(s) && e.parent.None? ==> EntityObject(e) in r.value)
  {
    var roots := Roots(s);
    var os := EntityObjects(roots);
    forall e | e in Values(s) && e.parent.None? ensures EntityObject(e) in os {
      var k :| 0 <= k < |roots| && roots[k] == e;
      assert os[k] == EntityObject(e);
    }
  }

  /** A parameter node lists its sub-parameters: those of an array or object, none for a leaf. */
  lemma ParmNodeListsSubparms(s: Store, name: string, v: Value)
    requires StoreValid(s)
    ensures var r := Answer(s, RouteOf(Some(ParmObject(BuildParm(name, v)))));
      && (IsBranch(v) <==> r.Some?)
      && (r.Some? ==>
            && |r.value| == |Entries(v)|
            && forall i :: 0 <= i < |r.value| ==>
                 r.value[i] == ParmObject(BuildParm(Entries(v)[i].0, Entries(v)[i].1)))
  {
  }

  // ---------------------------------------------------------------------------
  // `BevyTreeObject`

  /** `vscode.TreeItemCollapsibleState`: `None` is 0, `Collapsed` is 1. */
  datatype CollapsibleState = NotCollapsible | Collapsed

  datatype TreeItem = TreeItem(
    title: string,
    collapsibleState: CollapsibleState,
    description: Option<string>,
    tooltip: Option<string>)

  /** The `name`, `collapsible`, `description` and `tooltip` members each kind of node has. */
  function Name(o: RemoteObject): string {
    match o
    case EntityObject(e) => e.name
    case ComponentObject(c) => c.name
    case ParmObject(p) => p.name
  }

  function Collapsible(o: RemoteObject): bool {
    match o
    case EntityObject(_) => true
    case ComponentObject(_) => true
    case ParmObject(p) => p.collapsible
  }

  function Description(o: RemoteObject): Option<string> {
    match o
    case EntityObject(_) => None
    case ComponentObject(_) => None
    case ParmObject(p) => p.description
  }

  function Tooltip(o: RemoteObject): Option<string> {
    match o
    case EntityObject(e) => Some(e.tooltip)
    case ComponentObject(c) => Some(c.tooltip)
    case ParmObject(_) => None
  }

  /** `new BevyTreeObject(object)`: the node's name as label (`title`), Collapsed exactly when it is collapsible. */
  function TreeObject(o: RemoteObject): (t: TreeItem)
    ensures t.title == Name(o)
    ensures t.collapsibleState == Collapsed <==> Collapsible(o)
    ensures t.description == Description(o) && t.tooltip == Tooltip(o)
  {
    TreeItem(Name(o), if Collapsible(o) then Collapsed else NotCollapsible, Description(o), Tooltip(o))
  }

  /**
   * An entity item reads its label from the Name component or else shows the id,
   * and its tooltip adds the id to a non-empty name; it is always expandable.
   */
  lemma EntityItem(r: QueryEntity)
    ensures var t := TreeObject(EntityObject(NewEntity(r)));
      && t.collapsibleState == Collapsed && t.description == None
      && (r.name.Some? ==> t.title == r.name.value)
      && (r.name.None? ==> ParseInt(t.title) == r.entity)
      && (r.name.Some? && r.name.value != "" ==> t.tooltip == Some(r.name.value + " - " + IntToString(r.entity)))
      && (r.name.None? || r.name == Some("") ==> t.tooltip.Some? && ParseInt(t.tooltip.value) == r.entity)
  {
    NewEntityLabels(r);
  }

  /** A component item is labelled with the short name, shows the full path as tooltip, and is always expandable. */
  lemma ComponentItem(entity: int, q: string, n: string, generic: string, value: Option<Value>)
    requires '<' !in q && '<' !in n && !ShortName.HasSep(n)
    requires q == [] || q[|q| - 1] != ':'
    requires generic == [] || generic[0] == '<'
    ensures var path := q + "::" + n + generic;
      var t := TreeObject(ComponentObject(BuildComponent(entity, path, value)));
      && t.title == n && t.tooltip == Some(path) && t.description == None && t.collapsibleState == Collapsed
  {
    ShortName.ShortNameOfQualified(q, n, generic);
  }

  /** A parameter item is expandable exactly when its value is an array or object; a leaf is described by its text. */
  lemma ParmItem(name: string, v: Value)
    ensures var t := TreeObject(ParmObject(BuildParm(name, v)));
      && t.title == name && t.tooltip == None
      && (t.collapsibleState == Collapsed <==> IsBranch(v))
      && (!IsBranch(v) ==> t.description == Some(Text(v)))
      && (IsBranch(v) ==> t.description == None)
  {
  }
}
