/**
 * The cache's contents as a value: the `entities` map of `BevyRemote` with its
 * `BevyEntity` records, the three ways responses are written into it, and its
 * synchronous lookups.
 */
module Cache {
  import opened Wrappers
  import opened Json
  import opened OrderedMap
  import opened Parms
  import opened Protocol

  /** A cached `BevyEntity`. It is always collapsible and its description is never set. */
  datatype Entity = Entity(
    id: int,
    name: string,
    tooltip: string,
    parent: Option<int>,
    children: Option<seq<int>>,
    components: OMap<string, Component>)

  /** The cache's `entities`: entity id to record, in insertion order. */
  type Store = OMap<int, Entity>

  /** Every component record sits under its own path and names its own entity. */
  ghost predicate EntityValid(e: Entity) {
    && Valid(e.components)
    && forall p | p in e.components.items ::
         e.components.items[p].path == p && e.components.items[p].entity == e.id
  }

  /** Every entity record sits under its own id. */
  ghost predicate StoreValid(s: Store) {
    && Valid(s)
    && forall id | id in s.items :: s.items[id].id == id && EntityValid(s.items[id])
  }

  /** The `BevyEntity` constructor: a fresh record with no components. */
  function NewEntity(r: QueryEntity): (e: Entity)
    ensures EntityValid(e) && e.id == r.entity && e.components == Empty()
  {
    var name := if r.name.Some? then r.name.value else IntToString(r.entity);
    var tooltip := if r.name.Some? && r.name.value != "" then name + " - " + IntToString(r.entity)
                   else IntToString(r.entity);
    Entity(r.entity, name, tooltip, r.parent, r.children, Empty())
  }

  /**
   * The labels of a fresh entity record: the Name component's name, else the id
   * (which its text determines); the tooltip adds " - id" to a non-empty name.
   */
  lemma NewEntityLabels(r: QueryEntity)
    ensures var e := NewEntity(r);
      && (r.name.None? ==> ParseInt(e.name) == r.entity && e.tooltip == e.name)
      && (r.name.Some? ==> e.name == r.name.value)
      && (r.name.Some? && r.name.value != "" ==> e.tooltip == r.name.value + " - " + IntToString(r.entity))
      && (r.name == Some("") ==> ParseInt(e.tooltip) == r.entity)
      && e.parent == r.parent && e.children == r.children && e.components == Empty()
  {
    ParseIntToString(r.entity);
  }

  function EntityPairs(rs: seq<QueryEntity>): seq<(int, Entity)> {
    seq(|rs|, i requires 0 <= i < |rs| => (rs[i].entity, NewEntity(rs[i])))
  }

  /** The store after each entity of a `bevy/query` result was written in order (`create_entity`). */
  function ApplyQuery(s: Store, rs: seq<QueryEntity>): (r: Store)
    ensures StoreValid(s) ==> StoreValid(r)
  {
    QueryKeepsValid(s, rs);
    SetAll(s, EntityPairs(rs))
  }

  lemma QueryKeepsValid(s: Store, rs: seq<QueryEntity>)
    ensures StoreValid(s) ==> StoreValid(SetAll(s, EntityPairs(rs)))
  {
    var r := SetAll(s, EntityPairs(rs));
    forall id | id in r.items
      ensures StoreValid(s) ==> r.items[id].id == id && EntityValid(r.items[id])
    {
      SetAllAt(s, EntityPairs(rs), id);
    }
  }

  /**
   * Writes component records into entity `id`'s component map, in order; nothing
   * happens when `id` is not cached (`this.entities.get(id)?.components.set(...)`).
   */
  function ApplyComponents(s: Store, id: int, pairs: seq<(string, Component)>): (r: Store)
    ensures r.keys == s.keys && r.items.Keys == s.items.Keys
    ensures forall other | other in s.items && other != id :: r.items[other] == s.items[other]
    ensures id in s.items ==> r.items[id] == s.items[id].(components := SetAll(s.items[id].components, pairs))
    ensures id !in s.items ==> r == s
  {
    if id in s.items then Set(s, id, s.items[id].(components := SetAll(s.items[id].components, pairs))) else s
  }

  /** The record `bevy/list` puts at each listed path: no parameters. */
  function ListedPairs(id: int, paths: seq<string>): seq<(string, Component)> {
    seq(|paths|, i requires 0 <= i < |paths| => (paths[i], BuildComponent(id, paths[i], None)))
  }

  /** The record `bevy/get` puts at each path of its `components` map: one built from that value. */
  function ValuePairs(id: int, values: seq<(string, Value)>): seq<(string, Component)> {
    seq(|values|, i requires 0 <= i < |values| => (values[i].0, BuildComponent(id, values[i].0, Some(values[i].1))))
  }

  /**
   * The store after a `bevy/list` result for entity `id` (`create_component_of_entity`
   * per path): it stays well formed, and no entity is added or moved.
   */
  function ApplyList(s: Store, id: int, paths: seq<string>): (r: Store)
    ensures StoreValid(s) ==> StoreValid(r)
    ensures r.keys == s.keys
  {
    ComponentsKeepValid(s, id, ListedPairs(id, paths));
    ApplyComponents(s, id, ListedPairs(id, paths))
  }

  /**
   * The store after a `bevy/get` result for entity `id`
   * (`create_parms_of_components_for_entity`): it stays well formed, and no entity
   * is added or moved.
   */
  function ApplyValues(s: Store, id: int, values: seq<(string, Value)>): (r: Store)
    ensures StoreValid(s) ==> StoreValid(r)
    ensures r.keys == s.keys
  {
    ComponentsKeepValid(s, id, ValuePairs(id, values));
    ApplyComponents(s, id, ValuePairs(id, values))
  }

  /** Pairs whose records sit under their own path and name entity `id` keep the store valid. */
  lemma ComponentsKeepValid(s: Store, id: int, pairs: seq<(string, Component)>)
    requires forall i :: 0 <= i < |pairs| ==> pairs[i].1.path == pairs[i].0 && pairs[i].1.entity == id
    ensures StoreValid(s) ==> StoreValid(ApplyComponents(s, id, pairs))
  {
    if StoreValid(s) && id in s.items {
      var e := s.items[id];
      var c := SetAll(e.components, pairs);
      forall p | p in c.items
        ensures c.items[p].path == p && c.items[p].entity == id
      {
        SetAllAt(e.components, pairs, p);
      }
    }
  }

  // ---------------------------------------------------------------------------
  // Lookups

  ghost predicate IsSubsequence(a: seq<Entity>, b: seq<Entity>)
    decreases |b|
  {
    if a == [] then true
    else if b == [] then false
    else if a[0] == b[0] then IsSubsequence(a[1..], b[1..])
    else IsSubsequence(a, b[1..])
  }

  /** The parentless records of `es`, in their order. */
  function Parentless(es: seq<Entity>): (r: seq<Entity>)
    ensures IsSubsequence(r, es)
    ensures forall e | e in r :: e in es && e.parent.None?
    ensures forall e | e in es && e.parent.None? :: e in r
  {
    if es == [] then []
    else if es[0].parent.None? then [es[0]] + Parentless(es[1..])
    else Parentless(es[1..])
  }

  /**
   * `Array.from(this.entities.values()).filter(entity => !entity.has_parent())`:
   * exactly the cached records without a parent, in the order the cache holds them.
   */
  function Roots(s: Store): (r: seq<Entity>)
    requires Valid(s)
    ensures IsSubsequence(r, Values(s))
    ensures forall e | e in r :: e.parent.None? && e in Values(s)
    ensures forall id | id in s.items && s.items[id].parent.None? :: s.items[id] in r
  {
    var vs := Values(s);
    assert forall id | id in s.items :: s.items[id] in vs by {
      forall id | id in s.items ensures s.items[id] in vs {
        var i :| 0 <= i < |s.keys| && s.keys[i] == id;
        assert vs[i] == s.items[id];
      }
    }
    Parentless(vs)
  }

  /**
   * The cached records of `ids`, in order, skipping ids that are not cached
   * (`children.map(child => this.entities.get(child)).filter(value => value !== undefined)`).
   */
  function Resolve(s: Store, ids: seq<int>): (r: seq<Entity>)
    ensures |r| <= |ids|
    ensures forall e :: e in r <==> exists i :: 0 <= i < |ids| && ids[i] in s.items && s.items[ids[i]] == e
    ensures (forall i :: 0 <= i < |ids| ==> ids[i] in s.items) ==>
              |r| == |ids| && forall i :: 0 <= i < |r| ==> r[i] == s.items[ids[i]]
  {
    if ids == [] then []
    else
      var rest := Resolve(s, ids[1..]);
      assert forall i :: 1 <= i < |ids| ==> ids[i] == ids[1..][i - 1];
      if ids[0] in s.items then [s.items[ids[0]]] + rest else rest
  }

  /** A single id resolves to its record, or to nothing when it is not cached. */
  lemma ResolveOne(s: Store, x: int)
    ensures Resolve(s, [x]) == if x in s.items then [s.items[x]] else []
  {
    assert [x][1..] == [];
  }

  /** Resolving a concatenation resolves each part, keeping the parts in order. */
  lemma {:induction false} ResolveConcat(s: Store, a: seq<int>, b: seq<int>)
    ensures Resolve(s, a + b) == Resolve(s, a) + Resolve(s, b)
    decreases |a|
  {
    if a == [] {
      assert a + b == b;
    } else {
      assert (a + b)[0] == a[0];
      assert (a + b)[1..] == a[1..] + b;
      ResolveConcat(s, a[1..], b);
    }
  }

  /** `get_children_of`: nothing for an unknown entity or one without a Children component. */
  function ChildrenOf(s: Store, id: int): (r: Option<seq<Entity>>)
    ensures r.None? <==> id !in s.items || s.items[id].children.None?
    ensures r.Some? ==> r.value == Resolve(s, s.items[id].children.value)
  {
    if id in s.items && s.items[id].children.Some? then Some(Resolve(s, s.items[id].children.value)) else None
  }

  /** `get_parent_of`: the parent's record, or nothing. */
  function ParentOf(s: Store, id: int): (r: seq<Entity>)
    ensures |r| <= 1
    ensures |r| == 1 <==>
      id in s.items && s.items[id].parent.Some? && s.items[id].parent.value != 0 && s.items[id].parent.value in s.items
    ensures |r| == 1 ==> r[0] == s.items[s.items[id].parent.value]
  {
    if id in s.items && s.items[id].parent.Some? && s.items[id].parent.value != 0 then
      var p := s.items[id].parent.value;
      if p in s.items then [s.items[p]] else []
    else []
  }

  /** `this.entities.get(entity)?.get_component_list() ?? []`: the records in their insertion order. */
  function ComponentsOf(s: Store, id: int): (r: seq<Component>)
    requires StoreValid(s)
    ensures id !in s.items ==> r == []
    ensures id in s.items ==>
      && |r| == |s.items[id].components.keys|
      && forall i :: 0 <= i < |r| ==>
           && r[i] == s.items[id].components.items[s.items[id].components.keys[i]]
           && r[i].path == s.items[id].components.keys[i] && r[i].entity == id
  {
    if id in s.items then Values(s.items[id].components) else []
  }

  /**
   * `this.entities.get(entity)?.get_component_parm_list(path) ?? []`: the
   * parameters of the cached record, or none.
   */
  function ParmsOf(s: Store, id: int, path: string): seq<Parm> {
    if id in s.items && path in s.items[id].components.items then s.items[id].components.items[path].parms else []
  }

  // ---------------------------------------------------------------------------
  // What the merges do

  /** The last occurrence of an id in a query result decides the record written for it. */
  lemma LastEntityBinding(rs: seq<QueryEntity>, i: int)
    requires 0 <= i < |rs|
    requires forall j :: i < j < |rs| ==> rs[j].entity != rs[i].entity
    ensures LastBinding(EntityPairs(rs), rs[i].entity) == Some(NewEntity(rs[i]))
  {
    var pairs := EntityPairs(rs);
    assert forall j :: i < j < |pairs| ==> pairs[j].0 != pairs[i].0 by {
      forall j | i < j < |pairs| ensures pairs[j].0 != pairs[i].0 {
        assert pairs[j].0 == rs[j].entity;
      }
    }
    LastBindingAt(pairs, i);
  }

  /** An id is cached after a query exactly when it was cached before or the query returned it. */
  lemma QueryCachedIds(s: Store, rs: seq<QueryEntity>, id: int)
    ensures id in ApplyQuery(s, rs).items <==> id in s.items || exists i :: 0 <= i < |rs| && rs[i].entity == id
  {
    var pairs := EntityPairs(rs);
    SetAllAt(s, pairs, id);
    if exists i :: 0 <= i < |rs| && rs[i].entity == id {
      var i :| 0 <= i < |rs| && rs[i].entity == id;
      assert pairs[i].0 == id;
    }
  }

  /** An entity the query did not return keeps its record. */
  lemma QueryKeepsUnlisted(s: Store, rs: seq<QueryEntity>, id: int)
    requires id in s.items
    requires forall i :: 0 <= i < |rs| ==> rs[i].entity != id
    ensures id in ApplyQuery(s, rs).items && ApplyQuery(s, rs).items[id] == s.items[id]
  {
    var pairs := EntityPairs(rs);
    SetAllAt(s, pairs, id);
    assert forall i :: 0 <= i < |pairs| ==> pairs[i].0 != id by {
      forall i | 0 <= i < |pairs| ensures pairs[i].0 != id {
        assert pairs[i].0 == rs[i].entity;
      }
    }
  }

  /**
   * `create_entity` replaces whole records: an entity the query returned holds the
   * record built from its last occurrence, with no components.
   */
  lemma QueryWritesLast(s: Store, rs: seq<QueryEntity>, i: int)
    requires 0 <= i < |rs|
    requires forall j :: i < j < |rs| ==> rs[j].entity != rs[i].entity
    ensures rs[i].entity in ApplyQuery(s, rs).items
    ensures ApplyQuery(s, rs).items[rs[i].entity] == NewEntity(rs[i])
    ensures ApplyQuery(s, rs).items[rs[i].entity].components == Empty()
  {
    SetAllAt(s, EntityPairs(rs), rs[i].entity);
    LastEntityBinding(rs, i);
  }

  /**
   * Entities cached before a query keep their positions; the new ones follow them
   * in the order in which the reply first returns them.
   */
  lemma QueryKeepsOrder(s: Store, rs: seq<QueryEntity>)
    ensures s.keys <= ApplyQuery(s, rs).keys
    ensures Valid(s) ==> ApplyQuery(s, rs).keys == s.keys + NewKeys(s.keys, EntityIds(rs))
  {
    SetAllKeepsOrder(s, EntityPairs(rs));
    if Valid(s) {
      SetAllKeys(s, EntityPairs(rs));
      assert Keys(EntityPairs(rs)) == EntityIds(rs);
    }
  }

  /** Applying the same query result twice leaves the cache, and so its roots, as applying it once. */
  lemma QueryIdempotent(s: Store, rs: seq<QueryEntity>)
    ensures ApplyQuery(ApplyQuery(s, rs), rs) == ApplyQuery(s, rs)
  {
    SetAllIdempotent(s, EntityPairs(rs));
  }

  /** A parentless entity cached by an earlier query and not returned again is still a root. */
  lemma RootsKeepEarlierEntities(s: Store, rs: seq<QueryEntity>, id: int)
    requires StoreValid(s)
    requires id in s.items && s.items[id].parent.None?
    requires forall i :: 0 <= i < |rs| ==> rs[i].entity != id
    ensures s.items[id] in Roots(ApplyQuery(s, rs))
  {
    QueryKeepsUnlisted(s, rs, id);
  }

  /**
   * A `bevy/list` result sets every listed path to a record with no parameters,
   * replacing one that had them; other paths keep their records, and the existing
   * paths keep their order.
   */
  lemma ListResetsListedPaths(s: Store, id: int, paths: seq<string>, path: string)
    requires id in s.items
    ensures var before, after := s.items[id].components, ApplyList(s, id, paths).items[id].components;
      && (path in paths ==> path in after.items && after.items[path] == BuildComponent(id, path, None)
                            && after.items[path].parms == [])
      && (path !in paths ==> (path in after.items <==> path in before.items)
                             && (path in before.items ==> after.items[path] == before.items[path]))
      && before.keys <= after.keys
  {
    var pairs := ListedPairs(id, paths);
    var before := s.items[id].components;
    assert ApplyList(s, id, paths).items[id].components == SetAll(before, pairs);
    SetAllAt(before, pairs, path);
    SetAllKeepsOrder(before, pairs);
    ListedLast(id, paths, path);
  }

  /** Every listed occurrence of a path carries the same empty record. */
  lemma ListedLast(id: int, paths: seq<string>, path: string)
    ensures LastBinding(ListedPairs(id, paths), path)
         == if path in paths then Some(BuildComponent(id, path, None)) else None
  {
    var pairs := ListedPairs(id, paths);
    if path in paths {
      var i :| 0 <= i < |paths| && paths[i] == path;
      assert pairs[i].0 == path;
      var r := LastBinding(pairs, path);
      var w :| 0 <= w < |pairs| && pairs[w] == (path, r.value) && forall j :: w < j < |pairs| ==> pairs[j].0 != path;
      assert paths[w] == path;
    } else {
      assert forall i :: 0 <= i < |pairs| ==> pairs[i].0 != path;
    }
  }

  lemma LastBindingOfValuePairs(id: int, values: seq<(string, Value)>, path: string)
    ensures LastBinding(ValuePairs(id, values), path)
         == (match LastBinding(values, path)
             case None => None
             case Some(v) => Some(BuildComponent(id, path, Some(v))))
  {
    var f := (p: string, v: Value) => BuildComponent(id, p, Some(v));
    assert ValuePairs(id, values) == MapBindings(values, f);
    LastBindingOfMapped(values, f, path);
  }

  /**
   * A `bevy/get` result replaces each path of its `components` map with a record
   * built from that path's value; paths it does not carry (the errored ones
   * included) keep their records.
   */
  lemma ValuesReplaceReturnedPaths(s: Store, id: int, values: seq<(string, Value)>, path: string)
    requires id in s.items
    ensures var before, after := s.items[id].components, ApplyValues(s, id, values).items[id].components;
      && (LastBinding(values, path).Some? ==>
            path in after.items && after.items[path] == BuildComponent(id, path, LastBinding(values, path)))
      && (LastBinding(values, path).None? ==>
            (path in after.items <==> path in before.items)
            && (path in before.items ==> after.items[path] == before.items[path]))
      && before.keys <= after.keys
  {
    var before := s.items[id].components;
    SetAllAt(before, ValuePairs(id, values), path);
    SetAllKeepsOrder(before, ValuePairs(id, values));
    LastBindingOfValuePairs(id, values, path);
  }

  /** A component for which `bevy/get` returned only an error keeps the parameters it had. */
  lemma ErroredComponentKeepsParms(s: Store, id: int, result: GetResult, path: string)
    requires forall i :: 0 <= i < |result.components| ==> result.components[i].0 != path
    ensures ParmsOf(ApplyValues(s, id, result.components), id, path) == ParmsOf(s, id, path)
  {
    if id in s.items {
      ValuesReplaceReturnedPaths(s, id, result.components, path);
    }
  }

  /**
   * After a `bevy/list` result, every listed path is among the entity's
   * component records, as a record without parameters.
   */
  lemma ComponentsAfterList(s: Store, id: int, paths: seq<string>, i: int)
    requires StoreValid(s) && id in s.items && 0 <= i < |paths|
    ensures var r := ComponentsOf(ApplyList(s, id, paths), id);
      exists j :: 0 <= j < |r| && r[j] == BuildComponent(id, paths[i], None) && r[j].parms == []
  {
    var after := ApplyList(s, id, paths);
    ListResetsListedPaths(s, id, paths, paths[i]);
    var c := after.items[id].components;
    assert paths[i] in c.items;
    var j :| 0 <= j < |c.keys| && c.keys[j] == paths[i];
    assert ComponentsOf(after, id)[j] == c.items[paths[i]];
  }

  /**
   * After a `bevy/get` result, a component of a cached entity has the parameters
   * built from the last value the result gives its path, or keeps its own when
   * the result has none for it.
   */
  lemma ParmsAfterGet(s: Store, id: int, values: seq<(string, Value)>, path: string)
    requires id in s.items
    ensures ParmsOf(ApplyValues(s, id, values), id, path)
         == if LastBinding(values, path).Some? then ParmList(LastBinding(values, path)) else ParmsOf(s, id, path)
  {
    ValuesReplaceReturnedPaths(s, id, values, path);
  }

  /** Two entities written into an empty cache sit in reply order. */
  lemma TwoEntityStore(e1: QueryEntity, e2: QueryEntity)
    requires e1.entity != e2.entity
    ensures ApplyQuery(Empty(), [e1, e2])
         == OMap([e1.entity, e2.entity], map[e1.entity := NewEntity(e1), e2.entity := NewEntity(e2)])
  {
    var s0: Store := Empty();
    var n1, n2 := NewEntity(e1), NewEntity(e2);
    QuerySnoc(s0, [], e1);
    assert [] + [e1] == [e1];
    QuerySnoc(s0, [e1], e2);
    assert [e1] + [e2] == [e1, e2];
    SetTwoKeys(e1.entity, n1, e2.entity, n2);
  }

  /**
   * Entity 1 is a root with child 2, and entity 2 has parent 1: the roots are
   * [1], the children of 1 are [2] and the parent of 2 is [1].
   */
  lemma HierarchyScenario()
    ensures var e1, e2 := QueryEntity(1, None, Some([2]), None), QueryEntity(2, None, None, Some(1));
      var s := ApplyQuery(Empty(), [e1, e2]);
      && Roots(s) == [NewEntity(e1)]
      && ChildrenOf(s, 1) == Some([NewEntity(e2)])
      && ParentOf(s, 2) == [NewEntity(e1)]
  {
    var e1, e2 := QueryEntity(1, None, Some([2]), None), QueryEntity(2, None, None, Some(1));
    var n1, n2 := NewEntity(e1), NewEntity(e2);
    TwoEntityStore(e1, e2);
    var s := ApplyQuery(Empty(), [e1, e2]);
    assert s.keys == [1, 2] && s.items == map[1 := n1, 2 := n2];
    assert Values(s) == [n1, n2];
    assert [n1, n2][1..] == [n2];
    assert Parentless([n2]) == [];
    ResolveOne(s, 2);
  }

  // ---------------------------------------------------------------------------
  // One response item at a time, as the source's loops write them

  /** Writing a query result is writing its items one `entities.set` after another. */
  lemma QuerySnoc(s: Store, rs: seq<QueryEntity>, r: QueryEntity)
    ensures ApplyQuery(s, rs + [r]) == Set(ApplyQuery(s, rs), r.entity, NewEntity(r))
  {
    assert EntityPairs(rs + [r]) == EntityPairs(rs) + [(r.entity, NewEntity(r))];
    SetAllSnoc(s, EntityPairs(rs), r.entity, NewEntity(r));
  }

  /** One `components.set` on a cached entity, or nothing when it is not cached. */
  function SetComponent(s: Store, id: int, path: string, c: Component): (r: Store)
    ensures r == ApplyComponents(s, id, [(path, c)])
  {
    assert [] + [(path, c)] == [(path, c)];
    SetAllSnoc(if id in s.items then s.items[id].components else Empty(), [], path, c);
    if id in s.items then Set(s, id, s.items[id].(components := Set(s.items[id].components, path, c))) else s
  }

  lemma ComponentsSnoc(s: Store, id: int, pairs: seq<(string, Component)>, path: string, c: Component)
    ensures ApplyComponents(s, id, pairs + [(path, c)]) == SetComponent(ApplyComponents(s, id, pairs), id, path, c)
  {
    if id in s.items {
      var e := s.items[id];
      SetAllSnoc(e.components, pairs, path, c);
      SetTwice(s, id, e.(components := SetAll(e.components, pairs)),
               e.(components := Set(SetAll(e.components, pairs), path, c)));
    }
  }

  lemma ListSnoc(s: Store, id: int, paths: seq<string>, path: string)
    ensures ApplyList(s, id, paths + [path]) == SetComponent(ApplyList(s, id, paths), id, path, BuildComponent(id, path, None))
  {
    ListedPairsSnoc(id, paths, path);
    ComponentsSnoc(s, id, ListedPairs(id, paths), path, BuildComponent(id, path, None));
  }

  lemma ListedPairsSnoc(id: int, paths: seq<string>, path: string)
    ensures ListedPairs(id, paths + [path]) == ListedPairs(id, paths) + [(path, BuildComponent(id, path, None))]
  {
  }

  /** A `bevy/list` result with a single path is a single `components.set`. */
  lemma ListOne(s: Store, id: int, path: string)
    ensures ApplyList(s, id, [path]) == SetComponent(s, id, path, BuildComponent(id, path, None))
  {
    ListedPairsOne(id, path);
  }

  lemma ListedPairsOne(id: int, path: string)
    ensures ListedPairs(id, [path]) == [(path, BuildComponent(id, path, None))]
  {
  }

  lemma ValuesSnoc(s: Store, id: int, values: seq<(string, Value)>, path: string, v: Value)
    ensures ApplyValues(s, id, values + [(path, v)])
         == SetComponent(ApplyValues(s, id, values), id, path, BuildComponent(id, path, Some(v)))
  {
    ValuePairsSnoc(id, values, path, v);
    ComponentsSnoc(s, id, ValuePairs(id, values), path, BuildComponent(id, path, Some(v)));
  }

  lemma ValuePairsSnoc(id: int, values: seq<(string, Value)>, path: string, v: Value)
    ensures ValuePairs(id, values + [(path, v)]) == ValuePairs(id, values) + [(path, BuildComponent(id, path, Some(v)))]
  {
  }

  /** The ids of a query result, in order. */
  function EntityIds(rs: seq<QueryEntity>): (ids: seq<int>)
    ensures |ids| == |rs| && forall i :: 0 <= i < |rs| ==> ids[i] == rs[i].entity
  {
    seq(|rs|, i requires 0 <= i < |rs| => rs[i].entity)
  }

  lemma EntityIdsSnoc(rs: seq<QueryEntity>, r: QueryEntity)
    ensures EntityIds(rs + [r]) == EntityIds(rs) + [r.entity]
  {
  }
}
