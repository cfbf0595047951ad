/**
 * `BevyRemote`: the client object that posts JSON-RPC requests to a Bevy game
 * and keeps what the replies say in its `entities` cache.
 *
 * Every query method takes the decoded reply as a parameter: `None` stands for a
 * request that failed (transport error, error status, or a body without the
 * expected `result`), which the source logs and otherwise ignores. The methods
 * return the request bodies they post.
 */
module Remote {
  import opened Wrappers
  import opened Json
  import opened OrderedMap
  import opened Parms
  import opened Protocol
  import opened Cache

  class BevyRemote {
    /** The endpoint requests are posted to: `host:port`. */
    const url: string
    /** The cache: entity id to record, in insertion order. */
    var entities: Store

    ghost predicate Valid()
      reads this
    {
      StoreValid(entities)
    }

    constructor (host: string, port: string)
      ensures Valid()
      ensures url == host + ":" + port
      ensures entities == Empty()
    {
      url := host + ":" + port;
      entities := Empty();
    }

    /** `create_entity`: a fresh record replaces whatever was cached under that id. */
    method CreateEntity(response: QueryEntity)
      requires Valid()
      modifies this
      ensures Valid()
      ensures entities == Set(old(entities), response.entity, NewEntity(response))
      ensures entities == ApplyQuery(old(entities), [response])
    {
      QuerySnoc(entities, [], response);
      assert [] + [response] == [response];
      entities := Set(entities, response.entity, NewEntity(response));
    }

    /** `create_component_of_entity`: an empty component record, if the entity is cached. */
    method CreateComponentOfEntity(id: int, path: string)
      requires Valid()
      modifies this
      ensures Valid()
      ensures entities == ApplyList(old(entities), id, [path])
    {
      var c := NewComponent(id, path, None);
      ListOne(entities, id, path);
      if id in entities.items {
        var e := entities.items[id];
        entities := Set(entities, id, e.(components := Set(e.components, path, c)));
      }
    }

    /** `create_parms_of_components_for_entity`: one record per member of the `components` map. */
    method CreateParmsOfComponentsForEntity(entity: int, componentMap: seq<(string, Value)>)
      requires Valid()
      modifies this
      ensures Valid()
      ensures entities == ApplyValues(old(entities), entity, componentMap)
    {
      for i := 0 to |componentMap|
        invariant entities == ApplyValues(old(entities), entity, componentMap[..i])
        invariant Valid()
      {
        var (path, value) := componentMap[i];
        var c := NewComponent(entity, path, Some(value));
        assert componentMap[..i + 1] == componentMap[..i] + [(path, value)];
        ValuesSnoc(old(entities), entity, componentMap[..i], path, value);
        if entity in entities.items {
          var e := entities.items[entity];
          entities := Set(entities, entity, e.(components := Set(e.components, path, c)));
        }
      }
      assert componentMap[..|componentMap|] == componentMap;
    }

    /**
     * The `forEach` of `query_all_entities`: writes each returned entity in order
     * and starts `query_components_for_entity` for it, without awaiting it. The
     * result lists the entities whose `bevy/list` request is posted this way.
     */
    method CreateEntities(rs: seq<QueryEntity>) returns (listed: seq<int>)
      requires Valid()
      modifies this
      ensures Valid()
      ensures entities == ApplyQuery(old(entities), rs)
      ensures listed == EntityIds(rs)
    {
      listed := [];
      assert rs[..0] == [];
      for i := 0 to |rs|
        invariant entities == ApplyQuery(old(entities), rs[..i])
        invariant Valid()
        invariant listed == EntityIds(rs[..i])
      {
        assert rs[..i + 1] == rs[..i] + [rs[i]];
        EntityIdsSnoc(rs[..i], rs[i]);
        QuerySnoc(old(entities), rs[..i], rs[i]);
        CreateEntity(rs[i]);
        listed := listed + [rs[i].entity];
      }
      assert rs[..|rs|] == rs;
    }

    /**
     * `query_all_entities`: posts `bevy/query`, then writes what it returned; each
     * entity in `listed` also gets a `bevy/list` request, `ListBody` of its id.
     */
    method QueryAllEntities(reply: Option<seq<QueryEntity>>) returns (body: Value, listed: seq<int>)
      requires Valid()
      modifies this
      ensures Valid()
      ensures body == QueryBody()
      ensures reply.None? ==> entities == old(entities) && listed == []
      ensures reply.Some? ==>
        && entities == ApplyQuery(old(entities), reply.value)
        && listed == EntityIds(reply.value)
    {
      body := QueryBody();
      listed := [];
      if reply.Some? {
        listed := CreateEntities(reply.value);
      }
    }

    /** `query_components_for_entity`: posts `bevy/list` and adds an empty record per listed path. */
    method QueryComponentsForEntity(entity: int, reply: Option<seq<string>>) returns (body: Value)
      requires Valid()
      modifies this
      ensures Valid()
      ensures body == ListBody(entity)
      ensures entities == if reply.Some? then ApplyList(old(entities), entity, reply.value) else old(entities)
    {
      body := ListBody(entity);
      if reply.Some? {
        var paths := reply.value;
        assert ListedPairs(entity, paths[..0]) == [];
        for i := 0 to |paths|
          invariant entities == ApplyList(old(entities), entity, paths[..i])
          invariant Valid()
        {
          assert paths[..i + 1] == paths[..i] + [paths[i]];
          ListSnoc(old(entities), entity, paths[..i], paths[i]);
          ListOne(entities, entity, paths[i]);
          CreateComponentOfEntity(entity, paths[i]);
        }
        assert paths[..|paths|] == paths;
      }
    }

    /**
     * `query_parms_for_entity_component`: posts `bevy/get` for one component and
     * writes the `components` map of the result; its `errors` map is not read.
     */
    method QueryParmsForEntityComponent(entity: int, component: string, reply: Option<GetResult>)
      returns (body: Value)
      requires Valid()
      modifies this
      ensures Valid()
      ensures body == GetBody(entity, component)
      ensures entities == if reply.Some? then ApplyValues(old(entities), entity, reply.value.components)
                          else old(entities)
    {
      body := GetBody(entity, component);
      if reply.Some? {
        CreateParmsOfComponentsForEntity(entity, reply.value.components);
      }
    }

    /** `get_all_entities`: query, then the cached records without a parent. */
    method GetAllEntities(reply: Option<seq<QueryEntity>>) returns (body: Value, listed: seq<int>, roots: seq<Entity>)
      requires Valid()
      modifies this
      ensures Valid()
      ensures body == QueryBody()
      ensures entities == if reply.Some? then ApplyQuery(old(entities), reply.value) else old(entities)
      ensures listed == if reply.Some? then EntityIds(reply.value) else []
      ensures roots == Roots(entities)
    {
      body, listed := QueryAllEntities(reply);
      roots := Roots(entities);
    }

    /** `get_components_of_entity`: list, then the entity's component records. */
    method GetComponentsOfEntity(entity: int, reply: Option<seq<string>>) returns (body: Value, components: seq<Component>)
      requires Valid()
      modifies this
      ensures Valid()
      ensures body == ListBody(entity)
      ensures entities == if reply.Some? then ApplyList(old(entities), entity, reply.value) else old(entities)
      ensures components == ComponentsOf(entities, entity)
    {
      body := QueryComponentsForEntity(entity, reply);
      components := ComponentsOf(entities, entity);
    }

    /** `get_parms_of_entity_component`: get, then the component's parameter records. */
    method GetParmsOfEntityComponent(entity: int, component: string, reply: Option<GetResult>)
      returns (body: Value, parms: seq<Parm>)
      requires Valid()
      modifies this
      ensures Valid()
      ensures body == GetBody(entity, component)
      ensures entities == if reply.Some? then ApplyValues(old(entities), entity, reply.value.components)
                          else old(entities)
      ensures parms == ParmsOf(entities, entity, component)
    {
      body := QueryParmsForEntityComponent(entity, component, reply);
      parms := ParmsOf(entities, entity, component);
    }
  }
}
