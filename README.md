# bevy-inspector: the remote cache and its tree views, in Dafny

bevy-inspector is a VS Code extension. It shows the entities of a running Bevy
game as a tree. It talks to the game's remote protocol (JSON-RPC 2.0 over HTTP)
and keeps what it learns in a local cache. This project models that core:

- `BevyRemote` (`src/bevyRemote.ts`). This is a class whose `entities` field maps
  entity ids to `BevyEntity` records, in insertion order. It has three requests:
  - `bevy/query` writes one record per returned entity, with `create_entity`.
  - `bevy/list` adds an empty component record per returned path, with
    `create_component_of_entity`.
  - `bevy/get` builds component records from the returned values, with
    `create_parms_of_components_for_entity`.

  Three lookups post their request first and then read the cache: the roots
  (`get_all_entities`), an entity's components (`get_components_of_entity`) and
  a component's parameters (`get_parms_of_entity_component`). Two read the cache
  synchronously: `get_children_of` and `get_parent_of`.
- The records `BevyEntity`, `BevyComponent` and `BevyComponentParm`. These
  include the short-name rule `path.split('<')[0].split('::').at(-1)` and the
  parameter tree built from a component's JSON value.
- `BevyInspectorProvider.getChildren` and `BevyTreeObject`
  (`src/bevyInspectorTreeProvider.ts`). These decide which cache call answers a
  node and how a node becomes a tree item.
- The older, stateless provider in `src/bevyInspector.ts`. It maps each reply
  straight to tree items. A non-empty `errors` map becomes one error leaf.

Modules, in dependency order:

| module | file | what it holds |
|---|---|---|
| `Wrappers` | `wrappers.dfy` | `Option` |
| `Json` | `json.dfy` | JSON values; the three JavaScript rules the client applies to them (array-or-object test, truthiness, `${v}` text); decimal text of integers |
| `OrderedMap` | `ordered_map.dfy` | a JavaScript `Map`: keys in insertion order plus a map; `set` and a run of `set`s |
| `ShortName` | `short_name.dfy` | `split('<')[0]`, `split('::')` (it scans from the left and does not overlap) and `.at(-1)` |
| `Parms` | `parms.dfy` | `BevyComponentParm` and `BevyComponent`, with their constructors as loop methods |
| `Protocol` | `protocol.dfy` | the request bodies, a reading of them back, and the reply records |
| `Cache` | `cache.dfy` | `BevyEntity`; the cache as a value; what each reply does to it; the lookups |
| `Remote` | `remote.dfy` | class `BevyRemote`, with methods that change `entities` in place |
| `TreeProvider` | `tree_provider.dfy` | `getChildren` dispatch; `BevyTreeObject` |
| `Inspector` | `inspector.dfy` | the older provider |

Each request method takes the decoded reply as a parameter. `None` stands for a
request that failed: a transport error, an error status, or a body without the
expected `result`. The source logs such a failure and changes nothing, and so
does the model. Each method returns the request body it posts.

Behaviours of the code that the contracts pin down:

- `create_entity` replaces the whole record, so a query drops the components
  fetched earlier for every entity it returns (`Cache.QueryWritesLast`).
- A `bevy/list` reply replaces every listed component with an empty record, even
  one already holding parameters (`Cache.ListResetsListedPaths`).
- The current provider never reads the `errors` map of `bevy/get`. An errored
  component keeps whatever it had (`Cache.ErroredComponentKeepsParms`), and no
  diagnostic node appears. Only the older provider builds the error leaf
  (`Inspector.ComponentValues`).
- The roots are listed in cache order (`Array.from(this.entities.values())`),
  not in the order of the latest reply. Entities cached earlier come first, and
  new ones follow in the order the reply first returns them
  (`Cache.QueryKeepsOrder`).
- `get_parent_of` tests the parent id for truthiness, so a parent id of 0 gives
  no parent (`Cache.ParentOf`).

## Model

| member | source | states |
|---|---|---|
| `Json.NatToString` | src/bevyRemote.ts:171 | the decimal text of an id is a non-empty string of digits without a leading zero |
| `Json.IntToString` | src/bevyInspector.ts:119-121 | the text of an id starts with '-' exactly when the id is negative, and is otherwise made of digits |
| `Json.ParseIntToString` | src/bevyRemote.ts:171-172 | the text `${id}` read as a decimal gives the id back |
| `Json.IntToStringInjective` | src/bevyInspector.ts:119-121 | two ids have the same text exactly when they are equal |
| `Json.ArrayEntryKeys` | src/bevyRemote.ts:252-253 | `for…in` over an array visits keys that read back as their indices and are pairwise distinct |
| `Json.Entries` | src/bevyRemote.ts:252-253 | `for…in` over an array gives its items in order; over an object, its members; every entry holds a part of the value |
| `Json.Text` | src/bevyRemote.ts:257 | `${parm}` of a string is the string; of a number, a text that reads back as the number; of a boolean, "true" or "false" as it is; of null, "null" |
| `Json.TruthyRule` | src/bevyRemote.ts:216-217 | a value is falsy exactly when it is null, false, 0 or the empty string; an array or object is never falsy |
| `Json.Find` | src/bevyRemote.ts:171 | a property read finds a value exactly when some member has that key, and the value is that member's |
| `Json.FindFirst` | src/bevyRemote.ts:171 | the value read is that of the first member with the key |
| `OrderedMap.Set` | src/bevyRemote.ts:61 | `Map.set` keeps the keys distinct and in step with the bindings |
| `OrderedMap.Values` | src/bevyRemote.ts:181 | `Array.from(m.values())` has one value per key, in key order, each the value bound to that key |
| `OrderedMap.ValuesOfBindings` | src/bevyRemote.ts:22 | every bound value is among the values, and every value listed is bound to some key |
| `OrderedMap.SetAll` | src/bevyRemote.ts:74-78 | a run of `Map.set`s keeps the map well formed |
| `OrderedMap.LastBinding` | src/bevyRemote.ts:74-78 | finds the last binding of a key in a run of `set`s, or reports that there is none |
| `OrderedMap.SetAllAt` | src/bevyRemote.ts:74-78 | after a run of `set`s, a key is bound to its last value in the run, or else keeps its old binding; no other key appears |
| `OrderedMap.SetAllKeepsOrder` | src/bevyRemote.ts:22 | keys already present keep their positions: the old key order is a prefix of the new one |
| `OrderedMap.SetAllKeys` | src/bevyRemote.ts:61 | after a run of `set`s the keys are the old keys, in their order, followed by each key new to the map at its first `set`, in the order of the run |
| `OrderedMap.SetAllKnownKeys` | src/bevyRemote.ts:67 | `set`s on keys that are all present leave the key order unchanged |
| `OrderedMap.SetAllIdempotent` | src/bevyRemote.ts:58-64 | repeating the same run of `set`s changes nothing |
| `ShortName.BeforeGeneric` | src/bevyRemote.ts:210 | `split('<')[0]` is the prefix before the first '<' and holds no '<' |
| `ShortName.Split` | src/bevyRemote.ts:210 | `split('::')` gives at least one part, and the first part is a prefix of the text |
| `ShortName.JoinSplit` | src/bevyRemote.ts:210 | joining the parts with "::" gives back the text |
| `ShortName.SplitPartsHaveNoSep` | src/bevyRemote.ts:210 | no part contains "::" |
| `ShortName.SplitWithoutSep` | src/bevyRemote.ts:210 | a text without "::" is a single part |
| `ShortName.SplitQualified` | src/bevyRemote.ts:210 | splitting `q::n` gives the parts of `q` followed by `n` |
| `ShortName.ShortName` | src/bevyRemote.ts:210 | the short name holds no '<' and no "::"; it is a suffix of the text before the first '<', and either all of that text or preceded there by "::" |
| `ShortName.ShortNameOfQualified` | src/bevyRemote.ts:210 | `q::n<…>` has the short name `n` for any module path `q` not ending in ':' |
| `ShortName.ShortNameOfGenericPath` | src/bevyRemote.ts:210 | "game::physics::Velocity<f32>" is shown as "Velocity" |
| `ShortName.ShortNameOfPlainName` | src/bevyRemote.ts:210 | a name with no '<' and no "::" is its own short name |
| `Parms.BuildParm` | src/bevyRemote.ts:238-259 | a parameter node copies name and value; it is collapsible and has subparameters exactly for an array or object, and has a description exactly for a scalar |
| `Parms.NewParm` | src/bevyRemote.ts:248-254 | the `push` loop over `for (subparm in parm)` builds the tree `BuildParm` describes |
| `Parms.ParmList` | src/bevyRemote.ts:214-224 | a falsy or absent value gives no parameters; an array or object gives one per entry, in order, each named by its key and built from its value; any other value gives one leaf named "" |
| `Parms.BuildComponent` | src/bevyRemote.ts:207-224 | a component record keeps the entity and the path, shows the path as tooltip, and carries the parameter list built from the value |
| `Parms.NewComponent` | src/bevyRemote.ts:202-225 | the `BevyComponent` constructor, with its `push` loop, builds the record `BuildComponent` describes |
| `Parms.ParmTreeMirrorsValue` | src/bevyRemote.ts:248-254 | a key path reaches a node in the parameter tree exactly when it reaches a value in the JSON, and the node is the one built from that value |
| `Parms.TransformExample` | src/bevyRemote.ts:216-219 | a Transform value gives a "translation" branch with leaves x, y and z showing "1", "2" and "3" |
| `Protocol.ReadStringsOfStrings` | src/bevyRemote.ts:90-94 | a string array in a body reads back as the same strings |
| `Protocol.DecodeEncode` | src/bevyRemote.ts:84-142 | every request body reads back as the id and request it was written for |
| `Protocol.QueryBodyDecodes` | src/bevyRemote.ts:84-97 | the query body is a `bevy/query` with id 0 asking for Parent, Children and Name as optional components |
| `Protocol.ListBodyDecodes` | src/bevyRemote.ts:113-120 | the list body is a `bevy/list` for the entity, with the entity as id |
| `Protocol.GetBodyDecodes` | src/bevyRemote.ts:134-142 | the get body is a `bevy/get` for exactly one component of the entity, with the entity as id |
| `Protocol.PlainQueryBodyDecodes` | src/bevyInspector.ts:40-48 | the older provider's query body is a `bevy/query` with id 0 and no optional components |
| `Cache.NewEntity` | src/bevyRemote.ts:166-178 | a fresh entity record has the reply's id and an empty, well-formed component map |
| `Cache.NewEntityLabels` | src/bevyRemote.ts:170-175 | the name is the Name component's, else the id's text; the tooltip adds " - id" to a non-empty name, else it is the id's text; parent and children are copied; there are no components |
| `Cache.ApplyQuery` | src/bevyRemote.ts:102-105 | writing a query reply keeps every record under its own id and every component under its own path |
| `Cache.QueryCachedIds` | src/bevyRemote.ts:58-64 | after a query, an id is cached exactly when it was cached before or the reply holds it |
| `Cache.QueryKeepsUnlisted` | src/bevyRemote.ts:58-64 | an entity the reply does not hold keeps its record |
| `Cache.QueryWritesLast` | src/bevyRemote.ts:58-64 | an entity the reply holds gets the record built from its last occurrence, with no components |
| `Cache.QueryKeepsOrder` | src/bevyRemote.ts:61 | entities cached before a query keep their positions; the new ones follow, in the order in which the reply first returns them |
| `Cache.QueryIdempotent` | src/bevyRemote.ts:102-105 | applying the same query reply twice gives the cache that applying it once gives |
| `Cache.RootsKeepEarlierEntities` | src/bevyRemote.ts:19-23 | a parentless entity from an earlier query that a later reply omits is still a root |
| `Cache.ApplyComponents` | src/bevyRemote.ts:67 | component writes run the `set`s on the component map of that one entity; its id, name, tooltip, parent and children stay as they were, every other entity keeps its record, and an uncached entity leaves the cache unchanged |
| `Cache.ApplyList` | src/bevyRemote.ts:66-70 | a list reply keeps the cache well formed and adds or moves no entity |
| `Cache.ApplyValues` | src/bevyRemote.ts:72-81 | a get reply keeps the cache well formed and adds or moves no entity |
| `Cache.ListResetsListedPaths` | src/bevyRemote.ts:66-70 | a listed path gets an empty record, replacing any parameters it had; other paths keep their records; existing paths keep their order |
| `Cache.ListedLast` | src/bevyRemote.ts:66-67 | every listed occurrence of a path writes the same empty record, so that record is the last one written; an unlisted path gets none |
| `Cache.ValuesReplaceReturnedPaths` | src/bevyRemote.ts:72-81 | a returned path gets the record built from its last value in the reply; other paths keep their records |
| `Cache.ErroredComponentKeepsParms` | src/bevyRemote.ts:147 | a component that the get reply only reports as an error keeps the parameters it had |
| `Cache.ComponentsAfterList` | src/bevyRemote.ts:25-29 | after a list reply, every listed path is among the entity's component records, as a record without parameters |
| `Cache.ParmsAfterGet` | src/bevyRemote.ts:31-35 | after a get reply, a component's parameters are built from the last value the reply gives its path, or stay what they were when it gives none |
| `Cache.Parentless` | src/bevyRemote.ts:22 | the filter keeps exactly the records without a parent, in their order |
| `Cache.Roots` | src/bevyRemote.ts:22 | the roots are all the cached records without a parent and nothing else, as a subsequence of the cache's values, so in cache order |
| `Cache.Resolve` | src/bevyRemote.ts:38 | mapping ids to records and dropping the uncached ones gives at most one record per id, exactly the records of cached ids, and, when all are cached, those records in order |
| `Cache.ResolveOne` | src/bevyRemote.ts:38 | one id gives its record, or nothing when it is not cached |
| `Cache.ResolveConcat` | src/bevyRemote.ts:38 | resolving `a + b` gives the records of `a` followed by those of `b`, so the kept records stay in the order of the ids |
| `Cache.ChildrenOf` | src/bevyRemote.ts:37-39 | the result is undefined exactly when the entity is unknown or has no Children list; otherwise it holds the cached children |
| `Cache.ParentOf` | src/bevyRemote.ts:41-50 | there is at most one parent; there is one exactly when the entity is cached, its parent id is present and non-zero, and the parent is cached |
| `Cache.ComponentsOf` | src/bevyRemote.ts:180-182 | the component list holds the cached record of each path, one per path, in insertion order, each naming its path and entity; an unknown entity has none |
| `Cache.SetComponent` | src/bevyRemote.ts:77 | one `components.set` through `get(entity)?.` equals writing a one-pair reply |
| `Cache.HierarchyScenario` | src/bevyRemote.ts:37-50 | with entity 1 holding child 2 and entity 2 holding parent 1, the roots are [1], the children of 1 are [2], and the parent of 2 is [1] |
| `Remote.BevyRemote.constructor` | src/bevyRemote.ts:10-17 | the endpoint is `host:port` and the cache starts empty |
| `Remote.BevyRemote.CreateEntity` | src/bevyRemote.ts:58-64 | the new cache is the old one with the fresh record set under the reply's id |
| `Remote.BevyRemote.CreateComponentOfEntity` | src/bevyRemote.ts:66-70 | the new cache is the old one with an empty record set at the path, if the entity is cached |
| `Remote.BevyRemote.CreateParmsOfComponentsForEntity` | src/bevyRemote.ts:72-81 | the loop writes one built record per member of the `components` map, in order |
| `Remote.BevyRemote.CreateEntities` | src/bevyRemote.ts:102-105 | the `forEach` writes the reply's entities in order and starts one list request per entity, in reply order |
| `Remote.BevyRemote.QueryAllEntities` | src/bevyRemote.ts:83-110 | posts the query body; a reply is written into the cache; a failure changes nothing |
| `Remote.BevyRemote.QueryComponentsForEntity` | src/bevyRemote.ts:112-131 | posts the list body; each listed path gets an empty record; a failure changes nothing |
| `Remote.BevyRemote.QueryParmsForEntityComponent` | src/bevyRemote.ts:133-151 | posts the get body for one component; its `components` map is written; a failure changes nothing |
| `Remote.BevyRemote.GetAllEntities` | src/bevyRemote.ts:19-23 | queries, then returns the roots of the updated cache |
| `Remote.BevyRemote.GetComponentsOfEntity` | src/bevyRemote.ts:25-29 | lists, then returns the entity's component records |
| `Remote.BevyRemote.GetParmsOfEntityComponent` | src/bevyRemote.ts:31-35 | gets, then returns that component's parameters |
| `TreeProvider.RouteOfQualifiedComponent` | src/bevyInspectorTreeProvider.ts:23-31 | a component whose last path segment is "Children" or "Parent" goes to the hierarchy lookups, whatever its module path; any other component asks for its parameters under its full path |
| `TreeProvider.RouteOfChildrenPath` | src/bevyInspectorTreeProvider.ts:24-25 | Bevy's Children component expands to the entity's children |
| `TreeProvider.RouteOfParentPath` | src/bevyInspectorTreeProvider.ts:26-27 | Bevy's Parent component expands to the entity's parent |
| `TreeProvider.RouteOfNamePath` | src/bevyInspectorTreeProvider.ts:28-31 | the Name component expands to its parameters, fetched under the full path |
| `TreeProvider.InspectorProvider.constructor` | src/bevyInspectorTreeProvider.ts:9-13 | the provider keeps the remote it is given |
| `TreeProvider.InspectorProvider.GetChildren` | src/bevyInspectorTreeProvider.ts:19-40 | the cache is updated by the one request the node's route posts, and the children are what that route reads from the updated cache |
| `TreeProvider.ChildrenNodeListsCachedChildren` | src/bevyInspectorTreeProvider.ts:24-25 | a Children component lists the cached records of the entity's children in the order of its Children list, skipping uncached ids, and nothing else |
| `TreeProvider.AnswerUndefined` | src/bevyInspectorTreeProvider.ts:19-40 | `getChildren` yields undefined exactly for a parameter without sub-parameters and for a Children component whose entity is unknown or has no Children list |
| `TreeProvider.LookupsPostNothing` | src/bevyInspectorTreeProvider.ts:24-33 | expanding a Children or Parent component or a parameter posts no request and leaves the cache unchanged |
| `TreeProvider.ParentNodeListsParent` | src/bevyInspectorTreeProvider.ts:26-27 | a Parent component lists the parent's record, or nothing when the parent id is 0 or not cached |
| `TreeProvider.RootLevelListsParentless` | src/bevyInspectorTreeProvider.ts:35-36 | the root level lists every cached parentless entity and nothing else |
| `TreeProvider.ParmNodeListsSubparms` | src/bevyInspectorTreeProvider.ts:32-33 | a parameter node has children exactly when its value is an array or object: one per key, in order |
| `TreeProvider.TreeObject` | src/bevyInspectorTreeProvider.ts:52-59 | the item's label is the node's name; it is Collapsed exactly when the node is collapsible; description and tooltip are copied |
| `TreeProvider.EntityItem` | src/bevyRemote.ts:156-178 | an entity item is always expandable; its label is the name or the id's text, and its tooltip adds the id to a non-empty name |
| `TreeProvider.ComponentItem` | src/bevyRemote.ts:193-213 | a component item shows the short name, has the full path as tooltip, and is always expandable |
| `TreeProvider.ParmItem` | src/bevyRemote.ts:228-259 | a parameter item is expandable exactly for an array or object; a leaf is described by the text of its value; there is no tooltip |
| `Inspector.Item` | src/bevyInspector.ts:115-145 | an entity item shows text that reads back as its id, with the same text as tooltip; a component item shows the short name, with the full path as description and tooltip; the error item shows its message; only the error item cannot be expanded |
| `Inspector.ListEntities` | src/bevyInspector.ts:50-59 | one entity node per returned entity, in reply order; none when the request fails |
| `Inspector.EntityComponents` | src/bevyInspector.ts:72-80 | one component node per listed path, in reply order, all for the expanded entity; none when the request fails |
| `Inspector.ComponentValues` | src/bevyInspector.ts:94-111 | the error leaf appears exactly when the request succeeded and `errors` has a member, and then it is the only node; otherwise nothing appears |
| `Inspector.RequestFor` | src/bevyInspector.ts:22-37 | every request goes to the fixed endpoint; the root posts the plain query, an entity a list for itself, a component a get for its path, and the error leaf nothing |
| `Inspector.Children` | src/bevyInspector.ts:22-37 | when every request fails nothing is listed; the error leaf has no children; the error leaf appears only under a component |
| `Inspector.EntityLabelsDistinct` | src/bevyInspector.ts:119-121 | two entity nodes of one reply have the same label exactly when they have the same id |
| `Inspector.ComponentNodeLabel` | src/bevyInspector.ts:132-137 | the label of `q::n<…>` is `n` |

## Left out

- HTTP transport (`axios.post`). Replies are parameters of the methods, and failures are `None`.
- JSON parsing of the raw replies into the reply records. A `bevy/query` entity arrives already read into id, name, children and parent.
- The VS Code glue: the `TreeItem` and `EventEmitter` base classes, `refresh`, `getTreeItem`, and the activation code in `src/extension.ts`.
- The `onUpdate` hook. Every call to it is commented out.
- `console.log` calls. The response types for spawn, destroy, insert, reparent and watch are never used. The unused class `BevyComponentParmString` is also left out.
- Remote.BevyRemote.QueryAllEntities: its `bevy/list` calls are started without `await`. The model returns the ids they are posted for. Their replies arrive later, in any order, and are not applied here. Each reply, when it arrives, is one `QueryComponentsForEntity` step.
- Interleaving of asynchronous calls. Each reply is applied as one sequential step, so two expansions racing on one node are not modelled.
- A throw in the middle of a reply loop writes part of the reply before the catch. The model treats a reply as either fully applied or not at all.
- Remote.BevyRemote.CreateComponentOfEntity: in the source, the `components` map of the cached `BevyEntity` object is updated in place, and tree nodes handed out earlier alias that object. The model replaces the entity's entry in `entities` instead. This gives the same contents under every id, but the model does not capture the aliasing.
- Json.Text: numbers are integers. JavaScript's formatting of floating-point numbers in `${parm}` is not modelled.
- Json.Value: an object's members are taken in the order in which JavaScript enumerates them (integer-like keys first), and with distinct keys, as `JSON.parse` delivers them.
- `?? path` (`src/bevyRemote.ts:210`) and `?? ""` (`src/bevyInspector.ts:132`) are never used, because `split` always returns at least one part (`ShortName.Split`). The model has no fallback.
- The routing of `getChildren` puts an element that is none of the three kinds to `Promise.resolve([])` (`src/bevyInspectorTreeProvider.ts:39`, `src/bevyInspector.ts:36`). Every value of the model's node types is one of those kinds, apart from the older provider's error leaf, which gets no children.
