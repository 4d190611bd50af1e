# Entity-graph query invalidation, modelled in Dafny

This project models the core of `tanstack-query-entity-graph`. The library lets an
application declare once how its entities depend on one another. After a mutation succeeds,
it invalidates and resets the matching TanStack queries, and it relays the mutation to the
other roots of the page through a window event.

The model has three parts, one per source file:

- `graph.dfy` (module `EntityGraph`) covers `buildGraph` and `getDependencies`.
  - `buildGraph` folds the configuration values into a map from entity name to a node.
    A node holds two independent relation sets, `invalidate` and `reset`.
  - A JavaScript `Set` iterates in insertion order. So each relation set is a sequence
    without repetitions, and `Add` models `Set.prototype.add`. `AddAllOrder` pins the
    order: new elements follow their first occurrence in the added list.
  - `BuildGraph` is a method with loops, as the source's `reduce` and `forEach` calls are.
    It is proved equal to the fold `GraphOf`, and the lemmas about `GraphOf` state what
    the graph contains.
  - `utils.ts` imports `getDependencies` from `./graph`, but `graph.ts` does not define
    it. `Dependencies` is this model's own definition of it, and so an assumption about
    code the model cannot see. It is a depth-first walk with a visited set: results come
    in first-discovery order, the start entity is excluded, an entity without a node has
    no relations, and a cycle ends the walk. `DependenciesAreClosure` proves that it lists
    exactly the transitive closure under one relation kind.
- `utils.dfy` (module `Utils`) covers `updateQueries`.
  - A query client is an append-only trace of calls (`External.QueryClient`).
  - `UpdateQueries` appends `QueryOps(ResolverOf(graph), entities)`.
  - The lemmas about `QueryOps` hold for any resolver, that is, for whatever sequence
    `getDependencies` returns. `CallsFollowRelations` combines them with the closure
    result.
- `middleware.dfy` (module `Middleware`) covers `createMutationMiddleware`.
  - The class `MutationMiddleware` holds the captured state: its root's query client, the
    page's window, the graph (built once, a `const`), an `active` flag, the set of
    registered window listeners and whether the mutation-cache subscription is live.
  - Every root of a page has its own query client, and all roots share one window
    (`External.Window`). Each keeps its own trace of calls.
  - `window.dispatchEvent` runs every listener registered on the window, the sender's own
    included. `DeliverMutation` (one root) and `RelayAcrossRoots` (two roots) perform that
    delivery and state what each client then receives.
- `types.dfy` (module `Types`) holds the data model of `src/lib/types.ts`.
- `external.dfy` (module `External`) holds the query client and the window.

Where the tests and the code disagree, the model follows the code:

- The tests in `src/test/utils.test.ts:36-132` call `updateQueries` with one
  `EntityAction` (a name, an action kind, and optional key, invalidate and reset
  overrides). The code at `src/lib/utils.ts:5-26` takes a list of entity names. For each
  name it issues invalidate calls for the name and its invalidate-dependencies, then reset
  calls for the name and its reset-dependencies. So every affected entity is both
  invalidated and reset.
- The type declarations (`src/lib/index.d.ts:3,9`), the demo (`src/user.tsx:6`) and the
  tests (`src/test/middleware.test.ts:67,94`) put the list under `affects`. The
  middleware reads `options.entities` and `detail.entities`.

## Model

| member | source | states |
|---|---|---|
| `EntityGraph.Add` | src/lib/graph.ts:10 | adding a name gives the old set plus that name; a set without repetitions keeps none; existing entries keep their order |
| `EntityGraph.AddAll` | src/lib/graph.ts:9-11 | adding a list gives the union of the set and the list, without repetitions, and extends the old set in place |
| `EntityGraph.AddAllOrder` | src/lib/graph.ts:9-15 | the names a `forEach` of `add` appends come from the added list, were not in the set before, and appear in the order of their first occurrence in that list, as a JavaScript `Set` keeps them |
| `EntityGraph.AddEach` | src/lib/graph.ts:9-15 | the `forEach` loop that adds each related name to one node's set of one kind gives exactly `Extend` of the graph |
| `EntityGraph.BuildGraph` | src/lib/graph.ts:3-19 | the loop builds `GraphOf(configs)`; its keys are exactly the `name` fields, so an empty configuration gives an empty map; each node's set of each kind is the union of the lists of that kind declared under that name, without repetitions |
| `EntityGraph.AddEntityEffect` | src/lib/graph.ts:4-17 | one reduce step creates the entity's node if it is missing, extends that node's two sets by the declared lists, and leaves every other node unchanged |
| `EntityGraph.GraphOfKeys` | src/lib/graph.ts:4-7 | the nodes are exactly the configured names; relation targets that are never configured get no node |
| `EntityGraph.GraphOfRelated` | src/lib/graph.ts:9-15 | a node's set of a kind equals the union of that kind's lists over all values with that name, with no repetitions; a value with no lists contributes two empty sets |
| `EntityGraph.RelationsIndependent` | src/lib/graph.ts:9-15 | invalidate lists never reach reset sets and vice versa: configurations that agree on names and on one kind's lists give identical sets of that kind |
| `EntityGraph.GraphOfExtends` | src/lib/graph.ts:5-7 | a further value with an already-seen name extends that node (its old sets are prefixes of the new ones) and leaves every other node as it was |
| `EntityGraph.TwoEntitiesExample` | src/test/graph.test.ts:62-79 | the two-entity configuration gives nodes `user` and `post` only, with `stats` only in the reset set of `user` |
| `EntityGraph.DependenciesDistinct` | src/lib/utils.ts:11-12 | the resolved dependencies never repeat an entity and never contain the start entity |
| `EntityGraph.DependenciesAreClosure` | src/lib/utils.ts:11-12 | an entity other than the start is a dependency exactly when it is reachable from the start through relations of that kind; an entity without relations of that kind, including one without a node, has none |
| `EntityGraph.CycleTerminates` | src/lib/utils.ts:11 | on the cycle `a -> b -> a` the dependencies of `a` are exactly `["b"]` |
| `Utils.Lower` | src/lib/utils.ts:16 | lower-casing keeps the length, leaves no ASCII upper-case letter, and changes only upper-case letters, each to its lower-case form |
| `Utils.IssueAll` | src/lib/utils.ts:14-18 | issuing one kind for a list of names appends one call per name, in order, each keyed by the lower-cased name alone |
| `Utils.UpdateEntity` | src/lib/utils.ts:11-24 | the per-entity callback appends exactly `EntityOps` for that entity, using the resolved dependency lists |
| `Utils.UpdateQueries` | src/lib/utils.ts:5-26 | the client's trace grows by exactly `QueryOps(ResolverOf(graph), entities)`; an empty list adds nothing |
| `Utils.QueryOpsAppend` | src/lib/utils.ts:10 | the calls for `a + b` are those for `a` followed by those for `b`; nothing is merged or deduplicated across entities |
| `Utils.QueryOpsSplit` | src/lib/utils.ts:10 | all calls for `entities[i]` come after those for earlier entities and before those for later ones |
| `Utils.QueryOpsOfEntity` | src/lib/utils.ts:14-24 | for one entity: invalidate it, invalidate each invalidate-dependency in order, reset it, reset each reset-dependency in order, each under the key `[lower-cased name]` |
| `Utils.MainEntityActedOn` | src/lib/utils.ts:14-24 | every affected entity is both invalidated and reset under its default key, whatever the graph holds |
| `Utils.QueryOpsProvenance` | src/lib/utils.ts:11-24 | every call is an invalidate or a reset of the default key of an affected entity, or of one of its dependencies of the same kind; it never touches the mutation-cache subscription |
| `Utils.CallsFollowRelations` | src/lib/utils.ts:11-24 | with the model's resolver, every call addresses an affected entity or one reachable from it through relations of the call's own kind |
| `Utils.QueryOpsCount` | src/lib/utils.ts:10-24 | there are exactly `1 + \|deps\|` calls of each kind per entity, and the total is the sum of these over the entities |
| `Middleware.MutationTrigger` | src/lib/middleware.ts:28-30 | a cache notification triggers exactly when the mutation succeeded and its `options.entities` is present and non-empty; the payload is that list |
| `Middleware.InvalidationOutcome` | src/lib/middleware.ts:18-23 | an event without a detail throws a TypeError; an event is acted on exactly when `detail.entities` is present and non-empty, with that list; anything else is ignored |
| `Middleware.AffectsIsIgnored` | src/lib/middleware.ts:28 | whatever `options.affects` holds, the notification's outcome is decided by `options.entities` alone |
| `Middleware.MutationMiddleware.constructor` | src/lib/middleware.ts:12-27 | the graph is `GraphOf(entityConfig)`, built once; exactly one window listener for `QUERY_INVALIDATION_EVENT` and one cache subscription are registered; the instance is active |
| `Middleware.MutationMiddleware.OnMutationEvent` | src/lib/middleware.ts:27-41 | a triggering notification appends `QueryOps` of its entities to this root's client and one dispatch carrying the same list to the window; anything else, or a notification after unsubscribing, changes nothing |
| `Middleware.MutationMiddleware.OnInvalidationEvent` | src/lib/middleware.ts:18-23 | while registered, the listener's outcome is `InvalidationOutcome` of the event, and only an update changes the client, by exactly `QueryOps` of the list; it never calls the window, so a broadcast travels one hop; once removed it does nothing |
| `Middleware.MutationMiddleware.Cleanup` | src/lib/middleware.ts:43-48 | removes the listener registered for `QUERY_INVALIDATION_EVENT` and calls unsubscribe; the instance is torn down for good |
| `Middleware.DeliverMutation` | src/lib/middleware.ts:18-40 | in a page with one root, a triggering mutation dispatches once, and the client receives `QueryOps` twice: from the callback and from its own listener |
| `Middleware.RelayAcrossRoots` | src/lib/middleware.ts:18-40 | two roots sharing the window: one dispatch; the sender's client receives `QueryOps` twice and the receiver's once; a non-triggering notification changes nothing anywhere |
| `Middleware.MutationMiddleware.OnMutationEventDispatchOnly` | src/lib/middleware.ts:27-41 | the callback without its local `updateQueries`: a triggering notification only dispatches the list on the window |
| `Middleware.RelayOnce` | src/lib/middleware.ts:18-40 | with the dispatch-only callback, the sender's and the receiver's clients each receive `QueryOps` exactly once |
| `Middleware.UserCalledTwice` | src/test/middleware.test.ts:51-78 | for the configuration `{ user: { name: 'user' } }`, `updateQueries` on `['user']` makes exactly the two calls invalidate and reset of `['user']`, so two applications differ from one |

## Findings

| source | as written | input that shows it | evidently intended | confidence | as-written member | corrected member |
|---|---|---|---|---|---|---|
| src/lib/middleware.ts:31-39 | the mutation callback runs `updateQueries` on its own client, then dispatches on the window, where its own listener (registered at line 25) runs `updateQueries` on the same client again | one root, configuration `{ user: { name: 'user' } }`, a successful mutation with `entities: ['user']`: the client receives invalidate, reset, invalidate, reset of `['user']` | every root's client, the sender's included, receives the calls once | medium; not executed | `Middleware.DeliverMutation` with `Middleware.UserCalledTwice` | `Middleware.RelayOnce` |

## Left out

- `getDependencies`: `utils.ts` imports it from `./graph`, but `graph.ts` does not define it. `EntityGraph.Dependencies` is this model's definition (a depth-first walk with a visited set), and the closure lemmas are about that definition. The `Utils` lemmas hold for any resolver.
- The configuration record: `buildGraph` uses only `Object.values(config)`. The model takes those values as a sequence in order. Integer-like record keys, which JavaScript enumerates first, are not modelled.
- `processEntityConfig`, `EntityAction` with `queryKey`/`invalidate`/`reset` overrides, and `EntityMutationConfig`: the tests in `src/test/utils.test.ts` use them, but `src/lib/utils.ts` does not define them.
- The `affects` field: the type declarations, the demo and the tests use it, but the middleware reads `entities`. `AffectsIsIgnored` records that it has no effect.
- The query client's and mutation cache's internals, including key-prefix matching: each call is recorded in the client's trace and has no further effect.
- Event delivery in general: the model delivers a dispatched event only in `DeliverMutation` (one root) and `RelayAcrossRoots` (two roots). Pages with more roots, and the order in which the window runs its listeners, are not modelled; each listener acts only on its own client, so that order does not change any client's calls.
- The window's reporting of an exception thrown by a listener: `OnInvalidationEvent` returns `TypeError` and changes nothing, and the window goes on with the other listeners.
- `Middleware.MutationMiddleware.constructor`: the order of `addEventListener` before `subscribe` is not stated, because the window and the query client keep separate traces.
- `Middleware.MutationMiddleware.OnMutationEvent`: the order of the `updateQueries` calls before the dispatch is not stated, because the window and the query client keep separate traces.
- `Middleware.MutationMiddleware.Cleanup`: the order of `removeEventListener` before `unsubscribe` is not stated, because the window and the query client keep separate traces.
- `Utils.Lower`: only ASCII `A`–`Z` are lower-cased. Full Unicode `toLowerCase` is not modelled.
- The React provider (`src/lib/provider.tsx`), the demo (`src/App.tsx`, `src/main.tsx`, `src/user.tsx`), the build configuration and `scripts/generate-index.mjs`: these are UI lifecycle, I/O and build tooling.
