/** The query updater (src/lib/utils.ts): for each affected entity, invalidate it and its
    invalidate-dependencies, then reset it and its reset-dependencies. */
module Utils {
  import opened Types
  import opened EntityGraph
  import opened External

  function LowerChar(c: char): char
  {
    if 'A' <= c <= 'Z' then (c as int + 32) as char else c
  }

  /** `String.prototype.toLowerCase`, on the ASCII letters: every upper-case letter becomes
      the matching lower-case one and nothing else changes. */
  function Lower(s: string): (r: string)
    ensures |r| == |s|
    ensures forall i :: 0 <= i < |r| ==> !('A' <= r[i] <= 'Z')
    ensures forall i :: 0 <= i < |s| ==> r[i] == s[i] || ('A' <= s[i] <= 'Z' && r[i] as int == s[i] as int + 32)
  {
    seq(|s|, i requires 0 <= i < |s| => LowerChar(s[i]))
  }

  /** The key an entity's queries are addressed by: its lower-cased name as the only segment. */
  function DefaultKey(name: string): seq<string>
  {
    [Lower(name)]
  }

  /** What getDependencies returns, for each entity and relation kind. The properties of the
      updater below hold for any resolver; ResolverOf fixes the one the model uses. */
  type Resolver = (string, EntityActionType) -> seq<string>

  function ResolverOf(graph: Graph): Resolver
  {
    (name, kind) => Dependencies(graph, name, kind)
  }

  /** The call the updater issues for `name` under the action kind `kind`. */
  function Op(kind: EntityActionType, name: string): ClientCall
  {
    if kind == Invalidate then InvalidateQueries(DefaultKey(name)) else ResetQueries(DefaultKey(name))
  }

  /** `names.forEach(n => <kind>Queries({ queryKey: [n.toLowerCase()] }))`, as calls. */
  function Ops(kind: EntityActionType, names: seq<string>): seq<ClientCall>
  {
    seq(|names|, i requires 0 <= i < |names| => Op(kind, names[i]))
  }

  /** The calls for one entity (utils.ts:11-24). */
  function EntityOps(deps: Resolver, name: string): seq<ClientCall>
  {
    Ops(Invalidate, [name] + deps(name, Invalidate))
      + Ops(Reset, [name] + deps(name, Reset))
  }

  /** The calls updateQueries makes for `entities`, entity after entity. */
  function QueryOps(deps: Resolver, entities: seq<string>): seq<ClientCall>
  {
    if entities == [] then []
    else QueryOps(deps, entities[..|entities| - 1]) + EntityOps(deps, entities[|entities| - 1])
  }

  /** updateQueries(graph, queryClient, entities) (utils.ts:5-26). */
  method UpdateQueries(graph: Graph, queryClient: QueryClient, entities: seq<string>)
    modifies queryClient
    ensures queryClient.trace == old(queryClient.trace) + QueryOps(ResolverOf(graph), entities)
  {
    ghost var deps := ResolverOf(graph);
    ghost var start := queryClient.trace;
    for i := 0 to |entities|
      invariant queryClient.trace == start + QueryOps(deps, entities[..i])
    {
      UpdateEntity(graph, queryClient, entities[i]);
      QueryOpsStep(deps, entities, i);
      AppendAssoc(start, QueryOps(deps, entities[..i]), EntityOps(deps, entities[i]));
    }
    assert entities[..|entities|] == entities;
  }

  /** Concatenation of call traces is associative. */
  lemma AppendAssoc(a: seq<ClientCall>, b: seq<ClientCall>, c: seq<ClientCall>)
    ensures (a + b) + c == a + (b + c)
  {
  }

  /** One more entity appends exactly its own calls. */
  lemma QueryOpsStep(deps: Resolver, entities: seq<string>, i: nat)
    requires i < |entities|
    ensures QueryOps(deps, entities[..i + 1]) == QueryOps(deps, entities[..i]) + EntityOps(deps, entities[i])
  {
    var done := entities[..i + 1];
    assert done[..i] == entities[..i] && done[i] == entities[i];
  }

  /** The `forEach` callback of updateQueries for one entity (utils.ts:11-24). */
  method UpdateEntity(graph: Graph, queryClient: QueryClient, entityName: string)
    modifies queryClient
    ensures queryClient.trace == old(queryClient.trace) + EntityOps(ResolverOf(graph), entityName)
  {
    var invalidateDeps := Dependencies(graph, entityName, Invalidate);
    var resetDeps := Dependencies(graph, entityName, Reset);
    IssueAll(queryClient, Invalidate, [entityName] + invalidateDeps);
    IssueAll(queryClient, Reset, [entityName] + resetDeps);
    assert ResolverOf(graph)(entityName, Invalidate) == invalidateDeps;
    assert ResolverOf(graph)(entityName, Reset) == resetDeps;
  }

  /** `[entityName, ...deps].forEach(entity => queryClient.<kind>Queries({ queryKey:
      [entity.toLowerCase()] }))` (utils.ts:14-18 and 20-24). */
  method IssueAll(queryClient: QueryClient, kind: EntityActionType, targets: seq<string>)
    modifies queryClient
    ensures queryClient.trace == old(queryClient.trace) + Ops(kind, targets)
  {
    for j := 0 to |targets|
      invariant queryClient.trace == old(queryClient.trace) + Ops(kind, targets[..j])
    {
      if kind == Invalidate {
        queryClient.trace := queryClient.trace + [InvalidateQueries([Lower(targets[j])])];
      } else {
        queryClient.trace := queryClient.trace + [ResetQueries([Lower(targets[j])])];
      }
      assert Ops(kind, targets[..j + 1]) == Ops(kind, targets[..j]) + [Op(kind, targets[j])];
    }
    assert targets[..|targets|] == targets;
  }

  /** The calls for a list of entities are those for its first part followed by those for the
      rest: nothing is merged or deduplicated across entities. */
  lemma {:induction false} QueryOpsAppend(deps: Resolver, a: seq<string>, b: seq<string>)
    ensures QueryOps(deps, a + b) == QueryOps(deps, a) + QueryOps(deps, b)
    decreases |b|
  {
    if b == [] {
      assert a + b == a;
    } else {
      var init := b[..|b| - 1];
      var last := b[|b| - 1];
      assert (a + b)[..|a + b| - 1] == a + init;
      assert (a + b)[|a + b| - 1] == last;
      assert QueryOps(deps, a + b) == QueryOps(deps, a + init) + EntityOps(deps, last);
      assert QueryOps(deps, b) == QueryOps(deps, init) + EntityOps(deps, last);
      QueryOpsAppend(deps, a, init);
    }
  }

  /** Cutting a sequence around one position and gluing the pieces back gives it again. */
  lemma SplitAround(s: seq<string>, i: nat)
    requires i < |s|
    ensures (s[..i] + [s[i]]) + s[i + 1..] == s
  {
    assert s[..i] + [s[i]] == s[..i + 1];
  }

  /** All calls for `entities[i]` come after those for the entities before it and before those
      for the entities after it. */
  lemma QueryOpsSplit(deps: Resolver, entities: seq<string>, i: nat)
    requires i < |entities|
    ensures QueryOps(deps, entities)
         == QueryOps(deps, entities[..i]) + QueryOps(deps, [entities[i]]) + QueryOps(deps, entities[i + 1..])
  {
    var front, mid, back := entities[..i], [entities[i]], entities[i + 1..];
    SplitAround(entities, i);
    QueryOpsAppend(deps, front, mid);
    QueryOpsAppend(deps, front + mid, back);
  }

  /** For one entity: invalidate it, invalidate each invalidate-dependency in order, reset it,
      reset each reset-dependency in order, each under its lower-cased single-segment key. */
  lemma QueryOpsOfEntity(deps: Resolver, name: string)
    ensures var ops, inv, res := QueryOps(deps, [name]), deps(name, Invalidate), deps(name, Reset);
      && |ops| == 2 + |inv| + |res|
      && ops[0] == InvalidateQueries([Lower(name)])
      && (forall k :: 0 <= k < |inv| ==> ops[1 + k] == InvalidateQueries([Lower(inv[k])]))
      && ops[1 + |inv|] == ResetQueries([Lower(name)])
      && (forall k :: 0 <= k < |res| ==> ops[2 + |inv| + k] == ResetQueries([Lower(res[k])]))
  {
    assert [name][..0] == [];
  }

  /** The entity named in the mutation is always both invalidated and reset, whatever the
      graph holds. */
  lemma MainEntityActedOn(deps: Resolver, entities: seq<string>, i: nat)
    requires i < |entities|
    ensures InvalidateQueries([Lower(entities[i])]) in QueryOps(deps, entities)
    ensures ResetQueries([Lower(entities[i])]) in QueryOps(deps, entities)
  {
    QueryOpsSplit(deps, entities, i);
    QueryOpsOfEntity(deps, entities[i]);
    var before := QueryOps(deps, entities[..i]);
    var own := QueryOps(deps, [entities[i]]);
    var inv := deps(entities[i], Invalidate);
    assert QueryOps(deps, entities)[|before|] == own[0];
    assert QueryOps(deps, entities)[|before| + 1 + |inv|] == own[1 + |inv|];
  }

  /** Where each call comes from: every call is an invalidate or a reset of the default key of
      some affected entity or of one of that entity's dependencies OF THE SAME KIND, so resets
      come only from reset relations and invalidations only from invalidate relations; the
      updater never touches the mutation-cache subscription. */
  lemma {:induction false} QueryOpsProvenance(deps: Resolver, entities: seq<string>, k: nat)
    requires k < |QueryOps(deps, entities)|
    ensures QueryOps(deps, entities)[k].InvalidateQueries? || QueryOps(deps, entities)[k].ResetQueries?
    ensures exists i, kind, x :: 0 <= i < |entities| && x in [entities[i]] + deps(entities[i], kind)
                                 && QueryOps(deps, entities)[k] == Op(kind, x)
  {
    var n := |entities| - 1;
    var init := entities[..n];
    var prefix := QueryOps(deps, init);
    assert QueryOps(deps, entities) == prefix + EntityOps(deps, entities[n]);
    if k < |prefix| {
      QueryOpsProvenance(deps, init, k);
      var i, kind, x :| 0 <= i < |init| && x in [init[i]] + deps(init[i], kind) && prefix[k] == Op(kind, x);
      assert entities[i] == init[i];
    } else {
      var name := entities[n];
      var inv := [name] + deps(name, Invalidate);
      var res := [name] + deps(name, Reset);
      var j := k - |prefix|;
      if j < |inv| {
        assert QueryOps(deps, entities)[k] == Op(Invalidate, inv[j]);
        assert inv[j] in [entities[n]] + deps(entities[n], Invalidate);
      } else {
        assert QueryOps(deps, entities)[k] == Op(Reset, res[j - |inv|]);
        assert res[j - |inv|] in [entities[n]] + deps(entities[n], Reset);
      }
    }
  }

  /** With the model's resolver, every call addresses an affected entity or an entity
      reachable from it through relations of the call's own kind. */
  lemma CallsFollowRelations(graph: Graph, entities: seq<string>, k: nat)
    requires k < |QueryOps(ResolverOf(graph), entities)|
    ensures exists i, kind, x :: && 0 <= i < |entities|
                                 && (x == entities[i] || Reaches(graph, kind, entities[i], x))
                                 && QueryOps(ResolverOf(graph), entities)[k] == Op(kind, x)
  {
    var deps := ResolverOf(graph);
    QueryOpsProvenance(deps, entities, k);
    var i, kind, x :| 0 <= i < |entities| && x in [entities[i]] + deps(entities[i], kind)
                      && QueryOps(deps, entities)[k] == Op(kind, x);
    if x != entities[i] {
      assert x in deps(entities[i], kind);
      DependenciesAreClosure(graph, entities[i], kind);
      assert Reaches(graph, kind, entities[i], x);
    }
    assert QueryOps(ResolverOf(graph), entities)[k] == Op(kind, x);
  }

  /** Does `op` act under the action kind `kind`? */
  predicate IsKind(kind: EntityActionType, op: ClientCall)
  {
    if kind == Invalidate then op.InvalidateQueries? else op.ResetQueries?
  }

  /** The number of calls of kind `kind` in `ops`. */
  function CountKind(kind: EntityActionType, ops: seq<ClientCall>): nat
  {
    if ops == [] then 0
    else CountKind(kind, ops[..|ops| - 1]) + (if IsKind(kind, ops[|ops| - 1]) then 1 else 0)
  }

  /** The number of calls of kind `kind` the updater makes: one per entity plus one per
      dependency of that kind (utils.ts:14-24). */
  function Expected(deps: Resolver, entities: seq<string>, kind: EntityActionType): nat
  {
    if entities == [] then 0
    else Expected(deps, entities[..|entities| - 1], kind) + 1 + |deps(entities[|entities| - 1], kind)|
  }

  lemma {:induction false} CountKindAppend(kind: EntityActionType, a: seq<ClientCall>, b: seq<ClientCall>)
    ensures CountKind(kind, a + b) == CountKind(kind, a) + CountKind(kind, b)
    decreases |b|
  {
    if b == [] {
      assert a + b == a;
    } else {
      var init := b[..|b| - 1];
      assert (a + b)[..|a + b| - 1] == a + init;
      CountKindAppend(kind, a, init);
    }
  }

  lemma {:induction false} CountKindOps(kind: EntityActionType, other: EntityActionType, names: seq<string>)
    ensures CountKind(kind, Ops(other, names)) == if kind == other then |names| else 0
    decreases |names|
  {
    if names != [] {
      var init := names[..|names| - 1];
      assert Ops(other, names)[..|names| - 1] == Ops(other, init);
      CountKindOps(kind, other, init);
    }
  }

  /** updateQueries issues exactly `1 + |dependencies|` calls of each kind per entity, so the
      number of calls is the sum of these over the entities. */
  lemma {:induction false} QueryOpsCount(deps: Resolver, entities: seq<string>, kind: EntityActionType)
    ensures CountKind(kind, QueryOps(deps, entities)) == Expected(deps, entities, kind)
    ensures |QueryOps(deps, entities)| == Expected(deps, entities, Invalidate) + Expected(deps, entities, Reset)
  {
    if entities != [] {
      var init, name := entities[..|entities| - 1], entities[|entities| - 1];
      QueryOpsCount(deps, init, kind);
      var inv := [name] + deps(name, Invalidate);
      var res := [name] + deps(name, Reset);
      CountKindAppend(kind, QueryOps(deps, init), EntityOps(deps, name));
      CountKindAppend(kind, Ops(Invalidate, inv), Ops(Reset, res));
      CountKindOps(kind, Invalidate, inv);
      CountKindOps(kind, Reset, res);
    }
  }
}
