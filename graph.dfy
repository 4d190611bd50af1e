/** The graph builder and the dependency resolver (src/lib/graph.ts). */
module EntityGraph {
  import opened Types

  // ---------------------------------------------------------------------------
  // Insertion-ordered sets
  // ---------------------------------------------------------------------------

  /** `Set.prototype.add`: appends `x` unless it is already present. */
  function Add(s: seq<string>, x: string): (r: seq<string>)
    ensures Elems(r) == Elems(s) + {x}
    ensures Distinct(s) ==> Distinct(r)
    ensures |s| <= |r| && r[..|s|] == s
  {
    if x in s then s else s + [x]
  }

  /** The position of the first occurrence of `x` in `xs`. */
  function FirstIndex(xs: seq<string>, x: string): (k: nat)
    requires x in xs
    ensures k < |xs| && xs[k] == x
    ensures forall j :: 0 <= j < k ==> xs[j] != x
  {
    if xs[0] == x then 0 else 1 + FirstIndex(xs[1..], x)
  }

  /** Appending an element moves no first occurrence, and a new element first occurs at the end. */
  lemma FirstIndexSnoc(xs: seq<string>, x: string)
    ensures forall y :: y in xs ==> FirstIndex(xs + [x], y) == FirstIndex(xs, y)
    ensures x !in xs ==> FirstIndex(xs + [x], x) == |xs|
  {
    forall y | y in xs
      ensures FirstIndex(xs + [x], y) == FirstIndex(xs, y)
    {
      var k, k' := FirstIndex(xs, y), FirstIndex(xs + [x], y);
      assert (xs + [x])[k] == y;
      assert k' <= k;
      assert xs[k'] == y;
    }
    if x !in xs {
      assert forall j :: 0 <= j < |xs| ==> (xs + [x])[j] != x;
    }
  }

  /** Adds every element of `xs` in order, as a `forEach` over `xs` calling `add` does. */
  function AddAll(s: seq<string>, xs: seq<string>): (r: seq<string>)
    ensures Elems(r) == Elems(s) + Elems(xs)
    ensures Distinct(s) ==> Distinct(r)
    ensures |s| <= |r| && r[..|s|] == s
    decreases |xs|
  {
    if xs == [] then s
    else
      var init := xs[..|xs| - 1];
      assert xs == init + [xs[|xs| - 1]];
      Add(AddAll(s, init), xs[|xs| - 1])
  }

  /** The insertion order AddAll leaves: the elements it appends come from `xs`, were not in
      `s` before, and follow one another in the order of their first occurrence in `xs`. */
  lemma {:induction false} AddAllOrder(s: seq<string>, xs: seq<string>)
    ensures forall i :: |s| <= i < |AddAll(s, xs)| ==> AddAll(s, xs)[i] in xs && AddAll(s, xs)[i] !in s
    ensures forall i, j :: |s| <= i < j < |AddAll(s, xs)| ==>
              FirstIndex(xs, AddAll(s, xs)[i]) < FirstIndex(xs, AddAll(s, xs)[j])
    decreases |xs|
  {
    if xs != [] {
      var init, last := xs[..|xs| - 1], xs[|xs| - 1];
      assert xs == init + [last];
      AddAllOrder(s, init);
      FirstIndexSnoc(init, last);
      var prefix := AddAll(s, init);
      var r := AddAll(s, xs);
      assert r == Add(prefix, last);
      forall i | |s| <= i < |prefix|
        ensures prefix[i] in xs && FirstIndex(xs, prefix[i]) == FirstIndex(init, prefix[i])
      {
        assert prefix[i] in init;
      }
      if last in prefix {
        assert r == prefix;
      } else {
        assert r == prefix + [last];
        assert last !in Elems(prefix);
        assert last !in Elems(init) && last !in Elems(s);
        assert FirstIndex(xs, last) == |init|;
        forall i | |s| <= i < |prefix|
          ensures FirstIndex(xs, prefix[i]) < FirstIndex(xs, last)
        {
        }
      }
    }
  }

  // ---------------------------------------------------------------------------
  // buildGraph
  // ---------------------------------------------------------------------------

  /** The graph after `related.forEach(r => graph.get(name)![kind].add(r))`. */
  function Extend(graph: Graph, name: string, kind: EntityActionType, related: seq<string>): Graph
    requires name in graph
  {
    graph[name := graph[name].WithRelated(kind, AddAll(graph[name].Related(kind), related))]
  }

  /** One step of the `reduce` in buildGraph: make sure a node exists for `entity.name`, then
      add the entity's declared lists to that node's sets. */
  function AddEntity(graph: Graph, entity: EntityConfig): Graph
  {
    var created := if entity.name in graph then graph else graph[entity.name := Node([], [])];
    Extend(Extend(created, entity.name, Invalidate, entity.Declared(Invalidate)),
           entity.name, Reset, entity.Declared(Reset))
  }

  /** The graph that buildGraph returns for the configuration values `configs` (the record's
      `Object.values`, in order): a left fold of AddEntity from the empty map. */
  function GraphOf(configs: seq<EntityConfig>): Graph
  {
    if configs == [] then map[]
    else AddEntity(GraphOf(configs[..|configs| - 1]), configs[|configs| - 1])
  }

  /** The `name` fields of the configuration values. */
  ghost function Names(configs: seq<EntityConfig>): set<string>
  {
    set c | c in configs :: c.name
  }

  /** Everything the configuration values called `name` declare under `kind`. */
  ghost function DeclaredFor(configs: seq<EntityConfig>, name: string, kind: EntityActionType): set<string>
  {
    set c, x | c in configs && c.name == name && x in c.Declared(kind) :: x
  }

  /** buildGraph (graph.ts:3-19). The map is built in place by a loop over the configuration
      values; each entity's lists are added one element at a time, as the `forEach` calls do. */
  method BuildGraph(configs: seq<EntityConfig>) returns (graph: Graph)
    ensures graph == GraphOf(configs)
    ensures graph.Keys == Names(configs)
    ensures forall name, kind :: name in graph ==>
              Elems(graph[name].Related(kind)) == DeclaredFor(configs, name, kind)
              && Distinct(graph[name].Related(kind))
  {
    graph := map[];
    for i := 0 to |configs|
      invariant graph == GraphOf(configs[..i])
    {
      var entity := configs[i];
      if entity.name !in graph {
        graph := graph[entity.name := Node([], [])];
      }
      // entity.invalidate?.forEach(...) and entity.reset?.forEach(...)
      graph := AddEach(graph, entity.name, Invalidate, entity.Declared(Invalidate));
      graph := AddEach(graph, entity.name, Reset, entity.Declared(Reset));
      assert configs[..i + 1][..i] == configs[..i];
    }
    assert configs[..|configs|] == configs;
    GraphOfKeys(configs);
    forall name, kind | name in graph
      ensures Elems(graph[name].Related(kind)) == DeclaredFor(configs, name, kind)
      ensures Distinct(graph[name].Related(kind))
    {
      GraphOfRelated(configs, name, kind);
    }
  }

  /** `related.forEach(r => graph.get(name)![kind].add(r))` (graph.ts:9-11 and 13-15): adds
      each related name in turn to the node's set of the given kind. */
  method AddEach(graph: Graph, name: string, kind: EntityActionType, related: seq<string>) returns (result: Graph)
    requires name in graph
    ensures result == Extend(graph, name, kind, related)
  {
    ghost var node := graph[name];
    result := graph;
    for j := 0 to |related|
      invariant result == graph[name := node.WithRelated(kind, AddAll(node.Related(kind), related[..j]))]
    {
      ghost var done := AddAll(node.Related(kind), related[..j]);
      assert related[..j + 1][..j] == related[..j];
      assert AddAll(node.Related(kind), related[..j + 1]) == Add(done, related[j]);
      var updated := result[name].WithRelated(kind, Add(result[name].Related(kind), related[j]));
      assert updated == node.WithRelated(kind, Add(done, related[j]));
      MapUpdateTwice(graph, name, node.WithRelated(kind, done), updated);
      result := result[name := updated];
    }
    assert related[..|related|] == related;
  }

  /** A second update of the same key overrides the first. */
  lemma MapUpdateTwice(m: Graph, k: string, a: Node, b: Node)
    ensures m[k := a][k := b] == m[k := b]
  {
  }

  /** What AddEntity does to the map: the entity's node exists afterwards, its sets have been
      extended by the declared lists, and every other node is untouched. */
  lemma AddEntityEffect(graph: Graph, entity: EntityConfig)
    ensures AddEntity(graph, entity).Keys == graph.Keys + {entity.name}
    ensures forall name :: name in graph && name != entity.name ==> AddEntity(graph, entity)[name] == graph[name]
    ensures forall kind ::
      var node := if entity.name in graph then graph[entity.name] else Node([], []);
      AddEntity(graph, entity)[entity.name].Related(kind) == AddAll(node.Related(kind), entity.Declared(kind))
  {
  }

  /** The nodes are exactly the entities named in the configuration; relation targets that
      are never declared themselves do not become nodes. */
  lemma {:induction false} GraphOfKeys(configs: seq<EntityConfig>)
    ensures GraphOf(configs).Keys == Names(configs)
  {
    if configs != [] {
      var init := configs[..|configs| - 1];
      GraphOfKeys(init);
      AddEntityEffect(GraphOf(init), configs[|configs| - 1]);
      assert configs == init + [configs[|configs| - 1]];
    }
  }

  lemma DeclaredForSnoc(init: seq<EntityConfig>, c: EntityConfig, name: string, kind: EntityActionType)
    ensures DeclaredFor(init + [c], name, kind)
         == DeclaredFor(init, name, kind) + (if c.name == name then Elems(c.Declared(kind)) else {})
  {
    var all := init + [c];
    forall x | x in DeclaredFor(all, name, kind)
      ensures x in DeclaredFor(init, name, kind) + (if c.name == name then Elems(c.Declared(kind)) else {})
    {
      var d :| d in all && d.name == name && x in d.Declared(kind);
      if d != c { assert d in init; }
    }
  }

  lemma NotNamedDeclaresNothing(configs: seq<EntityConfig>, name: string, kind: EntityActionType)
    requires name !in Names(configs)
    ensures DeclaredFor(configs, name, kind) == {}
  {
    assert forall c | c in configs :: c.name in Names(configs);
  }

  /** A node's set of a kind is the union of the lists of that kind declared by every
      configuration value with that name, without repetitions. */
  lemma {:induction false} GraphOfRelated(configs: seq<EntityConfig>, name: string, kind: EntityActionType)
    requires name in GraphOf(configs)
    ensures Elems(GraphOf(configs)[name].Related(kind)) == DeclaredFor(configs, name, kind)
    ensures Distinct(GraphOf(configs)[name].Related(kind))
  {
    assert configs != [];
    var init := configs[..|configs| - 1];
    if name in GraphOf(init) {
      GraphOfRelated(init, name, kind);
    } else {
      GraphOfKeys(init);
      NotNamedDeclaresNothing(init, name, kind);
    }
    RelatedStep(configs, name, kind);
  }

  /** The inductive step of GraphOfRelated: one more configuration value keeps a node's set
      equal to the union of the lists declared for it so far. */
  lemma RelatedStep(configs: seq<EntityConfig>, name: string, kind: EntityActionType)
    requires configs != [] && name in GraphOf(configs)
    requires var init := configs[..|configs| - 1];
      && (name in GraphOf(init) ==>
            && Elems(GraphOf(init)[name].Related(kind)) == DeclaredFor(init, name, kind)
            && Distinct(GraphOf(init)[name].Related(kind)))
      && (name !in GraphOf(init) ==> DeclaredFor(init, name, kind) == {})
    ensures Elems(GraphOf(configs)[name].Related(kind)) == DeclaredFor(configs, name, kind)
    ensures Distinct(GraphOf(configs)[name].Related(kind))
  {
    var init, c := configs[..|configs| - 1], configs[|configs| - 1];
    var g := GraphOf(init);
    assert GraphOf(configs) == AddEntity(g, c);
    AddEntityEffect(g, c);
    assert configs == init + [c];
    DeclaredForSnoc(init, c, name, kind);
    if c.name == name {
      var before := if name in g then g[name].Related(kind) else [];
      assert Elems(before) == DeclaredFor(init, name, kind) && Distinct(before);
      var after := AddAll(before, c.Declared(kind));
      assert GraphOf(configs)[name].Related(kind) == after;
      assert Elems(after) == Elems(before) + Elems(c.Declared(kind));
    } else {
      assert GraphOf(configs)[name] == g[name];
    }
  }

  /** Invalidate lists never reach reset sets and vice versa: two configurations that agree on
      names and on the lists of one kind give graphs with the same nodes and identical sets of
      that kind, whatever their lists of the other kind are. */
  lemma {:induction false} RelationsIndependent(a: seq<EntityConfig>, b: seq<EntityConfig>, kind: EntityActionType)
    requires |a| == |b|
    requires forall i :: 0 <= i < |a| ==> a[i].name == b[i].name && a[i].Declared(kind) == b[i].Declared(kind)
    ensures GraphOf(a).Keys == GraphOf(b).Keys
    ensures forall name :: name in GraphOf(a) ==> GraphOf(a)[name].Related(kind) == GraphOf(b)[name].Related(kind)
  {
    if a != [] {
      var n := |a| - 1;
      RelationsIndependent(a[..n], b[..n], kind);
      AddEntityEffect(GraphOf(a[..n]), a[n]);
      AddEntityEffect(GraphOf(b[..n]), b[n]);
    }
  }

  /** A configuration value whose name already has a node extends that node: its old sets
      are prefixes of the new ones, and every other node is left as it was. */
  lemma GraphOfExtends(configs: seq<EntityConfig>, c: EntityConfig, kind: EntityActionType)
    ensures var g, g' := GraphOf(configs), GraphOf(configs + [c]);
      && (c.name in g ==>
            var old_, new_ := g[c.name].Related(kind), g'[c.name].Related(kind);
            |old_| <= |new_| && new_[..|old_|] == old_)
      && (forall name :: name in g && name != c.name ==> name in g' && g'[name] == g[name])
  {
    assert (configs + [c])[..|configs|] == configs;
  }

  // ---------------------------------------------------------------------------
  // getDependencies
  // ---------------------------------------------------------------------------

  /** The direct relations of `entity` of the given kind; an entity without a node has none. */
  function Targets(graph: Graph, entity: string, kind: EntityActionType): seq<string>
  {
    if entity in graph then graph[entity].Related(kind) else []
  }

  /** Depth-first traversal with an explicit stack (front = top) and a visited set: an entity
      popped for the first time is emitted and its relations are pushed in order, so entities
      come out in first-discovery order and each at most once, and cycles end the walk. */
  function Walk(graph: Graph, kind: EntityActionType, stack: seq<string>, visited: set<string>, out: seq<string>): seq<string>
    decreases graph.Keys - visited, |stack|
  {
    if stack == [] then out
    else
      var x := stack[0];
      if x in visited then Walk(graph, kind, stack[1..], visited, out)
      else
        Walk(graph, kind, Targets(graph, x, kind) + stack[1..], visited + {x}, out + [x])
  }

  /** getDependencies(graph, entity, kind): `utils.ts` imports it from `./graph` (utils.ts:3),
      but `graph.ts` does not define it, so this definition is the model's own: the entities
      reachable from `entity` through relations of `kind`, in first-discovery order, without
      `entity` itself. */
  function Dependencies(graph: Graph, entity: string, kind: EntityActionType): seq<string>
  {
    Walk(graph, kind, Targets(graph, entity, kind), {entity}, [])
  }

  /** `path` follows relations of `kind`, one step at a time. */
  ghost predicate IsPath(graph: Graph, kind: EntityActionType, path: seq<string>)
  {
    |path| >= 1 && forall i :: 0 <= i < |path| - 1 ==> path[i + 1] in Targets(graph, path[i], kind)
  }

  /** `b` is reachable from `a` in one or more steps. */
  ghost predicate Reaches(graph: Graph, kind: EntityActionType, a: string, b: string)
  {
    exists path :: IsPath(graph, kind, path) && |path| >= 2 && path[0] == a && path[|path| - 1] == b
  }

  lemma ReachesStep(graph: Graph, kind: EntityActionType, start: string, x: string, y: string)
    requires x == start || Reaches(graph, kind, start, x)
    requires y in Targets(graph, x, kind)
    ensures Reaches(graph, kind, start, y)
  {
    if x == start {
      assert IsPath(graph, kind, [x, y]);
    } else {
      var p :| IsPath(graph, kind, p) && |p| >= 2 && p[0] == start && p[|p| - 1] == x;
      var q := p + [y];
      assert IsPath(graph, kind, q);
    }
  }

  /** The set `s` has no relation of `kind` leading out of it. */
  ghost predicate Closed(graph: Graph, kind: EntityActionType, s: set<string>)
  {
    forall x, y :: x in s && y in Targets(graph, x, kind) ==> y in s
  }

  /** The walk emits each entity at most once, never an already visited one, and only ever
      appends to what it has emitted. */
  lemma {:induction false} WalkDistinct(graph: Graph, kind: EntityActionType, stack: seq<string>, visited: set<string>, out: seq<string>)
    requires Distinct(out) && Elems(out) <= visited
    ensures var r := Walk(graph, kind, stack, visited, out);
      && Distinct(r) && |out| <= |r| && r[..|out|] == out
      && forall i :: |out| <= i < |r| ==> r[i] !in visited
    decreases graph.Keys - visited, |stack|
  {
    if stack != [] {
      var x := stack[0];
      if x in visited {
        WalkDistinct(graph, kind, stack[1..], visited, out);
      } else {
        var out' := out + [x];
        assert Elems(out') == Elems(out) + {x};
        WalkDistinct(graph, kind, Targets(graph, x, kind) + stack[1..], visited + {x}, out');
        var r := Walk(graph, kind, stack, visited, out);
        assert r[..|out'|] == out';
        assert r[..|out|] == out' [..|out|];
      }
    }
  }

  /** Everything the walk emits is reachable from `start`, provided everything on the stack
      and everything already emitted is. */
  lemma {:induction false} WalkSound(graph: Graph, kind: EntityActionType, start: string, stack: seq<string>, visited: set<string>, out: seq<string>)
    requires forall x :: x in stack ==> Reaches(graph, kind, start, x)
    requires forall x :: x in out ==> Reaches(graph, kind, start, x)
    ensures forall x :: x in Walk(graph, kind, stack, visited, out) ==> Reaches(graph, kind, start, x)
    decreases graph.Keys - visited, |stack|
  {
    if stack != [] {
      var x := stack[0];
      if x in visited {
        WalkSound(graph, kind, start, stack[1..], visited, out);
      } else {
        forall y | y in Targets(graph, x, kind) ensures Reaches(graph, kind, start, y) {
          ReachesStep(graph, kind, start, x, y);
        }
        WalkSound(graph, kind, start, Targets(graph, x, kind) + stack[1..], visited + {x}, out + [x]);
      }
    }
  }

  /** When the walk ends, `start` together with everything emitted is closed under the
      relation, provided every relation out of a visited entity leads to a visited entity or
      to one still on the stack, and the visited entities are `start` and the emitted ones. */
  lemma {:induction false} WalkClosed(graph: Graph, kind: EntityActionType, start: string, stack: seq<string>, visited: set<string>, out: seq<string>)
    requires visited == {start} + Elems(out)
    requires forall x, y :: x in visited && y in Targets(graph, x, kind) ==> y in visited || y in stack
    ensures Closed(graph, kind, {start} + Elems(Walk(graph, kind, stack, visited, out)))
    decreases graph.Keys - visited, |stack|
  {
    if stack == [] {
    } else {
      var x := stack[0];
      if x in visited {
        WalkClosed(graph, kind, start, stack[1..], visited, out);
      } else {
        var out' := out + [x];
        assert Elems(out') == Elems(out) + {x};
        WalkClosed(graph, kind, start, Targets(graph, x, kind) + stack[1..], visited + {x}, out');
      }
    }
  }

  /** Every entity on a path that starts inside a closed set stays inside it. */
  lemma {:induction false} PathStaysInClosed(graph: Graph, kind: EntityActionType, s: set<string>, path: seq<string>)
    requires IsPath(graph, kind, path) && path[0] in s && Closed(graph, kind, s)
    ensures path[|path| - 1] in s
  {
    if |path| > 1 {
      var init := path[..|path| - 1];
      assert IsPath(graph, kind, init);
      PathStaysInClosed(graph, kind, s, init);
      assert path[|path| - 1] in Targets(graph, path[|path| - 2], kind);
    }
  }

  /** getDependencies lists every entity at most once and never the entity it started from. */
  lemma DependenciesDistinct(graph: Graph, entity: string, kind: EntityActionType)
    ensures Distinct(Dependencies(graph, entity, kind))
    ensures entity !in Dependencies(graph, entity, kind)
  {
    WalkDistinct(graph, kind, Targets(graph, entity, kind), {entity}, []);
  }

  /** getDependencies is the transitive closure under one relation kind: an entity other than
      the start is listed exactly when it is reachable from the start. An entity without a
      node, or a node without relations of that kind, has no dependencies. */
  lemma DependenciesAreClosure(graph: Graph, entity: string, kind: EntityActionType)
    ensures forall x :: x in Dependencies(graph, entity, kind) <==> x != entity && Reaches(graph, kind, entity, x)
    ensures Targets(graph, entity, kind) == [] ==> Dependencies(graph, entity, kind) == []
  {
    var deps := Dependencies(graph, entity, kind);
    var stack := Targets(graph, entity, kind);
    DependenciesDistinct(graph, entity, kind);
    forall y | y in stack ensures Reaches(graph, kind, entity, y) {
      ReachesStep(graph, kind, entity, entity, y);
    }
    WalkSound(graph, kind, entity, stack, {entity}, []);
    WalkClosed(graph, kind, entity, stack, {entity}, []);
    forall x | x != entity && Reaches(graph, kind, entity, x) ensures x in deps {
      var p :| IsPath(graph, kind, p) && |p| >= 2 && p[0] == entity && p[|p| - 1] == x;
      PathStaysInClosed(graph, kind, {entity} + Elems(deps), p);
    }
  }

  /** A cycle `a -> b -> a` ends the walk: the dependencies of `a` are `b` alone. */
  lemma CycleTerminates()
    ensures var graph := map["a" := Node(["b"], []), "b" := Node(["a"], [])];
      Dependencies(graph, "a", Invalidate) == ["b"]
  {
    var graph := map["a" := Node(["b"], []), "b" := Node(["a"], [])];
    assert Walk(graph, Invalidate, ["a"], {"a", "b"}, ["b"]) == ["b"];
    assert Walk(graph, Invalidate, ["b"], {"a"}, []) == Walk(graph, Invalidate, ["a"], {"a", "b"}, ["b"]);
  }

  /** Two configured entities give two nodes; the relation target `comment`, never declared
      itself, gets no node, and `stats` lands only in the reset set of `user`. */
  lemma TwoEntitiesExample()
    ensures var graph := GraphOf([EntityConfig("user", Some(["post"]), Some(["stats"])),
                                  EntityConfig("post", Some(["comment"]), None)]);
      && graph.Keys == {"user", "post"}
      && graph["user"] == Node(["post"], ["stats"])
      && graph["post"] == Node(["comment"], [])
  {
    var user := EntityConfig("user", Some(["post"]), Some(["stats"]));
    var post := EntityConfig("post", Some(["comment"]), None);
    assert [user, post][..1] == [user];
    assert [user][..0] == [];
  }
}
