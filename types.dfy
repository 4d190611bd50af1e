/** The data model of the entity graph (src/lib/types.ts). */
module Types {

  datatype Option<+T> = None | Some(value: T)

  /** `'invalidate' | 'reset'`: the two independent relation kinds. */
  datatype EntityActionType = Invalidate | Reset

  /** One entity's declaration; an absent `invalidate` or `reset` list is `None`. */
  datatype EntityConfig = EntityConfig(name: string, invalidate: Option<seq<string>>, reset: Option<seq<string>>)
  {
    /** The declared list of the given kind; an absent list declares nothing. */
    function Declared(kind: EntityActionType): seq<string>
    {
      var list := if kind == Invalidate then invalidate else reset;
      if list.Some? then list.value else []
    }
  }

  /** A node of the graph. A JavaScript `Set` iterates in insertion order, so each relation
      set is kept as a sequence in insertion order without repetitions. */
  datatype Node = Node(invalidate: seq<string>, reset: seq<string>)
  {
    function Related(kind: EntityActionType): seq<string>
    {
      if kind == Invalidate then invalidate else reset
    }

    /** The node with its set of the given kind replaced. */
    function WithRelated(kind: EntityActionType, related: seq<string>): Node
    {
      if kind == Invalidate then this.(invalidate := related) else this.(reset := related)
    }
  }

  /** `Map<string, { invalidate: Set<string>; reset: Set<string> }>` */
  type Graph = map<string, Node>

  /** The elements of a sequence, as a set. */
  function Elems<T>(s: seq<T>): set<T>
  {
    set x | x in s
  }

  /** No element occurs twice. */
  predicate Distinct<T(==)>(s: seq<T>)
  {
    forall i, j :: 0 <= i < j < |s| ==> s[i] != s[j]
  }
}
