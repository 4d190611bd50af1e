/** The mutation middleware (src/lib/middleware.ts): it builds the graph once, listens for
    cross-root invalidation events on the window, subscribes to the mutation cache, applies
    updateQueries when a mutation succeeds and re-broadcasts it, and tears both down. */
module Middleware {
  import opened Types
  import opened EntityGraph
  import opened External
  import opened Utils

  const INVALIDATION_EVENT: string := "QUERY_INVALIDATION_EVENT"

  datatype MutationStatus = Idle | Pending | Success | Error

  /** The options of a mutation. The middleware reads `entities`; `affects` is the field the
      type declarations and the callers use, and it is carried here to show that it is ignored. */
  datatype MutationOptions = MutationOptions(entities: Option<seq<string>>, affects: Option<seq<string>>)

  datatype Mutation = Mutation(options: Option<MutationOptions>, status: MutationStatus)

  /** A notification of the mutation cache; its `mutation` may be absent. */
  datatype MutationCacheEvent = MutationCacheEvent(mutation: Option<Mutation>)

  /** The `detail` of an INVALIDATION_EVENT; its `entities` may be absent. */
  datatype InvalidationEventDetail = InvalidationEventDetail(entities: Option<seq<string>>)

  /** A CustomEvent delivered to the listener; a CustomEvent created without a detail has
      `detail === null`, which is `None` here. */
  datatype InvalidationEvent = InvalidationEvent(detail: Option<InvalidationEventDetail>)

  /** What the listener does with an event: run updateQueries on a list, do nothing, or throw
      the TypeError that destructuring a null `detail` raises. */
  datatype ListenerOutcome = Update(entities: seq<string>) | Skip | TypeError

  /** `event.mutation?.options?.entities` (middleware.ts:28). */
  function DeclaredEntities(event: MutationCacheEvent): Option<seq<string>>
  {
    if event.mutation.Some? && event.mutation.value.options.Some?
    then event.mutation.value.options.value.entities
    else None
  }

  /** The entities a mutation-cache notification makes the middleware act on, if any
      (middleware.ts:30): only a successful mutation with a non-empty `entities` list. */
  function MutationTrigger(event: MutationCacheEvent): (r: Option<seq<string>>)
    ensures r.Some? <==> && event.mutation.Some? && event.mutation.value.status == Success
                         && DeclaredEntities(event).Some? && |DeclaredEntities(event).value| > 0
    ensures r.Some? ==> r == DeclaredEntities(event)
  {
    var entities := DeclaredEntities(event);
    if entities.Some? && |entities.value| > 0 && event.mutation.Some? && event.mutation.value.status == Success
    then entities
    else None
  }

  /** What handleInvalidationEvent does with an event (middleware.ts:18-23): a missing detail
      throws, a non-empty `entities` list is acted on, anything else is ignored. */
  function InvalidationOutcome(event: InvalidationEvent): (r: ListenerOutcome)
    ensures r.TypeError? <==> event.detail.None?
    ensures r.Update? <==> && event.detail.Some? && event.detail.value.entities.Some?
                           && |event.detail.value.entities.value| > 0
    ensures r.Update? ==> r.entities == event.detail.value.entities.value
  {
    match event.detail
    case None => TypeError
    case Some(detail) =>
      if detail.entities.Some? && |detail.entities.value| > 0 then Update(detail.entities.value) else Skip
  }

  /** A mutation that declares its entities under `affects` instead of `entities` triggers
      nothing: whatever `affects` holds, the outcome is that of `entities` alone. */
  lemma AffectsIsIgnored(event: MutationCacheEvent, affects: Option<seq<string>>)
    requires event.mutation.Some? && event.mutation.value.options.Some?
    ensures var options := event.mutation.value.options.value;
      var changed := MutationCacheEvent(Some(event.mutation.value.(options := Some(options.(affects := affects)))));
      MutationTrigger(changed) == MutationTrigger(event)
  {
  }

  /** The closure returned by createMutationMiddleware together with the state it captures. */
  class MutationMiddleware {
    /** The query client of this root. */
    const client: QueryClient
    /** The page's window, shared with every other root. */
    const window: Window
    /** Built once at construction and only read afterwards. */
    const graph: Graph
    /** `active` until cleanup, torn down after. */
    var active: bool
    /** The window events this instance's handler is registered for. */
    var listeners: set<string>
    /** Whether the mutation-cache subscription is live. */
    var subscribed: bool

    ghost predicate Valid()
      reads this
    {
      && (active ==> listeners == {INVALIDATION_EVENT} && subscribed)
      && (!active ==> listeners == {} && !subscribed)
    }

    /** createMutationMiddleware(queryClient, entityConfig) (middleware.ts:12-27): build the
        graph, register one window listener, then one mutation-cache subscription. */
    constructor (client: QueryClient, window: Window, entityConfig: seq<EntityConfig>)
      modifies client, window
      ensures Valid() && active
      ensures this.client == client && this.window == window && graph == GraphOf(entityConfig)
      ensures window.trace == old(window.trace) + [AddEventListener(INVALIDATION_EVENT)]
      ensures client.trace == old(client.trace) + [Subscribe]
    {
      var g := BuildGraph(entityConfig);
      this.client := client;
      this.window := window;
      graph := g;
      active := true;
      listeners := {INVALIDATION_EVENT};
      subscribed := true;
      new;
      window.trace := window.trace + [AddEventListener(INVALIDATION_EVENT)];
      client.trace := client.trace + [Subscribe];
    }

    /** The mutation-cache callback (middleware.ts:27-41). The cache calls it only while the
        subscription is live. A successful mutation with a non-empty `entities` list runs
        updateQueries on this root's client and then dispatches one INVALIDATION_EVENT carrying
        the same list; anything else changes nothing. Delivering the dispatched event to the
        listeners on the window is the window's part (see DeliverMutation and RelayAcrossRoots). */
    method OnMutationEvent(event: MutationCacheEvent)
      requires Valid()
      modifies client, window
      ensures var trigger := MutationTrigger(event);
        if subscribed && trigger.Some?
        then && client.trace == old(client.trace) + QueryOps(ResolverOf(graph), trigger.value)
             && window.trace == old(window.trace) + [DispatchEvent(INVALIDATION_EVENT, trigger.value)]
        else client.trace == old(client.trace) && window.trace == old(window.trace)
    {
      if subscribed {
        var entities := DeclaredEntities(event);
        if entities.Some? && |entities.value| > 0 && event.mutation.Some? && event.mutation.value.status == Success {
          UpdateQueries(graph, client, entities.value);
          window.trace := window.trace + [DispatchEvent(INVALIDATION_EVENT, entities.value)];
        }
      }
    }

    /** handleInvalidationEvent (middleware.ts:18-23), run by the window for each event of this
        type while it is registered. A non-empty `entities` list runs updateQueries; an event
        without a detail throws, and the window reports the error and goes on with its other
        listeners. The handler only ever calls the query client: it dispatches nothing, so a
        broadcast travels one hop only. */
    method OnInvalidationEvent(event: InvalidationEvent) returns (outcome: ListenerOutcome)
      requires Valid()
      modifies client
      ensures outcome == if INVALIDATION_EVENT in listeners then InvalidationOutcome(event) else Skip
      ensures if outcome.Update?
        then client.trace == old(client.trace) + QueryOps(ResolverOf(graph), outcome.entities)
        else client.trace == old(client.trace)
    {
      if INVALIDATION_EVENT !in listeners {
        return Skip;
      }
      if event.detail.None? {
        return TypeError;
      }
      var entities := event.detail.value.entities;
      if entities.Some? && |entities.value| > 0 {
        UpdateQueries(graph, client, entities.value);
        outcome := Update(entities.value);
      } else {
        outcome := Skip;
      }
    }

    /** The callback with the local updateQueries call left out: it only dispatches, and this
        root's own listener, registered on the same window, applies the update. */
    method OnMutationEventDispatchOnly(event: MutationCacheEvent)
      requires Valid()
      modifies window
      ensures var trigger := MutationTrigger(event);
        if subscribed && trigger.Some?
        then window.trace == old(window.trace) + [DispatchEvent(INVALIDATION_EVENT, trigger.value)]
        else window.trace == old(window.trace)
    {
      var trigger := MutationTrigger(event);
      if subscribed && trigger.Some? {
        window.trace := window.trace + [DispatchEvent(INVALIDATION_EVENT, trigger.value)];
      }
    }

    /** cleanup (middleware.ts:44-47): remove the listener that was registered, then call the
        subscription's unsubscribe; the instance is torn down for good. */
    method Cleanup()
      requires Valid()
      modifies this, client, window
      ensures Valid() && !active
      ensures window.trace == old(window.trace) + [RemoveEventListener(INVALIDATION_EVENT)]
      ensures client.trace == old(client.trace) + [Unsubscribe]
    {
      listeners := listeners - {INVALIDATION_EVENT};
      window.trace := window.trace + [RemoveEventListener(INVALIDATION_EVENT)];
      subscribed := false;
      client.trace := client.trace + [Unsubscribe];
      active := false;
    }
  }

  /** The event the window hands to its listeners for a recorded dispatch. */
  function Delivered(call: WindowCall): InvalidationEvent
    requires call.DispatchEvent?
  {
    InvalidationEvent(Some(InvalidationEventDetail(Some(call.entities))))
  }

  /** A successful mutation in a root whose page has no other root. `window.dispatchEvent`
      runs the listeners synchronously, and the root's own listener is one of them: the
      client receives the calls of updateQueries twice, once from the callback and once from
      its own listener. */
  method DeliverMutation(m: MutationMiddleware, event: MutationCacheEvent)
    requires m.Valid() && m.active
    modifies m.client, m.window
    ensures var trigger := MutationTrigger(event);
      if trigger.Some?
      then && m.client.trace == old(m.client.trace) + QueryOps(ResolverOf(m.graph), trigger.value)
                                                    + QueryOps(ResolverOf(m.graph), trigger.value)
           && m.window.trace == old(m.window.trace) + [DispatchEvent(INVALIDATION_EVENT, trigger.value)]
      else m.client.trace == old(m.client.trace) && m.window.trace == old(m.window.trace)
  {
    var before := |m.window.trace|;
    m.OnMutationEvent(event);
    if |m.window.trace| > before {
      var own := m.OnInvalidationEvent(Delivered(m.window.trace[|m.window.trace| - 1]));
    }
  }

  /** Two roots of one page, each with its own middleware and query client, sharing the
      window: a successful mutation in the first is applied there and broadcast; the window
      runs both listeners, so the sender's client receives the calls twice and the receiver's
      once, and neither listener dispatches again, so the relay stops after one hop. */
  method RelayAcrossRoots(sender: MutationMiddleware, receiver: MutationMiddleware, event: MutationCacheEvent)
    requires sender.Valid() && receiver.Valid() && sender.active && receiver.active
    requires sender.window == receiver.window && sender.client != receiver.client
    modifies sender.client, receiver.client, sender.window
    ensures var trigger := MutationTrigger(event);
      && (trigger.Some? ==>
            && sender.client.trace == old(sender.client.trace) + QueryOps(ResolverOf(sender.graph), trigger.value)
                                                               + QueryOps(ResolverOf(sender.graph), trigger.value)
            && receiver.client.trace == old(receiver.client.trace) + QueryOps(ResolverOf(receiver.graph), trigger.value)
            && sender.window.trace == old(sender.window.trace) + [DispatchEvent(INVALIDATION_EVENT, trigger.value)])
      && (trigger.None? ==>
            && sender.client.trace == old(sender.client.trace)
            && receiver.client.trace == old(receiver.client.trace)
            && sender.window.trace == old(sender.window.trace))
  {
    var before := |sender.window.trace|;
    sender.OnMutationEvent(event);
    if |sender.window.trace| > before {
      var delivered := Delivered(sender.window.trace[|sender.window.trace| - 1]);
      var own := sender.OnInvalidationEvent(delivered);
      var other := receiver.OnInvalidationEvent(delivered);
    }
  }

  /** The relay with the dispatch-only callback: every root's client, the sender's included,
      receives the calls of updateQueries exactly once. */
  method RelayOnce(sender: MutationMiddleware, receiver: MutationMiddleware, event: MutationCacheEvent)
    requires sender.Valid() && receiver.Valid() && sender.active && receiver.active
    requires sender.window == receiver.window && sender.client != receiver.client
    modifies sender.client, receiver.client, sender.window
    ensures var trigger := MutationTrigger(event);
      && (trigger.Some? ==>
            && sender.client.trace == old(sender.client.trace) + QueryOps(ResolverOf(sender.graph), trigger.value)
            && receiver.client.trace == old(receiver.client.trace) + QueryOps(ResolverOf(receiver.graph), trigger.value)
            && sender.window.trace == old(sender.window.trace) + [DispatchEvent(INVALIDATION_EVENT, trigger.value)])
      && (trigger.None? ==>
            && sender.client.trace == old(sender.client.trace)
            && receiver.client.trace == old(receiver.client.trace)
            && sender.window.trace == old(sender.window.trace))
  {
    var before := |sender.window.trace|;
    sender.OnMutationEventDispatchOnly(event);
    if |sender.window.trace| > before {
      var delivered := Delivered(sender.window.trace[|sender.window.trace| - 1]);
      var own := sender.OnInvalidationEvent(delivered);
      var other := receiver.OnInvalidationEvent(delivered);
    }
  }

  /** The configuration and mutation of the "should handle mutation success" case, with the
      list under `entities`: the one entity `user`, with no relations. */
  function UserOnly(): seq<EntityConfig>
  {
    [EntityConfig("user", None, None)]
  }

  /** For that configuration, updateQueries on `["user"]` makes exactly two calls, so the
      client of a single-root page (DeliverMutation) receives four where two are meant. */
  lemma UserCalledTwice()
    ensures var q := QueryOps(ResolverOf(GraphOf(UserOnly())), ["user"]);
      && q == [InvalidateQueries(["user"]), ResetQueries(["user"])]
      && q + q != q
  {
    var graph := GraphOf(UserOnly());
    var deps := ResolverOf(graph);
    assert graph == map["user" := Node([], [])];
    assert Targets(graph, "user", Invalidate) == [] && Targets(graph, "user", Reset) == [];
    assert deps("user", Invalidate) == [] && deps("user", Reset) == [];
    assert Lower("user") == "user";
    assert ["user"][..0] == [];
  }
}
