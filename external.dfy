/** The collaborators the core calls into: the TanStack query client (with its mutation cache)
    and the browser window. Their internals are not modelled; each call made into them is
    recorded, in order, in an append-only trace of that object. Every root of a page has its
    own query client, and all of them share the page's one window. */
module External {

  /** One call into a query client or its mutation cache. */
  datatype ClientCall =
    | InvalidateQueries(queryKey: seq<string>) // queryClient.invalidateQueries({ queryKey })
    | ResetQueries(queryKey: seq<string>)      // queryClient.resetQueries({ queryKey })
    | Subscribe                                // queryClient.getMutationCache().subscribe(callback)
    | Unsubscribe                              // the function that subscribe returned, called

  /** One call into the window. */
  datatype WindowCall =
    | AddEventListener(eventType: string)                     // window.addEventListener(type, handler)
    | RemoveEventListener(eventType: string)                  // window.removeEventListener(type, handler)
    | DispatchEvent(eventType: string, entities: seq<string>) // window.dispatchEvent(new CustomEvent(type, { detail: { entities } }))

  /** A query client, seen as the ordered record of the calls made into it. */
  class QueryClient {
    var trace: seq<ClientCall>

    constructor ()
      ensures trace == []
    {
      trace := [];
    }
  }

  /** The page's window, seen as the ordered record of the calls made into it. */
  class Window {
    var trace: seq<WindowCall>

    constructor ()
      ensures trace == []
    {
      trace := [];
    }
  }
}
