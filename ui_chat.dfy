/** The chat page's store and `sendMessage` (`useChat` in ui/src/lib/chat.svelte.ts): sending
    a message records it as the user's and opens an event source; the source's `message`
    listener updates the store as the stream reducer says, its `error` listener only shows
    a toast. The event source itself and the toast are not modelled. */
module UiChat {
  import opened Wrappers
  import opened StreamReducer

  /** What the page sends: the message and an optional token limit, which the store does
      not use. */
  datatype ChatRequest = ChatRequest(message: string, maxTokens: Option<nat>)

  /** `ChatStore`: the messages the page shows. */
  class ChatStore {
    var messages: seq<ChatMessage>

    constructor()
      ensures messages == []
    {
      messages := [];
    }
  }

  /** The listeners of one `sendMessage` call and the content block they share. */
  class Exchange {
    const store: ChatStore
    var current: Option<ContentBlock>

    /** What the listeners see of the store and the stream. */
    function State(): View
      reads this, store
    {
      View(store.messages, current)
    }

    constructor(store: ChatStore)
      ensures this.store == store && current.None?
    {
      this.store := store;
      current := None;
    }

    /** The `message` listener, given the outcome of parsing the event's data. */
    method OnMessage(parsed: Option<StreamEvent>)
      modifies this`current, store`messages
      ensures State() == Step(old(State()), parsed)
    {
      if parsed.None? {
        return;
      }
      var data := parsed.value;
      if data.eventType == MESSAGE_START && data.hasMessage {
        store.messages := store.messages + [ChatMessage(ASSISTANT, "")];
      } else if data.eventType == CONTENT_BLOCK_START && data.contentBlock.Some? {
        current := data.contentBlock;
      } else if data.eventType == CONTENT_BLOCK_DELTA && current.Some? && data.delta.Some? {
        if current.value.blockType == TEXT {
          if store.messages == [] {
            // Indexing an empty array throws; the listener's catch logs it.
            return;
          }
          var n := |store.messages| - 1;
          var last := store.messages[n];
          store.messages := store.messages[n := last.(content := last.content + data.delta.value)];
        }
      } else if data.eventType == MESSAGE_STOP {
        current := None;
      }
    }

    /** The `error` listener: a toast, and nothing else. */
    method OnError()
      ensures store.messages == old(store.messages) && current == old(current)
    {
    }
  }

  /** `sendMessage`: the user's message is added first, then the listeners start outside
      any content block. */
  method SendMessage(store: ChatStore, req: ChatRequest) returns (x: Exchange)
    modifies store`messages
    ensures store.messages == old(store.messages) + [ChatMessage(USER, req.message)]
    ensures fresh(x) && x.store == store && x.current.None?
  {
    store.messages := store.messages + [ChatMessage(USER, req.message)];
    x := new Exchange(store);
  }
}
