/** The web client's store and `sendMessage` (`useChat` in web/src/lib/chat.svelte.ts): as
    on the chat page, plus a list of errors. Its `error` listener parses the event's data
    outside any `try`, so a parse failure ends the listener before it changes anything; a
    parsed error appends its message to the errors. */
module WebChat {
  import opened Wrappers
  import opened StreamReducer

  /** An entry of the error list. */
  datatype ChatError = ChatError(message: string)

  /** `ChatStore`: the messages and the errors the client shows. */
  class ChatStore {
    var messages: seq<ChatMessage>
    var errors: seq<ChatError>

    constructor()
      ensures messages == [] && errors == []
    {
      messages := [];
      errors := [];
    }
  }

  /** The listeners of one `sendMessage` call and the content block they share. */
  class Exchange {
    const store: ChatStore
    var current: Option<ContentBlock>

    function State(): View
      reads this, store
    {
      View(store.messages, current)
    }

    constructor(store: ChatStore)
      ensures this.store == store && current.None?
    {
      this.store := store;
      current := None;
    }

    /** The `message` listener, given the outcome of parsing the event's data; the errors
        are never touched. */
    method OnMessage(parsed: Option<StreamEvent>)
      modifies this`current, store`messages
      ensures State() == Step(old(State()), parsed)
      ensures store.errors == old(store.errors)
    {
      if parsed.None? {
        return;
      }
      var data := parsed.value;
      if data.eventType == MESSAGE_START && data.hasMessage {
        store.messages := store.messages + [ChatMessage(ASSISTANT, "")];
      } else if data.eventType == CONTENT_BLOCK_START && data.contentBlock.Some? {
        current := data.contentBlock;
      } else if data.eventType == CONTENT_BLOCK_DELTA && current.Some? && data.delta.Some? {
        if current.value.blockType == TEXT {
          if store.messages == [] {
            // Indexing an empty array throws; the listener's catch logs it.
            return;
          }
          var n := |store.messages| - 1;
          var last := store.messages[n];
          store.messages := store.messages[n := last.(content := last.content + data.delta.value)];
        }
      } else if data.eventType == MESSAGE_STOP {
        current := None;
      }
    }

    /** The `error` listener, given the `message` of the parsed data, or `None` when
        parsing threw. */
    method OnError(parsed: Option<string>)
      modifies store`errors
      ensures store.errors == old(store.errors) + if parsed.Some? then [ChatError(parsed.value)] else []
      ensures store.messages == old(store.messages) && current == old(current)
    {
      if parsed.None? {
        return;
      }
      store.errors := store.errors + [ChatError(parsed.value)];
    }
  }

  /** `sendMessage`: the user's message is added first, then the listeners start outside
      any content block. */
  method SendMessage(store: ChatStore, message: string) returns (x: Exchange)
    modifies store`messages
    ensures store.messages == old(store.messages) + [ChatMessage(USER, message)]
    ensures store.errors == old(store.errors)
    ensures fresh(x) && x.store == store && x.current.None?
  {
    store.messages := store.messages + [ChatMessage(USER, message)];
    x := new Exchange(store);
  }
}
