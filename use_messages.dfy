/**
 * The `useMessages` hook: the timeline's message list, its loading flag and
 * error, and the pending scroll request, updated by the load effect, by
 * `appendMessage`/`replaceMessage` and by the scroll effect. Each awaited
 * request is an outcome parameter; `aborted` is the state of the request's
 * abort signal when the `catch` and `finally` blocks run.
 */
module UseMessages {
  import opened Types
  import opened ClientErrors

  /** `scrollRequest`: `null`, `"initial"` or `"post-send"`. */
  datatype ScrollRequest = NoScroll | Initial | PostSend

  /** The `messages` property of a successful list response. */
  datatype MessagesField = MessageArray(items: seq<Message>) | NotAnArray

  /** How the `GET /api/messages` request ended. */
  datatype LoadOutcome =
    | Unauthorized                   // status 401
    | Failed(payload: ErrorPayload)  // any other status that is not ok
    | Loaded(field: MessagesField)   // ok, and the body parsed
    | Threw                          // `fetch` or `json()` rejected

  const LoadFallback: string := "メッセージの取得に失敗しました。"

  /** `Array.isArray(data.messages) ? data.messages : []`. */
  function LoadedMessages(field: MessagesField): (ms: seq<Message>)
  {
    match field
    case MessageArray(items) => items
    case NotAnArray => []
  }

  /** `currentMessages.map((msg) => msg.id === updated.id ? updated : msg)`. */
  function ReplaceById(ms: seq<Message>, updated: Message): (r: seq<Message>)
  {
    seq(|ms|, i requires 0 <= i < |ms| => if ms[i].id == updated.id then updated else ms[i])
  }

  /**
   * Replacing keeps the length and the order: every entry with the updated
   * id becomes the update, every other entry is kept where it was, and ids
   * never change position.
   */
  lemma ReplaceByIdSpec(ms: seq<Message>, updated: Message)
    ensures |ReplaceById(ms, updated)| == |ms|
    ensures forall i :: 0 <= i < |ms| && ms[i].id == updated.id ==> ReplaceById(ms, updated)[i] == updated
    ensures forall i :: 0 <= i < |ms| && ms[i].id != updated.id ==> ReplaceById(ms, updated)[i] == ms[i]
    ensures forall i :: 0 <= i < |ms| ==> ReplaceById(ms, updated)[i].id == ms[i].id
  {
  }

  /** An update whose id is not in the list leaves the list as it was. */
  lemma ReplaceUnknownId(ms: seq<Message>, updated: Message)
    requires forall i :: 0 <= i < |ms| ==> ms[i].id != updated.id
    ensures ReplaceById(ms, updated) == ms
  {
  }

  /** Replacing again with the same message changes nothing more. */
  lemma ReplaceIdempotent(ms: seq<Message>, updated: Message)
    ensures ReplaceById(ReplaceById(ms, updated), updated) == ReplaceById(ms, updated)
  {
  }

  class MessagesState {
    var messages: seq<Message>
    var isLoadingMessages: bool
    var messagesError: string
    var scrollRequest: ScrollRequest

    /** The four `useState` initial values. */
    constructor ()
      ensures messages == [] && !isLoadingMessages && messagesError == "" && scrollRequest == NoScroll
    {
      messages := [];
      isLoadingMessages := false;
      messagesError := "";
      scrollRequest := NoScroll;
    }

    /** The load effect when `user` is null: everything is reset. */
    method ClearForSignedOut()
      modifies this
      ensures messages == [] && messagesError == "" && !isLoadingMessages && scrollRequest == NoScroll
    {
      messages := [];
      messagesError := "";
      isLoadingMessages := false;
      scrollRequest := NoScroll;
    }

    /** The load effect when `user` is set, up to sending the request. */
    method StartLoad()
      modifies this
      ensures messagesError == "" && isLoadingMessages
      ensures messages == old(messages) && scrollRequest == old(scrollRequest)
    {
      messagesError := "";
      isLoadingMessages := true;
    }

    /**
     * The rest of `fetchMessages`. Returns whether `setUser(null)` was called.
     * The `try` block runs whatever the signal says; only `catch` and
     * `finally` consult it.
     */
    method FinishLoad(outcome: LoadOutcome, aborted: bool) returns (signedOut: bool)
      modifies this
      ensures signedOut <==> outcome.Unauthorized?
      ensures messages == (if outcome.Loaded? then LoadedMessages(outcome.field) else old(messages))
      ensures scrollRequest == (if outcome.Loaded? then Initial else old(scrollRequest))
      ensures messagesError == (match outcome
                                case Failed(payload) => ParseErrorMessage(payload, LoadFallback)
                                case Threw => if aborted then old(messagesError) else LoadFallback
                                case _ => old(messagesError))
      ensures isLoadingMessages == (if aborted then old(isLoadingMessages) else false)
    {
      signedOut := false;
      match outcome {
        case Unauthorized =>
          signedOut := true;
        case Failed(payload) =>
          messagesError := ParseErrorMessage(payload, LoadFallback);
        case Loaded(field) =>
          messages := LoadedMessages(field);
          scrollRequest := Initial;
        case Threw =>
          if !aborted {
            messagesError := LoadFallback;
          }
      }
      if !aborted {
        isLoadingMessages := false;
      }
    }

    /** `appendMessage`: the new message goes to the tail and a post-send scroll is requested. */
    method AppendMessage(message: Message)
      modifies this
      ensures messages == old(messages) + [message]
      ensures scrollRequest == PostSend
      ensures isLoadingMessages == old(isLoadingMessages) && messagesError == old(messagesError)
    {
      messages := messages + [message];
      scrollRequest := PostSend;
    }

    /** `replaceMessage`: swaps entries by id and leaves the scroll request alone. */
    method ReplaceMessage(updated: Message)
      modifies this
      ensures messages == ReplaceById(old(messages), updated)
      ensures scrollRequest == old(scrollRequest)
      ensures isLoadingMessages == old(isLoadingMessages) && messagesError == old(messagesError)
    {
      messages := ReplaceById(messages, updated);
    }

    /**
     * The scroll effect, run after a render. `latestRendered` says whether the
     * newest list item is mounted. Returns whether `scrollIntoView` was called.
     */
    method ScrollEffect(latestRendered: bool) returns (scrolled: bool)
      modifies this
      ensures scrolled <==> old(scrollRequest) != NoScroll && latestRendered
      ensures scrollRequest == NoScroll
      ensures messages == old(messages) && isLoadingMessages == old(isLoadingMessages)
      ensures messagesError == old(messagesError)
    {
      if scrollRequest == NoScroll {
        return false;
      }
      scrolled := latestRendered;
      scrollRequest := NoScroll;
    }
  }

  /**
   * A successful first load scrolls once when a consumer has attached
   * `latestMessageRef` to the newest item (`refMounted`) and the list has a
   * newest item, and the effect running again on the next render does not
   * scroll a second time.
   */
  method InitialLoadScrollsOnce(ms: seq<Message>, refMounted: bool) returns (first: bool, second: bool, shown: seq<Message>)
    ensures (first <==> refMounted && |ms| > 0) && !second && shown == ms
  {
    var state := new MessagesState();
    state.StartLoad();
    var signedOut := state.FinishLoad(Loaded(MessageArray(ms)), false);
    first := state.ScrollEffect(refMounted && |state.messages| > 0);
    second := state.ScrollEffect(refMounted && |state.messages| > 0);
    shown := state.messages;
  }

  /**
   * Sending a message scrolls exactly once when a consumer has attached
   * `latestMessageRef`; a later render that only re-runs the effect does not.
   */
  method SendScrollsOnce(ms: seq<Message>, sent: Message, refMounted: bool) returns (first: bool, second: bool)
    ensures (first <==> refMounted) && !second
  {
    var state := new MessagesState();
    state.StartLoad();
    var signedOut := state.FinishLoad(Loaded(MessageArray(ms)), false);
    var initial := state.ScrollEffect(refMounted && |state.messages| > 0);
    state.AppendMessage(sent);
    first := state.ScrollEffect(refMounted && |state.messages| > 0);
    second := state.ScrollEffect(refMounted && |state.messages| > 0);
  }

  /**
   * With `latestMessageRef` never attached, as in the `MessageList` the app
   * renders, neither the first load nor a send ever scrolls.
   */
  method UnattachedRefNeverScrolls(ms: seq<Message>, sent: Message) returns (scrolls: seq<bool>)
    ensures |scrolls| == 2 && forall i :: 0 <= i < |scrolls| ==> !scrolls[i]
  {
    var state := new MessagesState();
    state.StartLoad();
    var signedOut := state.FinishLoad(Loaded(MessageArray(ms)), false);
    var initial := state.ScrollEffect(false);
    state.AppendMessage(sent);
    var afterSend := state.ScrollEffect(false);
    scrolls := [initial, afterSend];
  }

  /** A failed load sets the fallback error and requests no scroll at all. */
  method FailedLoadNeverScrolls() returns (scrolled: bool, error: string)
    ensures !scrolled && error == LoadFallback
  {
    var state := new MessagesState();
    state.StartLoad();
    var signedOut := state.FinishLoad(Failed(Unparseable), false);
    scrolled := state.ScrollEffect(true);
    error := state.messagesError;
  }

  /** A request aborted before it answered changes nothing in `catch` or `finally`. */
  method AbortedLoadChangesNothing() returns (same: bool)
    ensures same
  {
    var state := new MessagesState();
    state.StartLoad();
    var before := (state.messages, state.isLoadingMessages, state.messagesError, state.scrollRequest);
    var signedOut := state.FinishLoad(Threw, true);
    same := before == (state.messages, state.isLoadingMessages, state.messagesError, state.scrollRequest);
  }
}
