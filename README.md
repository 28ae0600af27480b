# NyaAI chat: conversation state and typewriter reveal

This project models the client-side core of a browser chat assistant whose
replies come from a hosted chat-completion endpoint. It covers two React
components. `ChatInterface` holds the conversation. It gates submissions,
builds the request payload, and keeps an in-flight flag and a "currently
revealing" message id. `ChatMessage` renders one row and replays an assistant
reply one UTF-16 code unit every 20 ms.

Modules:

- `JsText` (`js_text.dfy`): JavaScript strings as sequences of UTF-16 code
  units. This matches what `length`, `slice` and `trim` count. It also holds
  `String.prototype.trim` over the ECMAScript white-space and line-terminator
  set.
- `Messages` (`messages.dfy`): the message record. Ids are a counter that
  stands for `Date.now()`.
- `Completion` (`completion.dfy`): the outgoing message list of `sendToGroq`,
  and the outcome of the call: a reply text, a null content, or one generic
  failure.
- `ChatInterface` (`chat_interface.dfy`): class `ChatSession`, with the
  component's state fields and one method per handler. `handleSendMessage` is
  split at its single `await`. `Submit` covers the part before the call and
  `ReceiveCompletion` the continuation. `HandleSendMessage` runs both in
  sequence. Each `setTimeout` that clears the reveal flag becomes a pending
  delay in `revealClears`, and `ExpireRevealClear` fires one of them. The
  module `ChatScenarios` replays the back-to-back submission scenario against
  these contracts.
- `ChatMessage` (`chat_message.dfy`): a pure reference for the reveal
  (`TickStep`, iterated by `Ticks`) and its closed form. Class `MessageView`
  holds the row's state fields and the intervals it has registered. Each
  `Tick` is one firing of the 20 ms interval. `Rerender` is the effect
  re-running after a dependency change, with its cleanup first.

Points where the code's behaviour is easy to misread:

- The allow-list has five MIME strings: PDF, DOCX, PNG, `image/jpeg`, and
  also the non-standard `image/jpg`.
- The stored user message is the trimmed text. The text sent to the endpoint
  is the untrimmed `messageText`.
- A reveal timeout is never cancelled, and when it fires it clears whichever
  id the flag holds. An earlier reply's timeout can therefore end a later
  reply's reveal flag before that reply's own delay has passed. The row then
  shows its full text at once. `ExpireRevealClear` models this as written.
- `clearChat` does not touch the in-flight flag. A reply that arrives after a
  clear is appended to the emptied conversation, because the code appends to
  the current list. The code has no guard for this case. The model states
  what the code does, in `ClearChat` followed by `ReceiveCompletion`.

## Model

| member | source | states |
|---|---|---|
| JsText.Trim | src/components/ChatInterface.tsx:95 | `trim()` returns a slice of its input. Everything cut off on either side is white space, and a non-empty result neither starts nor ends with white space. |
| JsText.TrimEmptyIff | src/components/ChatInterface.tsx:95 | A text counts as blank (`!messageText.trim()`) exactly when every code unit of it is white space; the empty text is blank. |
| Messages.AtMostOneTyping | src/components/ChatInterface.tsx:217-222 | With distinct ids, at most one row gets `isTyping = (typingMessageId === message.id)`. |
| Completion.HistoryTurns | src/components/ChatInterface.tsx:60-63 | The mapped history has the same length and, position by position, the message's role and content only. |
| Completion.BuildRequest | src/components/ChatInterface.tsx:58-65 | The request has length history + 2. The system prompt comes first, then each history message in order as a role/content pair, then the new user turn with the text as passed. |
| Completion.SystemRoleOnlyFirst | src/components/ChatInterface.tsx:58-65 | No entry after the first carries the system role. |
| Completion.RequestDeterminesHistory | src/components/ChatInterface.tsx:58-65 | Two equal requests come from the same new text and from histories equal in length, role and content at every position. |
| Completion.RequestIgnoresIds | src/components/ChatInterface.tsx:60-63 | Histories that agree on role and content, whatever their ids, give the same request. |
| Completion.RequestKeepsContext | src/components/ChatInterface.tsx:58-65 | A later request, built after the conversation has grown, starts with exactly the system prompt and the history entries of the earlier one. |
| ChatInterface.Toggled | src/components/ChatInterface.tsx:175 | The toggle always changes the language. |
| ChatInterface.ToggledTwice | src/components/ChatInterface.tsx:175 | Toggling twice restores the language. |
| ChatInterface.RevealClearDelay | src/components/ChatInterface.tsx:124 | The delay `length * 20 + 500` is a whole number of 20 ms reveal periods, exactly `length + 25` of them. |
| ChatInterface.RevealFlagOutlastsTypewriter | src/components/ChatInterface.tsx:119-124 | The clear delay `length * 20 + 500` spans `length + 25` periods of 20 ms. After that many firings the row shows the whole reply, with no cursor and no interval. |
| ChatInterface.ChatSession.constructor | src/components/ChatInterface.tsx:19-23 | The session starts with no messages, empty input, no request in flight, English, and no revealing message. |
| ChatInterface.ChatSession.SetInput | src/components/ChatInterface.tsx:270 | The input box's change sets `input` and nothing else. |
| ChatInterface.ChatSession.Submit | src/components/ChatInterface.tsx:94-109 | A blank text, or any text while loading, changes nothing and issues no request. Otherwise exactly one user message with the trimmed text is appended, the input is emptied and loading starts. The request is built from the conversation before the append and the untrimmed text. |
| ChatInterface.ChatSession.SubmitForm | src/components/ChatInterface.tsx:243-247 | The form submit is `Submit` on the current input, with the same guard, the same appended message and request, and the same effect on every other field. |
| ChatInterface.ChatSession.SendInitialMessage | src/components/ChatInterface.tsx:36-40 | A non-empty initial message is submitted, with `Submit`'s guard and its whole effect: the appended message, the request, the emptied input, loading, and every other field unchanged. An empty one changes nothing. |
| ChatInterface.ChatSession.ReceiveCompletion | src/components/ChatInterface.tsx:109-134 | On a reply, exactly one assistant message with the reply verbatim is appended, the flag names it, and one clear of `length * 20 + 500` ms is scheduled. On failure, messages and the flag are unchanged, so the user message stays. A null content is appended and flagged, but no clear is scheduled, because reading its length throws. In every case loading ends. |
| ChatInterface.ChatSession.HandleSendMessage | src/components/ChatInterface.tsx:94-135 | The whole handler. A rejected text changes nothing. An accepted one leaves the conversation one longer after a failure or two longer otherwise (user, then assistant), with loading ended. |
| ChatInterface.ChatSession.ExpireRevealClear | src/components/ChatInterface.tsx:122-124 | A fired timeout clears the reveal flag, leaves the conversation alone and is removed from the pending ones. |
| ChatInterface.ChatSession.ClearChat | src/components/ChatInterface.tsx:165-167 | Clearing empties the conversation and the reveal flag and changes nothing else. |
| ChatInterface.ChatSession.ToggleLanguage | src/components/ChatInterface.tsx:174-175 | The language flips, and the conversation, the flags and the pending timeouts stay as they were. |
| ChatInterface.ChatSession.HandleFileUpload | src/components/ChatInterface.tsx:137-163 | The first selected file is accepted exactly when its MIME type is one of the five listed strings. No file gives no notice. The handler changes no state. |
| ChatMessage.TicksClosedForm | src/components/ChatMessage.tsx:18-33 | After n firings of a reveal, the first min(n, length) code units are shown, the counter equals that number, and cursor and interval live exactly while n <= length. |
| ChatMessage.TickStep | src/components/ChatMessage.tsx:25-33 | One firing of the interval callback. It keeps the displayed text equal to the prefix `text[0..i]` with `i <= length`, and it advances `i` by at most one. A stopped interval or a hidden cursor never comes back. |
| ChatMessage.Ticks | src/components/ChatMessage.tsx:20-33 | The state after n firings from the effect's reset. Throughout a reveal, the displayed text is the prefix `text[0..i]` and `0 <= i <= length`. |
| ChatMessage.RevealGrowsByOne | src/components/ChatMessage.tsx:26-28 | Each firing before the end adds exactly the next code unit. |
| ChatMessage.RevealCompletes | src/components/ChatMessage.tsx:26-31 | After `length` firings the full text is shown with the cursor. The next firing hides the cursor and stops the interval, and later firings change nothing. |
| ChatMessage.MessageView.constructor | src/components/ChatMessage.tsx:14-39 | Mounting runs the effect. A revealing assistant row starts empty with the cursor and one interval with `i = 0`. Any other row shows its content with no cursor. |
| ChatMessage.MessageView.RunEffect | src/components/ChatMessage.tsx:19-39 | The effect body. It resets to empty with the cursor and registers the interval, or it shows the full content with no cursor. |
| ChatMessage.MessageView.Rerender | src/components/ChatMessage.tsx:18-40 | When content, role or `isTyping` change, the old interval is cleared before the effect re-runs, so at most one interval ever exists. Otherwise nothing changes. |
| ChatMessage.MessageView.Tick | src/components/ChatMessage.tsx:25-33 | One firing is the reference step on the row's state. With no interval registered, nothing changes. |
| ChatMessage.MessageView.RevealToEnd | src/components/ChatMessage.tsx:25-33 | Letting the interval fire until it clears itself leaves the full content shown, no cursor and no interval. |
| ChatMessage.MessageView.Unmount | src/components/ChatMessage.tsx:35 | Unmounting clears the interval. |

## Left out

- The `fetch` call, its URL, headers, credential, model parameters, status check and JSON parsing (src/components/ChatInterface.tsx:67-91). This is network I/O. It is the `Outcome` parameter of `ReceiveCompletion`: a reply text, a null content, or one failure.
- ReceiveCompletion: a null or missing `content` is stored as the empty text. The model does not capture what the code does with the null value later. A later request sends `content: null`. The row's interval callback throws on `text.length` at every firing, so its cursor never hides.
- The content of the system prompt. It is the uninterpreted constant `Completion.SystemPrompt`.
- Real time. `setTimeout` and `setInterval` become the pending delays of `revealClears`, fired by `ExpireRevealClear`, and the explicit `MessageView.Tick`. The model has no clock, so it does not say in which order pending timeouts fire.
- `Date.now()` ids and `Date` timestamps. Ids are the counter `nextId`. Distinct ids, which `ChatSession.Valid` and `Messages.AtMostOneTyping` rely on, are an assumption of the model. The code takes `Date.now()` for a user message and `Date.now() + 1` for a reply, and the clock can repeat a reading or step back. A reply's id can then equal a later user message's id. Timestamps are presentation.
- Async interleaving. This includes React's batching of state updates and the stale capture of `messages` in the handler's closure. The model runs each handler to its `await` or its end, with `messages` read as the state before the append.
- Toasts, `console.error`, scroll-into-view, the placeholder text and the rendering of rows. These are UI side effects with no state that matters here. Each toast of the upload handler is returned as an `UploadNotice` value.
- `files` being null. This is modelled like an empty selection.
- The disabled state of the send button and of the input. It repeats the `Submit` guard for the UI.
- The welcome screen and page switching (src/components/ChatWelcome.tsx, src/pages/Index.tsx). They check that a text is not blank after trimming and hand on the untrimmed text as `initialMessage`.
