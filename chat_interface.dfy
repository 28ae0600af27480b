/** The conversation view: its state fields, the send handler (split at its
    one `await`), the reveal-flag timeouts, clearing, the language toggle and
    the attachment check. The completion call is an `Outcome` parameter; each
    `setTimeout` is a pending delay fired by `ExpireRevealClear`. */
module ChatInterface {
  import opened JsText
  import opened Messages
  import opened Completion
  import ChatMessage

  datatype Language = English | Hindi

  /** The language toggle's update: each value goes to the other one. */
  function Toggled(l: Language): (r: Language)
    ensures r != l
  {
    if l == English then Hindi else English
  }

  lemma ToggledTwice(l: Language)
    ensures Toggled(Toggled(l)) == l
  {
  }

  /** Milliseconds the reveal flag is kept per code unit of the reply, and the
      extra margin after it. */
  const MsPerCodeUnit: nat := 20
  const RevealMarginMs: nat := 500

  /** The timeout after which a reply's reveal flag is cleared: a whole
      number of reveal periods, 25 more than the reply has code units. */
  function RevealClearDelay(reply: JsString): (ms: nat)
    ensures ms % ChatMessage.TickIntervalMs == 0
    ensures ms / ChatMessage.TickIntervalMs == |reply| + 25
  {
    |reply| * MsPerCodeUnit + RevealMarginMs
  }

  /** The flag outlives the animation: by the time the timeout clears it, the
      row's 20 ms interval has shown the whole reply, hidden the cursor and
      stopped. */
  lemma RevealFlagOutlastsTypewriter(reply: JsString)
    ensures RevealClearDelay(reply) / ChatMessage.TickIntervalMs == |reply| + 25
    ensures ChatMessage.Ticks(reply, RevealClearDelay(reply) / ChatMessage.TickIntervalMs)
            == ChatMessage.RevealState(reply, |reply|, false, false)
  {
    assert RevealClearDelay(reply) == (|reply| + 25) * 20;
    ChatMessage.RevealCompletes(reply, |reply| + 25);
  }

  /** The selected file's name and MIME type. */
  datatype FileInfo = FileInfo(name: JsString, mimeType: JsString)

  /** The toast the upload handler shows, as a value. */
  datatype UploadNotice = NoFile | Uploaded(name: JsString) | InvalidType

  const AllowedTypes: seq<JsString> := [
    Literal("application/pdf"),
    Literal("application/vnd.openxmlformats-officedocument.wordprocessingml.document"),
    Literal("image/png"),
    Literal("image/jpeg"),
    Literal("image/jpg")
  ]

  class ChatSession {
    var messages: seq<Message>
    var input: JsString
    var isLoading: bool
    var language: Language
    var typingMessageId: Option<nat>
    /** The next message id. It stands for `Date.now()` under the assumption
        that successive readings differ; the clock itself gives no such
        guarantee. */
    var nextId: nat
    /** Delays of the `setTimeout` calls that will clear `typingMessageId` and
        have not fired yet. */
    var revealClears: seq<nat>

    /** Ids are unique and below `nextId`; the reveal flag, when set, names an
        assistant message of the conversation. */
    ghost predicate Valid()
      reads this
    {
      && IdsIncreasing(messages)
      && IdsBelow(messages, nextId)
      && (typingMessageId.Some? ==> NamesAssistant(messages, typingMessageId.value))
    }

    constructor ()
      ensures Valid()
      ensures messages == [] && input == [] && !isLoading && language == English
      ensures typingMessageId == None && revealClears == [] && nextId == 0
    {
      messages, input, isLoading, language := [], [], false, English;
      typingMessageId, nextId, revealClears := None, 0, [];
    }

    /** The input box's `onChange`. */
    method SetInput(value: JsString)
      requires Valid()
      modifies this`input
      ensures Valid() && input == value
    {
      input := value;
    }

    /** The first half of `handleSendMessage`, up to the awaited call. A blank
        text, or any text while a request is in flight, is ignored. Otherwise
        the trimmed text is appended as a user message, the input is emptied,
        the flag is raised, and the request is built from the conversation as
        it was before the append, with the untrimmed text. */
    method Submit(messageText: JsString) returns (request: Option<seq<Turn>>)
      requires Valid()
      modifies this
      ensures Valid()
      ensures old(Trim(messageText) == [] || isLoading) ==>
                request == None && unchanged(this)
      ensures !old(Trim(messageText) == [] || isLoading) ==>
                && messages == old(messages) + [Message(old(nextId), User, Trim(messageText))]
                && request == Some(BuildRequest(messageText, old(messages)))
                && isLoading && input == [] && nextId == old(nextId) + 1
                && language == old(language) && typingMessageId == old(typingMessageId)
                && revealClears == old(revealClears)
    {
      if Trim(messageText) == [] || isLoading {
        return None;
      }
      var userMessage := Message(nextId, User, Trim(messageText));
      var history := messages;
      AppendFresh(messages, nextId, userMessage);
      if typingMessageId.Some? {
        AppendKeepsNamed(messages, userMessage, typingMessageId.value);
      }
      messages := messages + [userMessage];
      nextId := nextId + 1;
      input := [];
      isLoading := true;
      request := Some(BuildRequest(messageText, history));
    }

    /** The form's `onSubmit`: the send handler on the current input. */
    method SubmitForm() returns (request: Option<seq<Turn>>)
      requires Valid()
      modifies this
      ensures Valid()
      ensures old(Trim(input) == [] || isLoading) ==> request == None && unchanged(this)
      ensures !old(Trim(input) == [] || isLoading) ==>
                && messages == old(messages) + [Message(old(nextId), User, Trim(old(input)))]
                && request == Some(BuildRequest(old(input), old(messages)))
                && isLoading && input == [] && nextId == old(nextId) + 1
                && language == old(language) && typingMessageId == old(typingMessageId)
                && revealClears == old(revealClears)
    {
      request := Submit(input);
    }

    /** The effect on `initialMessage`: a non-empty value from the welcome
        screen is sent as the first message. */
    method SendInitialMessage(initialMessage: JsString) returns (request: Option<seq<Turn>>)
      requires Valid()
      modifies this
      ensures Valid()
      ensures (initialMessage == [] || old(Trim(initialMessage) == [] || isLoading)) ==>
                request == None && unchanged(this)
      ensures !(initialMessage == [] || old(Trim(initialMessage) == [] || isLoading)) ==>
                && messages == old(messages) + [Message(old(nextId), User, Trim(initialMessage))]
                && request == Some(BuildRequest(initialMessage, old(messages)))
                && isLoading && input == [] && nextId == old(nextId) + 1
                && language == old(language) && typingMessageId == old(typingMessageId)
                && revealClears == old(revealClears)
    {
      request := None;
      if initialMessage != [] {
        request := Submit(initialMessage);
      }
    }

    /** The second half of `handleSendMessage`, once the awaited call settles.
        A reply is appended verbatim as an assistant message, becomes the
        revealing one, and a timeout of `|reply| * 20 + 500` ms is scheduled to
        clear the flag; a failure appends nothing and keeps the user message.
        A null content is appended and flagged too, but reading its length
        for the delay throws, so the error branch runs and no timeout is
        scheduled. In every case the in-flight flag drops. */
    method ReceiveCompletion(outcome: Outcome)
      requires Valid() && isLoading
      modifies this
      ensures Valid() && !isLoading
      ensures input == old(input) && language == old(language)
      ensures outcome.Failed? ==>
                && messages == old(messages) && typingMessageId == old(typingMessageId)
                && revealClears == old(revealClears) && nextId == old(nextId)
      ensures outcome.Reply? ==>
                && messages == old(messages) + [Message(old(nextId), Assistant, outcome.text)]
                && typingMessageId == Some(old(nextId))
                && revealClears == old(revealClears) + [|outcome.text| * 20 + 500]
                && nextId == old(nextId) + 1
      ensures outcome.NoContent? ==>
                && messages == old(messages) + [Message(old(nextId), Assistant, [])]
                && typingMessageId == Some(old(nextId))
                && revealClears == old(revealClears)
                && nextId == old(nextId) + 1
    {
      if !outcome.Failed? {
        var content := if outcome.Reply? then outcome.text else [];
        var assistantMessage := Message(nextId, Assistant, content);
        AppendFresh(messages, nextId, assistantMessage);
        messages := messages + [assistantMessage];
        nextId := nextId + 1;
        typingMessageId := Some(assistantMessage.id);
        if outcome.Reply? {
          revealClears := revealClears + [RevealClearDelay(outcome.text)];
        }
        assert messages[|messages| - 1] == assistantMessage;
      }
      isLoading := false;
    }

    /** `handleSendMessage` run to its end with the given outcome of the call:
        a rejected text changes nothing; an accepted one adds the user message
        and, unless the call failed, the assistant message after it, and the
        in-flight flag ends false. */
    method HandleSendMessage(messageText: JsString, outcome: Outcome) returns (request: Option<seq<Turn>>)
      requires Valid()
      modifies this
      ensures Valid()
      ensures old(Trim(messageText) == [] || isLoading) ==> request == None && unchanged(this)
      ensures !old(Trim(messageText) == [] || isLoading) ==>
                && request == Some(BuildRequest(messageText, old(messages)))
                && !isLoading && input == [] && language == old(language)
                && messages == old(messages) + [Message(old(nextId), User, Trim(messageText))]
                               + (if outcome.Reply? then [Message(old(nextId) + 1, Assistant, outcome.text)]
                                  else if outcome.NoContent? then [Message(old(nextId) + 1, Assistant, [])]
                                  else [])
                && typingMessageId == (if outcome.Failed? then old(typingMessageId) else Some(old(nextId) + 1))
                && revealClears == old(revealClears)
                                   + (if outcome.Reply? then [|outcome.text| * 20 + 500] else [])
    {
      request := Submit(messageText);
      if request.Some? {
        ReceiveCompletion(outcome);
      }
    }

    /** One pending timeout fires and clears the reveal flag, whichever
        message it currently names. */
    method ExpireRevealClear(k: nat)
      requires Valid() && k < |revealClears|
      modifies this
      ensures Valid()
      ensures typingMessageId == None
      ensures revealClears == old(revealClears[..k] + revealClears[k + 1..])
      ensures messages == old(messages) && isLoading == old(isLoading) && input == old(input)
              && language == old(language) && nextId == old(nextId)
    {
      typingMessageId := None;
      revealClears := revealClears[..k] + revealClears[k + 1..];
    }

    /** The clear button: no messages and no reveal flag. Pending timeouts and
        the in-flight flag are left as they are. */
    method ClearChat()
      requires Valid()
      modifies this
      ensures Valid()
      ensures messages == [] && typingMessageId == None
      ensures isLoading == old(isLoading) && input == old(input) && language == old(language)
              && nextId == old(nextId) && revealClears == old(revealClears)
    {
      messages := [];
      typingMessageId := None;
    }

    /** The language button: flips between English and Hindi and nothing else;
        in particular the requests it builds do not depend on it. */
    method ToggleLanguage()
      requires Valid()
      modifies this
      ensures Valid()
      ensures language == Toggled(old(language))
      ensures messages == old(messages) && isLoading == old(isLoading) && input == old(input)
              && typingMessageId == old(typingMessageId) && nextId == old(nextId)
              && revealClears == old(revealClears)
    {
      language := Toggled(language);
    }

    /** The attachment handler: the first selected file is accepted exactly
        when its MIME type is one of the five listed ones. It changes no state
        of the conversation. */
    method HandleFileUpload(files: seq<FileInfo>) returns (notice: UploadNotice)
      ensures notice == NoFile <==> files == []
      ensures notice.Uploaded? <==>
                files != [] &&
                (|| files[0].mimeType == Literal("application/pdf")
                 || files[0].mimeType == Literal("application/vnd.openxmlformats-officedocument.wordprocessingml.document")
                 || files[0].mimeType == Literal("image/png")
                 || files[0].mimeType == Literal("image/jpeg")
                 || files[0].mimeType == Literal("image/jpg"))
      ensures notice.Uploaded? ==> notice.name == files[0].name
    {
      if files == [] {
        return NoFile;
      }
      var file := files[0];
      if file.mimeType in AllowedTypes {
        notice := Uploaded(file.name);
      } else {
        notice := InvalidType;
      }
    }
  }
}

/** Two submissions back to back, then the reply: the second is turned away
    while the first is in flight, and only the reply is then revealing. */
module ChatScenarios {
  import opened JsText
  import opened Messages
  import opened Completion
  import opened ChatInterface

  method BackToBack(question: JsString, second: JsString, reply: JsString)
    requires Trim(question) != []
  {
    var chat := new ChatSession();
    var first := chat.Submit(question);
    assert first == Some(BuildRequest(question, []));
    assert |first.value| == 2 && first.value[1] == Turn(UserRole, question);
    assert |chat.messages| == 1 && chat.isLoading;

    var rejected := chat.Submit(second);
    assert rejected == None && |chat.messages| == 1;

    chat.ReceiveCompletion(Reply(reply));
    assert |chat.messages| == 2 && !chat.isLoading;
    assert chat.messages[1] == Message(1, Assistant, reply);
    assert chat.typingMessageId == Some(chat.messages[1].id);
    assert chat.revealClears == [|reply| * 20 + 500];

    chat.ExpireRevealClear(0);
    assert chat.typingMessageId == None && |chat.messages| == 2;
  }
}
