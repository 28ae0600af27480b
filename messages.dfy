/** The message record shared by the conversation view and each message row. */
module Messages {
  import opened JsText

  datatype Option<T> = None | Some(value: T)

  datatype Role = User | Assistant

  /** One entry of the conversation. `id` stands for the `Date.now()` string the
      component stamps on it; the wall-clock timestamp is presentation only and
      is not kept. */
  datatype Message = Message(id: nat, role: Role, content: JsString)

  /** Ids strictly increase along the conversation; in particular they are
      pairwise distinct. */
  predicate IdsIncreasing(ms: seq<Message>) {
    forall j, k | 0 <= j < k < |ms| :: ms[j].id < ms[k].id
  }

  /** Every id in `ms` was handed out before `next`. */
  predicate IdsBelow(ms: seq<Message>, next: nat) {
    forall k | 0 <= k < |ms| :: ms[k].id < next
  }

  /** The `isTyping` prop the conversation passes to a row:
      `typingMessageId === message.id`. */
  predicate IsTyping(m: Message, typingId: Option<nat>) {
    typingId == Some(m.id)
  }

  /** Some assistant message of `ms` carries `id`. */
  predicate NamesAssistant(ms: seq<Message>, id: nat) {
    exists k | 0 <= k < |ms| :: ms[k].id == id && ms[k].role == Assistant
  }

  /** Appending keeps every message that was there. */
  lemma AppendKeepsNamed(ms: seq<Message>, m: Message, id: nat)
    requires NamesAssistant(ms, id)
    ensures NamesAssistant(ms + [m], id)
  {
    var k :| 0 <= k < |ms| && ms[k].id == id && ms[k].role == Assistant;
    assert (ms + [m])[k] == ms[k];
  }

  /** With distinct ids, at most one row of the conversation is told to reveal. */
  lemma AtMostOneTyping(ms: seq<Message>, typingId: Option<nat>, j: nat, k: nat)
    requires IdsIncreasing(ms)
    requires j < |ms| && k < |ms|
    requires IsTyping(ms[j], typingId) && IsTyping(ms[k], typingId)
    ensures j == k
  {
  }

  /** Appending a freshly numbered message keeps ids increasing and bounded. */
  lemma AppendFresh(ms: seq<Message>, next: nat, m: Message)
    requires IdsIncreasing(ms) && IdsBelow(ms, next)
    requires m.id == next
    ensures IdsIncreasing(ms + [m]) && IdsBelow(ms + [m], next + 1)
  {
  }
}
