/** The request `sendToGroq` sends to the chat-completion endpoint, and the
    one thing the conversation learns back from it. */
module Completion {
  import opened JsText
  import opened Messages

  /** The `role` field of one entry of the outgoing `messages` list. */
  datatype ApiRole = SystemRole | UserRole | AssistantRole

  /** One `{ role, content }` entry of the outgoing list. */
  datatype Turn = Turn(role: ApiRole, content: JsString)

  /** The fixed persona instruction that heads every request. Its wording plays
      no part in the model, so it is left uninterpreted. */
  const SystemPrompt: JsString

  /** What the awaited call yields. `Reply` is the first choice's text,
      verbatim. `Failed` is the one generic failure raised for a non-success
      status, a network error, or a body with no first choice. `NoContent` is
      a body whose first choice has a null or missing `content`: the call
      returns that value unchecked instead of failing. */
  datatype Outcome = Reply(text: JsString) | NoContent | Failed

  function ApiRoleOf(r: Role): ApiRole {
    match r
    case User => UserRole
    case Assistant => AssistantRole
  }

  /** `conversationHistory.map(msg => ({ role: msg.role, content: msg.content }))`:
      each message in order, keeping only its role and its content. */
  function HistoryTurns(history: seq<Message>): (r: seq<Turn>)
    ensures |r| == |history|
    ensures forall k | 0 <= k < |history| ::
              r[k] == Turn(ApiRoleOf(history[k].role), history[k].content)
  {
    if history == [] then []
    else
      var last := history[|history| - 1];
      HistoryTurns(history[..|history| - 1]) + [Turn(ApiRoleOf(last.role), last.content)]
  }

  /** The outgoing list: the system prompt, then the history, then the new
      user turn with the text exactly as it was passed in. */
  function BuildRequest(userMessage: JsString, history: seq<Message>): (r: seq<Turn>)
    ensures |r| == |history| + 2
    ensures r[0] == Turn(SystemRole, SystemPrompt)
    ensures forall k | 1 <= k <= |history| ::
              r[k] == Turn(ApiRoleOf(history[k - 1].role), history[k - 1].content)
    ensures r[|r| - 1] == Turn(UserRole, userMessage)
  {
    [Turn(SystemRole, SystemPrompt)] + HistoryTurns(history) + [Turn(UserRole, userMessage)]
  }

  /** Only the system prompt is sent with the system role; every other entry
      comes from the conversation or the new text. */
  lemma SystemRoleOnlyFirst(userMessage: JsString, history: seq<Message>, k: nat)
    requires 0 < k < |history| + 2
    ensures BuildRequest(userMessage, history)[k].role != SystemRole
  {
    var r := BuildRequest(userMessage, history);
    if k <= |history| {
      assert r[k] == Turn(ApiRoleOf(history[k - 1].role), history[k - 1].content);
    }
  }

  /** A request determines the conversation it was built from, up to ids:
      the same role and content at every position, and the same new text. */
  lemma RequestDeterminesHistory(u1: JsString, h1: seq<Message>, u2: JsString, h2: seq<Message>)
    requires BuildRequest(u1, h1) == BuildRequest(u2, h2)
    ensures |h1| == |h2| && u1 == u2
    ensures forall k | 0 <= k < |h1| ::
              h1[k].role == h2[k].role && h1[k].content == h2[k].content
  {
    var r := BuildRequest(u1, h1);
    assert |h1| == |h2|;
    forall k | 0 <= k < |h1|
      ensures h1[k].role == h2[k].role && h1[k].content == h2[k].content
    {
      assert r[k + 1] == Turn(ApiRoleOf(h1[k].role), h1[k].content);
      assert r[k + 1] == Turn(ApiRoleOf(h2[k].role), h2[k].content);
    }
  }

  /** Conversely, ids and timestamps are dropped: histories that agree on role
      and content give the same request. */
  lemma RequestIgnoresIds(u: JsString, h1: seq<Message>, h2: seq<Message>)
    requires |h1| == |h2|
    requires forall k | 0 <= k < |h1| ::
               h1[k].role == h2[k].role && h1[k].content == h2[k].content
    ensures BuildRequest(u, h1) == BuildRequest(u, h2)
  {
    var r1, r2 := BuildRequest(u, h1), BuildRequest(u, h2);
    forall k | 0 <= k < |r1| ensures r1[k] == r2[k] {
      if 1 <= k <= |h1| {
        assert r1[k] == Turn(ApiRoleOf(h1[k - 1].role), h1[k - 1].content);
      }
    }
  }

  /** The whole history is resent on every turn: a later request, built from
      the conversation grown by `more`, starts with exactly the entries of the
      earlier one except its new user turn. */
  lemma RequestKeepsContext(u1: JsString, h: seq<Message>, u2: JsString, more: seq<Message>)
    ensures BuildRequest(u2, h + more)[..|h| + 1] == BuildRequest(u1, h)[..|h| + 1]
  {
    var r1, r2 := BuildRequest(u1, h), BuildRequest(u2, h + more);
    forall k | 0 <= k < |h| + 1 ensures r2[k] == r1[k] {
      if 1 <= k {
        assert (h + more)[k - 1] == h[k - 1];
      }
    }
  }
}
