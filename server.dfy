/** The chat backend: an in-memory, append-only message list, the list
    read and the submit handler with its reply-or-fallback policy. */
module Server {
  import Text
  import opened Chat

  const SystemInstruction := "You are a friendly helpful assistant."
  const CompletionModel := "gpt-4o-mini"
  const ContentRequired := "Message content is required"
  const Placeholder := "I could not generate a response."
  const FallbackPrefix := "Fallback reply (AI error). I still received your message: \""

  /** What the completion service call came to: it threw, or it answered
      with the text of its first choice, which may be absent. */
  datatype Outcome = Failed | Replied(text: Option<string>)

  /** The speaker of a prompt line: the fixed system line or a stored role. */
  datatype Speaker = System | Speaking(role: Role)

  datatype PromptEntry = PromptEntry(speaker: Speaker, content: string)

  /** The body of the completion request. */
  datatype CompletionRequest = CompletionRequest(model: string, messages: seq<PromptEntry>)

  /** The HTTP answer: 200 with the whole list, or 400 with an error. */
  datatype Response = Ok(messages: seq<Message>) | BadRequest(error: string)

  /** The request-body check: missing, empty and whitespace-only content is
      refused; accepted content is kept verbatim, untrimmed. */
  function Validate(content: Option<string>): (r: Option<string>)
    ensures r.Some? <==> content.Some? && !Text.IsBlank(content.value)
    ensures r.Some? ==> r.value == content.value
  {
    if content.None? || content.value == "" || Text.Trim(content.value) == "" then None
    else content
  }

  /** The substitute reply when the service call fails: a fixed sentence
      that quotes the user's content. */
  function FallbackText(content: string): (r: string)
    ensures |r| == |FallbackPrefix| + |content| + 1
    ensures r[..|FallbackPrefix|] == FallbackPrefix
    ensures r[|FallbackPrefix|..|r| - 1] == content && r[|r| - 1] == '"'
  {
    FallbackPrefix + content + "\""
  }

  /** The assistant's text: the service's text when it produced a non-empty
      one, the placeholder when it answered without text, the fallback when
      it failed. It is never empty. */
  function ReplyText(content: string, outcome: Outcome): (r: string)
    ensures r != ""
    ensures outcome.Failed? ==> r == FallbackText(content)
    ensures outcome.Replied? && outcome.text.Some? && outcome.text.value != "" ==> r == outcome.text.value
    ensures outcome.Replied? && (outcome.text.None? || outcome.text.value == "") ==> r == Placeholder
  {
    match outcome
    case Failed => FallbackText(content)
    case Replied(Some(text)) => if text != "" then text else Placeholder
    case Replied(None) => Placeholder
  }

  /** Each stored message reduced to its role and content, in list order. */
  function Entries(ms: seq<Message>): (r: seq<PromptEntry>)
    ensures |r| == |ms|
    ensures forall i :: 0 <= i < |ms| ==> r[i] == PromptEntry(Speaking(ms[i].role), ms[i].content)
  {
    if ms == [] then [] else [PromptEntry(Speaking(ms[0].role), ms[0].content)] + Entries(ms[1..])
  }

  /** The outbound request: the system line, then the whole conversation. */
  function BuildRequest(ms: seq<Message>): (r: CompletionRequest)
    ensures r.model == CompletionModel
    ensures |r.messages| == |ms| + 1 && r.messages[0] == PromptEntry(System, SystemInstruction)
    ensures forall i :: 0 <= i < |ms| ==> r.messages[i + 1] == PromptEntry(Speaking(ms[i].role), ms[i].content)
  {
    CompletionRequest(CompletionModel, [PromptEntry(System, SystemInstruction)] + Entries(ms))
  }

  /** The process-wide message list. Submissions are taken one at a time,
      so the list is always a sequence of completed exchanges. */
  class MessageStore {
    var messages: seq<Message>

    ghost predicate Valid()
      reads this
    {
      Paired(messages)
    }

    constructor ()
      ensures Valid() && messages == []
    {
      messages := [];
    }

    /** GET /api/messages: the stored list, nothing changed. */
    method List() returns (r: seq<Message>)
      requires Valid()
      ensures r == messages && Paired(r)
    {
      r := messages;
    }

    /** POST /api/messages. `now`, the two ISO time strings and the outcome
        of the completion call are supplied by the caller; `request` is what
        was sent to the completion service, if anything. */
    method Submit(content: Option<string>, now: int, userCreatedAt: string,
                  outcome: Outcome, replyCreatedAt: string)
      returns (response: Response, request: Option<CompletionRequest>)
      requires Valid()
      modifies this
      ensures Valid()
      ensures Validate(content).None? ==>
        && response == BadRequest(ContentRequired)
        && request == None
        && messages == old(messages)
      ensures Validate(content).Some? ==>
        var user := Message(now, User, content.value, userCreatedAt);
        var reply := Message(now + 1, Assistant, ReplyText(content.value, outcome), replyCreatedAt);
        && messages == old(messages) + [user, reply]
        && request == Some(BuildRequest(old(messages) + [user]))
        && response == Ok(messages)
    {
      var accepted := Validate(content);
      if accepted.None? {
        return BadRequest(ContentRequired), None;
      }
      var text := accepted.value;
      var user := Message(now, User, text, userCreatedAt);
      ghost var before := messages;
      messages := messages + [user];
      request := Some(BuildRequest(messages));
      var reply := Message(now + 1, Assistant, ReplyText(text, outcome), replyCreatedAt);
      messages := messages + [reply];
      KeepsPaired(before, user, reply);
      response := Ok(messages);
    }
  }

  /** An accepted submission's two messages extend a paired history into a
      paired history. */
  lemma KeepsPaired(before: seq<Message>, user: Message, reply: Message)
    requires Paired(before)
    requires user.role == User && !Text.IsBlank(user.content)
    requires reply.role == Assistant && reply.content != "" && reply.id == user.id + 1
    ensures Paired(before + [user] + [reply])
  {
    assert before + [user] + [reply] == before + [user, reply];
    PairedAppend(before, user, reply);
  }

  /** A fresh store, then "hello" submitted while the service is down:
      the list holds the user message and the quoted fallback. */
  method EndToEndExample(now: int, t1: string, t2: string)
  {
    var store := new MessageStore();
    var first := store.List();
    assert first == [];
    assert !Text.IsBlank("hello") by {
      assert !Text.IsWhitespace("hello"[0]);
    }
    var response, request := store.Submit(Some("hello"), now, t1, Failed, t2);
    assert response.Ok? && |response.messages| == 2;
    assert response.messages[0] == Message(now, User, "hello", t1);
    assert response.messages[1] == Message(now + 1, Assistant, FallbackPrefix + "hello" + "\"", t2);
    var second := store.List();
    assert second == response.messages;
  }
}
