/** The chat page's send handler: the user's message is handed to the chat
    store, the conversation so far is turned into model turns and posted to
    the backend the model id selects, and a string answer is handed to the
    store as the assistant's message. */
module ChatPage {
  import opened Wrappers
  import opened Text
  import opened ChatMessages
  import opened ModelClients

  /** `model.startsWith('gpt')` picks the OpenAI client, anything else the
      Mistral one. */
  function SelectBackend(model: string): (b: Backend)
    ensures b.OpenAI? <==> StartsWith(model, "gpt")
    ensures b.Mistral? <==> !StartsWith(model, "gpt")
  {
    if StartsWith(model, "gpt") then OpenAI else Mistral
  }

  /** The page maps each message by its sender: `user` stays `user`, any
      other sender becomes `assistant`. */
  function TurnOf(m: Message): Turn {
    Turn(if m.sender == "user" then "user" else "assistant", m.content)
  }

  function TurnsOf(messages: seq<Message>): (r: seq<Turn>)
    ensures |r| == |messages|
    ensures forall i :: 0 <= i < |messages| ==> r[i] == TurnOf(messages[i])
  {
    seq(|messages|, i requires 0 <= i < |messages| => TurnOf(messages[i]))
  }

  /** The message the page builds from the typed text. */
  function UserMessage(text: string): Message {
    Message("user", text, None)
  }

  /** The turns handed to `generateMessage`: the messages before the send and
      the user's message, mapped by sender, then the typed text once more as
      a user turn. */
  function TurnsFor(messages: seq<Message>, text: string): seq<Turn> {
    TurnsOf(messages + [UserMessage(text)]) + [Turn("user", text)]
  }

  /** The turns are the earlier messages in order, with their content and a
      role that is `user` exactly for the user's messages, followed by two
      user turns both carrying the typed text; the client's formatting leaves
      them as they are. */
  lemma TurnsForShape(messages: seq<Message>, text: string)
    ensures var ts := TurnsFor(messages, text);
      |ts| == |messages| + 2
      && ts[|messages|] == Turn("user", text) && ts[|messages| + 1] == Turn("user", text)
      && (forall i :: 0 <= i < |messages| ==>
            ts[i].content == messages[i].content && (ts[i].role == "user" <==> messages[i].sender == "user"))
      && FormatMessages(ts) == ts
  {
    var ts := TurnsFor(messages, text);
    var all := messages + [UserMessage(text)];
    assert all[|messages|] == UserMessage(text);
    forall i | 0 <= i < |messages| ensures ts[i] == TurnOf(messages[i]) {
      assert all[i] == messages[i];
    }
    assert Normalised(ts);
    FormatNormalised(ts);
  }

  /** The answer the page accepts from a generation: a string content. A
      non-string content is refused with the page's own message; a failure
      keeps the client's message. */
  function Answer(g: Generated): (r: Reply<string>)
    ensures r.Ok? <==> g.Returned? && g.content.JString?
    ensures r.Ok? ==> r.data == g.content.s
    ensures g.Returned? && g.content.JOther? ==> r == Err("Invalid AI response format")
    ensures g.Failed? ==> r == Err(g.message)
  {
    match g
    case Returned(JString(s)) => Ok(s)
    case Returned(JOther) => Err("Invalid AI response format")
    case Failed(message) => Err(message)
  }

  /** A message the page hands to the store's `sendMessage`, with the chat it
      belongs to. */
  datatype Outgoing = Outgoing(content: string, sender: string, sessionId: int)

  /** JavaScript truthiness of the current chat id. */
  predicate ChatChosen(currentChat: Option<int>) {
    currentChat.Some? && currentChat.value != 0
  }

  class Page {
    /** The chat store's current chat, model id and message list, read by the
        handler. */
    var currentChat: Option<int>
    var model: string
    var messages: seq<Message>
    /** Every message handed to the store's `sendMessage`, oldest first. */
    var sent: seq<Outgoing>
    var isMessageLoading: bool
    var isAiResponding: bool

    constructor(currentChat: Option<int>, model: string, messages: seq<Message>)
      ensures this.currentChat == currentChat && this.model == model && this.messages == messages
      ensures sent == [] && !isMessageLoading && !isAiResponding
    {
      this.currentChat := currentChat;
      this.model := model;
      this.messages := messages;
      sent := [];
      isMessageLoading := false;
      isAiResponding := false;
    }

    /** `handleSendMessage(text)` given the backend's reply. Without a chosen
        chat nothing happens. Otherwise the user's message goes to the store,
        the request built from the messages before the send goes to the
        backend chosen by the model id, a string answer goes to the store as
        the assistant's message, and anything else only gives a notice. Both
        flags are down at the end, whatever the reply. */
    method HandleSendMessage(text: string, reply: HttpReply) returns (request: Option<Request>, notice: Option<string>)
      modifies this
      ensures currentChat == old(currentChat) && model == old(model) && messages == old(messages)
      ensures !ChatChosen(currentChat) ==>
        request.None? && notice.None? && sent == old(sent)
        && isMessageLoading == old(isMessageLoading) && isAiResponding == old(isAiResponding)
      ensures ChatChosen(currentChat) ==>
        var backend := SelectBackend(model);
        var answer := Answer(Generate(backend, reply));
        var user := Outgoing(text, "user", currentChat.value);
        request == Some(RequestFor(backend, TurnsFor(messages, text), model))
        && (answer.Ok? ==> sent == old(sent) + [user, Outgoing(answer.data, "assistant", currentChat.value)] && notice.None?)
        && (answer.Err? ==> sent == old(sent) + [user] && notice == Some("Error generating response: " + answer.message))
        && !isMessageLoading && !isAiResponding
    {
      request, notice := None, None;
      if !ChatChosen(currentChat) {
        return;
      }
      isMessageLoading := true;
      var chat := currentChat.value;
      sent := sent + [Outgoing(text, "user", chat)];
      var backend := SelectBackend(model);
      isAiResponding := true;
      var turns := TurnsFor(messages, text);
      request := Some(RequestFor(backend, turns, model));
      var answer := Answer(Generate(backend, reply));
      if answer.Ok? {
        sent := sent + [Outgoing(answer.data, "assistant", chat)];
      } else {
        notice := Some("Error generating response: " + answer.message);
      }
      isAiResponding := false;
      isMessageLoading := false;
    }
  }

  /** An assistant message is stored exactly when the backend answered with
      a string, and it then carries that string. */
  lemma AssistantStoredIff(backend: Backend, reply: HttpReply)
    ensures Answer(Generate(backend, reply)).Ok? <==> reply.ok && reply.content.JString?
    ensures Answer(Generate(backend, reply)).Ok? ==> Answer(Generate(backend, reply)).data == reply.content.s
  {
  }

  /** The typed text reaches the model twice in a row: once as the user's
      message in the mapped list and once as the extra user turn. */
  lemma TextSentTwice(messages: seq<Message>, text: string, model: string)
    ensures var r := RequestFor(SelectBackend(model), TurnsFor(messages, text), model);
      |r.messages| >= 2
      && r.messages[|r.messages| - 2] == r.messages[|r.messages| - 1] == Turn("user", text)
  {
    TurnsForShape(messages, text);
  }
}
