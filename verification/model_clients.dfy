/** The clients of the two model backends: the conversation is normalised to
    `user`/`assistant` turns and posted to the backend's route; a failed
    reply becomes an error carrying the server's message or a fixed one. The
    HTTP exchange itself is a parameter. */
module ModelClients {
  import opened Wrappers

  /** One turn of the conversation handed to a backend. */
  datatype Turn = Turn(role: string, content: string)

  datatype Backend = OpenAI | Mistral

  /** `role === 'user' ? 'user' : 'assistant'`. */
  function NormalRole(role: string): string {
    if role == "user" then "user" else "assistant"
  }

  /** `formatMessages`: every turn keeps its content and position; the role
      `user` stays, any other role becomes `assistant`. */
  function FormatMessages(turns: seq<Turn>): (r: seq<Turn>)
    ensures |r| == |turns|
    ensures forall i :: 0 <= i < |turns| ==> r[i].content == turns[i].content
    ensures forall i :: 0 <= i < |turns| ==> (r[i].role == "user" <==> turns[i].role == "user")
    ensures forall i :: 0 <= i < |turns| ==> r[i].role in {"user", "assistant"}
    decreases |turns|
  {
    if turns == [] then []
    else [Turn(NormalRole(turns[0].role), turns[0].content)] + FormatMessages(turns[1..])
  }

  /** Turns whose roles are already `user` or `assistant`. */
  predicate Normalised(turns: seq<Turn>) {
    forall i :: 0 <= i < |turns| ==> turns[i].role in {"user", "assistant"}
  }

  /** Formatting leaves normalised turns as they are. */
  lemma {:induction false} FormatNormalised(turns: seq<Turn>)
    requires Normalised(turns)
    ensures FormatMessages(turns) == turns
    decreases |turns|
  {
    if turns != [] {
      assert turns[0].role in {"user", "assistant"};
      FormatNormalised(turns[1..]);
      assert turns == [turns[0]] + turns[1..];
    }
  }

  /** Formatting twice is formatting once. */
  lemma FormatIdempotent(turns: seq<Turn>)
    ensures FormatMessages(FormatMessages(turns)) == FormatMessages(turns)
  {
    FormatNormalised(FormatMessages(turns));
  }

  /** Formatting works turn by turn: it distributes over concatenation. */
  lemma {:induction false} FormatAppend(a: seq<Turn>, b: seq<Turn>)
    ensures FormatMessages(a + b) == FormatMessages(a) + FormatMessages(b)
    decreases |a|
  {
    if a == [] {
      assert a + b == b;
    } else {
      assert (a + b)[1..] == a[1..] + b;
      FormatAppend(a[1..], b);
    }
  }

  /** The POST a client sends: its route and the JSON body's two fields. */
  datatype Request = Request(path: string, messages: seq<Turn>, model: string)

  /** The route of each backend. */
  function Route(backend: Backend): string {
    match backend
    case OpenAI => "/api/openai"
    case Mistral => "/api/mistral"
  }

  /** The request `generateMessage` posts: the formatted turns and the model
      id, to the backend's route. */
  function RequestFor(backend: Backend, turns: seq<Turn>, model: string): (r: Request)
    ensures r.path == "/api/openai" <==> backend.OpenAI?
    ensures r.path == "/api/mistral" <==> backend.Mistral?
    ensures Normalised(r.messages) && |r.messages| == |turns|
    ensures r.model == model
  {
    Request(Route(backend), FormatMessages(turns), model)
  }

  /** The JSON value of a reply's `content` field, as far as the caller
      looks at it: a string, or anything else (absent, null, a number, an
      object). */
  datatype JsonValue = JString(s: string) | JOther

  /** A backend's HTTP reply: the `ok` flag, and the body's `error` and
      `content` fields. */
  datatype HttpReply = HttpReply(ok: bool, error: Option<string>, content: JsonValue)

  /** What `generateMessage` does with the reply: return the `content` field,
      or throw an error with a message. */
  datatype Generated = Returned(content: JsonValue) | Failed(message: string)

  /** The message used when the server gives none. */
  function DefaultError(backend: Backend): (m: string)
    ensures m != []
  {
    match backend
    case OpenAI => "Failed to generate OpenAI response"
    case Mistral => "Failed to generate Mistral response"
  }

  /** `errorData.error || <default>`: the server's message when it is a
      non-empty string, the backend's default otherwise; never empty. */
  function ErrorMessage(backend: Backend, error: Option<string>): (m: string)
    ensures m != []
    ensures error.Some? && error.value != [] ==> m == error.value
    ensures error.None? || error.value == [] ==> m == DefaultError(backend)
  {
    if error.Some? && error.value != [] then error.value else DefaultError(backend)
  }

  /** `generateMessage` after the fetch: a non-ok reply fails with the chosen
      message, an ok reply returns its `content` whatever its type. */
  function Generate(backend: Backend, reply: HttpReply): (g: Generated)
    ensures g.Returned? <==> reply.ok
    ensures g.Returned? ==> g.content == reply.content
    ensures g.Failed? ==> g.message == ErrorMessage(backend, reply.error)
  {
    if !reply.ok then Failed(ErrorMessage(backend, reply.error)) else Returned(reply.content)
  }

  /** The two clients differ only in their route and their default message:
      the same reply gives the same result unless it is a failure without a
      message of its own. */
  lemma BackendsAgree(reply: HttpReply)
    ensures Generate(OpenAI, reply) == Generate(Mistral, reply) <==>
      reply.ok || (reply.error.Some? && reply.error.value != [])
  {
    if !reply.ok && (reply.error.None? || reply.error.value == []) {
      assert DefaultError(OpenAI)[19] != DefaultError(Mistral)[19];
    }
  }
}
