/** The chat relay endpoint (supabase/functions/chat): it takes the
    conversation a client sends, puts the assistant's persona in front of it
    as one system message, forwards it to the AI gateway as a streaming
    chat-completion request and relays the gateway's event stream, or turns a
    failure into a JSON error with a status code. The environment variable,
    the network call and the reading of the gateway's body are inputs
    (`apiKey`, `gateway`); the persona prompt is the parameter `persona`. */
module ChatRelay {
  import opened Wrappers

  // ---------------------------------------------------------------------
  // Data
  // ---------------------------------------------------------------------

  /** One message of a conversation as the client sends it. */
  datatype ChatMessage = ChatMessage(role: string, content: string)

  /** The JSON body posted to the gateway, with its `Authorization` header. */
  datatype GatewayRequest = GatewayRequest(
    model: string,
    authorization: string,
    messages: seq<ChatMessage>,
    stream: bool)

  /** The gateway's HTTP answer: its status, its body as an event stream,
      and the outcome of reading that body as text. */
  datatype Upstream = Upstream(status: int, events: string, text: Outcome<string>)

  datatype HttpMethod = Options | Post

  datatype Body = NoBody | ErrorBody(error: string) | EventStream(events: string)

  datatype Response = Response(status: int, body: Body)

  const SystemRole := "system"
  const GatewayModel := "google/gemini-2.5-flash"
  const MissingKeyMessage := "LOVABLE_API_KEY is not configured"
  const RateLimitedMessage := "Rate limit exceeded, please try again later."
  const PaymentRequiredMessage := "Payment required, please add credits."
  const GatewayErrorMessage := "AI gateway error"
  /** The message of the `TypeError` the runtime raises when `messages` is
      absent and its `length` is read. */
  const NoMessagesMessage := "Cannot read properties of undefined (reading 'length')"

  predicate IsOk(status: int) { 200 <= status <= 299 }

  /** `!LOVABLE_API_KEY` is false only for a set, non-empty value. */
  predicate Configured(apiKey: Option<string>) {
    apiKey.Some? && apiKey.value != ""
  }

  // ---------------------------------------------------------------------
  // The forwarded request
  // ---------------------------------------------------------------------

  /** The conversation sent on: the persona as a system message, then the
      client's messages as they came. */
  function Forwarded(persona: string, messages: seq<ChatMessage>): (r: seq<ChatMessage>)
    ensures |r| == |messages| + 1
    ensures r[0] == ChatMessage(SystemRole, persona)
    ensures forall i :: 0 <= i < |messages| ==> r[i + 1] == messages[i]
  {
    [ChatMessage(SystemRole, persona)] + messages
  }

  /** The client cannot displace the persona: the first message is the
      persona, and every other system message of the forwarded conversation
      is one the client sent, at the same place one step later. */
  lemma ForwardedSystemMessages(persona: string, messages: seq<ChatMessage>)
    ensures var r := Forwarded(persona, messages);
      forall i :: 0 <= i < |r| ==>
        (r[i].role == SystemRole <==> i == 0 || messages[i - 1].role == SystemRole)
    ensures Forwarded(persona, messages)[1..] == messages
  {
    var r := Forwarded(persona, messages);
    assert r[1..] == messages;
  }

  /** The request the relay posts: the fixed model, bearer authorization with
      the key, the forwarded conversation, streaming on. */
  function GatewayCall(apiKey: string, persona: string, messages: seq<ChatMessage>): (r: GatewayRequest)
    ensures r.model == GatewayModel && r.stream
    ensures r.authorization == "Bearer " + apiKey
    ensures |r.messages| == |messages| + 1
    ensures r.messages[0].role == SystemRole && r.messages[0].content == persona
    ensures r.messages[1..] == messages
  {
    var forwarded := Forwarded(persona, messages);
    assert forwarded[1..] == messages;
    GatewayRequest(GatewayModel, "Bearer " + apiKey, forwarded, true)
  }

  // ---------------------------------------------------------------------
  // The handler
  // ---------------------------------------------------------------------

  /** The request gets as far as the gateway: a POST whose body was read,
      with the key configured and a `messages` field present. */
  predicate Reached(verb: HttpMethod, request: Outcome<Option<seq<ChatMessage>>>, apiKey: Option<string>) {
    verb == Post && request.Ok? && Configured(apiKey) && request.value.Some?
  }

  /** The gateway's answer to the relay's request, when the request gets
      that far and posting it does not throw. */
  function Answer(
    verb: HttpMethod,
    request: Outcome<Option<seq<ChatMessage>>>,
    apiKey: Option<string>,
    persona: string,
    gateway: GatewayRequest -> Outcome<Upstream>): Option<Upstream>
  {
    if Reached(verb, request, apiKey) then
      match gateway(GatewayCall(apiKey.value, persona, request.value.value))
      case Ok(answer) => Some(answer)
      case Threw(_) => None
    else None
  }

  /** The whole request handler. `request` is the outcome of reading the JSON
      body together with its `messages` field (`None` when absent); `apiKey`
      is the environment variable; `gateway` is what posting a request to the
      gateway yields. A thrown error's message becomes the error body. */
  function Relay(
    verb: HttpMethod,
    request: Outcome<Option<seq<ChatMessage>>>,
    apiKey: Option<string>,
    persona: string,
    gateway: GatewayRequest -> Outcome<Upstream>): (r: Response)
    ensures verb == Options ==> r == Response(200, NoBody)
    ensures r.status in {200, 402, 429, 500}
    ensures r.status == 200 <==> !r.body.ErrorBody?
    ensures verb == Post && request.Ok? && !Configured(apiKey) ==> r == Response(500, ErrorBody(MissingKeyMessage))
    ensures verb == Post && request.Ok? && Configured(apiKey) && request.value.None? ==>
              r == Response(500, ErrorBody(NoMessagesMessage))
    ensures var answer := Answer(verb, request, apiKey, persona, gateway);
      (r.body.EventStream? <==> answer.Some? && IsOk(answer.value.status)) &&
      (r.body.EventStream? ==> r.body.events == answer.value.events) &&
      (r.status == 429 <==> answer.Some? && answer.value.status == 429) &&
      (r.status == 402 <==> answer.Some? && answer.value.status == 402)
    ensures r.status == 429 ==> r.body == ErrorBody(RateLimitedMessage)
    ensures r.status == 402 ==> r.body == ErrorBody(PaymentRequiredMessage)
    ensures verb == Post ==> !r.body.NoBody?
    ensures verb == Post && r.status == 200 ==> r.body.EventStream?
    ensures verb == Post && request.Threw? ==> r == Response(500, ErrorBody(request.message))
    ensures Reached(verb, request, apiKey) ==>
      var call := gateway(GatewayCall(apiKey.value, persona, request.value.value));
      (call.Threw? ==> r == Response(500, ErrorBody(call.message))) &&
      (call.Ok? && !IsOk(call.value.status) && call.value.status != 429 && call.value.status != 402 ==>
         r == Response(500, ErrorBody(if call.value.text.Threw? then call.value.text.message else GatewayErrorMessage)))
  {
    if verb == Options then Response(200, NoBody)
    else
      match request
      case Threw(e) => Response(500, ErrorBody(e))
      case Ok(messages) =>
        if !Configured(apiKey) then Response(500, ErrorBody(MissingKeyMessage))
        else if messages.None? then Response(500, ErrorBody(NoMessagesMessage))
        else
          match gateway(GatewayCall(apiKey.value, persona, messages.value))
          case Threw(e) => Response(500, ErrorBody(e))
          case Ok(answer) =>
            if IsOk(answer.status) then Response(200, EventStream(answer.events))
            else if answer.status == 429 then Response(429, ErrorBody(RateLimitedMessage))
            else if answer.status == 402 then Response(402, ErrorBody(PaymentRequiredMessage))
            else
              match answer.text
              case Threw(e) => Response(500, ErrorBody(e))
              case Ok(_) => Response(500, ErrorBody(GatewayErrorMessage))
  }

  /** Without a configured key the answer is the same whatever the gateway
      would do: the key check comes before any request is made. */
  lemma MissingKeyIgnoresGateway(
    request: Outcome<Option<seq<ChatMessage>>>,
    apiKey: Option<string>,
    persona: string,
    gateway: GatewayRequest -> Outcome<Upstream>,
    other: GatewayRequest -> Outcome<Upstream>)
    requires !Configured(apiKey)
    ensures Relay(Post, request, apiKey, persona, gateway) == Relay(Post, request, apiKey, persona, other)
  {
  }

  /** A gateway failure other than 429 and 402 reaches the client only as the
      fixed "AI gateway error" once the gateway's body was read: neither the
      upstream status nor its text shows through. */
  lemma GatewayErrorHidesDetails(
    messages: seq<ChatMessage>,
    apiKey: string,
    persona: string,
    gateway: GatewayRequest -> Outcome<Upstream>)
    requires apiKey != ""
    requires var answer := gateway(GatewayCall(apiKey, persona, messages));
      answer.Ok? && !IsOk(answer.value.status) && answer.value.status != 429 && answer.value.status != 402 &&
      answer.value.text.Ok?
    ensures Relay(Post, Ok(Some(messages)), Some(apiKey), persona, gateway) == Response(500, ErrorBody(GatewayErrorMessage))
  {
  }

  /** What the gateway is sent is the client's conversation, unchanged, after
      the persona, under the fixed model and the caller's key. */
  lemma RelayForwardsConversation(
    messages: seq<ChatMessage>,
    apiKey: string,
    persona: string,
    gateway: GatewayRequest -> Outcome<Upstream>)
    requires apiKey != ""
    requires gateway(GatewayCall(apiKey, persona, messages)).Ok?
    ensures var sent := GatewayCall(apiKey, persona, messages);
      var r := Relay(Post, Ok(Some(messages)), Some(apiKey), persona, gateway);
      sent.messages == [ChatMessage(SystemRole, persona)] + messages &&
      (IsOk(gateway(sent).value.status) ==> r == Response(200, EventStream(gateway(sent).value.events)))
  {
    var sent := GatewayCall(apiKey, persona, messages);
    assert sent.messages == [sent.messages[0]] + sent.messages[1..];
  }
}
