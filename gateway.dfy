/** The body of `sendMessage` in the server's n8n client: it forwards one
    chat turn to the webhook and turns the webhook's answer into a reply, or
    throws. The `fetch` call and `JSON.parse` are inputs; every `new Date()`
    reads the time passed in as `now`. */
module Gateway {
  import opened Wrappers
  import opened JsString
  import opened JsValue

  /** The object the socket handlers pass to `sendMessage`. `None` is a
      property that is `undefined`. */
  datatype Request = Request(message: Option<Json>, sessionId: Option<Json>, attachments: Option<Json>)

  /** The JSON posted to the webhook. `JSON.stringify` leaves out properties
      that are `undefined`, and `attachments` falls back to `[]`. */
  function OutgoingBody(data: Request): (r: Json)
    ensures r.Object?
    ensures Field(r, "message") == data.message
    ensures Field(r, "sessionId") == data.sessionId
    ensures Field(r, "attachments") == Some(OrElse(data.attachments, Array([])))
    ensures r.fields.Keys <= {"message", "sessionId", "attachments"}
  {
    var withAttachments := map["attachments" := OrElse(data.attachments, Array([]))];
    var withSession := if data.sessionId.Some? then withAttachments["sessionId" := data.sessionId.value] else withAttachments;
    Object(if data.message.Some? then withSession["message" := data.message.value] else withSession)
  }

  /** What `fetch` resolved to: the status and the text of the body, and
      what `JSON.parse` makes of that text (`None` when it throws). */
  datatype HttpResponse = HttpResponse(status: nat, body: string, parsed: Option<Json>)

  /** `response.ok`. */
  predicate IsOk(status: nat) {
    200 <= status <= 299
  }

  /** When a reply was stamped: a `timestamp` the webhook sent, or the
      server's clock (`new Date()`). */
  datatype Stamp = Sent(value: Json) | Clock(ms: nat)

  /** The normalised reply `sendMessage` resolves to. `attachments` is
      absent (`None`) in the default reply. */
  datatype Reply = Reply(text: Json, sessionId: Option<Json>, attachments: Option<Json>, timestamp: Stamp, agent: string)

  /** Why `sendMessage` threw: `fetch` rejected, the webhook answered with a
      status outside 200-299, its body was empty or not JSON (both re-thrown
      as "RESPUESTA INVÁLIDA DEL WORKFLOW - Formato incorrecto"), or
      normalisation read a property of `null`. */
  datatype GatewayError =
    | Unreachable
    | WebhookStatus(status: nat, body: string)
    | InvalidFormat
    | ReadOfNull(error: JsError)

  const Agent: string := "Grupo Lotificadora"
  const AgentFallback: string := "Respuesta del asistente de Grupo Lotificadora"
  const DefaultText: string := "Gracias por contactar a Grupo Lotificadora. En breve atenderemos tu consulta."

  /** The guard that treats a body as empty: `""`, only white space, or
      exactly `{}` or `[]` (these two are compared untrimmed). */
  predicate IsEmptyBody(t: string) {
    t == [] || Trim(t) == [] || t == "{}" || t == "[]"
  }

  /** The inner `try`: the empty guard, then `JSON.parse`. Whatever goes
      wrong in it surfaces as the one invalid-format error. */
  function ReadBody(response: HttpResponse): (r: Result<Json, GatewayError>)
    ensures r.Failure? ==> r.error == InvalidFormat
    ensures r.Success? <==> !IsEmptyBody(response.body) && response.parsed.Some?
    ensures r.Success? ==> r.value == response.parsed.value
  {
    if IsEmptyBody(response.body) then Failure(InvalidFormat)
    else match response.parsed
      case None => Failure(InvalidFormat)
      case Some(j) => Success(j)
  }

  /** `x.timestamp || new Date()`. */
  function StampOf(timestamp: Option<Json>, now: nat): (r: Stamp)
    ensures r.Sent? ==> Truthy(Some(r.value)) && timestamp == Some(r.value)
    ensures r.Clock? ==> !Truthy(timestamp) && r.ms == now
  {
    if Truthy(timestamp) then Sent(timestamp.value) else Clock(now)
  }

  /** The agent object of the first branch: `result[0].json` when `result`
      is a non-empty array whose first element is not `null` and has a
      truthy `json`. */
  function AgentObject(result: Json): (r: Option<Json>)
    ensures r.Some? ==> Truthy(r)
  {
    if result.Array? && |result.items| > 0 && result.items[0] != Null && Truthy(Field(result.items[0], "json"))
    then Field(result.items[0], "json")
    else None
  }

  /** Normalisation reads a property of `null` exactly when the body is
      `null`, or an array whose first element is `null`. */
  predicate ReadsNull(result: Json) {
    result == Null || (result.Array? && |result.items| > 0 && result.items[0] == Null)
  }

  /** The webhook's text in the second branch: `text || message || output`. */
  function FlatText(result: Json): Option<Json> {
    Or(Field(result, "text"), Or(Field(result, "message"), Field(result, "output")))
  }

  /** The reply built from the agent object of the first branch. */
  function FromAgent(agent: Json, data: Request, now: nat): Reply {
    Reply(
      OrElse(Or(Field(agent, "text"), Field(agent, "output")), Str(AgentFallback)),
      Or(Field(agent, "sessionId"), data.sessionId),
      Some(OrElse(Field(agent, "attachments"), Array([]))),
      StampOf(Field(agent, "timestamp"), now),
      Agent)
  }

  /** The second test and the default reply, on a `result` that is not the
      wrapped agent form. */
  function FromFlat(result: Json, data: Request, now: nat): Result<Reply, GatewayError> {
    match Get(Some(result), "text")
    case Failure(e) => Failure(ReadOfNull(e))
    case Success(_) =>
      var text := FlatText(result);
      if Truthy(text) then
        Success(Reply(text.value, Or(Field(result, "sessionId"), data.sessionId),
          Some(OrElse(Field(result, "attachments"), Array([]))), StampOf(Field(result, "timestamp"), now), Agent))
      else
        Success(Reply(Str(DefaultText), data.sessionId, None, Clock(now), Agent))
  }

  /** The three-branch chain that turns the parsed body into a reply. */
  function Normalize(data: Request, result: Json, now: nat): (r: Result<Reply, GatewayError>)
    ensures r.Failure? <==> ReadsNull(result)
    ensures r.Failure? ==> r.error.ReadOfNull?
    ensures AgentObject(result).Some? ==> r == Success(FromAgent(AgentObject(result).value, data, now))
    ensures AgentObject(result).None? && !ReadsNull(result) ==> r == FromFlat(result, data, now)
    ensures r.Success? ==> r.value.agent == Agent && Truthy(Some(r.value.text))
    ensures r.Success? ==> r.value.sessionId == data.sessionId || Truthy(r.value.sessionId)
    ensures r.Success? ==> r.value.attachments.None? || Truthy(r.value.attachments)
    ensures r.Success? && r.value.timestamp.Sent? ==> Truthy(Some(r.value.timestamp.value))
  {
    if result.Array? && |result.items| > 0 then
      match Get(Some(result.items[0]), "json")
      case Failure(e) => Failure(ReadOfNull(e))
      case Success(json) =>
        if Truthy(json) then Success(FromAgent(json.value, data, now)) else FromFlat(result, data, now)
    else FromFlat(result, data, now)
  }

  /** `sendMessage` once the request has been posted: `fetched` is what
      `fetch` resolved to, `None` when it rejected. */
  function SendMessage(data: Request, fetched: Option<HttpResponse>, now: nat): (r: Result<Reply, GatewayError>)
    ensures fetched.None? ==> r == Failure(Unreachable)
    ensures fetched.Some? && !IsOk(fetched.value.status) ==>
      r == Failure(WebhookStatus(fetched.value.status, fetched.value.body))
    ensures fetched.Some? && IsOk(fetched.value.status) && (IsEmptyBody(fetched.value.body) || fetched.value.parsed.None?) ==>
      r == Failure(InvalidFormat)
    ensures r.Success? <==>
      && fetched.Some? && IsOk(fetched.value.status)
      && !IsEmptyBody(fetched.value.body) && fetched.value.parsed.Some?
      && !ReadsNull(fetched.value.parsed.value)
    ensures r.Success? ==> r.value.agent == Agent && Truthy(Some(r.value.text))
    ensures r.Success? ==> r.value.sessionId == data.sessionId || Truthy(r.value.sessionId)
    ensures r.Success? ==> r.value.attachments.None? || Truthy(r.value.attachments)
    ensures r.Success? && r.value.timestamp.Sent? ==> Truthy(Some(r.value.timestamp.value))
  {
    match fetched
    case None => Failure(Unreachable)
    case Some(response) =>
      if !IsOk(response.status) then Failure(WebhookStatus(response.status, response.body))
      else match ReadBody(response)
        case Failure(e) => Failure(e)
        case Success(result) => Normalize(data, result, now)
  }

  /** First branch: `json.text`, else `json.output`, else the assistant's
      fixed text; the rest of the reply comes from the agent object, and
      the request's session id only when the agent gives none. */
  lemma WrappedPrecedence(data: Request, result: Json, now: nat)
    requires AgentObject(result).Some?
    ensures var agent := AgentObject(result).value;
      var r := Normalize(data, result, now);
      && r.Success?
      && (Truthy(Field(agent, "text")) ==> Some(r.value.text) == Field(agent, "text"))
      && (!Truthy(Field(agent, "text")) && Truthy(Field(agent, "output")) ==> Some(r.value.text) == Field(agent, "output"))
      && (!Truthy(Field(agent, "text")) && !Truthy(Field(agent, "output")) ==> r.value.text == Str(AgentFallback))
      && (Truthy(Field(agent, "sessionId")) ==> r.value.sessionId == Field(agent, "sessionId"))
      && (!Truthy(Field(agent, "sessionId")) ==> r.value.sessionId == data.sessionId)
      && (Truthy(Field(agent, "attachments")) ==> r.value.attachments == Field(agent, "attachments"))
      && (!Truthy(Field(agent, "attachments")) ==> r.value.attachments == Some(Array([])))
      && r.value.timestamp == StampOf(Field(agent, "timestamp"), now)
  {
  }

  /** In the first branch a `message` of the agent object is never read:
      changing it changes nothing. */
  lemma WrappedIgnoresMessage(data: Request, fields: map<string, Json>, rest: seq<Json>, m: Json, now: nat)
    requires "json" in fields && fields["json"].Object?
    ensures var edited := fields["json" := Object(fields["json"].fields["message" := m])];
      Normalize(data, Array([Object(edited)] + rest), now) == Normalize(data, Array([Object(fields)] + rest), now)
  {
    var agent := fields["json"];
    var edited := agent.fields["message" := m];
    assert Field(Object(edited), "text") == Field(agent, "text");
    assert Field(Object(edited), "output") == Field(agent, "output");
    assert Field(Object(edited), "sessionId") == Field(agent, "sessionId");
    assert Field(Object(edited), "attachments") == Field(agent, "attachments");
    assert Field(Object(edited), "timestamp") == Field(agent, "timestamp");
  }

  /** Second branch: `text`, else `message`, else `output` of the body
      itself. */
  lemma FlatPrecedence(data: Request, result: Json, now: nat)
    requires AgentObject(result).None? && !ReadsNull(result) && Truthy(FlatText(result))
    ensures var r := Normalize(data, result, now);
      && r.Success?
      && (Truthy(Field(result, "text")) ==> Some(r.value.text) == Field(result, "text"))
      && (!Truthy(Field(result, "text")) && Truthy(Field(result, "message")) ==> Some(r.value.text) == Field(result, "message"))
      && (!Truthy(Field(result, "text")) && !Truthy(Field(result, "message")) ==> Some(r.value.text) == Field(result, "output"))
      && (Truthy(Field(result, "sessionId")) ==> r.value.sessionId == Field(result, "sessionId"))
      && (!Truthy(Field(result, "sessionId")) ==> r.value.sessionId == data.sessionId)
      && (Truthy(Field(result, "attachments")) ==> r.value.attachments == Field(result, "attachments"))
      && (!Truthy(Field(result, "attachments")) ==> r.value.attachments == Some(Array([])))
      && r.value.timestamp == StampOf(Field(result, "timestamp"), now)
  {
  }

  /** Otherwise the canned reply, which keeps the request's session id even
      when the body carries one, has no attachments and is stamped now. */
  lemma DefaultReply(data: Request, result: Json, now: nat)
    requires AgentObject(result).None? && !ReadsNull(result) && !Truthy(FlatText(result))
    ensures Normalize(data, result, now) == Success(Reply(Str(DefaultText), data.sessionId, None, Clock(now), Agent))
  {
  }

  /** A body with a character that is not white space, other than `{}`
      and `[]`, passes the empty guard. */
  lemma NonBlankBody(t: string, i: nat)
    requires i < |t| && !IsWhiteSpace(t[i]) && t != "{}" && t != "[]"
    ensures !IsEmptyBody(t)
  {
    assert !AllWhiteSpace(t);
    TrimSpec(t);
  }

  /** The agent workflow's usual answer, `[{"json":{"text":"hi"}}]`, is
      answered with `hi` and the request's session id. */
  lemma WrappedExample(data: Request, now: nat)
    ensures var result := Array([Object(map["json" := Object(map["text" := Str("hi")])])]);
      var r := SendMessage(data, Some(HttpResponse(200, "[{\"json\":{\"text\":\"hi\"}}]", Some(result))), now);
      r.Success? && r.value.text == Str("hi") && r.value.sessionId == data.sessionId
  {
    var body := "[{\"json\":{\"text\":\"hi\"}}]";
    var result := Array([Object(map["json" := Object(map["text" := Str("hi")])])]);
    assert AgentObject(result) == Some(Object(map["text" := Str("hi")]));
    WrappedPrecedence(data, result, now);
    NonBlankBody(body, 0);
  }

  /** A flat `{"output":"ok"}` is answered with `ok`. */
  lemma FlatExample(data: Request, now: nat)
    ensures var result := Object(map["output" := Str("ok")]);
      var r := SendMessage(data, Some(HttpResponse(200, "{\"output\":\"ok\"}", Some(result))), now);
      r.Success? && r.value.text == Str("ok")
  {
    var body := "{\"output\":\"ok\"}";
    var result := Object(map["output" := Str("ok")]);
    assert FlatText(result) == Some(Str("ok"));
    NonBlankBody(body, 0);
  }

  /** `{}` is caught by the empty guard, but ` {}` is not: it parses to an
      empty object and gets the canned reply. */
  lemma PaddedEmptyObject(data: Request, now: nat)
    ensures SendMessage(data, Some(HttpResponse(200, "{}", Some(Object(map[])))), now) == Failure(InvalidFormat)
    ensures SendMessage(data, Some(HttpResponse(200, " {}", Some(Object(map[])))), now)
      == Success(Reply(Str(DefaultText), data.sessionId, None, Clock(now), Agent))
  {
    NonBlankBody(" {}", 1);
    DefaultReply(data, Object(map[]), now);
  }

  /** A body of `null` passes the empty guard and parses, and the first
      property read on it throws. */
  lemma NullBody(data: Request, now: nat)
    ensures SendMessage(data, Some(HttpResponse(200, "null", Some(Null))), now).Failure?
    ensures SendMessage(data, Some(HttpResponse(200, "null", Some(Null))), now).error.ReadOfNull?
  {
    NonBlankBody("null", 0);
  }

  /** The default reply keeps the request's session id even when the body
      names another one. */
  lemma DefaultIgnoresBodySession(data: Request, now: nat)
    ensures Normalize(data, Object(map["sessionId" := Str("abc")]), now).value.sessionId == data.sessionId
  {
    var result := Object(map["sessionId" := Str("abc")]);
    assert FlatText(result) == None;
    DefaultReply(data, result, now);
  }
}
