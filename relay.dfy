/** The server's Socket.IO handlers for `message` and `file` events: each
    builds a request for `sendMessage`, waits for it and emits exactly one
    event back to the socket that asked. */
module Relay {
  import opened Wrappers
  import opened JsValue
  import opened Gateway

  /** An event the server emits to a socket: a `message` of type
      `response`, or an `error` with three fixed texts. */
  datatype Emit =
    | Message(content: Json, attachments: Json, timestamp: Stamp)
    | Error(message: string, error: string, details: string)

  const MessageFallback: string := "Sin respuesta de n8n"
  const FileFallback: string := "Archivo procesado por Grupo Lotificadora"

  /** The `error` a failed `message` turn emits. */
  const ConnectError: Emit := Error(
    "Error al conectar con el sistema Grupo Lotificadora",
    "El servicio de atenci\U{F3}n no est\U{E1} disponible. Por favor intenta m\U{E1}s tarde.",
    "Aseg\U{FA}rate que el workflow est\U{E1} importado y activo en n8n.")

  /** The `error` a failed `file` turn emits. */
  const FileError: Emit := Error(
    "Error al procesar el archivo",
    "No se pudo conectar con el sistema de archivos de Grupo Lotificadora.",
    "Verifica que el workflow est\U{E9} activo en n8n.")

  /** The request the `message` handler builds from the event's payload:
      reading `data.message` throws when the payload is `null` or missing;
      the session id falls back to the socket's id, the attachments to `[]`. */
  function MessageRequest(data: Option<Json>, socketId: string): (r: Result<Request, JsError>)
    ensures r.Failure? <==> data == None || data == Some(Null)
    ensures r.Success? ==>
      && r.value.message == Field(data.value, "message")
      && (Truthy(Field(data.value, "sessionId")) ==> r.value.sessionId == Field(data.value, "sessionId"))
      && (!Truthy(Field(data.value, "sessionId")) ==> r.value.sessionId == Some(Str(socketId)))
      && (Truthy(Field(data.value, "attachments")) ==> r.value.attachments == Field(data.value, "attachments"))
      && (!Truthy(Field(data.value, "attachments")) ==> r.value.attachments == Some(Array([])))
  {
    match Get(data, "message")
    case Failure(e) => Failure(e)
    case Success(message) =>
      Success(Request(message, Or(Field(data.value, "sessionId"), Some(Str(socketId))),
        Some(OrElse(Field(data.value, "attachments"), Array([])))))
  }

  /** The `file` handler's request: as for `message`, except that a falsy
      message becomes `""`. */
  function FileRequest(data: Option<Json>, socketId: string): (r: Result<Request, JsError>)
    ensures r.Failure? <==> data == None || data == Some(Null)
    ensures r.Success? ==>
      && (Truthy(Field(data.value, "message")) ==> r.value.message == Field(data.value, "message"))
      && (!Truthy(Field(data.value, "message")) ==> r.value.message == Some(Str("")))
      && (Truthy(Field(data.value, "sessionId")) ==> r.value.sessionId == Field(data.value, "sessionId"))
      && (!Truthy(Field(data.value, "sessionId")) ==> r.value.sessionId == Some(Str(socketId)))
      && (Truthy(Field(data.value, "attachments")) ==> r.value.attachments == Field(data.value, "attachments"))
      && (!Truthy(Field(data.value, "attachments")) ==> r.value.attachments == Some(Array([])))
  {
    match Get(data, "message")
    case Failure(e) => Failure(e)
    case Success(message) =>
      Success(Request(Or(message, Some(Str(""))), Or(Field(data.value, "sessionId"), Some(Str(socketId))),
        Some(OrElse(Field(data.value, "attachments"), Array([])))))
  }

  /** The `message` event built from a reply: `text || message || fallback`
      (a reply has no `message`), `attachments || []`, and
      `timestamp || new Date()`. */
  function ReplyEvent(reply: Reply, fallback: string, now: nat): (e: Emit)
    ensures e.Message?
    ensures Truthy(Some(reply.text)) ==> e.content == reply.text
    ensures !Truthy(Some(reply.text)) ==> e.content == Str(fallback)
    ensures Truthy(reply.attachments) ==> Some(e.attachments) == reply.attachments
    ensures !Truthy(reply.attachments) ==> e.attachments == Array([])
  {
    var timestamp := if reply.timestamp.Sent? && !Truthy(Some(reply.timestamp.value)) then Clock(now) else reply.timestamp;
    Message(OrElse(Or(Some(reply.text), None), Str(fallback)), OrElse(reply.attachments, Array([])), timestamp)
  }

  /** Whatever the fallback, the event for a reply `sendMessage` produced
      carries the reply's own text, attachments (`[]` in the default reply)
      and time stamp: the handlers' fallback texts are never shown. */
  lemma FallbackUnreachable(data: Request, fetched: Option<HttpResponse>, now: nat, fallback: string, later: nat)
    requires SendMessage(data, fetched, now).Success?
    ensures var reply := SendMessage(data, fetched, now).value;
      var e := ReplyEvent(reply, fallback, later);
      && e.content == reply.text
      && e.timestamp == reply.timestamp
      && (reply.attachments.Some? ==> Some(e.attachments) == reply.attachments)
      && (reply.attachments.None? ==> e.attachments == Array([]))
  {
  }

  /** One client connection and the events the server has emitted to it. */
  class Connection {
    const id: string
    var emitted: seq<Emit>

    constructor(id: string)
      ensures this.id == id && emitted == []
    {
      this.id := id;
      emitted := [];
    }

    /** The `message` handler, with the webhook's answer to this turn given
        as `fetched`. */
    method OnMessage(data: Option<Json>, fetched: Option<HttpResponse>, now: nat)
      modifies this
      ensures var request := MessageRequest(data, id);
        emitted == old(emitted) + [
          if request.Failure? || SendMessage(request.value, fetched, now).Failure? then ConnectError
          else ReplyEvent(SendMessage(request.value, fetched, now).value, MessageFallback, now)]
      ensures var request := MessageRequest(data, id);
        var last := emitted[|emitted| - 1];
        && (last == ConnectError <==> request.Failure? || SendMessage(request.value, fetched, now).Failure?)
        && (last != ConnectError ==> last.Message?)
    {
      var request := MessageRequest(data, id);
      if request.Failure? {
        emitted := emitted + [ConnectError];
        return;
      }
      var response := SendMessage(request.value, fetched, now);
      if response.Failure? {
        emitted := emitted + [ConnectError];
        return;
      }
      emitted := emitted + [ReplyEvent(response.value, MessageFallback, now)];
    }

    /** The `file` handler. */
    method OnFile(data: Option<Json>, fetched: Option<HttpResponse>, now: nat)
      modifies this
      ensures var request := FileRequest(data, id);
        emitted == old(emitted) + [
          if request.Failure? || SendMessage(request.value, fetched, now).Failure? then FileError
          else ReplyEvent(SendMessage(request.value, fetched, now).value, FileFallback, now)]
      ensures var request := FileRequest(data, id);
        var last := emitted[|emitted| - 1];
        && (last == FileError <==> request.Failure? || SendMessage(request.value, fetched, now).Failure?)
        && (last != FileError ==> last.Message?)
    {
      var request := FileRequest(data, id);
      if request.Failure? {
        emitted := emitted + [FileError];
        return;
      }
      var response := SendMessage(request.value, fetched, now);
      if response.Failure? {
        emitted := emitted + [FileError];
        return;
      }
      emitted := emitted + [ReplyEvent(response.value, FileFallback, now)];
    }
  }

  /** With a non-empty socket id, every request carries a truthy session
      id, and so does every reply to it. */
  lemma ReplySessionAlwaysSet(data: Option<Json>, socketId: string, fetched: Option<HttpResponse>, now: nat)
    requires socketId != ""
    requires MessageRequest(data, socketId).Success?
    ensures Truthy(MessageRequest(data, socketId).value.sessionId)
    ensures var r := SendMessage(MessageRequest(data, socketId).value, fetched, now);
      r.Success? ==> Truthy(r.value.sessionId)
  {
  }
}
