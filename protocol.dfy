/** How the client and the server meet: the client's socket events as the
    JSON the server's handlers receive, and what becomes of a voice note. */
module Protocol {
  import opened Wrappers
  import opened JsString
  import opened JsValue
  import opened Upload
  import opened Gateway
  import Relay
  import Client
  import BotText

  /** The JSON body `/upload` answers with. */
  function EncodeInfo(info: UploadInfo): Json {
    Object(map[
      "filename" := Str(info.filename),
      "originalName" := Str(info.originalName),
      "mimetype" := Str(info.mimetype),
      "size" := Number(info.size as real),
      "url" := Str(info.url)])
  }

  /** The payload of a client event, as the server's handler receives it. */
  function Encode(e: Client.Outgoing): Json {
    match e
    case SendText(message, sessionId) =>
      Object(map["message" := Str(message), "sessionId" := Str(sessionId)])
    case SendFile(message, sessionId, attachments) =>
      Object(map["message" := Str(message), "sessionId" := Str(sessionId),
        "attachments" := Array(seq(|attachments|, i requires 0 <= i < |attachments| => EncodeInfo(attachments[i])))])
  }

  /** The session id a client makes up at start reaches the webhook
      request as it is: it is never empty, so the relay never falls back to
      the socket's id. */
  lemma ClientSessionKept(now: nat, message: string, socketId: string)
    ensures var id := "session-" + DecimalString(now);
      var request := Relay.MessageRequest(Some(Encode(Client.SendText(message, id))), socketId);
      request.Success? && request.value.sessionId == Some(Str(id))
  {
  }

  /** A text the client sends reaches the webhook as sent, with the
      client's session id and no attachments. */
  lemma TextTurnForwarded(message: string, sessionId: string, socketId: string)
    requires message != [] && sessionId != []
    ensures var request := Relay.MessageRequest(Some(Encode(Client.SendText(message, sessionId))), socketId);
      && request == Success(Request(Some(Str(message)), Some(Str(sessionId)), Some(Array([]))))
      && OutgoingBody(request.value) == Object(map[
           "message" := Str(message), "sessionId" := Str(sessionId), "attachments" := Array([])])
  {
    var body := OutgoingBody(Request(Some(Str(message)), Some(Str(sessionId)), Some(Array([]))));
    assert body.fields.Keys == {"message", "sessionId", "attachments"};
  }

  /** An uploaded file's event reaches the webhook with its caption, the
      client's session id and the upload's JSON as the one attachment. */
  lemma FileTurnForwarded(message: string, sessionId: string, info: UploadInfo, socketId: string)
    requires message != [] && sessionId != []
    ensures Relay.FileRequest(Some(Encode(Client.SendFile(message, sessionId, [info]))), socketId)
      == Success(Request(Some(Str(message)), Some(Str(sessionId)), Some(Array([EncodeInfo(info)]))))
  {
    var items := seq(1, i requires 0 <= i < 1 => EncodeInfo([info][i]));
    assert items == [EncodeInfo(info)];
  }

  /** The name `sendAudioMessage` gives a recording. */
  function VoiceFileName(now: nat): string {
    "audio-" + DecimalString(now) + ".webm"
  }

  /** The MIME type of a recording. */
  const VoiceMimetype: string := "audio/webm"

  lemma VoiceExtension(now: nat)
    ensures Extname(VoiceFileName(now)) == ".webm"
  {
    var digits := DecimalString(now);
    var name := VoiceFileName(now);
    var d := |"audio-" + digits|;
    assert name[d..] == ".webm";
    assert forall j :: 0 <= j < |name| ==> name[j] != '/' by {
      forall j | 0 <= j < |name| ensures name[j] != '/' {
        if 6 <= j < d {
          assert name[j] == digits[j - 6];
        }
      }
    }
    assert forall j :: d < j < |name| ==> name[j] != '.';
    ExtnameLastDot(name, d);
  }

  lemma WebmFails()
    ensures !AllowedTest(ToLower(".webm"))
    ensures !AllowedTest(VoiceMimetype)
  {
    ToLowerNoCapitals(".webm");
    NoTokenStartFails(".webm");
    NoTokenStartFails(VoiceMimetype);
  }

  /** Neither `.webm` nor `audio/webm` holds an allowed token, so the
      server refuses every voice note the client records. */
  lemma VoiceNoteRefused(recordedAt: nat, size: nat, uploadedAt: nat)
    ensures HandleUpload(uploadedAt, Some(IncomingFile(VoiceFileName(recordedAt), VoiceMimetype, size)))
      == Refused(RejectMessage)
  {
    VoiceExtension(recordedAt);
    WebmFails();
  }

  /** A fresh client that records a voice note shows the upload error and
      sends nothing. */
  method VoiceNoteNeverSent(startedAt: nat, recordedAt: nat, size: nat, uploadedAt: nat) returns (app: Client.ChatApp)
    ensures app.outbox == []
    ensures app.log == [Client.System(Client.VoiceUploadError, Client.Alert)]
  {
    app := new Client.ChatApp(startedAt);
    VoiceNoteRefused(recordedAt, size, uploadedAt);
    app.VoiceUploaded(HandleUpload(uploadedAt, Some(IncomingFile(VoiceFileName(recordedAt), VoiceMimetype, size))));
  }

  /** The client can lay out a reply's attachments exactly when they are
      falsy (the relay sends `[]`) or an array without `null` items. */
  lemma ReplyLaidOutIff(reply: Reply, fallback: string, now: nat)
    ensures var e := Relay.ReplyEvent(reply, fallback, now);
      Client.Laid(Some(e.attachments)).Some? <==>
        !Truthy(reply.attachments) || (reply.attachments.value.Array? && Null !in reply.attachments.value.items)
  {
  }

  /** So a webhook body answered in the second branch whose `attachments`
      is truthy but not an array, such as `{"text":"hi","attachments":"x"}`,
      never appears in the conversation. */
  lemma FlatAttachmentsHideReply(data: Request, result: Json, now: nat, fallback: string, later: nat)
    requires AgentObject(result).None? && !ReadsNull(result) && Truthy(FlatText(result))
    requires Truthy(Field(result, "attachments")) && !Field(result, "attachments").value.Array?
    ensures var r := Normalize(data, result, now);
      && r.Success?
      && Client.Laid(Some(Relay.ReplyEvent(r.value, fallback, later).attachments)).None?
  {
    FlatPrecedence(data, result, now);
    ReplyLaidOutIff(Normalize(data, result, now).value, fallback, later);
  }

  /** A bot reply whose text is truthy but not a string, such as
      `{"text":5}`, succeeds at the server but cannot be shown: its content
      makes the client's `replace` throw. */
  lemma FlatNonStringTextHidesReply(data: Request, result: Json, now: nat, fallback: string, later: nat)
    requires AgentObject(result).None? && !ReadsNull(result)
    requires Truthy(Field(result, "text")) && !Field(result, "text").value.Str?
    ensures var r := Normalize(data, result, now);
      && r.Success?
      && !Relay.ReplyEvent(r.value, fallback, later).content.Str?
  {
    FlatPrecedence(data, result, now);
  }

  /** The client's `message` listener: the relay's `message` event goes to
      `onMessage`. The bubble appears exactly when the content is a string
      and the attachments can be laid out. */
  method DeliverReply(app: Client.ChatApp, e: Relay.Emit)
    requires e.Message?
    modifies app
    ensures app.input == old(app.input) && app.outbox == old(app.outbox)
    ensures app.log != old(app.log) <==> e.content.Str? && Client.Laid(Some(e.attachments)).Some?
    ensures e.content.Str? && Client.Laid(Some(e.attachments)).Some? ==>
      app.log == old(app.log) + [Client.Bot(BotText.CleanBotText(e.content.s), Client.Laid(Some(e.attachments)).value)]
  {
    app.OnMessage(Some(e.content), Some(e.attachments));
  }
}
