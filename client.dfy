/** The browser client, `ChatApp`: what it sends over the socket and what
    it adds to the conversation. The DOM is reduced to the message box's
    text and the list of bubbles shown. */
module Client {
  import opened Wrappers
  import opened JsString
  import opened JsValue
  import opened Upload
  import opened BotText

  /** The `type` given to an attachment the user sent. */
  datatype AttachmentKind = Image | Audio

  /** `mimetype.startsWith('image/') ? 'image' : 'audio'`. */
  function KindOf(mimetype: string): (k: AttachmentKind)
    ensures k == Image <==> IsPrefix("image/", mimetype)
    ensures k == Audio <==> !IsPrefix("image/", mimetype)
  {
    if IsPrefix("image/", mimetype) then Image else Audio
  }

  datatype Attachment = Attachment(kind: AttachmentKind, url: string, originalName: string, mimetype: string)

  /** The attachment shown for an upload the server accepted. */
  function Shown(kind: AttachmentKind, info: UploadInfo): Attachment {
    Attachment(kind, info.url, info.originalName, info.mimetype)
  }

  /** A socket event the client emits: `message`, or `file` with the
      upload's JSON as its one attachment. */
  datatype Outgoing =
    | SendText(message: string, sessionId: string)
    | SendFile(message: string, sessionId: string, attachments: seq<UploadInfo>)

  datatype Severity = Info | Alert

  /** A message in the conversation: the user's, the bot's (HTML after
      cleanup, with the attachments laid out under it) or the system's. */
  datatype Bubble =
    | User(text: string, attachments: seq<Attachment>)
    | Bot(html: string, received: seq<Json>)
    | System(text: string, severity: Severity)

  /** The attachments `addMessage` lays out under a bot bubble, or `None`
      when laying them out throws before the bubble is added: `undefined`
      takes the default `[]`, a value that is not an array has no `forEach`,
      and a `null` item has no `type` to read. */
  function Laid(attachments: Option<Json>): (r: Option<seq<Json>>)
    ensures r.Some? <==> attachments.None? || (attachments.value.Array? && Null !in attachments.value.items)
    ensures attachments.None? ==> r == Some([])
    ensures r.Some? && attachments.Some? ==> r.value == attachments.value.items
  {
    match attachments
    case None => Some([])
    case Some(Array(items)) => if Null in items then None else Some(items)
    case Some(_) => None
  }

  const VoiceMessage: string := "Mensaje de voz"
  const FileUploadError: string := "Error al subir archivo: Error al subir archivo"
  const VoiceUploadError: string := "Error al enviar audio: Error al subir audio"

  class ChatApp {
    const sessionId: string
    /** The text in the message box. */
    var input: string
    /** Everything emitted on the socket, oldest first. */
    var outbox: seq<Outgoing>
    /** The bubbles shown, oldest first. */
    var log: seq<Bubble>

    /** `'session-' + Date.now()`, with the clock read passed in. */
    constructor(now: nat)
      ensures sessionId == "session-" + DecimalString(now)
      ensures input == [] && outbox == [] && log == []
    {
      sessionId := "session-" + DecimalString(now);
      input := [];
      outbox := [];
      log := [];
    }

    /** The send button and the Enter key: nothing happens when the box
        holds only white space; otherwise the trimmed text is shown, sent
        with the session id, and the box is cleared. */
    method SendMessage()
      modifies this
      ensures AllWhiteSpace(old(input)) ==> input == old(input) && outbox == old(outbox) && log == old(log)
      ensures !AllWhiteSpace(old(input)) ==>
        && input == []
        && outbox == old(outbox) + [SendText(Trim(old(input)), sessionId)]
        && log == old(log) + [User(Trim(old(input)), [])]
    {
      TrimSpec(input);
      var message := Trim(input);
      if message == [] {
        return;
      }
      log := log + [User(message, [])];
      outbox := outbox + [SendText(message, sessionId)];
      input := [];
    }

    /** `handleFileUpload` once `/upload` has answered; `picked` is `None`
        when the user chose no file. */
    method FileUploaded(picked: Option<UploadReply>)
      modifies this
      ensures input == old(input)
      ensures picked.None? ==> outbox == old(outbox) && log == old(log)
      ensures picked.Some? && picked.value.Uploaded? ==>
        var info := picked.value.info;
        && outbox == old(outbox) + [SendFile("Archivo: " + info.originalName, sessionId, [info])]
        && log == old(log) + [User("Archivo enviado: " + info.originalName, [Shown(KindOf(info.mimetype), info)])]
      ensures picked.Some? && !picked.value.Uploaded? ==>
        outbox == old(outbox) && log == old(log) + [System(FileUploadError, Alert)]
    {
      if picked.None? {
        return;
      }
      match picked.value {
        case Uploaded(info) =>
          log := log + [User("Archivo enviado: " + info.originalName, [Shown(KindOf(info.mimetype), info)])];
          outbox := outbox + [SendFile("Archivo: " + info.originalName, sessionId, [info])];
        case _ =>
          log := log + [System(FileUploadError, Alert)];
      }
    }

    /** `sendAudioMessage` once `/upload` has answered: a voice note is
        always shown as audio. */
    method VoiceUploaded(reply: UploadReply)
      modifies this
      ensures input == old(input)
      ensures reply.Uploaded? ==>
        && outbox == old(outbox) + [SendFile(VoiceMessage, sessionId, [reply.info])]
        && log == old(log) + [User(VoiceMessage, [Shown(Audio, reply.info)])]
      ensures !reply.Uploaded? ==>
        outbox == old(outbox) && log == old(log) + [System(VoiceUploadError, Alert)]
    {
      match reply {
        case Uploaded(info) =>
          log := log + [User(VoiceMessage, [Shown(Audio, info)])];
          outbox := outbox + [SendFile(VoiceMessage, sessionId, [info])];
        case _ =>
          log := log + [System(VoiceUploadError, Alert)];
      }
    }

    /** `onMessage`: the content is cleaned and shown as the bot's, with
        its attachments. Content that is not a string makes `replace` throw,
        and attachments `addMessage` cannot lay out make it throw before the
        bubble is added; either way nothing is shown. */
    method OnMessage(content: Option<Json>, attachments: Option<Json>)
      modifies this
      ensures input == old(input) && outbox == old(outbox)
      ensures content.Some? && content.value.Str? && Laid(attachments).Some? ==>
        log == old(log) + [Bot(CleanBotText(content.value.s), Laid(attachments).value)]
      ensures !(content.Some? && content.value.Str? && Laid(attachments).Some?) ==> log == old(log)
    {
      if content.None? || !content.value.Str? {
        return;
      }
      var clean := UnescapeNewlines(content.value.s);
      clean := StripInvisible(clean);
      clean := ProcessMarkdown(clean);
      var laid := Laid(attachments);
      if laid.Some? {
        log := log + [Bot(clean, laid.value)];
      }
    }
  }

  /** Every message the client sends is non-empty and has no white space
      at either end. */
  lemma SentTextTrimmed(box: string)
    requires !AllWhiteSpace(box)
    ensures var m := Trim(box); m != [] && !IsWhiteSpace(m[0]) && !IsWhiteSpace(m[|m| - 1])
    ensures Trim(Trim(box)) == Trim(box)
  {
    TrimSpec(box);
    TrimIdempotent(box);
  }

  /** An image upload is shown as an image and anything else as audio. */
  lemma KindExamples()
    ensures KindOf("image/png") == Image
    ensures KindOf("audio/mpeg") == Audio
    ensures KindOf("Image/png") == Audio
  {
    assert "image/png"[..6] == "image/";
    assert "audio/mpeg"[0] != 'i';
    assert "Image/png"[0] != 'i';
  }
}
