# Grupo Lotificadora chat relay, modelled in Dafny

The chat relay has three parts: a browser chat client (`ChatApp`), an Express and Socket.IO server, and an n8n webhook that answers. This project models the decisions and string rewrites the code makes along the way, and proves properties about them:

- **Upload filter and naming.** The server's multer `fileFilter` accepts a file only when its lower-cased extension and its MIME type both contain one of `jpeg jpg png gif mp3 wav ogg m4a`. The stored name is `<milliseconds>-<original name>`, the file is served under `/uploads/<stored name>`, and the `/upload` route is modelled with its answers (`Upload`).
- **Webhook turn.** The body of `sendMessage` checks the webhook's status, applies the empty-body guard and the parse step, then runs the three-branch normalisation into `{text, sessionId, attachments, timestamp, agent}` (`Gateway`).
- **Socket handlers.** The `message` and `file` handlers build each request, fall back to the socket id and `[]`, and emit exactly one `message` or `error` event per turn. They are modelled as methods of a `Connection` class that keeps the emitted events (`Relay`).
- **Bot-message cleanup.** `onMessage` undoes `\n` escapes, removes invisible characters and applies `processMarkdown`: lazy `**x**` bold that never crosses a line, then line feeds become `<br>` (`BotText`).
- **Client.** A `ChatApp` class with the session id, the message box, the events sent and the bubbles shown. It models the trim guard on sending, the attachment type of uploads and voice notes, and the display of bot messages (`Client`).
- **Client and server together.** What the client's events become at the server, and what happens to a recorded voice note (`Protocol`).

JavaScript's own behaviour appears where the code relies on it:

- truthiness and `||`;
- reading a property of `null` (it throws);
- `startsWith`, `trim`, `toLowerCase` and global `replace` (`JsString`, `JsValue`);
- Node's `path.extname`.

Every clock read (`Date.now()`, `new Date()`) is a parameter. What `fetch` and `JSON.parse` produce are inputs.

Some facts the proofs bring out:

- **Only the last extension is checked, and only for a substring.** `x.jpgexe` with MIME `image/jpeg` is accepted. Every name ending in `.exe` is refused, including `invoice.mp3.exe`.
- **Voice notes cannot be uploaded.** The client names a recording `audio-<ms>.webm` and types it `audio/webm`. Neither holds an allowed token, so the server refuses every voice note, and the client only shows `Error al enviar audio: Error al subir audio` (`Protocol.VoiceNoteRefused`, `Protocol.VoiceNoteNeverSent`).
- **`{}` and `[]` are only empty when unpadded.** The empty-body guard compares them untrimmed: ` {}` passes, parses, and gets the canned thank-you reply. A body of `null` passes the guard and then throws on the first property read.
- **The handlers' fallback texts never show.** After a successful `sendMessage`, `Sin respuesta de n8n` and `Archivo procesado por Grupo Lotificadora` are never emitted, because every reply's text is truthy.
- **The `\n\n` pass in `processMarkdown` is redundant.** On its own, the `\n` pass gives the same result.
- **A literal `\n` can survive the cleanup.** The `\n` escapes are undone before invisible characters are removed. So `\`, U+200B, `n` is shown as the two characters `\n`.

- **Uploads are told apart by time and name only.** A stored name is the upload's milliseconds, a dash and the original name, with no random part. The filter has no deny-list, and every upload goes to the one `uploads` directory.
- **The canned reply keeps the request's session id,** even when the body carries another one (`Gateway.DefaultIgnoresBodySession`).
- **Odd attachments hide a bot reply.** The relay forwards any truthy `attachments` the webhook sends. If that value is not an array, or is an array holding `null`, the client's `addMessage` throws before it adds the bubble, so the reply never shows (`Protocol.FlatAttachmentsHideReply`). A text that is truthy but not a string, such as `{"text":5}`, is hidden the same way, because `onMessage` calls `replace` on it (`Protocol.FlatNonStringTextHidesReply`, `Protocol.DeliverReply`).

## Model

| member | source | states |
|---|---|---|
| JsString.TrimSpec | gl/chat_ventas/chatWeb/public/app.js:64 | `trim()` gives a contiguous piece of the input, empty exactly when the input is all white space, otherwise with no white space at either end |
| JsString.ToLower | gl/chat_ventas/chatWeb/server.js:39 | `toLowerCase()` keeps the length, leaves no capital A to Z, turns each capital into its small letter and keeps every other character |
| JsString.DecimalRoundTrip | gl/chat_ventas/chatWeb/server.js:28 | the decimal digits of `Date.now()` read back to the same number |
| JsValue.Or | gl/chat_ventas/chatWeb/server.js:155 | `a \|\| b` is `a` when `a` is truthy and `b` otherwise, so it is truthy exactly when one of them is |
| JsValue.Get | gl/chat_ventas/chatWeb/server.js:152 | reading a property throws exactly on `null` and `undefined`; otherwise it gives the member of an object, and `undefined` on any other value |
| Upload.AllowedTestIsSubstring | gl/chat_ventas/chatWeb/server.js:38-40 | the unanchored `allowedTypes.test` succeeds exactly when one of the eight tokens occurs somewhere in the string |
| Upload.NoTokenStartFails | gl/chat_ventas/chatWeb/server.js:38 | a string in which no two neighbouring characters begin a token fails the test |
| Upload.ExtnameShape | gl/chat_ventas/chatWeb/server.js:39 | `path.extname` is empty, or starts with its only `.`, holds no `/`, and ends the path once trailing slashes are dropped |
| Upload.ExtnameLastDot | gl/chat_ventas/chatWeb/server.js:39 | for a name without `/` whose last `.` is not its first character, the extension runs from that last dot |
| Upload.ExtnameLower | gl/chat_ventas/chatWeb/server.js:39 | lower-casing the name and then taking the extension is the same as the other order |
| Upload.FileFilter | gl/chat_ventas/chatWeb/server.js:37-47 | the filter's only refusal carries `Solo se permiten imágenes y archivos de audio` |
| Upload.FileFilterAccepts | gl/chat_ventas/chatWeb/server.js:37-47 | a file is accepted exactly when both its MIME type (not lower-cased) and its lower-cased extension contain a token |
| Upload.FileFilterIgnoresCase | gl/chat_ventas/chatWeb/server.js:39 | the case of the original name never changes the verdict |
| Upload.TokenInsideExtensionAccepted | gl/chat_ventas/chatWeb/server.js:38-39 | `x.jpgexe` with `image/jpeg` is accepted, since substring matching suffices |
| Upload.ExeRejected | gl/chat_ventas/chatWeb/server.js:39-45 | every name ending in `.exe` is refused, whatever the MIME type |
| Upload.DoubleExtensionRejected | gl/chat_ventas/chatWeb/server.js:39 | `invoice.mp3.exe` is refused, because only the last extension is checked |
| Upload.StoredNameRoundTrip | gl/chat_ventas/chatWeb/server.js:28 | from `Date.now() + '-' + originalname` the time and the whole original name can be read back |
| Upload.StoredNameInjective | gl/chat_ventas/chatWeb/server.js:28 | two uploads share a stored name only when time and original name both agree |
| Upload.FileUrlShape | gl/chat_ventas/chatWeb/server.js:203 | the URL starts with `/uploads/`, ends with the original name, and the stored name follows the prefix |
| Upload.HandleUpload | gl/chat_ventas/chatWeb/server.js:193-205 | no file gives the 400 error body; a file is stored exactly when the filter accepts it, and refused with the filter's message otherwise; a stored file keeps its name, type and size, is stored as `<now>-<original name>` (from which both can be read back) and gets that name's URL |
| Gateway.OutgoingBody | gl/chat_ventas/chatWeb/server.js:81-85 | the posted JSON has the request's message and session id when defined, and always `attachments` (`[]` when the request has none) |
| Gateway.ReadBody | gl/chat_ventas/chatWeb/server.js:125-149 | the body is used exactly when it passes the empty guard and parses; every other case is the one invalid-format error |
| Gateway.NonBlankBody | gl/chat_ventas/chatWeb/server.js:130 | a body with a non-blank character other than exactly `{}` or `[]` passes the empty guard |
| Gateway.StampOf | gl/chat_ventas/chatWeb/server.js:158 | `timestamp \|\| new Date()` keeps a truthy sent stamp and otherwise reads the clock |
| Gateway.Normalize | gl/chat_ventas/chatWeb/server.js:152-177 | normalisation throws exactly on `null` or an array whose first element is `null`; it takes the first branch exactly when the first element has a truthy `json`, and the second test otherwise; every reply has agent `Grupo Lotificadora` and a truthy text, with the request's session id or a truthy one, truthy attachments when present, and a truthy sent stamp |
| Gateway.SendMessage | gl/chat_ventas/chatWeb/server.js:60-181 | a rejected fetch or a status outside 200-299 always throws, as does an empty or unparseable body (with the same invalid-format error); a reply comes exactly when none of these happen and the body does not make normalisation read `null` |
| Gateway.WrappedPrecedence | gl/chat_ventas/chatWeb/server.js:152-160 | in the wrapped branch the text is `json.text`, else `json.output`, else the assistant's fixed text; the session id is the agent's when truthy, else the request's; the attachments are the agent's when truthy, else `[]`; the stamp is the agent's timestamp or the clock |
| Gateway.WrappedIgnoresMessage | gl/chat_ventas/chatWeb/server.js:152-160 | the agent object's `message` is never read: changing it changes no reply |
| Gateway.FlatPrecedence | gl/chat_ventas/chatWeb/server.js:161-168 | in the flat branch the text is `text`, else `message`, else `output`; the session id is the body's when truthy, else the request's; the attachments are the body's when truthy, else `[]`; the stamp is the body's timestamp or the clock |
| Gateway.DefaultReply | gl/chat_ventas/chatWeb/server.js:169-176 | otherwise the reply is the canned thank-you text with the request's session id, no attachments and the current time |
| Gateway.DefaultIgnoresBodySession | gl/chat_ventas/chatWeb/server.js:173 | a session id in a body with no text is ignored |
| Gateway.WrappedExample | gl/chat_ventas/chatWeb/server.js:152-160 | `[{"json":{"text":"hi"}}]` is answered with `hi` and the request's session id |
| Gateway.FlatExample | gl/chat_ventas/chatWeb/server.js:161-168 | `{"output":"ok"}` is answered with `ok` |
| Gateway.PaddedEmptyObject | gl/chat_ventas/chatWeb/server.js:130-149 | `{}` is an invalid-format error, while ` {}` gets the canned reply |
| Gateway.NullBody | gl/chat_ventas/chatWeb/server.js:152-161 | a body of `null` throws on a property read |
| Relay.MessageRequest | gl/chat_ventas/chatWeb/server.js:212-218 | a `message` payload of `null` or nothing throws; otherwise the request keeps its message, takes its session id when truthy and the socket id otherwise, and its attachments when truthy and `[]` otherwise |
| Relay.FileRequest | gl/chat_ventas/chatWeb/server.js:237-243 | as for `message`, but a falsy message becomes `""` |
| Relay.ReplyEvent | gl/chat_ventas/chatWeb/server.js:220-225 | the emitted content is the reply's text when truthy, else the fallback; attachments fall back to `[]` |
| Relay.FallbackUnreachable | gl/chat_ventas/chatWeb/server.js:220-225 | for every reply `sendMessage` produces, the event carries its own text, attachments and stamp, so no fallback text is ever emitted |
| Relay.Connection.constructor | gl/chat_ventas/chatWeb/server.js:208-209 | a new connection has its socket id and has emitted nothing |
| Relay.Connection.OnMessage | gl/chat_ventas/chatWeb/server.js:212-234 | each `message` event appends exactly one emit: the connection error exactly when the request or `sendMessage` threw, else the `message` event built from the reply; so any emit other than the error is a `message` |
| Relay.Connection.OnFile | gl/chat_ventas/chatWeb/server.js:237-259 | the same for `file` events, with the file error and the file fallback |
| Relay.ReplySessionAlwaysSet | gl/chat_ventas/chatWeb/server.js:216 | with a non-empty socket id, requests and replies always carry a truthy session id |
| BotText.FindClose | gl/chat_ventas/chatWeb/public/app.js:221 | the lazy `(.*?)\*\*` ends at the first `**` with no line terminator before it; with none, no `**` on the line can close it |
| BotText.BoldPairs | gl/chat_ventas/chatWeb/public/app.js:221 | a leading `**` is closed by the nearest `**` after it on its line and becomes `<strong>…</strong>` |
| BotText.BoldUnchanged | gl/chat_ventas/chatWeb/public/app.js:221 | text without `**` is unchanged by the bold step |
| BotText.FindCloseStopsAtLine | gl/chat_ventas/chatWeb/public/app.js:221 | the search for a closing `**` never looks past a line terminator |
| BotText.BoldByLine | gl/chat_ventas/chatWeb/public/app.js:221 | bold never spans lines: text around a line terminator is rewritten separately |
| BotText.BoldKeepsOut | gl/chat_ventas/chatWeb/public/app.js:221 | the bold step introduces nothing but the tags' characters |
| BotText.BoldExample | gl/chat_ventas/chatWeb/public/app.js:221 | `**hi**` becomes `<strong>hi</strong>` |
| BotText.ReplacePairLeavesNone | gl/chat_ventas/chatWeb/public/app.js:207 | replacing a two-character pattern by a third character leaves no pattern behind |
| BotText.UnescapeLeavesNoEscape | gl/chat_ventas/chatWeb/public/app.js:207 | after the first step no backslash is followed by `n` |
| BotText.StripInvisible | gl/chat_ventas/chatWeb/public/app.js:210 | no U+200B, U+200C, U+200D or U+FEFF is left |
| BotText.StripInvisibleKeepsOthers | gl/chat_ventas/chatWeb/public/app.js:210 | every other character occurs exactly as often as before |
| BotText.StripInvisibleUnchanged | gl/chat_ventas/chatWeb/public/app.js:210 | text without those characters is unchanged |
| BotText.DoubleThenSingle | gl/chat_ventas/chatWeb/public/app.js:224-227 | the doubled pass and then the single pass equal the single pass alone |
| BotText.ProcessMarkdownBreaks | gl/chat_ventas/chatWeb/public/app.js:219-230 | `processMarkdown` is bold followed by `\n` to `<br>`, and its output has no line feed |
| BotText.CleanBotTextVisible | gl/chat_ventas/chatWeb/public/app.js:204-213 | the shown text holds no invisible character and no line feed |
| BotText.PlainTextShownAsIs | gl/chat_ventas/chatWeb/public/app.js:204-213 | text without backslashes, `*`, invisible characters or line terminators is shown as it is |
| BotText.HiddenEscapeSurvives | gl/chat_ventas/chatWeb/public/app.js:207-210 | `\`, U+200B, `n` is shown as a literal `\n`, because the escapes are undone before the invisible characters go |
| Client.KindOf | gl/chat_ventas/chatWeb/public/app.js:97 | an attachment is `image` exactly when its MIME type starts with `image/`, otherwise `audio` |
| Client.KindExamples | gl/chat_ventas/chatWeb/public/app.js:97 | `image/png` is an image; `audio/mpeg` and `Image/png` are audio (the test is case-sensitive) |
| Client.ChatApp.constructor | gl/chat_ventas/chatWeb/public/app.js:4 | the session id is `session-` and the start time's digits; nothing is shown or sent |
| Client.ChatApp.SendMessage | gl/chat_ventas/chatWeb/public/app.js:63-75 | a blank box changes nothing (it is not cleared); otherwise the trimmed text is shown, sent with the session id, and the box cleared |
| Client.SentTextTrimmed | gl/chat_ventas/chatWeb/public/app.js:64-65 | a sent message is non-empty, without white space at either end, and trimming it again changes nothing |
| Client.ChatApp.FileUploaded | gl/chat_ventas/chatWeb/public/app.js:77-116 | no file chosen: nothing; an accepted upload is shown with its attachment type and sent as a `file` event holding the upload's JSON; any other answer shows the upload error |
| Client.ChatApp.VoiceUploaded | gl/chat_ventas/chatWeb/public/app.js:164-198 | an accepted voice note is shown as audio and sent as `Mensaje de voz`; otherwise the audio error is shown |
| Client.ChatApp.OnMessage | gl/chat_ventas/chatWeb/public/app.js:200-280 | string content is shown after the cleanup with the attachments laid out; other content makes `replace` throw, attachments that cannot be laid out make `addMessage` throw, and then nothing is shown |
| Client.Laid | gl/chat_ventas/chatWeb/public/app.js:241-288 | `undefined` attachments are laid out as none and an array without `null` items as its items; any other value makes `forEach` or `attachment.type` throw |
| Protocol.ReplyLaidOutIff | gl/chat_ventas/chatWeb/public/app.js:274-288 | the client can lay out a reply event's attachments exactly when the reply's attachments are falsy or an array without `null` items |
| Protocol.FlatAttachmentsHideReply | gl/chat_ventas/chatWeb/public/app.js:241-280 | a flat webhook body with text and truthy non-array attachments gives a reply that the client never shows |
| Protocol.FlatNonStringTextHidesReply | gl/chat_ventas/chatWeb/public/app.js:207 | a flat webhook body whose text is truthy but not a string, such as `{"text":5}`, gives a successful reply whose content is not a string, so the client's `replace` throws on it |
| Protocol.DeliverReply | gl/chat_ventas/chatWeb/public/app.js:42 | a `message` event from the relay adds a bubble exactly when its content is a string and its attachments can be laid out, and then the bubble is the cleaned text with those attachments |
| Protocol.ClientSessionKept | gl/chat_ventas/chatWeb/public/app.js:4 | the session id a client makes up, `session-` and the start time, is what the relay puts in the webhook request, never the socket id |
| Protocol.TextTurnForwarded | gl/chat_ventas/chatWeb/public/app.js:68-71 | a text the client sends reaches the webhook unchanged, with the client's session id and `[]` attachments |
| Protocol.FileTurnForwarded | gl/chat_ventas/chatWeb/public/app.js:103-107 | an upload's `file` event reaches `sendMessage` with its caption, the session id and the upload's JSON as its one attachment |
| Protocol.VoiceExtension | gl/chat_ventas/chatWeb/public/app.js:166 | a recording's name `audio-<ms>.webm` has extension `.webm` |
| Protocol.WebmFails | gl/chat_ventas/chatWeb/public/app.js:137 | neither `.webm` nor `audio/webm` contains an allowed token |
| Protocol.VoiceNoteRefused | gl/chat_ventas/chatWeb/public/app.js:166 | the server's `/upload` refuses every voice note the client records |
| Protocol.VoiceNoteNeverSent | gl/chat_ventas/chatWeb/public/app.js:164-198 | a client that records a voice note shows only the audio upload error and sends nothing |

## Left out

- Express, Socket.IO and multer wiring, static file serving, `server.listen` and CORS: framework plumbing.
- Upload.HandleUpload: multer refuses a file over its 10 MB limit before the route runs; the model does not, and keeps the limit only as the constant `Upload.MaxFileSize`, because multer enforces it, not code in this repository.
- The `destination` callback's directory creation: file-system I/O.
- The network side of `fetch` (URL, method, headers): the webhook's answer is an input (`Gateway.HttpResponse`, or `None` when `fetch` rejects).
- `JSON.parse` is an input: `HttpResponse.parsed` is what it gives, and `None` when it throws. The model does not relate it to the body text.
- Every `console.log` and `console.error`, including the diagnostics for statuses 404 and 200 and the `Unused Respond to Webhook` hint: they have no effect on behaviour.
- Gateway.SendMessage: distinguishes the kinds of error (`GatewayError`) but not the text of the thrown `Error`s. The handlers only log that text and emit their fixed error events.
- The clock: `Date.now()` and `new Date()` are parameters. A `Date` object is `Stamp.Clock`, and the reads within one socket turn see the same time.
- Relay.Connection.OnMessage: a turn runs as one step. How two overlapping asynchronous turns of one socket interleave their emits is not modelled.
- The DOM: bubbles are reduced to their text, attachments and severity. Also left out are the typing indicator, scrolling, the connection status text, the `onConnect` and `onDisconnect` messages, and `onError`'s display of the server's error event.
- Recording with `MediaRecorder` and `getUserMedia`. The client's `fetch('/upload')` and `FormData` are left out too: the client methods take the server's answer to the upload.
- Client.ChatApp.FileUploaded: a `fetch` that rejects in the browser shows the browser's own error text, which is not modelled. Clearing the file input is DOM and is left out too.
- JsString.ToLower: lowers A to Z only. JavaScript also lowers other letters, but none of those turns into an ASCII run that spells an allowed token, so the filter's verdict is unaffected.
- Strings are sequences of Unicode code points, not UTF-16 code units. Only the characters the code names matter (white space, the invisible characters, line terminators).
- JSON numbers are exact reals, not IEEE doubles.
- Property reads give `undefined` on non-objects. That is right for the keys the code reads, which no built-in prototype defines.
- `path.extname` follows Node's POSIX implementation: trailing slashes are dropped, the last component is taken, and there is no extension for a leading dot or for `..`. Node's own source is not part of this model.
