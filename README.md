# PetBehavior chat — a verified model of the widget and the Flask backend

PetBehavior is a pet-behaviour chat app. A browser widget lets the user type a
question or attach a video. A Flask backend answers text through a chat model
and videos through a video-understanding model, and it keeps an in-memory
conversation table per session.

This project models both halves in Dafny:

- **`ChatWidget`** (`chat_widget.dfy`) models the composer state of
  `script.js` as a `Widget` class: input text, selected file, processing
  flag, button state, preview, the list of message bubbles and placeholders,
  and the send suspended at its `await`. The send cycle passes three
  `await`s: `handleSend` awaits the send function, which awaits `fetch` and
  then `response.json()`. Nothing in the widget's state changes between the
  inner two, so the model splits the cycle once, into `HandleSend` (up to
  the request) and `CompleteSend` (from the parsed reply on), and other
  events may run in between. Each method is proved against specification functions
  (`StartedLog`, `SettledLog`, `RemoveLoading`, `FileRejection`, …), and the
  class invariant `Valid` says the flag is up exactly while a send is
  suspended and that the only placeholder in the list is that send's one.
- **`VideoModal`** (`video_modal.dfy`) models the video player overlay:
  `playVideo`, `closeVideoModal` and the Escape listener.
- **`Format`** (`format.dfy`) models `formatFileSize` and `formatTime`
  with exact integer arithmetic.
- **`JsText`** (`js_text.dfy`) and **`PyText`** (`py_text.dfy`) hold the
  string built-ins the two sides use: `trim`, `padStart`, `String(n)`,
  `replace(/\n/g, …)`, `||` on optional strings, `str.lower`, `rsplit` and
  `join`.
- **`Conversation`** (`conversation.dfy`) models the backend's table and the
  functions that update it in place, as a `Backend` class over a
  `map<string, seq<Turn>>` field. The covered functions are
  `call_text_api`, `_record_video_conversation`, `call_video_api`,
  `clear_history` and `get_history`.
  - `call_video_api`'s nested extraction loops are methods proved equal to
    `ReplyText`.
- **`Routes`** (`routes.dfy`) models the four JSON routes over that table:
  - the three ordered checks of `upload_video`;
  - `allowed_file`, with an independent characterisation of it;
  - the `strftime` time stamp and the unique file name, with an
    injectivity proof for each.

Everything the program obtains from outside is a parameter of the model:

- the model's answer or exception, the SDK's output list;
- the clock (`Date.now()` ids, `datetime.now()`);
- the saved file's size, `secure_filename`;
- the reply of `fetch`;
- the set iteration order of `ALLOWED_VIDEO_EXTENSIONS`.

## Model

| member | source | states |
|---|---|---|
| ChatWidget.SendEnabledIff | pet-behavior-chat-v3/frontend/script.js:81-84 | The send button is enabled exactly when nothing is being sent and there is a file or a character `trim` keeps. |
| ChatWidget.Widget.UpdateSendButton | pet-behavior-chat-v3/frontend/script.js:81-84 | `disabled` becomes the negation of "has content and is not processing". |
| ChatWidget.Widget.OnInput | pet-behavior-chat-v3/frontend/script.js:60-63 | Typing sets the text and re-evaluates the button; the invariant is kept. |
| ChatWidget.FileRejection | pet-behavior-chat-v3/frontend/script.js:91-101 | A file is taken iff its MIME type starts with `video/` and it is at most 100 MB. A non-video gets the type message first, whatever its size; otherwise an oversized file gets the size message. |
| ChatWidget.FileRejectionBoundary | pet-behavior-chat-v3/frontend/script.js:97-101 | Exactly 104857600 bytes is accepted, one byte more is refused, and a picture is refused. |
| ChatWidget.Widget.HandleFileSelect | pet-behavior-chat-v3/frontend/script.js:87-106 | No file: nothing changes. A refused file: the selection stays and one error bubble is appended. An accepted file: it is selected and previewed and the button is re-evaluated. The invariant is kept. |
| ChatWidget.Widget.RemoveFile | pet-behavior-chat-v3/frontend/script.js:127-133 | No file is selected, the preview is empty, the button is re-evaluated, and the invariant is kept. |
| ChatWidget.ErrorBubbleShape | pet-behavior-chat-v3/frontend/script.js:342-344 | An error bubble has the assistant's side and no attachment, and its text is `❌ ` followed by the message. |
| ChatWidget.Widget.ShowErrorMessage | pet-behavior-chat-v3/frontend/script.js:342-344 | Exactly one error bubble is appended. |
| ChatWidget.Widget.AddMessage | pet-behavior-chat-v3/frontend/script.js:263-301 | Exactly one bubble is appended, with the given sender, text and attachment. |
| ChatWidget.Widget.AddLoadingMessage | pet-behavior-chat-v3/frontend/script.js:305-331 | One placeholder is appended with the given id. Its caption is shown only when it differs from the default. The id is returned. |
| ChatWidget.Widget.RemoveLoadingMessage | pet-behavior-chat-v3/frontend/script.js:334-339 | The list becomes `RemoveLoading` of the old list. |
| ChatWidget.RemoveLoadingEffect | pet-behavior-chat-v3/frontend/script.js:334-339 | Removal keeps every bubble in order. It takes one copy of the id out of the placeholders' ids, or none when there is none. |
| ChatWidget.RemoveLoadingAbsent | pet-behavior-chat-v3/frontend/script.js:335-338 | Removing an id that has no placeholder changes nothing. |
| ChatWidget.RemoveLoadingTwice | pet-behavior-chat-v3/frontend/script.js:201-210 | Removing the same placeholder twice equals removing it once when the id occurs at most once. This makes the double removal on the declined path harmless. |
| ChatWidget.RemoveLoadingAppend | pet-behavior-chat-v3/frontend/script.js:334-339 | Removal skips a prefix that has no placeholder with that id. |
| ChatWidget.LoadingIdsAppend | pet-behavior-chat-v3/frontend/script.js:299 | The placeholders and the bubbles of two concatenated lists are those of each, in order. |
| ChatWidget.StartedIds | pet-behavior-chat-v3/frontend/script.js:184-187 | Starting a send on a list without placeholders leaves exactly the new placeholder's id. |
| ChatWidget.UserEntryNotEmpty | pet-behavior-chat-v3/frontend/script.js:148-153 | A send that passes the guard never shows an empty user bubble. |
| ChatWidget.Widget.BeginTextMessage | pet-behavior-chat-v3/frontend/script.js:182-187 | The user's bubble and then a default placeholder are appended, and a JSON chat request is issued. |
| ChatWidget.Widget.BeginVideoMessage | pet-behavior-chat-v3/frontend/script.js:216-226 | The user's bubble is appended, with the message (or the stock text when there is none) and the local file as attachment. Then an "uploading" placeholder is appended and an upload request is issued. |
| ChatWidget.Widget.HandleSend | pet-behavior-chat-v3/frontend/script.js:145-164 | While processing, or with neither text nor file, nothing changes and no request is made. Otherwise one request is made for the trimmed text and the file, the flag goes up, the button is disabled, and the list gains the user's bubble and the placeholder. |
| ChatWidget.Widget.StartSend | pet-behavior-chat-v3/frontend/script.js:155-164 | The flag is up, the button is disabled, the request matches the file (or its absence), and the list is `StartedLog`. |
| ChatWidget.Widget.OnInputKeyDown | pet-behavior-chat-v3/frontend/script.js:52-57 | Enter without Shift does what `HandleSend` does: nothing when sending is disabled, otherwise the request for the trimmed text and the selected file, with the flag up and the started log. Any other key changes nothing. |
| ChatWidget.Widget.FinishTextMessage | pet-behavior-chat-v3/frontend/script.js:198-211 | The placeholder is removed; then the reply is appended, or the error (server `error` or `未知错误`) is thrown. On the declined path the placeholder is removed a second time. |
| ChatWidget.Widget.FinishVideoMessage | pet-behavior-chat-v3/frontend/script.js:239-258 | The same shape as the text path. The reply's file name is used as both the displayed name and the server name; the default error is `上传失败`. |
| ChatWidget.Widget.ResumeSend | pet-behavior-chat-v3/frontend/script.js:159-165 | Resumes whichever of the two send functions started the pending send. |
| ChatWidget.FinishedLogSettles | pet-behavior-chat-v3/frontend/script.js:172-175 | With only this send's placeholder in the list, finishing and (on failure) showing the notice leave no placeholder, and the old bubbles plus one closing bubble. |
| ChatWidget.Widget.CompleteSend | pet-behavior-chat-v3/frontend/script.js:166-178 | The placeholder is gone, the flag is down and the button is re-evaluated. Success clears the input and the file. Any failure keeps them and shows `发送失败，请重试` instead of the server's message. The invariant is kept. |
| ChatWidget.SendCycleTranscript | pet-behavior-chat-v3/frontend/script.js:145-212 | A send cycle on a list without placeholders adds exactly the user's bubble and the closing bubble, leaves no placeholder, and on failure ends with the fixed notice. |
| ChatWidget.DoubleSend | pet-behavior-chat-v3/frontend/script.js:146 | A second send while the first is in flight issues no request. |
| ChatWidget.UnreachableServer | pet-behavior-chat-v3/frontend/script.js:145-212 | "hello" to an unreachable server: the user's bubble plus one failure notice, the text kept, sending re-enabled. |
| ChatWidget.AnsweredHello | pet-behavior-chat-v3/frontend/script.js:145-212 | "hello" answered: the user's bubble then the reply, no placeholder, the input cleared. |
| ChatWidget.EchoedThumbnail | pet-behavior-chat-v3/frontend/script.js:362-368 | A server reply's thumbnail plays and shows the server's file name. |
| ChatWidget.CreateVideoThumbnail | pet-behavior-chat-v3/frontend/script.js:362-368 | Defines the thumbnail: it plays `serverFilename \|\| name`, shows `name \|\| serverFilename` and prints the size with `formatFileSize`. |
| ChatWidget.LocalThumbnail | pet-behavior-chat-v3/frontend/script.js:362-368 | The user's own thumbnail plays the local name. It shows that name, or `undefined` for an empty one, and the formatted size. |
| ChatWidget.RenderMessage | pet-behavior-chat-v3/frontend/script.js:276-285 | The rendered text has no line feed left. A thumbnail appears iff the attachment is a video; a name label appears iff it is another attachment with a truthy name. |
| ChatWidget.ErrorBubbleRendering | pet-behavior-chat-v3/frontend/script.js:342-344 | An error bubble without line feeds renders as its own text. |
| VideoModal.VideoUrlInjective | pet-behavior-chat-v3/frontend/script.js:390 | Different file names give different video addresses. |
| VideoModal.VideoUrl | pet-behavior-chat-v3/frontend/script.js:390 | The address is the API base, `/video/`, then exactly the file name. |
| VideoModal.Player.PlayVideo | pet-behavior-chat-v3/frontend/script.js:382-417 | The source is the video route for the file, reloaded at position 0. The title and details are set, the overlay is shown and page scrolling stops. Playback starts unless autoplay is refused. |
| VideoModal.Player.OpenThumbnail | pet-behavior-chat-v3/frontend/script.js:371 | A click on a thumbnail plays that thumbnail's file: every field `playVideo` sets, from the thumbnail's name, display name and size. |
| VideoModal.Player.CloseVideoModal | pet-behavior-chat-v3/frontend/script.js:420-433 | The player is paused, rewound and hidden, and page scrolling resumes. |
| VideoModal.Player.OnKeyDown | pet-behavior-chat-v3/frontend/script.js:436-443 | Escape closes an open player; anything else changes nothing. |
| VideoModal.CloseThenEscape | pet-behavior-chat-v3/frontend/script.js:420-443 | Closing, pressing Escape and closing again leaves the player closed, paused and rewound, with its source, title and details unchanged. |
| Format.Tier | pet-behavior-chat-v3/frontend/script.js:140 | The unit index `i` satisfies 1024^i <= bytes < 1024^(i+1). |
| Format.TierUnique | pet-behavior-chat-v3/frontend/script.js:140 | That index is the only one with this property. |
| Format.HundredthsRounding | pet-behavior-chat-v3/frontend/script.js:141 | The shown hundredths are 100*bytes/1024^i rounded half up, and lie in [100, 102400] within the tier. |
| Format.FractionDigits | pet-behavior-chat-v3/frontend/script.js:141 | At most two fraction digits, with no trailing zero. |
| Format.HundredthsTextDenotes | pet-behavior-chat-v3/frontend/script.js:141 | The printed number, its point removed and rescaled, reads back as exactly the hundredths. |
| Format.FormatFileSizeUnit | pet-behavior-chat-v3/frontend/script.js:136-142 | Below 1024^4 bytes, the unit printed is the one of the byte count's tier. |
| Format.FormatFileSize | pet-behavior-chat-v3/frontend/script.js:136-142 | Defines `formatFileSize`: `0 Bytes` for zero, otherwise the hundredths text at the byte count's tier and its unit. |
| Format.SizeText | pet-behavior-chat-v3/frontend/script.js:365 | Defines `formatFileSize(size)` for a possibly missing size: `NaN undefined` when it is absent. |
| Format.FormatFileSizeExamples | pet-behavior-chat-v3/frontend/script.js:136-142 | 0, 1536 and 1048576 bytes print as `0 Bytes`, `1.5 KB` and `1 MB`. |
| Format.TwoDigitsValue | pet-behavior-chat-v3/frontend/script.js:353-354 | Zero-padding to two digits reads back as the number. |
| Format.FormatTime | pet-behavior-chat-v3/frontend/script.js:352-356 | Two digits, a colon, two digits. |
| Format.FormatTimeValue | pet-behavior-chat-v3/frontend/script.js:352-356 | The digits before the colon read as the hours, those after it as the minutes. |
| JsText.TrimIsSlice | pet-behavior-chat-v3/frontend/script.js:148 | `trim` returns a slice of the input and cuts only trimmable characters from either end. The result starts and ends with a kept character. |
| JsText.Trim | pet-behavior-chat-v3/frontend/script.js:148 | Defines `trim` as dropping the leading and then the trailing trimmable characters. |
| JsText.TrimEmptyIff | pet-behavior-chat-v3/frontend/script.js:151 | `trim` gives the empty string iff every character is trimmable. |
| JsText.ReplaceNewlinesRemovesAll | pet-behavior-chat-v3/frontend/script.js:276 | No line feed survives the replacement. |
| JsText.ReplaceNewlinesAppend | pet-behavior-chat-v3/frontend/script.js:276 | The replacement works piecewise over concatenation. |
| JsText.ToDecimalRoundTrip | pet-behavior-chat-v3/frontend/script.js:353 | `String(n)` reads back as `n`. |
| PyText.AfterLastDot | pet-behavior-chat-v3/backend/app.py:43 | `rsplit('.', 1)[1]` is the dot-free suffix after the last dot. |
| Routes.AllowedFileIff | pet-behavior-chat-v3/backend/app.py:40-43 | A name is allowed iff some position is its last dot and the lower-cased text after it is one of the five extensions. |
| Routes.AllowedFile | pet-behavior-chat-v3/backend/app.py:40-43 | Defines `allowed_file`: there is a dot, and the lower-cased text after the last one is an allowed extension. |
| Routes.AcceptedExamples | pet-behavior-chat-v3/backend/app.py:40-43 | `a.MP4` and a name whose extension uses KELVIN SIGN lower-case to allowed extensions. |
| Routes.RefusedExamples | pet-behavior-chat-v3/backend/app.py:40-43 | Only the last dot counts, and an empty extension, a missing dot and the empty name are refused. |
| Routes.CheckUpload | pet-behavior-chat-v3/backend/app.py:254-276 | Three checks in order, each with its exact condition: missing part, empty name, disallowed type. Otherwise the upload is accepted with the sent name. |
| Routes.RefusalNamesEveryExtension | pet-behavior-chat-v3/backend/app.py:272-276 | The unsupported-type message names every allowed extension, after its fixed prefix, in any iteration order. |
| Routes.RefusalText | pet-behavior-chat-v3/backend/app.py:255-276 | Each refusal gets its fixed message; the unsupported-type message is its prefix followed by the joined extensions. |
| Routes.Stamp | pet-behavior-chat-v3/backend/app.py:280 | `strftime('%Y%m%d_%H%M%S')` is 15 characters: eight digits, an underscore, six digits. |
| Routes.FieldValue | pet-behavior-chat-v3/backend/app.py:280 | A zero-padded two-digit field reads back as its number. |
| Routes.FieldIsTwoDigits | pet-behavior-chat-v3/backend/app.py:280 | A `strftime` two-digit field is the same text as the widget's `padStart(2, '0')` of the number. |
| Routes.StampInjective | pet-behavior-chat-v3/backend/app.py:280 | Distinct times give distinct stamps. |
| Routes.UniqueNameInjective | pet-behavior-chat-v3/backend/app.py:279-281 | The saved name determines both the second and the sanitized name. |
| Routes.UniqueName | pet-behavior-chat-v3/backend/app.py:281 | The saved name is the stamp, an underscore, then the sanitized name, and each piece can be cut back out of it. |
| Routes.Chat | pet-behavior-chat-v3/backend/app.py:217-237 | Always 200. The table becomes `AfterChat` for the body's message and session (with defaults), and the body's `response` is `ChatReply` of them: what `call_text_api` returned. An empty response only comes from a model that answered "". |
| Routes.UploadVideo | pet-behavior-chat-v3/backend/app.py:249-304 | A refused upload answers 400 with its message and leaves the table alone; the unsupported-type message names every allowed extension. An accepted one answers 200 with the video reply, the unique name and the saved size, and records the conversation. |
| Routes.ClearHistoryRoute | pet-behavior-chat-v3/backend/app.py:359-373 | Always 200 with the confirmation. The session is emptied if present and not created if absent. |
| Routes.GetHistoryRoute | pet-behavior-chat-v3/backend/app.py:382-396 | Returns the session's turns (none for an unknown session) with their count. |
| Routes.ClearThenRead | pet-behavior-chat-v3/backend/app.py:359-396 | Clearing then reading a session shows zero turns. |
| Conversation.Window | pet-behavior-chat-v3/backend/app.py:65 | `[-20:]` is the newest min(n, 20) turns in order, ending with the last one. |
| Conversation.AfterChatEffect | pet-behavior-chat-v3/backend/app.py:46-86 | Without a client nothing changes. With one, the session gains the user's turn, and the reply after it only if the call returned. No other session is touched. |
| Conversation.AfterChat | pet-behavior-chat-v3/backend/app.py:46-86 | Defines the table after `call_text_api`: unchanged without a client; otherwise the user turn is appended, and the reply turn too when the call returns. |
| Conversation.Backend.AppendTurn | pet-behavior-chat-v3/backend/app.py:55-62 | The session (created empty if absent) gains the turn at its end; no other session changes. |
| Conversation.Backend.CallTextApi | pet-behavior-chat-v3/backend/app.py:46-86 | The table becomes `AfterChat`. The return value is `ChatReply`: the mock, the model's content or the error text. The model is sent the newest twenty turns, ending with this message. |
| Conversation.ChatReply | pet-behavior-chat-v3/backend/app.py:46-86 | The reply is the mock without a client, the content when the call returns and the error text when it raises; it is empty exactly when the model answered with empty content. |
| Conversation.VideoUserContentInjective | pet-behavior-chat-v3/backend/app.py:196-200 | The recorded user turn starts with the video marker and keeps the message, so distinct non-empty messages give distinct turns. |
| Conversation.VideoUserContent | pet-behavior-chat-v3/backend/app.py:196-200 | The recorded user text is the video marker followed by a space and the message, or by the stock request when the message is empty. |
| Conversation.VideoUserContentCollision | pet-behavior-chat-v3/backend/app.py:196-200 | An empty message and the stock request typed out are recorded as the same user turn. |
| Conversation.AfterVideoRecordEffect | pet-behavior-chat-v3/backend/app.py:189-212 | Recording adds exactly a user turn then an assistant turn after the existing ones. The session is created if absent; no other session changes. |
| Conversation.AfterVideoRecord | pet-behavior-chat-v3/backend/app.py:189-212 | Defines the table after `_record_video_conversation`: the session, created if absent, gains the user turn and then the assistant turn. |
| Conversation.Backend.RecordVideoConversation | pet-behavior-chat-v3/backend/app.py:189-212 | The table becomes `AfterVideoRecord`. |
| Conversation.ReplyTextAppend | pet-behavior-chat-v3/backend/app.py:164-168 | The reply text of concatenated outputs is the concatenation of their reply texts. |
| Conversation.ReplyText | pet-behavior-chat-v3/backend/app.py:163-168 | Defines the extracted reply: the `output_text` texts of the assistant messages, in order. |
| Conversation.ReplyTextIgnoresOthers | pet-behavior-chat-v3/backend/app.py:165 | Outputs that are not assistant messages contribute nothing. |
| Conversation.CollectItems | pet-behavior-chat-v3/backend/app.py:166-168 | The inner loop yields the `output_text` texts in order. |
| Conversation.ExtractReply | pet-behavior-chat-v3/backend/app.py:163-168 | The nested loops compute `ReplyText` of the output list. |
| Conversation.VideoReply | pet-behavior-chat-v3/backend/app.py:175 | The returned text is never empty: it is what was recorded, or the fallback when the model's reply was empty. |
| Conversation.RecordedVideoReply | pet-behavior-chat-v3/backend/app.py:173-186 | Defines the recorded assistant turn: the mock text, the extracted reply (possibly empty) or the error text. |
| Conversation.Backend.CallVideoApi | pet-behavior-chat-v3/backend/app.py:89-186 | Every path records the conversation exactly once: the mock, the extracted text or the error. It returns `VideoReply`. |
| Conversation.VideoCallGrowsByTwo | pet-behavior-chat-v3/backend/app.py:173-184 | A video call grows its session by exactly two turns on every path. |
| Conversation.ClearedEffect | pet-behavior-chat-v3/backend/app.py:366-367 | Clearing is idempotent, keeps the set of sessions, empties this one and leaves the others. |
| Conversation.Cleared | pet-behavior-chat-v3/backend/app.py:366-367 | Defines the table after `clear_history`: an existing session emptied, an absent one not created. |
| Conversation.Backend.ClearHistory | pet-behavior-chat-v3/backend/app.py:366-367 | The table becomes `Cleared`. |
| Conversation.Backend.GetHistory | pet-behavior-chat-v3/backend/app.py:389 | `get(session_id, [])`. |

## Left out

- HTTP, `fetch`, Flask's request parsing and `jsonify`: a request body or form is a map of strings and a reply is a `Reply` value. The 500 paths are not modelled: malformed JSON, a missing JSON body, or an exception raised by the handler itself.
- A success reply whose `response` is missing or null (`chat()` sends `null` when the model's content is `None`): `addMessage` receives `undefined` or `null`, and its `text.replace` throws. The `catch` removes the placeholder again and rethrows, so the send ends on the failure notice with the text and file kept. This is not modelled: `Reply.Success.response` and `ChatOutcome.Completes.content` are strings.
- The DOM markup, SVG icons, `scrollToBottom`, `adjustTextareaHeight`, `updateStatus`, `checkServerHealth` and the `DOMContentLoaded` wiring: these are visual only, or network I/O.
- HTML injection through unescaped `innerHTML`: bubble text is kept as a value and not parsed as HTML.
- `Format.Tier`: computes `Math.floor(Math.log(bytes) / Math.log(1024))` exactly. The floating-point result can differ for a few byte counts just below a power of 1024.
- `Format.HundredthsRounding`: uses exact rational rounding, not floating-point `Math.round` and division.
- The clock: placeholder ids come from `Date.now()` and are passed in. `toLocaleTimeString` in bubbles is not modelled. `datetime.now()` is a `DateTime` parameter with a four-digit year.
- The SDK calls (file upload, processing wait, `responses.create`, `chat.completions.create`): their result or exception is a parameter. `asyncio` event loops and sleeps are not modelled.
- The default video prompt and the unused `history_messages` in `call_video_api`: they are only sent to the SDK, or not used at all.
- `file.save`, `os.path.getsize`, `os.makedirs` and `MAX_CONTENT_LENGTH` enforcement are file-system and server concerns. The saved size is a parameter.
- `secure_filename`: a function parameter `secure`, since it belongs to Werkzeug.
- `serve_video` and `health`: these only read files or report configuration.
- `Routes.UniqueNameInjective`: proves the saved name is injective in (second, name). Two uploads of the same name within one second collide, as in the code.
- `PyText.LowerChar`: models `str.lower` only as far as matching lower-case ASCII words. It covers ASCII letters and KELVIN SIGN; other characters stay unchanged.
- `ALLOWED_VIDEO_EXTENSIONS`'s iteration order is unspecified in Python, so `UploadVideo` takes the listing as a parameter, required to be an ordering of the set: each allowed extension exactly once.
- The file input's `value` reset in `removeFile`: it only affects the browser's picker.
- Concurrency between requests: the backend is modelled one call at a time.
