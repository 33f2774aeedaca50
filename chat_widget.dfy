/** The composer and message log of the browser widget: the selected file, the
    processing flag, the text input, the send button, the file preview and the
    list of message bubbles. The send cycle passes three `await`s (the send
    function, then `fetch`, then `response.json()`); nothing in the widget
    changes between the inner two, so it runs in two steps: `HandleSend` runs
    up to the moment the request is sent, and `CompleteSend` is the
    continuation that runs once the parsed reply arrives. Any
    other event (typing, choosing or removing a file, another send) may
    happen in between. */
module ChatWidget {
  import opened Wrappers
  import opened JsText
  import Format

  /** The client-side ceiling on a video's size, 100 MB. */
  const MaxUploadBytes: nat := 100 * 1024 * 1024

  const ThinkingCaption := "正在思考..."
  const UploadingCaption := "正在上传和分析视频..."
  const VideoOnlyText := "发送了一个视频"
  const SendFailedText := "发送失败，请重试"
  const NotVideoText := "请选择视频文件"
  const TooLargeText := "文件大小不能超过100MB"
  const ChatErrorDefault := "未知错误"
  const UploadErrorDefault := "上传失败"

  /** A `File` from the picker: its name, byte size and MIME type. */
  datatype FileInfo = FileInfo(name: string, size: nat, mimeType: string)

  /** Which side a bubble is drawn on (`user-message` or `assistant-message`). */
  datatype Sender = User | Assistant

  /** The attachment object handed to `addMessage`; any field but the kind
      may be `undefined`. */
  datatype Attachment = Attachment(kind: string, name: Option<string>, size: Option<nat>, serverFilename: Option<string>)

  /** A child of the message list: a bubble, or a loading placeholder with
      its element id and the caption shown under the dots (if any). */
  datatype Entry =
    | Message(sender: Sender, text: string, attachment: Option<Attachment>)
    | Loading(id: string, caption: Option<string>)

  /** The request a send issues: JSON to `/chat`, or a multipart form with
      the file and the message to `/upload`. */
  datatype Request = ChatPost(message: string) | UploadPost(video: FileInfo, message: string)

  /** How the awaited request settles: a body with a truthy `success` flag, a
      body without one (carrying `error`, perhaps `undefined`), or a rejected
      `fetch`/`json()` with its reason. */
  datatype Reply =
    | Success(response: string, filename: Option<string>, filesize: Option<nat>)
    | Declined(error: Option<string>)
    | NetworkFailure(reason: string)

  /** The suspended send: the request in flight and its placeholder's id. */
  datatype Pending = Pending(request: Request, loadingId: string)

  /** `updateSendButton`'s condition for an enabled button. */
  predicate SendEnabled(text: string, file: Option<FileInfo>, processing: bool) {
    (Trim(text) != "" || file.Some?) && !processing
  }

  /** The button is enabled exactly when nothing is being sent and there is a
      file or at least one character that `trim` keeps. */
  lemma SendEnabledIff(text: string, file: Option<FileInfo>, processing: bool)
    ensures SendEnabled(text, file, processing)
      <==> !processing && (file.Some? || exists i :: 0 <= i < |text| && !IsTrimmable(text[i]))
  {
    TrimEmptyIff(text);
  }

  /** `handleFileSelect`'s two checks, in order: the error it reports, or
      `None` when the file is taken. */
  function FileRejection(file: FileInfo): (e: Option<string>)
    ensures e.None? <==> StartsWith(file.mimeType, "video/") && file.size <= MaxUploadBytes
    ensures !StartsWith(file.mimeType, "video/") ==> e == Some(NotVideoText)
    ensures StartsWith(file.mimeType, "video/") && file.size > MaxUploadBytes ==> e == Some(TooLargeText)
  {
    if !StartsWith(file.mimeType, "video/") then Some(NotVideoText)
    else if file.size > MaxUploadBytes then Some(TooLargeText)
    else None
  }

  /** The size boundary: exactly 100 MB is taken, one byte more is not, and a
      picture is refused whatever its size. */
  lemma FileRejectionBoundary(name: string)
    ensures FileRejection(FileInfo(name, 104857600, "video/mp4")) == None
    ensures FileRejection(FileInfo(name, 104857601, "video/mp4")) == Some(TooLargeText)
    ensures FileRejection(FileInfo(name, 10, "image/png")) == Some(NotVideoText)
  {
    assert "image/png"[..6] != "video/" by { assert "image/png"[0] == 'i'; }
  }

  /** The bubble `showErrorMessage(message)` appends. */
  function ErrorBubble(message: string): Entry {
    Message(Assistant, "❌ " + message, None)
  }

  /** An error bubble is the assistant's, has no attachment, and reads
      `❌ ` followed by the message. */
  lemma ErrorBubbleShape(message: string)
    ensures var e := ErrorBubble(message);
      && e.Message? && e.sender == Assistant && e.attachment.None?
      && StartsWith(e.text, "❌ ") && e.text[|"❌ "|..] == message
  {
  }

  /** The placeholder `addLoadingMessage(text)` appends: the caption is shown
      only when it differs from the default one. */
  function LoadingEntry(id: string, text: string): Entry {
    Loading(id, if text != ThinkingCaption then Some(text) else None)
  }

  /** The ids of the placeholders in the list, in order. */
  function LoadingIds(log: seq<Entry>): seq<string> {
    if log == [] then []
    else (if log[0].Loading? then [log[0].id] else []) + LoadingIds(log[1..])
  }

  /** The bubbles in the list, in order, placeholders left out. */
  function Messages(log: seq<Entry>): seq<Entry> {
    if log == [] then []
    else (if log[0].Message? then [log[0]] else []) + Messages(log[1..])
  }

  lemma {:induction false} LoadingIdsAppend(a: seq<Entry>, b: seq<Entry>)
    ensures LoadingIds(a + b) == LoadingIds(a) + LoadingIds(b)
    ensures Messages(a + b) == Messages(a) + Messages(b)
  {
    if a == [] {
      assert a + b == b;
    } else {
      assert (a + b)[0] == a[0] && (a + b)[1..] == a[1..] + b;
      LoadingIdsAppend(a[1..], b);
    }
  }

  /** What `removeLoadingMessage(id)` leaves: the first element with that id
      is removed (`getElementById` finds the first), and nothing happens when
      there is none. */
  function RemoveLoading(log: seq<Entry>, id: string): seq<Entry> {
    if log == [] then []
    else if log[0].Loading? && log[0].id == id then log[1..]
    else [log[0]] + RemoveLoading(log[1..], id)
  }

  /** Removing an id that has no placeholder changes nothing. */
  lemma {:induction false} RemoveLoadingAbsent(log: seq<Entry>, id: string)
    requires id !in LoadingIds(log)
    ensures RemoveLoading(log, id) == log
  {
    if log != [] {
      var head := if log[0].Loading? then [log[0].id] else [];
      assert LoadingIds(log) == head + LoadingIds(log[1..]);
      assert id !in LoadingIds(log[1..]);
      RemoveLoadingAbsent(log[1..], id);
      assert [log[0]] + log[1..] == log;
    }
  }

  /** `s` with the first occurrence of `x` taken out. */
  function RemoveFirst(s: seq<string>, x: string): seq<string> {
    if s == [] then []
    else if s[0] == x then s[1..]
    else [s[0]] + RemoveFirst(s[1..], x)
  }

  /** Taking out the first occurrence takes one copy out of the multiset
      (none when there is none). */
  lemma {:induction false} RemoveFirstCount(s: seq<string>, x: string)
    ensures multiset(RemoveFirst(s, x)) == multiset(s) - multiset{x}
  {
    if s != [] {
      assert s == [s[0]] + s[1..];
      if s[0] != x {
        RemoveFirstCount(s[1..], x);
        assert multiset(RemoveFirst(s, x)) == multiset{s[0]} + multiset(RemoveFirst(s[1..], x));
      }
    }
  }

  /** Removal takes the id out of the placeholders' ids. */
  lemma {:induction false} RemoveLoadingIds(log: seq<Entry>, id: string)
    ensures LoadingIds(RemoveLoading(log, id)) == RemoveFirst(LoadingIds(log), id)
  {
    if log != [] {
      var head := if log[0].Loading? then [log[0].id] else [];
      assert LoadingIds(log) == head + LoadingIds(log[1..]);
      if !(log[0].Loading? && log[0].id == id) {
        RemoveLoadingIds(log[1..], id);
        var rest := RemoveLoading(log[1..], id);
        assert RemoveLoading(log, id) == [log[0]] + rest;
        LoadingIdsAppend([log[0]], rest);
        assert LoadingIds([log[0]]) == head + LoadingIds([]);
        if log[0].Loading? {
          assert RemoveFirst(LoadingIds(log), id) == [log[0].id] + RemoveFirst(LoadingIds(log[1..]), id);
        } else {
          assert LoadingIds(log) == LoadingIds(log[1..]);
        }
      }
    }
  }

  /** Removal keeps every bubble in its place. */
  lemma {:induction false} RemoveLoadingKeepsMessages(log: seq<Entry>, id: string)
    ensures Messages(RemoveLoading(log, id)) == Messages(log)
  {
    if log != [] {
      var head := if log[0].Message? then [log[0]] else [];
      assert Messages(log) == head + Messages(log[1..]);
      if !(log[0].Loading? && log[0].id == id) {
        RemoveLoadingKeepsMessages(log[1..], id);
        var rest := RemoveLoading(log[1..], id);
        assert RemoveLoading(log, id) == [log[0]] + rest;
        LoadingIdsAppend([log[0]], rest);
        assert Messages([log[0]]) == head + Messages([]);
      }
    }
  }

  /** Removal drops one occurrence of the id from the placeholders (none
      when it is absent) and keeps every bubble in its place. */
  lemma RemoveLoadingEffect(log: seq<Entry>, id: string)
    ensures Messages(RemoveLoading(log, id)) == Messages(log)
    ensures multiset(LoadingIds(RemoveLoading(log, id))) == multiset(LoadingIds(log)) - multiset{id}
  {
    RemoveLoadingKeepsMessages(log, id);
    RemoveLoadingIds(log, id);
    RemoveFirstCount(LoadingIds(log), id);
  }

  /** Removing a placeholder a second time is harmless as long as the id was
      used at most once: this is why the double removal on the declined path
      changes nothing. */
  lemma RemoveLoadingTwice(log: seq<Entry>, id: string)
    requires multiset(LoadingIds(log))[id] <= 1
    ensures RemoveLoading(RemoveLoading(log, id), id) == RemoveLoading(log, id)
  {
    var r := RemoveLoading(log, id);
    RemoveLoadingEffect(log, id);
    assert multiset(LoadingIds(r))[id] == 0;
    RemoveLoadingAbsent(r, id);
  }

  /** A bubble added at the end adds no placeholder. */
  lemma AppendMessage(log: seq<Entry>, e: Entry)
    requires e.Message?
    ensures LoadingIds(log + [e]) == LoadingIds(log)
  {
    LoadingIdsAppend(log, [e]);
    assert LoadingIds([e]) == [] + LoadingIds([]);
  }

  /** The list once a send has started: the user's bubble, then the
      send's placeholder. */
  function StartedLog(log: seq<Entry>, req: Request, id: string): seq<Entry> {
    log + [UserEntry(req), LoadingEntry(id, LoadingText(req))]
  }

  /** The list once a send has settled: its placeholder removed and the
      closing bubble added. */
  function SettledLog(log: seq<Entry>, id: string, req: Request, reply: Reply): seq<Entry> {
    RemoveLoading(log, id) + [SettledEntry(req, reply)]
  }

  /** Starting a send on a list without placeholders leaves exactly the new
      one in it. */
  lemma StartedIds(log: seq<Entry>, req: Request, id: string)
    requires LoadingIds(log) == []
    ensures LoadingIds(StartedLog(log, req, id)) == [id]
  {
    var pair := [UserEntry(req), LoadingEntry(id, LoadingText(req))];
    LoadingIdsAppend(log, pair);
    assert pair[1..] == [LoadingEntry(id, LoadingText(req))];
    assert LoadingIds(pair[1..]) == [id] + LoadingIds([]);
  }

  /** Removal skips a prefix that holds no placeholder with that id. */
  lemma {:induction false} RemoveLoadingAppend(a: seq<Entry>, b: seq<Entry>, id: string)
    requires id !in LoadingIds(a)
    ensures RemoveLoading(a + b, id) == a + RemoveLoading(b, id)
  {
    if a == [] {
      assert a + b == b;
    } else {
      var ab := a + b;
      assert ab[0] == a[0] && ab[1..] == a[1..] + b;
      assert LoadingIds(a) == (if a[0].Loading? then [a[0].id] else []) + LoadingIds(a[1..]);
      assert !(a[0].Loading? && a[0].id == id);
      assert id !in LoadingIds(a[1..]);
      assert RemoveLoading(ab, id) == [a[0]] + RemoveLoading(a[1..] + b, id);
      RemoveLoadingAppend(a[1..], b, id);
      assert a == [a[0]] + a[1..];
    }
  }

  /** The user's bubble and then its placeholder, appended to a list without
      that id and removed again, leave only the user's bubble. */
  lemma RemoveOwnPlaceholder(log: seq<Entry>, user: Entry, id: string, caption: Option<string>)
    requires id !in LoadingIds(log) && user.Message?
    ensures RemoveLoading(log + [user, Loading(id, caption)], id) == log + [user]
  {
    RemoveLoadingAppend(log, [user, Loading(id, caption)], id);
    var tail := [user, Loading(id, caption)];
    assert tail[1..] == [Loading(id, caption)];
    assert RemoveLoading(tail[1..], id) == [];
    assert RemoveLoading(tail, id) == [user] + RemoveLoading(tail[1..], id);
  }

  /** The user's bubble for a request (`sendTextMessage`/`sendVideoMessage`):
      the message, or the stock text when a video goes without one, with the
      local file as attachment. */
  function UserEntry(req: Request): Entry {
    match req
    case ChatPost(m) => Message(User, m, None)
    case UploadPost(f, m) =>
      Message(User, if m != "" then m else VideoOnlyText,
              Some(Attachment("video", Some(f.name), Some(f.size), None)))
  }

  /** The caption text each kind of send gives its placeholder. */
  function LoadingText(req: Request): string {
    if req.ChatPost? then ThinkingCaption else UploadingCaption
  }

  /** The assistant's bubble for a successful reply; for a video, the
      attachment takes both its name and its server name from the reply's
      `filename`. */
  function ReplyEntry(req: Request, response: string, filename: Option<string>, filesize: Option<nat>): Entry {
    match req
    case ChatPost(_) => Message(Assistant, response, None)
    case UploadPost(_, _) => Message(Assistant, response, Some(Attachment("video", filename, filesize, filename)))
  }

  /** The bubble that closes a send: the reply, or the fixed failure notice
      whatever went wrong. */
  function SettledEntry(req: Request, reply: Reply): Entry {
    match reply
    case Success(resp, name, size) => ReplyEntry(req, resp, name, size)
    case _ => ErrorBubble(SendFailedText)
  }

  /** The error a failed send throws and `handleSend` only logs to the
      console: the server's `error` if truthy, else a per-endpoint default,
      or the rejection reason of the network call. */
  function Thrown(req: Request, reply: Reply): Option<string> {
    match reply
    case Success(_, _, _) => None
    case Declined(e) => Some(Interp(Or(e, Some(if req.ChatPost? then ChatErrorDefault else UploadErrorDefault))))
    case NetworkFailure(reason) => Some(reason)
  }

  /** The request `handleSend` builds from the trimmed input and the file. */
  function RequestFor(message: string, file: Option<FileInfo>): Request {
    if file.Some? then UploadPost(file.value, message) else ChatPost(message)
  }

  /** A send that passes the guard never draws an empty user bubble. */
  lemma UserEntryNotEmpty(text: string, file: Option<FileInfo>)
    requires SendEnabled(text, file, false)
    ensures UserEntry(RequestFor(Trim(text), file)).text != ""
  {
  }

  /** A whole send cycle with no event in between, started on a list without
      placeholders: exactly the user's bubble and then the closing bubble
      are added, and no placeholder is left. On failure the closing bubble is
      the fixed notice. */
  lemma SendCycleTranscript(log: seq<Entry>, req: Request, id: string, reply: Reply)
    requires LoadingIds(log) == []
    ensures var during := StartedLog(log, req, id);
      var after := SettledLog(during, id, req, reply);
      && after == log + [UserEntry(req), SettledEntry(req, reply)]
      && LoadingIds(after) == []
      && (!reply.Success? ==> after[|after| - 1] == Message(Assistant, "❌ 发送失败，请重试", None))
  {
    var user, settled := UserEntry(req), SettledEntry(req, reply);
    var loading := LoadingEntry(id, LoadingText(req));
    var during := StartedLog(log, req, id);
    assert during == log + [user, Loading(id, loading.caption)];
    RemoveOwnPlaceholder(log, user, id, loading.caption);
    var after := SettledLog(during, id, req, reply);
    assert after == (log + [user]) + [settled];
    assert after == log + [user, settled];
    AppendMessage(log, user);
    AppendMessage(log + [user], settled);
    assert after[|after| - 1] == settled;
  }

  /** The list once `sendTextMessage`/`sendVideoMessage` has handled the
      reply: the placeholder removed (twice on the declined path, by the
      `if` and again by the `catch`) and, on success, the reply added. */
  function FinishedLog(log: seq<Entry>, id: string, req: Request, reply: Reply): seq<Entry> {
    match reply
    case Success(resp, name, size) => RemoveLoading(log, id) + [ReplyEntry(req, resp, name, size)]
    case Declined(_) => RemoveLoading(RemoveLoading(log, id), id)
    case NetworkFailure(_) => RemoveLoading(log, id)
  }

  /** With exactly the one placeholder of the send in the list, handling the
      reply and then (on failure) the failure notice leave the list without
      placeholders, holding the old bubbles and one closing bubble. */
  lemma FinishedLogSettles(log: seq<Entry>, id: string, req: Request, reply: Reply)
    requires LoadingIds(log) == [id]
    ensures var closed := FinishedLog(log, id, req, reply) + (if reply.Success? then [] else [ErrorBubble(SendFailedText)]);
      && closed == SettledLog(log, id, req, reply)
      && LoadingIds(closed) == []
      && Messages(closed) == Messages(log) + [SettledEntry(req, reply)]
  {
    var removed := RemoveLoading(log, id);
    RemoveLoadingEffect(log, id);
    assert multiset(LoadingIds(removed)) == multiset{};
    if reply.Declined? {
      RemoveLoadingTwice(log, id);
    }
    LoadingIdsAppend(removed, [SettledEntry(req, reply)]);
    assert LoadingIds([SettledEntry(req, reply)]) == [] + LoadingIds([]);
    assert Messages([SettledEntry(req, reply)]) == [SettledEntry(req, reply)] + Messages([]);
  }

  /** What `createVideoThumbnail` computes: the name passed to `playVideo`,
      the name shown, and the size text. */
  datatype Thumbnail = Thumbnail(filename: string, displayName: string, sizeText: string)

  function CreateVideoThumbnail(a: Attachment): Thumbnail {
    Thumbnail(Interp(Or(a.serverFilename, a.name)), Interp(Or(a.name, a.serverFilename)), Format.SizeText(a.size))
  }

  /** The thumbnail of a server reply plays and shows the server's name. */
  lemma EchoedThumbnail(filename: Option<string>, size: Option<nat>)
    ensures var t := CreateVideoThumbnail(Attachment("video", filename, size, filename));
      t.filename == t.displayName == Interp(filename)
  {
  }

  /** The thumbnail of the user's own bubble has no server name, so it plays
      and shows the local file name; an empty name shows as `undefined`. */
  lemma LocalThumbnail(f: FileInfo)
    ensures var t := CreateVideoThumbnail(Attachment("video", Some(f.name), Some(f.size), None));
      && t.filename == f.name
      && t.displayName == (if f.name != "" then f.name else "undefined")
      && t.sizeText == Format.FormatFileSize(f.size)
  {
  }

  /** What `addMessage` puts in the bubble's text area: the text with line
      breaks, followed by a video thumbnail, or preceded by a paper-clip
      label for any other attachment that has a name. */
  datatype Rendered = Rendered(nameLabel: Option<string>, html: string, thumbnail: Option<Thumbnail>)

  function RenderMessage(text: string, attachment: Option<Attachment>): (r: Rendered)
    ensures '\n' !in r.html
    ensures r.thumbnail.Some? <==> attachment.Some? && attachment.value.kind == "video"
    ensures r.nameLabel.Some? <==> attachment.Some? && attachment.value.kind != "video" && Truthy(attachment.value.name)
  {
    ReplaceNewlinesRemovesAll(text);
    var html := ReplaceNewlines(text);
    if attachment.Some? && attachment.value.kind == "video" then
      Rendered(None, html, Some(CreateVideoThumbnail(attachment.value)))
    else if attachment.Some? && Truthy(attachment.value.name) then
      Rendered(Some("📎 " + attachment.value.name.value), html, None)
    else
      Rendered(None, html, None)
  }

  /** An error bubble shows its text unchanged. */
  lemma ErrorBubbleRendering(message: string)
    requires '\n' !in message
    ensures RenderMessage(ErrorBubble(message).text, None) == Rendered(None, "❌ " + message, None)
  {
    var t := "❌ " + message;
    assert '\n' !in t by {
      forall i | 0 <= i < |t| ensures t[i] != '\n' {
        if i >= |"❌ "| { assert t[i] == message[i - |"❌ "|]; }
      }
    }
    ReplaceNewlinesIdentity(t);
  }

  class Widget {
    /** `messageInput.value` */
    var input: string
    var selectedFile: Option<FileInfo>
    var isProcessing: bool
    /** `sendBtn.disabled` */
    var sendDisabled: bool
    /** What `filePreview` shows: the chosen file, or nothing (inactive, empty). */
    var preview: Option<FileInfo>
    /** The children of `chatMessages`, in document order. */
    var log: seq<Entry>
    /** The send suspended at its `await`, if any. */
    var inFlight: Option<Pending>

    /** The widget's invariant: the flag is up exactly while a send is
        suspended, the preview shows the selected file, only an acceptable
        file is ever selected, and the only placeholder in the list is the
        one of the suspended send. */
    ghost predicate Valid()
      reads this`isProcessing, this`inFlight, this`preview, this`selectedFile, this`log
    {
      && isProcessing == inFlight.Some?
      && preview == selectedFile
      && (selectedFile.Some? ==> FileRejection(selectedFile.value).None?)
      && LoadingIds(log) == (if inFlight.Some? then [inFlight.value.loadingId] else [])
    }

    /** The page as loaded; the button's initial state comes from the page's
        markup. */
    constructor (buttonDisabled: bool)
      ensures Valid()
      ensures input == "" && selectedFile == None && !isProcessing && preview == None
      ensures log == [] && inFlight == None && sendDisabled == buttonDisabled
    {
      input := "";
      selectedFile := None;
      isProcessing := false;
      sendDisabled := buttonDisabled;
      preview := None;
      log := [];
      inFlight := None;
    }

    /** `updateSendButton()` */
    method UpdateSendButton()
      modifies this`sendDisabled
      ensures sendDisabled == !SendEnabled(input, selectedFile, isProcessing)
    {
      var hasContent := Trim(input) != "" || selectedFile.Some?;
      sendDisabled := !hasContent || isProcessing;
    }

    /** The input listener: the text changes, then the button is re-evaluated. */
    method OnInput(text: string)
      requires Valid()
      modifies this`input, this`sendDisabled
      ensures Valid()
      ensures input == text && sendDisabled == !SendEnabled(text, selectedFile, isProcessing)
    {
      input := text;
      UpdateSendButton();
    }

    /** `addMessage(sender, text, attachment)` */
    method AddMessage(sender: Sender, text: string, attachment: Option<Attachment>)
      modifies this`log
      ensures log == old(log) + [Message(sender, text, attachment)]
    {
      log := log + [Message(sender, text, attachment)];
    }

    /** `addLoadingMessage(text)`, with the clock-derived id as a parameter. */
    method AddLoadingMessage(id: string, text: string) returns (loadingId: string)
      modifies this`log
      ensures loadingId == id && log == old(log) + [LoadingEntry(id, text)]
    {
      log := log + [LoadingEntry(id, text)];
      loadingId := id;
    }

    /** `removeLoadingMessage(loadingId)` */
    method RemoveLoadingMessage(loadingId: string)
      modifies this`log
      ensures log == RemoveLoading(old(log), loadingId)
    {
      log := RemoveLoading(log, loadingId);
    }

    /** `showErrorMessage(message)` */
    method ShowErrorMessage(message: string)
      modifies this`log
      ensures log == old(log) + [ErrorBubble(message)]
    {
      AddMessage(Assistant, "❌ " + message, None);
    }

    /** `handleFileSelect`: the picker's first file, if any. A refused file
        leaves the selection as it was and adds one error bubble. */
    method HandleFileSelect(file: Option<FileInfo>)
      requires Valid()
      modifies this`selectedFile, this`preview, this`log, this`sendDisabled
      ensures Valid()
      ensures file.None? ==> selectedFile == old(selectedFile) && log == old(log) && sendDisabled == old(sendDisabled)
      ensures file.Some? && FileRejection(file.value).Some? ==>
        && selectedFile == old(selectedFile) && sendDisabled == old(sendDisabled)
        && log == old(log) + [ErrorBubble(FileRejection(file.value).value)]
      ensures file.Some? && FileRejection(file.value).None? ==>
        && selectedFile == file && log == old(log)
        && sendDisabled == !SendEnabled(input, file, isProcessing)
    {
      if file.None? {
        return;
      }
      var f := file.value;
      if !StartsWith(f.mimeType, "video/") {
        ShowErrorMessage(NotVideoText);
        AppendMessage(old(log), ErrorBubble(NotVideoText));
        return;
      }
      if f.size > MaxUploadBytes {
        ShowErrorMessage(TooLargeText);
        AppendMessage(old(log), ErrorBubble(TooLargeText));
        return;
      }
      selectedFile := Some(f);
      preview := Some(f);
      UpdateSendButton();
      LoadingIdsAppend(old(log), []);
    }

    /** `removeFile()`: no file and an empty preview, whatever was there. */
    method RemoveFile()
      modifies this`selectedFile, this`preview, this`sendDisabled
      ensures old(Valid()) ==> Valid()
      ensures selectedFile == None && preview == None
      ensures sendDisabled == !SendEnabled(input, None, isProcessing)
    {
      selectedFile := None;
      preview := None;
      UpdateSendButton();
    }

    /** The first half of `sendTextMessage`, up to the awaited `fetch`. */
    method BeginTextMessage(message: string, loadingId: string) returns (req: Request)
      modifies this`log
      ensures req == ChatPost(message)
      ensures log == StartedLog(old(log), req, loadingId)
    {
      AddMessage(User, message, None);
      var id := AddLoadingMessage(loadingId, ThinkingCaption);
      req := ChatPost(message);
    }

    /** The first half of `sendVideoMessage`, up to the awaited `fetch`. */
    method BeginVideoMessage(message: string, file: FileInfo, loadingId: string) returns (req: Request)
      modifies this`log
      ensures req == UploadPost(file, message)
      ensures log == StartedLog(old(log), req, loadingId)
    {
      var userMessage := if message != "" then message else VideoOnlyText;
      AddMessage(User, userMessage, Some(Attachment("video", Some(file.name), Some(file.size), None)));
      var id := AddLoadingMessage(loadingId, UploadingCaption);
      req := UploadPost(file, message);
    }

    /** `handleSend` up to its `await`. It does nothing while a send is in
        flight or when there is neither text nor a file; otherwise it goes
        on as `StartSend`. */
    method HandleSend(loadingId: string) returns (request: Option<Request>)
      requires Valid()
      modifies this
      ensures Valid()
      ensures !SendEnabled(old(input), old(selectedFile), old(isProcessing)) ==>
        request == None && unchanged(this)
      ensures SendEnabled(old(input), old(selectedFile), old(isProcessing)) ==>
        var req := RequestFor(Trim(old(input)), old(selectedFile));
        && request == Some(req) && inFlight == Some(Pending(req, loadingId))
        && isProcessing && sendDisabled
        && log == StartedLog(old(log), req, loadingId)
        && input == old(input) && selectedFile == old(selectedFile) && preview == old(preview)
    {
      if isProcessing {
        return None;
      }
      var message := Trim(input);
      if message == "" && selectedFile.None? {
        return None;
      }
      var req := StartSend(message, loadingId);
      request := Some(req);
    }

    /** The rest of `handleSend` up to its `await`: the flag goes up, then
        the user's bubble and a placeholder are shown and one request is
        issued for the message and the selected file. */
    method StartSend(message: string, loadingId: string) returns (req: Request)
      requires Valid() && !isProcessing
      modifies this`isProcessing, this`sendDisabled, this`log, this`inFlight
      ensures Valid()
      ensures req == RequestFor(message, selectedFile) && inFlight == Some(Pending(req, loadingId))
      ensures isProcessing && sendDisabled
      ensures log == StartedLog(old(log), req, loadingId)
    {
      isProcessing := true;
      UpdateSendButton();
      if selectedFile.Some? {
        req := BeginVideoMessage(message, selectedFile.value, loadingId);
      } else {
        req := BeginTextMessage(message, loadingId);
      }
      inFlight := Some(Pending(req, loadingId));
      StartedIds(old(log), req, loadingId);
    }

    /** The Enter key in the input (without Shift) sends; other keys are
        left to the text area. */
    method OnInputKeyDown(key: string, shiftKey: bool, loadingId: string) returns (request: Option<Request>)
      requires Valid()
      modifies this
      ensures Valid()
      ensures !(key == "Enter" && !shiftKey) ==> request == None && unchanged(this)
      ensures key == "Enter" && !shiftKey && !SendEnabled(old(input), old(selectedFile), old(isProcessing)) ==>
        request == None && unchanged(this)
      ensures key == "Enter" && !shiftKey && SendEnabled(old(input), old(selectedFile), old(isProcessing)) ==>
        var req := RequestFor(Trim(old(input)), old(selectedFile));
        && request == Some(req) && inFlight == Some(Pending(req, loadingId))
        && isProcessing && sendDisabled
        && log == StartedLog(old(log), req, loadingId)
        && input == old(input) && selectedFile == old(selectedFile) && preview == old(preview)
    {
      request := None;
      if key == "Enter" && !shiftKey {
        request := HandleSend(loadingId);
      }
    }

    /** The second half of `sendTextMessage(message)`: the placeholder
        goes, then the reply is shown or an error is thrown (and the `catch`
        removes the placeholder once more before rethrowing). */
    method FinishTextMessage(message: string, loadingId: string, reply: Reply) returns (thrown: Option<string>)
      modifies this`log
      ensures log == FinishedLog(old(log), loadingId, ChatPost(message), reply)
      ensures thrown == Thrown(ChatPost(message), reply)
    {
      match reply
      case NetworkFailure(reason) =>
        RemoveLoadingMessage(loadingId);
        thrown := Some(reason);
      case Success(response, _, _) =>
        RemoveLoadingMessage(loadingId);
        AddMessage(Assistant, response, None);
        thrown := None;
      case Declined(error) =>
        RemoveLoadingMessage(loadingId);
        thrown := Some(Interp(Or(error, Some(ChatErrorDefault))));
        RemoveLoadingMessage(loadingId);
    }

    /** The second half of `sendVideoMessage(message, file)`, the same shape
        as the text one, with the reply's file as attachment. */
    method FinishVideoMessage(message: string, file: FileInfo, loadingId: string, reply: Reply) returns (thrown: Option<string>)
      modifies this`log
      ensures log == FinishedLog(old(log), loadingId, UploadPost(file, message), reply)
      ensures thrown == Thrown(UploadPost(file, message), reply)
    {
      match reply
      case NetworkFailure(reason) =>
        RemoveLoadingMessage(loadingId);
        thrown := Some(reason);
      case Success(response, filename, filesize) =>
        RemoveLoadingMessage(loadingId);
        AddMessage(Assistant, response, Some(Attachment("video", filename, filesize, filename)));
        thrown := None;
      case Declined(error) =>
        RemoveLoadingMessage(loadingId);
        thrown := Some(Interp(Or(error, Some(UploadErrorDefault))));
        RemoveLoadingMessage(loadingId);
    }

    /** `sendTextMessage` or `sendVideoMessage`, whichever the pending
        send started, from its `await` on. */
    method ResumeSend(p: Pending, reply: Reply) returns (thrown: Option<string>)
      modifies this`log
      ensures log == FinishedLog(old(log), p.loadingId, p.request, reply)
      ensures thrown == Thrown(p.request, reply)
    {
      match p.request {
        case ChatPost(message) =>
          thrown := FinishTextMessage(message, p.loadingId, reply);
        case UploadPost(file, message) =>
          thrown := FinishVideoMessage(message, file, p.loadingId, reply);
      }
    }

    /** The continuation of `handleSend` once the request settles. On
        success the input and the file are cleared; on any failure they are
        kept (the clearing sits inside the `try`) and the fixed failure notice
        is shown instead of the server's message. In every case the
        placeholder is gone and the flag is down. */
    method CompleteSend(reply: Reply) returns (caught: Option<string>)
      requires Valid() && inFlight.Some?
      modifies this
      ensures Valid() && inFlight == None && !isProcessing
      ensures sendDisabled == !SendEnabled(input, selectedFile, false)
      ensures var p := old(inFlight).value;
        && log == SettledLog(old(log), p.loadingId, p.request, reply)
        && caught == Thrown(p.request, reply)
      ensures LoadingIds(log) == []
      ensures reply.Success? ==> input == "" && selectedFile == None && preview == None
      ensures !reply.Success? ==> input == old(input) && selectedFile == old(selectedFile) && preview == old(preview)
    {
      var p := inFlight.value;
      FinishedLogSettles(log, p.loadingId, p.request, reply);
      var thrown := ResumeSend(p, reply);
      assert thrown.None? <==> reply.Success?;
      ghost var settled := SettledLog(old(log), p.loadingId, p.request, reply);
      if thrown.None? {
        input := "";
        RemoveFile();
      } else {
        ShowErrorMessage(SendFailedText);
      }
      assert log == settled && LoadingIds(log) == [];
      isProcessing := false;
      inFlight := None;
      UpdateSendButton();
      caught := thrown;
    }
  }

  /** Two sends in a row, the first still in flight: only the first issues
      a request. */
  method DoubleSend(w: Widget, id1: string, id2: string) returns (first: Option<Request>, second: Option<Request>)
    requires w.Valid() && SendEnabled(w.input, w.selectedFile, w.isProcessing)
    modifies w
    ensures first.Some? && second.None?
  {
    first := w.HandleSend(id1);
    second := w.HandleSend(id2);
  }

  /** "hello" sent while the server is unreachable, from an empty list and
      no file: the list holds the user's bubble and one failure notice, the
      text stays in the input, and sending is enabled again. */
  method UnreachableServer(w: Widget, id: string, reason: string)
    requires w.Valid() && w.log == [] && w.selectedFile == None && !w.isProcessing
    modifies w
    ensures w.Valid()
    ensures w.log == [Message(User, "hello", None), ErrorBubble(SendFailedText)]
    ensures w.input == "hello" && !w.isProcessing && !w.sendDisabled
  {
    w.OnInput("hello");
    TrimKeeps("hello");
    ghost var req := ChatPost("hello");
    var request := w.HandleSend(id);
    assert w.inFlight == Some(Pending(req, id));
    assert w.log == StartedLog([], req, id);
    SendCycleTranscript([], req, id, NetworkFailure(reason));
    var caught := w.CompleteSend(NetworkFailure(reason));
    assert w.log == SettledLog(StartedLog([], req, id), id, req, NetworkFailure(reason));
    assert [] + [UserEntry(req), SettledEntry(req, NetworkFailure(reason))] == [UserEntry(req), SettledEntry(req, NetworkFailure(reason))];
  }

  /** "hello" answered, from an empty list and no file: the user's bubble and
      the reply, in that order, with no placeholder left, and an empty input. */
  method AnsweredHello(w: Widget, id: string, answer: string)
    requires w.Valid() && w.log == [] && w.selectedFile == None && !w.isProcessing
    modifies w
    ensures w.Valid()
    ensures w.log == [Message(User, "hello", None), Message(Assistant, answer, None)]
    ensures w.input == "" && !w.isProcessing && w.sendDisabled
  {
    w.OnInput("hello");
    TrimKeeps("hello");
    ghost var req := ChatPost("hello");
    var request := w.HandleSend(id);
    assert w.inFlight == Some(Pending(req, id));
    assert w.log == StartedLog([], req, id);
    SendCycleTranscript([], req, id, Success(answer, None, None));
    var caught := w.CompleteSend(Success(answer, None, None));
    assert w.log == SettledLog(StartedLog([], req, id), id, req, Success(answer, None, None));
    assert [] + [UserEntry(req), SettledEntry(req, Success(answer, None, None))] == [UserEntry(req), SettledEntry(req, Success(answer, None, None))];
  }
}
