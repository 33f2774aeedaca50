/** The backend's in-memory conversation table: session id to the list of
    `{role, content}` turns, and the functions that update it in place
    (`call_text_api`, `_record_video_conversation`, `call_video_api`,
    `clear_history`) or read it (`get_history`). Whether the model client is
    configured is fixed when the server starts. */
module Conversation {

  datatype Role = User | Assistant

  /** One `{"role": ..., "content": ...}` entry. */
  datatype Turn = Turn(role: Role, content: string)

  type Table = map<string, seq<Turn>>

  /** How many trailing turns a chat request sends (ten user/assistant rounds). */
  const WindowSize: nat := 20

  const VideoMarker := "[上传了视频]"
  const DefaultVideoRequest := " 请分析这个视频中的宠物行为。"
  const NoReplyFallback := "视频分析完成，但未获取到有效回复。"

  /** `conversation_history.get(session_id, [])` */
  function Turns(t: Table, sessionId: string): seq<Turn> {
    if sessionId in t then t[sessionId] else []
  }

  /** `history[-20:]`: the newest turns, at most twenty, in order. */
  function Window(h: seq<Turn>): (w: seq<Turn>)
    ensures |w| == (if |h| < WindowSize then |h| else WindowSize)
    ensures w == h[|h| - |w|..]
    ensures h != [] ==> w != [] && w[|w| - 1] == h[|h| - 1]
  {
    if |h| <= WindowSize then h else h[|h| - WindowSize..]
  }

  /** How the chat-completion call goes when a client is configured: it
      returns a message, or it (or reading its first choice) raises. */
  datatype ChatOutcome = Completes(content: string) | ChatRaises(error: string)

  function MockChatReply(userMessage: string): string {
    "[模拟响应] 我收到了你的消息：'" + userMessage + "'。请设置 ARK_API_KEY 环境变量以使用真实API。"
  }

  function ChatErrorReply(error: string): string {
    "抱歉，处理您的消息时出现错误：" + error
  }

  /** What `call_text_api` returns: the mock text without a client, the
      model's content when the call returns, the error text when it raises.
      Only a model that answered with empty content gives an empty reply. */
  function ChatReply(userMessage: string, hasClient: bool, outcome: ChatOutcome): (r: string)
    ensures r == "" <==> hasClient && outcome.Completes? && outcome.content == ""
  {
    if !hasClient then
      assert MockChatReply(userMessage)[0] == '[';
      MockChatReply(userMessage)
    else
      match outcome
      case Completes(c) => c
      case ChatRaises(e) =>
        assert ChatErrorReply(e)[0] == '抱';
        ChatErrorReply(e)
  }

  /** The table after `call_text_api`: untouched without a client;
      otherwise the user's turn is added before the call and the
      assistant's turn only when the call returns. */
  function AfterChat(t: Table, sessionId: string, userMessage: string, hasClient: bool, outcome: ChatOutcome): Table {
    if !hasClient then t
    else
      var asked := Turns(t, sessionId) + [Turn(User, userMessage)];
      match outcome
      case Completes(c) => t[sessionId := asked + [Turn(Assistant, c)]]
      case ChatRaises(_) => t[sessionId := asked]
  }

  /** What `call_text_api` changes: with a client, its session gains the
      user's turn and, if the call returned, the reply after it; no other
      session is touched, and without a client nothing is. */
  lemma AfterChatEffect(t: Table, sessionId: string, userMessage: string, hasClient: bool, outcome: ChatOutcome)
    ensures forall s :: s != sessionId ==>
      (s in AfterChat(t, sessionId, userMessage, hasClient, outcome) <==> s in t)
      && Turns(AfterChat(t, sessionId, userMessage, hasClient, outcome), s) == Turns(t, s)
    ensures !hasClient ==> AfterChat(t, sessionId, userMessage, hasClient, outcome) == t
    ensures hasClient && outcome.Completes? ==>
      Turns(AfterChat(t, sessionId, userMessage, hasClient, outcome), sessionId)
        == Turns(t, sessionId) + [Turn(User, userMessage), Turn(Assistant, outcome.content)]
    ensures hasClient && outcome.ChatRaises? ==>
      Turns(AfterChat(t, sessionId, userMessage, hasClient, outcome), sessionId)
        == Turns(t, sessionId) + [Turn(User, userMessage)]
  {
    var asked := Turns(t, sessionId) + [Turn(User, userMessage)];
    if hasClient && outcome.Completes? {
      assert asked + [Turn(Assistant, outcome.content)]
        == Turns(t, sessionId) + [Turn(User, userMessage), Turn(Assistant, outcome.content)];
    }
  }

  /** The user's turn a video conversation records: the marker followed by
      the message, or by the stock request when there is no message. */
  function VideoUserContent(userMessage: string): (c: string)
    ensures |c| > |VideoMarker| && c[..|VideoMarker|] == VideoMarker
    ensures userMessage != "" ==> c[|VideoMarker|..] == " " + userMessage
    ensures userMessage == "" ==> c[|VideoMarker|..] == DefaultVideoRequest
  {
    VideoMarker + (if userMessage != "" then " " + userMessage else DefaultVideoRequest)
  }

  /** Distinct messages are recorded as distinct user turns. */
  lemma VideoUserContentInjective(a: string, b: string)
    requires a != "" && b != ""
    requires VideoUserContent(a) == VideoUserContent(b)
    ensures a == b
  {
    assert (" " + a)[1..] == a && (" " + b)[1..] == b;
  }

  /** An empty message is recorded exactly as the stock request typed out,
      which is why the injectivity above needs non-empty messages. */
  lemma VideoUserContentCollision()
    ensures VideoUserContent("") == VideoUserContent("请分析这个视频中的宠物行为。")
  {
  }

  /** The table after `_record_video_conversation`: the session (created if
      absent) gains the user's turn and then the assistant's. */
  function AfterVideoRecord(t: Table, sessionId: string, userMessage: string, reply: string): Table {
    t[sessionId := Turns(t, sessionId) + [Turn(User, VideoUserContent(userMessage)), Turn(Assistant, reply)]]
  }

  /** Recording a video turn adds exactly two turns to its session, user
      then assistant, after the existing ones, and leaves every other
      session alone. */
  lemma AfterVideoRecordEffect(t: Table, sessionId: string, userMessage: string, reply: string)
    ensures var t' := AfterVideoRecord(t, sessionId, userMessage, reply);
      var n := |Turns(t, sessionId)|;
      && sessionId in t'
      && |t'[sessionId]| == n + 2
      && t'[sessionId][..n] == Turns(t, sessionId)
      && t'[sessionId][n] == Turn(User, VideoUserContent(userMessage))
      && t'[sessionId][n + 1] == Turn(Assistant, reply)
      && (forall s :: s != sessionId ==> (s in t' <==> s in t) && Turns(t', s) == Turns(t, s))
  {
    var h := Turns(t, sessionId);
    assert (h + [Turn(User, VideoUserContent(userMessage)), Turn(Assistant, reply)])[..|h|] == h;
  }

  /** One `output_text` content item or any other kind. */
  datatype ContentItem = ContentItem(kind: string, text: string)

  /** One item of `response.output`. */
  datatype Output = Output(kind: string, role: string, content: seq<ContentItem>)

  /** How the video analysis goes when a client is configured: the
      response's output list, or an exception at any stage (upload,
      processing, analysis). */
  datatype AnalysisOutcome = Responds(output: seq<Output>) | AnalysisRaises(error: string)

  /** The texts of the `output_text` items, in order. */
  function ItemsText(items: seq<ContentItem>): string {
    if items == [] then ""
    else
      var last := items[|items| - 1];
      ItemsText(items[..|items| - 1]) + (if last.kind == "output_text" then last.text else "")
  }

  /** What one output contributes: its items' text if it is an assistant
      message, nothing otherwise. */
  function OutputText(o: Output): string {
    if o.kind == "message" && o.role == "assistant" then ItemsText(o.content) else ""
  }

  /** The reply text of a response: every contribution, in order. */
  function ReplyText(output: seq<Output>): string {
    if output == [] then "" else ReplyText(output[..|output| - 1]) + OutputText(output[|output| - 1])
  }

  lemma ConcatAssoc(x: string, y: string, z: string)
    ensures (x + y) + z == x + (y + z)
  {
  }

  /** The reply of two lists of outputs is the two replies concatenated. */
  lemma {:induction false} ReplyTextAppend(a: seq<Output>, b: seq<Output>)
    ensures ReplyText(a + b) == ReplyText(a) + ReplyText(b)
  {
    if b == [] {
      assert a + b == a;
    } else {
      var b', last := b[..|b| - 1], b[|b| - 1];
      var ab := a + b;
      assert ab[..|ab| - 1] == a + b';
      assert ab[|ab| - 1] == last;
      assert ReplyText(ab) == ReplyText(a + b') + OutputText(last);
      assert ReplyText(b) == ReplyText(b') + OutputText(last);
      ReplyTextAppend(a, b');
      ConcatAssoc(ReplyText(a), ReplyText(b'), OutputText(last));
    }
  }

  /** Outputs that are not assistant messages add nothing to the reply. */
  lemma {:induction false} ReplyTextIgnoresOthers(output: seq<Output>)
    requires forall i :: 0 <= i < |output| ==> !(output[i].kind == "message" && output[i].role == "assistant")
    ensures ReplyText(output) == ""
  {
    if output != [] {
      ReplyTextIgnoresOthers(output[..|output| - 1]);
    }
  }

  /** The inner loop of `call_video_api`'s extraction: the text of the
      `output_text` items of one message, in order. */
  method CollectItems(items: seq<ContentItem>) returns (text: string)
    ensures text == ItemsText(items)
  {
    text := "";
    var j := 0;
    while j < |items|
      invariant 0 <= j <= |items|
      invariant text == ItemsText(items[..j])
    {
      if items[j].kind == "output_text" {
        text := text + items[j].text;
      }
      assert items[..j + 1][..j] == items[..j];
      j := j + 1;
    }
    assert items[..j] == items;
  }

  /** The nested loops of `call_video_api` that accumulate `assistant_message`. */
  method ExtractReply(output: seq<Output>) returns (text: string)
    ensures text == ReplyText(output)
  {
    text := "";
    var i := 0;
    while i < |output|
      invariant 0 <= i <= |output|
      invariant text == ReplyText(output[..i])
    {
      var o := output[i];
      if o.kind == "message" && o.role == "assistant" {
        var part := CollectItems(o.content);
        text := text + part;
      }
      assert output[..i + 1][..i] == output[..i];
      assert text == ReplyText(output[..i + 1]);
      i := i + 1;
    }
    assert output[..i] == output;
  }

  function MockVideoReply(userMessage: string): string {
    "这是一个模拟的视频分析结果。"
      + (if userMessage != "" then "\n\n用户提问：" + userMessage else "")
      + "\n\n请设置 ARK_API_KEY 环境变量以使用真实的视频分析功能。"
  }

  function VideoErrorReply(error: string): string {
    "抱歉，分析视频时出现错误：" + error
  }

  /** The assistant turn `call_video_api` records: the mock text, the
      extracted reply (possibly empty) or the error text. */
  function RecordedVideoReply(userMessage: string, hasClient: bool, outcome: AnalysisOutcome): string {
    if !hasClient then MockVideoReply(userMessage)
    else
      match outcome
      case Responds(output) => ReplyText(output)
      case AnalysisRaises(e) => VideoErrorReply(e)
  }

  /** What `call_video_api` returns: what it records, except that an empty
      reply is replaced by the fallback text (which is not recorded). */
  function VideoReply(userMessage: string, hasClient: bool, outcome: AnalysisOutcome): (r: string)
    ensures r != ""
    ensures r == RecordedVideoReply(userMessage, hasClient, outcome)
      || (RecordedVideoReply(userMessage, hasClient, outcome) == "" && r == NoReplyFallback)
  {
    var recorded := RecordedVideoReply(userMessage, hasClient, outcome);
    if hasClient && outcome.Responds? && recorded == "" then NoReplyFallback
    else
      assert recorded != "" by {
        if !hasClient { assert MockVideoReply(userMessage)[0] == '这'; }
        else if outcome.AnalysisRaises? { assert VideoErrorReply(outcome.error)[0] == '抱'; }
      }
      recorded
  }

  /** The table after `clear_history`: an existing session emptied, an
      absent one not created. */
  function Cleared(t: Table, sessionId: string): Table {
    if sessionId in t then t[sessionId := []] else t
  }

  /** Clearing is idempotent, never adds a session, and leaves the others. */
  lemma ClearedEffect(t: Table, sessionId: string)
    ensures Cleared(Cleared(t, sessionId), sessionId) == Cleared(t, sessionId)
    ensures Cleared(t, sessionId).Keys == t.Keys
    ensures Turns(Cleared(t, sessionId), sessionId) == []
    ensures forall s :: s != sessionId ==> Turns(Cleared(t, sessionId), s) == Turns(t, s)
  {
  }

  /** A second update of the same key overrides the first. */
  lemma UpdateTwice(t: Table, k: string, a: seq<Turn>, b: seq<Turn>)
    ensures t[k := a][k := b] == t[k := b]
  {
  }

  class Backend {
    /** `ARK_CLIENT` is set (an API key was configured at start-up). */
    const hasClient: bool
    /** `conversation_history` */
    var history: Table

    constructor (hasClient: bool)
      ensures this.hasClient == hasClient && history == map[]
    {
      this.hasClient := hasClient;
      history := map[];
    }

    /** `call_text_api(user_message, session_id)`, with the model's answer as
        a parameter. Returns the reply and, when the model was called, the
        turns it was sent: the newest twenty, ending with this message. */
    method CallTextApi(userMessage: string, sessionId: string, outcome: ChatOutcome) returns (reply: string, sent: seq<Turn>)
      modifies this`history
      ensures history == AfterChat(old(history), sessionId, userMessage, hasClient, outcome)
      ensures !hasClient ==> reply == MockChatReply(userMessage) && sent == []
      ensures hasClient ==> sent == Window(Turns(old(history), sessionId) + [Turn(User, userMessage)])
      ensures hasClient && outcome.Completes? ==> reply == outcome.content
      ensures hasClient && outcome.ChatRaises? ==> reply == ChatErrorReply(outcome.error)
      ensures reply == ChatReply(userMessage, hasClient, outcome)
    {
      if !hasClient {
        return MockChatReply(userMessage), [];
      }
      AppendTurn(sessionId, Turn(User, userMessage));
      ghost var asked := history;
      sent := Window(history[sessionId]);
      match outcome {
        case ChatRaises(e) =>
          reply := ChatErrorReply(e);
        case Completes(assistantMessage) =>
          AppendTurn(sessionId, Turn(Assistant, assistantMessage));
          reply := assistantMessage;
          UpdateTwice(old(history), sessionId, asked[sessionId], history[sessionId]);
      }
    }

    /** The `if session_id not in conversation_history` guard followed by an
        `append` to the session's list. */
    method AppendTurn(sessionId: string, turn: Turn)
      modifies this`history
      ensures history == old(history)[sessionId := Turns(old(history), sessionId) + [turn]]
    {
      if sessionId !in history {
        history := history[sessionId := []];
      }
      history := history[sessionId := history[sessionId] + [turn]];
    }

    /** `_record_video_conversation(session_id, user_message, assistant_message)` */
    method RecordVideoConversation(sessionId: string, userMessage: string, assistantMessage: string)
      modifies this`history
      ensures history == AfterVideoRecord(old(history), sessionId, userMessage, assistantMessage)
    {
      if sessionId !in history {
        history := history[sessionId := []];
      }
      var userContent := VideoMarker;
      if userMessage != "" {
        userContent := userContent + " " + userMessage;
      } else {
        userContent := userContent + DefaultVideoRequest;
      }
      assert userContent == VideoUserContent(userMessage);
      history := history[sessionId := history[sessionId] + [Turn(User, userContent)]];
      history := history[sessionId := history[sessionId] + [Turn(Assistant, assistantMessage)]];
      assert history[sessionId] == Turns(old(history), sessionId) + [Turn(User, userContent), Turn(Assistant, assistantMessage)];
    }

    /** `call_video_api(video_path, user_message, session_id)`, with the
        analysis as a parameter. Each of its three paths records the
        conversation exactly once. */
    method CallVideoApi(userMessage: string, sessionId: string, outcome: AnalysisOutcome) returns (reply: string)
      modifies this`history
      ensures history == AfterVideoRecord(old(history), sessionId, userMessage,
                                          RecordedVideoReply(userMessage, hasClient, outcome))
      ensures reply == VideoReply(userMessage, hasClient, outcome)
    {
      if !hasClient {
        var mockResponse := MockVideoReply(userMessage);
        RecordVideoConversation(sessionId, userMessage, mockResponse);
        return mockResponse;
      }
      match outcome {
        case AnalysisRaises(e) =>
          var errorMessage := VideoErrorReply(e);
          RecordVideoConversation(sessionId, userMessage, errorMessage);
          reply := errorMessage;
        case Responds(output) =>
          var assistantMessage := ExtractReply(output);
          RecordVideoConversation(sessionId, userMessage, assistantMessage);
          reply := if assistantMessage != "" then assistantMessage else NoReplyFallback;
      }
    }

    /** `clear_history` for a session id. */
    method ClearHistory(sessionId: string)
      modifies this`history
      ensures history == Cleared(old(history), sessionId)
    {
      if sessionId in history {
        history := history[sessionId := []];
      }
    }

    /** `get_history` for a session id: the session's turns, or none. */
    function GetHistory(sessionId: string): (h: seq<Turn>)
      reads this
      ensures sessionId !in history ==> h == []
      ensures sessionId in history ==> h == history[sessionId]
    {
      Turns(history, sessionId)
    }
  }

  /** A video upload grows its session by exactly two turns whichever path
      `call_video_api` takes. */
  method VideoCallGrowsByTwo(b: Backend, userMessage: string, sessionId: string, outcome: AnalysisOutcome)
    modifies b
    ensures |b.GetHistory(sessionId)| == |Turns(old(b.history), sessionId)| + 2
  {
    var reply := b.CallVideoApi(userMessage, sessionId, outcome);
    AfterVideoRecordEffect(old(b.history), sessionId, userMessage, RecordedVideoReply(userMessage, b.hasClient, outcome));
  }
}
