/** The Flask routes of the backend: the upload checks and naming of
    `upload_video`, and the four handlers over the conversation table. A
    request's form fields or JSON body are a map from field name to text,
    the uploaded parts a map from part name to the file name the browser
    sent, and whatever the clock, the file system or the model returns is
    a parameter. */
module Routes {
  import opened Wrappers
  import opened JsText
  import opened PyText
  import Format
  import Conversation

  /** `ALLOWED_VIDEO_EXTENSIONS` */
  const AllowedExtensions: set<string> := {"mp4", "avi", "mov", "mkv", "webm"}

  /** `allowed_file(filename)`: there is a dot and the text after the last
      one, lower-cased, is an allowed extension. */
  predicate AllowedFile(filename: string) {
    '.' in filename && AllowedExtension(AfterLastDot(filename))
  }

  /** `ext.lower() in ALLOWED_VIDEO_EXTENSIONS` */
  predicate AllowedExtension(ext: string) {
    Lower(ext) in AllowedExtensions
  }

  /** Position `k` holds the last dot of `s`. */
  predicate IsLastDot(s: string, k: int) {
    0 <= k < |s| && s[k] == '.' && forall j :: k < j < |s| ==> s[j] != '.'
  }

  /** There is only one last dot, and `LastDot` finds it. */
  lemma LastDotUnique(s: string, k: int)
    requires IsLastDot(s, k)
    ensures '.' in s && LastDot(s) == k
  {
    assert s[k] == '.';
    var m := LastDot(s);
    assert !(m < k) && !(k < m);
  }

  /** An allowed name has its extension after its last dot. */
  lemma AllowedFileLastDot(filename: string)
    requires AllowedFile(filename)
    ensures IsLastDot(filename, LastDot(filename))
    ensures AllowedExtension(filename[LastDot(filename) + 1..])
  {
    var k, ext := LastDot(filename), AfterLastDot(filename);
    assert ext == filename[k + 1..];
    assert AllowedExtension(ext);
  }

  /** An allowed extension after the last dot makes the name allowed. */
  lemma LastDotAllowsFile(filename: string, k: int)
    requires IsLastDot(filename, k) && AllowedExtension(filename[k + 1..])
    ensures AllowedFile(filename)
  {
    LastDotUnique(filename, k);
    assert AfterLastDot(filename) == filename[k + 1..];
  }

  /** The same check said without `rsplit`: some dot is followed only by
      dot-free text whose lower-case form is an allowed extension. */
  lemma AllowedFileIff(filename: string)
    ensures AllowedFile(filename) <==>
      exists k :: IsLastDot(filename, k) && AllowedExtension(filename[k + 1..])
  {
    if AllowedFile(filename) {
      AllowedFileLastDot(filename);
    }
    if exists k :: IsLastDot(filename, k) && AllowedExtension(filename[k + 1..]) {
      var k :| IsLastDot(filename, k) && AllowedExtension(filename[k + 1..]);
      LastDotAllowsFile(filename, k);
    }
  }

  /** The cases `allowed_file` is known for: the extension's case does not
      matter, only the last dot counts, an empty extension or a missing dot
      is refused, and Python lower-cases KELVIN SIGN to `k`. */
  lemma AcceptedExamples()
    ensures AllowedFile("a.MP4")
    ensures AllowedFile("clip.M\U{212A}V")
  {
    assert AfterLastDot("a.MP4") == "MP4";
    assert Lower("MP4") == "mp4";
    assert AfterLastDot("clip.M\U{212A}V") == "M\U{212A}V";
    assert Lower("M\U{212A}V") == "mkv";
  }

  lemma RefusedExamples()
    ensures !AllowedFile("a.mp4.exe")
    ensures !AllowedFile("a.")
    ensures !AllowedFile("mp4")
    ensures !AllowedFile("")
  {
    assert AfterLastDot("a.mp4.exe") == "exe";
    assert Lower("exe") == "exe";
    assert AfterLastDot("a.") == "";
    assert "mp4"[0] != '.' && "mp4"[1] != '.' && "mp4"[2] != '.';
  }

  /** The outcome of `upload_video`'s three checks, in the order it makes
      them. */
  datatype Verdict = MissingVideo | EmptyFilename | UnsupportedType | Accepted(filename: string)

  /** `upload_video`'s checks on the uploaded parts. */
  function CheckUpload(files: map<string, string>): (v: Verdict)
    ensures v == MissingVideo <==> "video" !in files
    ensures v == EmptyFilename <==> "video" in files && files["video"] == ""
    ensures v == UnsupportedType <==> "video" in files && files["video"] != "" && !AllowedFile(files["video"])
    ensures v.Accepted? <==> "video" in files && AllowedFile(files["video"])
    ensures v.Accepted? ==> v.filename == files["video"]
  {
    if "video" !in files then MissingVideo
    else if files["video"] == "" then EmptyFilename
    else if !AllowedFile(files["video"]) then UnsupportedType
    else Accepted(files["video"])
  }

  /** `needle` occurs in `hay` starting at position `p`. */
  predicate OccursAt(hay: string, needle: string, p: nat) {
    p + |needle| <= |hay| && hay[p..p + |needle|] == needle
  }

  /** `sep.join(items)` contains each of the items. */
  lemma {:induction false} JoinContains(items: seq<string>, sep: string, i: nat)
    requires i < |items|
    ensures exists p: nat :: OccursAt(Join(items, sep), items[i], p)
  {
    if i == 0 {
      assert Join(items, sep)[0..|items[0]|] == items[0];
      assert OccursAt(Join(items, sep), items[0], 0);
    } else {
      JoinContains(items[1..], sep, i - 1);
      var rest := Join(items[1..], sep);
      var p: nat :| OccursAt(rest, items[1..][i - 1], p);
      var q := |items[0] + sep| + p;
      assert Join(items, sep) == (items[0] + sep) + rest;
      assert Join(items, sep)[q..q + |items[i]|] == rest[p..p + |items[i]|];
      assert OccursAt(Join(items, sep), items[i], q);
    }
  }

  const UnsupportedPrefix := "不支持的文件格式。支持的格式: "

  /** The error text of a refused upload. `listing` is the order in which
      the set of extensions is iterated, which the language leaves open. */
  function RefusalText(v: Verdict, listing: seq<string>): (e: string)
    requires !v.Accepted?
    ensures v == UnsupportedType ==> |e| >= |UnsupportedPrefix| && e[..|UnsupportedPrefix|] == UnsupportedPrefix
  {
    match v
    case MissingVideo => "没有找到视频文件"
    case EmptyFilename => "文件名为空"
    case UnsupportedType => UnsupportedPrefix + Join(listing, ", ")
  }

  /** An occurrence survives putting a prefix in front. */
  lemma OccursAfterPrefix(prefix: string, hay: string, needle: string, p: nat)
    requires OccursAt(hay, needle, p)
    ensures OccursAt(prefix + hay, needle, |prefix| + p)
  {
    assert (prefix + hay)[|prefix| + p..|prefix| + p + |needle|] == hay[p..p + |needle|];
  }

  /** The unsupported-type message names every allowed extension. */
  lemma RefusalNamesEveryExtension(listing: seq<string>, ext: string)
    requires forall x :: x in listing <==> x in AllowedExtensions
    requires ext in AllowedExtensions
    ensures exists p: nat :: p >= |UnsupportedPrefix| && OccursAt(RefusalText(UnsupportedType, listing), ext, p)
  {
    assert ext in listing;
    var i :| 0 <= i < |listing| && listing[i] == ext;
    JoinContains(listing, ", ", i);
    var joined := Join(listing, ", ");
    var p: nat :| OccursAt(joined, ext, p);
    OccursAfterPrefix(UnsupportedPrefix, joined, ext, p);
    assert RefusalText(UnsupportedType, listing) == UnsupportedPrefix + joined;
  }

  /** A local date and time, as `strftime` reads it. */
  datatype DateTime = DateTime(year: nat, month: nat, day: nat, hour: nat, minute: nat, second: nat)

  predicate ValidDateTime(t: DateTime) {
    1000 <= t.year <= 9999 && 1 <= t.month <= 12 && 1 <= t.day <= 31
      && t.hour < 24 && t.minute < 60 && t.second < 62
  }

  /** Equal texts that start with pieces of the same length start with the
      same piece and go on alike. */
  lemma PrefixCancel(x: string, y: string, u: string, v: string)
    requires |x| == |y| && x + u == y + v
    ensures x == y && u == v
  {
    assert x == (x + u)[..|x|] && y == (y + v)[..|y|];
    assert u == (x + u)[|x|..] && v == (y + v)[|y|..];
  }

  /** One `strftime` field below 100, zero-padded to two digits. Written
      out digit by digit rather than through `Format.TwoDigits` (the
      widget's `toString().padStart(2, '0')`) so that the timestamp proofs
      need not unfold the decimal printer; `FieldIsTwoDigits` shows the two
      agree. */
  function Field(n: nat): (r: string)
    requires n < 100
    ensures |r| == 2 && IsDigits(r)
  {
    [DigitChar(n / 10), DigitChar(n % 10)]
  }

  /** The two digits read back as the number. */
  lemma FieldValue(n: nat)
    requires n < 100
    ensures DecimalValue(Field(n)) == n
  {
    var r := Field(n);
    DigitRoundTrip(n / 10);
    DigitRoundTrip(n % 10);
    assert r[..1][..0] == [] && r[..1] == [r[0]];
  }

  lemma FieldIsTwoDigits(n: nat)
    requires n < 100
    ensures Field(n) == Format.TwoDigits(n)
  {
    if n < 10 {
      assert ToDecimal(n) == [DigitChar(n)];
      assert n / 10 == 0 && n % 10 == n;
    } else {
      assert ToDecimal(n / 10) == [DigitChar(n / 10)];
    }
  }

  /** A field at the front of a text can be read back. */
  lemma FieldCancel(m: nat, n: nat, u: string, v: string)
    requires m < 100 && n < 100 && Field(m) + u == Field(n) + v
    ensures m == n && u == v
  {
    PrefixCancel(Field(m), Field(n), u, v);
    FieldValue(m);
    FieldValue(n);
  }

  /** `strftime('%H%M%S')` */
  function Clock(t: DateTime): (r: string)
    requires ValidDateTime(t)
    ensures |r| == 6 && IsDigits(r)
  {
    Field(t.hour) + (Field(t.minute) + Field(t.second))
  }

  /** `strftime('%Y%m%d_%H%M%S')`: the four-digit year (as its two halves),
      month, day, an underscore and the clock, each field zero-padded to two
      digits. */
  function Stamp(t: DateTime): (r: string)
    requires ValidDateTime(t)
    ensures |r| == 15 && r[8] == '_'
    ensures IsDigits(r[..8]) && IsDigits(r[9..])
  {
    assert t.year / 100 < 100;
    var date := Field(t.year / 100) + (Field(t.year % 100) + (Field(t.month) + Field(t.day)));
    assert IsDigits(date);
    Around(date, Clock(t));
    date + ("_" + Clock(t))
  }

  lemma Around(x: string, y: string)
    ensures (x + ("_" + y))[..|x|] == x && (x + ("_" + y))[|x|] == '_' && (x + ("_" + y))[|x| + 1..] == y
  {
  }

  lemma YearHalves(y: int)
    ensures y == 100 * (y / 100) + y % 100
  {
  }

  /** Different times give different stamps. */
  lemma StampInjective(a: DateTime, b: DateTime)
    requires ValidDateTime(a) && ValidDateTime(b)
    requires Stamp(a) == Stamp(b)
    ensures a == b
  {
    assert a.year / 100 < 100 && b.year / 100 < 100;
    var ca, cb := "_" + Clock(a), "_" + Clock(b);
    var da, db := Field(a.day), Field(b.day);
    var ma, mb := Field(a.month) + da, Field(b.month) + db;
    var ya, yb := Field(a.year % 100) + ma, Field(b.year % 100) + mb;
    PrefixCancel(Field(a.year / 100) + ya, Field(b.year / 100) + yb, ca, cb);
    FieldCancel(a.year / 100, b.year / 100, ya, yb);
    FieldCancel(a.year % 100, b.year % 100, ma, mb);
    FieldCancel(a.month, b.month, da, db);
    FieldCancel(a.day, b.day, [], []);
    PrefixCancel("_", "_", Clock(a), Clock(b));
    FieldCancel(a.hour, b.hour, Field(a.minute) + Field(a.second), Field(b.minute) + Field(b.second));
    FieldCancel(a.minute, b.minute, Field(a.second), Field(b.second));
    FieldCancel(a.second, b.second, [], []);
    YearHalves(a.year);
    YearHalves(b.year);
  }

  /** `f"{timestamp}_{filename}"` */
  function UniqueName(stamp: string, filename: string): (u: string)
    ensures |u| == |stamp| + 1 + |filename|
    ensures u[..|stamp|] == stamp && u[|stamp|] == '_' && u[|stamp| + 1..] == filename
  {
    stamp + "_" + filename
  }

  /** Saved names are distinct for distinct (time, name) pairs; two uploads
      of the same sanitized name within the same second get the same name. */
  lemma UniqueNameInjective(a: DateTime, b: DateTime, na: string, nb: string)
    requires ValidDateTime(a) && ValidDateTime(b)
    requires UniqueName(Stamp(a), na) == UniqueName(Stamp(b), nb)
    ensures a == b && na == nb
  {
    var u := UniqueName(Stamp(a), na);
    assert Stamp(a) == u[..15] == Stamp(b);
    StampInjective(a, b);
  }

  /** `d.get(key, default)` */
  function Get(fields: map<string, string>, key: string, default: string): (v: string)
    ensures key in fields ==> v == fields[key]
    ensures key !in fields ==> v == default
  {
    if key in fields then fields[key] else default
  }

  /** The JSON bodies the handlers answer with. */
  datatype Body =
    | Failure(error: string)
    | ChatAnswer(response: string)
    | UploadAnswer(response: string, filename: string, filesize: nat)
    | ClearAnswer(message: string)
    | HistoryAnswer(sessionId: string, history: seq<Conversation.Turn>, count: nat)

  const ClearedText := "对话历史已清除"

  /** `chat()`: the message and session come from the body, with defaults. */
  method Chat(b: Conversation.Backend, data: map<string, string>, outcome: Conversation.ChatOutcome)
    returns (status: nat, body: Body)
    modifies b`history
    ensures status == 200
    ensures var message, sessionId := Get(data, "message", ""), Get(data, "session_id", "default");
      && b.history == Conversation.AfterChat(old(b.history), sessionId, message, b.hasClient, outcome)
      && body == ChatAnswer(Conversation.ChatReply(message, b.hasClient, outcome))
    ensures body.ChatAnswer?
    ensures body.response == "" ==> b.hasClient && outcome.Completes? && outcome.content == ""
  {
    var userMessage := Get(data, "message", "");
    var sessionId := Get(data, "session_id", "default");
    var aiResponse, _ := b.CallTextApi(userMessage, sessionId, outcome);
    status, body := 200, ChatAnswer(aiResponse);
  }

  /** `upload_video()`. `files` maps part names to the uploaded file names,
      `secure` is `secure_filename`, `now` the time the file is saved,
      `savedSize` the size the saved file has, and `outcome` how the video
      analysis goes. A refused upload answers 400 and touches nothing; an
      accepted one is saved under its unique name, analysed and recorded. */
  method UploadVideo(b: Conversation.Backend, files: map<string, string>, form: map<string, string>,
                     secure: string -> string, now: DateTime, savedSize: nat,
                     outcome: Conversation.AnalysisOutcome, listing: seq<string>)
    returns (status: nat, body: Body)
    requires ValidDateTime(now)
    requires |listing| == |AllowedExtensions| && forall x :: x in listing <==> x in AllowedExtensions
    modifies b`history
    ensures var v := CheckUpload(files);
      !v.Accepted? ==> status == 400 && body == Failure(RefusalText(v, listing)) && b.history == old(b.history)
    ensures CheckUpload(files) == UnsupportedType ==> forall ext :: ext in AllowedExtensions ==>
      exists p: nat :: p >= |UnsupportedPrefix| && OccursAt(body.error, ext, p)
    ensures var v := CheckUpload(files);
      var message, sessionId := Get(form, "message", ""), Get(form, "session_id", "default");
      v.Accepted? ==>
        && status == 200
        && body == UploadAnswer(Conversation.VideoReply(message, b.hasClient, outcome),
                                UniqueName(Stamp(now), secure(v.filename)), savedSize)
        && b.history == Conversation.AfterVideoRecord(old(b.history), sessionId, message,
                          Conversation.RecordedVideoReply(message, b.hasClient, outcome))
  {
    if "video" !in files {
      return 400, Failure("没有找到视频文件");
    }
    var name := files["video"];
    var message := Get(form, "message", "");
    var sessionId := Get(form, "session_id", "default");
    if name == "" {
      return 400, Failure("文件名为空");
    }
    if !AllowedFile(name) {
      status, body := 400, Failure(UnsupportedPrefix + Join(listing, ", "));
      forall ext | ext in AllowedExtensions
        ensures exists p: nat :: p >= |UnsupportedPrefix| && OccursAt(body.error, ext, p)
      {
        RefusalNamesEveryExtension(listing, ext);
      }
      return;
    }
    var filename := secure(name);
    var uniqueFilename := UniqueName(Stamp(now), filename);
    var aiResponse := b.CallVideoApi(message, sessionId, outcome);
    status, body := 200, UploadAnswer(aiResponse, uniqueFilename, savedSize);
  }

  /** `clear_history()` */
  method ClearHistoryRoute(b: Conversation.Backend, data: map<string, string>) returns (status: nat, body: Body)
    modifies b`history
    ensures status == 200 && body == ClearAnswer(ClearedText)
    ensures b.history == Conversation.Cleared(old(b.history), Get(data, "session_id", "default"))
  {
    b.ClearHistory(Get(data, "session_id", "default"));
    status, body := 200, ClearAnswer(ClearedText);
  }

  /** `get_history()`: the session's turns, with their count. */
  method GetHistoryRoute(b: Conversation.Backend, data: map<string, string>) returns (status: nat, body: Body)
    ensures status == 200 && body.HistoryAnswer?
    ensures body.sessionId == Get(data, "session_id", "default")
    ensures body.history == Conversation.Turns(b.history, body.sessionId)
    ensures body.count == |body.history|
    ensures body.sessionId !in b.history ==> body.history == [] && body.count == 0
  {
    var sessionId := Get(data, "session_id", "default");
    var history := b.GetHistory(sessionId);
    status, body := 200, HistoryAnswer(sessionId, history, |history|);
  }

  /** Clearing a session and then reading it shows an empty history. */
  method ClearThenRead(b: Conversation.Backend, sessionId: string) returns (count: nat)
    modifies b`history
    ensures count == 0
  {
    var data := map["session_id" := sessionId];
    var _, _ := ClearHistoryRoute(b, data);
    var _, body := GetHistoryRoute(b, data);
    count := body.count;
  }
}
