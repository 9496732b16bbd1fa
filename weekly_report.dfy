/** The text the weekly-report window hands to the report service: one line
    "sender: content" per text message, in order, joined by newlines, or a
    fixed notice when no text message was found. */
module WeeklyReport {
  import opened Wrappers
  import opened Lists

  /** The message type the chat database gives plain text messages. */
  const TextMessageType := 1
  /** The sender shown when a message carries no display name. */
  const UnknownSender := "未知用户"
  /** The only line of a report without any text message. */
  const NoTextMessages := "没有找到可用的文本消息"

  /** A message as the report sees it: each attribute may be missing. */
  datatype Message = Message(msgType: Option<int>, displayName: Option<string>, content: Option<string>)

  predicate IsText(m: Message) {
    m.msgType == Some(TextMessageType)
  }

  function Sender(m: Message): string {
    m.displayName.GetOr(UnknownSender)
  }

  function Body(m: Message): string {
    m.content.GetOr("")
  }

  /** `f"{sender_name}: {content}"`. */
  function ReportLine(m: Message): string {
    Sender(m) + ": " + Body(m)
  }

  /** The lines of the text messages, in the order of the messages. */
  function ReportLines(ms: seq<Message>): seq<string> {
    Map(Filter(ms, (m: Message) => IsText(m)), (m: Message) => ReportLine(m))
  }

  /** `"\n".join(lines)`. */
  function JoinLines(lines: seq<string>): (r: string)
    ensures lines != [] ==> |lines[0]| <= |r| && r[..|lines[0]|] == lines[0]
  {
    if lines == [] then ""
    else if |lines| == 1 then lines[0]
    else lines[0] + "\n" + JoinLines(lines[1..])
  }

  /** `s.split("\n")`: the pieces between newlines, at least one. */
  function SplitLines(s: string): (r: seq<string>)
    ensures |r| >= 1
    ensures forall k :: 0 <= k < |r| ==> '\n' !in r[k]
    decreases |s|
  {
    if '\n' !in s then [s]
    else
      var i := IndexOf(s, '\n');
      assert '\n' !in s[..i] by {
        forall j | 0 <= j < i ensures s[..i][j] != '\n' { }
      }
      [s[..i]] + SplitLines(s[i + 1..])
  }

  /** The report text for a list of messages. */
  function ReportText(ms: seq<Message>): string {
    var lines := ReportLines(ms);
    JoinLines(if lines == [] then [NoTextMessages] else lines)
  }

  /** `format_messages_for_report`. */
  method FormatMessagesForReport(messages: seq<Message>) returns (text: string)
    ensures text == ReportText(messages)
  {
    var lines: seq<string> := [];
    var i := 0;
    while i < |messages|
      invariant i <= |messages|
      invariant lines == ReportLines(messages[..i])
    {
      var m := messages[i];
      ReportLinesSnoc(messages[..i], m);
      assert messages[..i + 1] == messages[..i] + [m];
      if m.msgType == Some(1) {
        lines := lines + [Sender(m) + ": " + Body(m)];
      }
      i := i + 1;
    }
    assert messages[..i] == messages;
    if lines == [] {
      lines := [NoTextMessages];
    }
    text := JoinLines(lines);
  }

  // -----------------------------------------------------------------------
  // Lines

  /** Each message adds its line at the end when it is a text message and
      nothing otherwise. */
  lemma ReportLinesSnoc(ms: seq<Message>, m: Message)
    ensures ReportLines(ms + [m]) == ReportLines(ms) + (if IsText(m) then [ReportLine(m)] else [])
  {
    var p := (x: Message) => IsText(x);
    FilterAppend(ms, [m], p);
    assert Filter([m], p) == (if IsText(m) then [m] else []) + Filter([m][1..], p);
    MapAppend(Filter(ms, p), Filter([m], p), (x: Message) => ReportLine(x));
  }

  /** The lines of two runs of messages follow each other. */
  lemma ReportLinesAppend(a: seq<Message>, b: seq<Message>)
    ensures ReportLines(a + b) == ReportLines(a) + ReportLines(b)
  {
    var p := (x: Message) => IsText(x);
    FilterAppend(a, b, p);
    MapAppend(Filter(a, p), Filter(b, p), (x: Message) => ReportLine(x));
  }

  /** Every line is the line of a text message of the list, and there is a
      line for each text message. */
  lemma ReportLinesFromTextMessages(ms: seq<Message>)
    ensures forall line :: line in ReportLines(ms) ==> exists m :: m in ms && IsText(m) && line == ReportLine(m)
    ensures forall m :: m in ms && IsText(m) ==> ReportLine(m) in ReportLines(ms)
  {
    forall line | line in ReportLines(ms)
      ensures exists m :: m in ms && IsText(m) && line == ReportLine(m)
    {
      LineFromTextMessage(ms, line);
    }
    forall m | m in ms && IsText(m) ensures ReportLine(m) in ReportLines(ms) {
      TextMessageHasLine(ms, m);
    }
  }

  lemma LineFromTextMessage(ms: seq<Message>, line: string)
    requires line in ReportLines(ms)
    ensures exists m :: m in ms && IsText(m) && line == ReportLine(m)
  {
    var p := (x: Message) => IsText(x);
    FilterSpec(ms, p);
    var f := Filter(ms, p);
    var j :| 0 <= j < |f| && ReportLines(ms)[j] == line;
    MapAt(f, (x: Message) => ReportLine(x), j);
    assert f[j] in f;
  }

  lemma TextMessageHasLine(ms: seq<Message>, m: Message)
    requires m in ms && IsText(m)
    ensures ReportLine(m) in ReportLines(ms)
  {
    var p := (x: Message) => IsText(x);
    FilterCount(ms, p, m);
    var f := Filter(ms, p);
    assert multiset(f)[m] == multiset(ms)[m];
    assert m in f;
    var j :| 0 <= j < |f| && f[j] == m;
    MapAt(f, (x: Message) => ReportLine(x), j);
  }

  /** A report has no line exactly when no message is a text message. */
  lemma ReportLinesEmpty(ms: seq<Message>)
    ensures ReportLines(ms) == [] <==> forall m :: m in ms ==> !IsText(m)
  {
    ReportLinesFromTextMessages(ms);
    if ReportLines(ms) != [] {
      assert ReportLines(ms)[0] in ReportLines(ms);
    }
  }

  // -----------------------------------------------------------------------
  // Joining and splitting

  /** Splitting a joined text gives back the lines when none of them holds
      a newline. */
  lemma {:induction false} SplitJoin(lines: seq<string>)
    requires |lines| >= 1
    requires forall k :: 0 <= k < |lines| ==> '\n' !in lines[k]
    ensures SplitLines(JoinLines(lines)) == lines
  {
    if |lines| > 1 {
      var rest := JoinLines(lines[1..]);
      assert JoinLines(lines) == lines[0] + "\n" + rest;
      SplitAtNewline(lines[0], rest);
      SplitJoin(lines[1..]);
      assert lines == [lines[0]] + lines[1..];
    }
  }

  /** A text split at its first newline: the piece before it, then the
      pieces of the rest. */
  lemma SplitAtNewline(first: string, rest: string)
    requires '\n' !in first
    ensures SplitLines(first + "\n" + rest) == [first] + SplitLines(rest)
  {
    var s := first + "\n" + rest;
    assert s[|first|] == '\n';
    forall j | 0 <= j < |first| ensures s[j] != '\n' {
      assert s[j] == first[j];
    }
    IndexOfAt(s, '\n', |first|);
    assert s[..|first|] == first;
    assert s[|first| + 1..] == rest;
  }

  /** Joining the pieces of a split gives back the text. */
  lemma {:induction false} JoinSplit(s: string)
    ensures JoinLines(SplitLines(s)) == s
    decreases |s|
  {
    if '\n' in s {
      var i := IndexOf(s, '\n');
      var rest := SplitLines(s[i + 1..]);
      assert SplitLines(s) == [s[..i]] + rest;
      JoinSplit(s[i + 1..]);
      assert ([s[..i]] + rest)[1..] == rest;
      assert s == s[..i] + "\n" + s[i + 1..];
    }
  }

  // -----------------------------------------------------------------------
  // The report text

  /** The report is the notice alone exactly when no message is a text
      message: every other report starts with a line holding ": ". */
  lemma ReportTextNotice(ms: seq<Message>)
    ensures ReportText(ms) == NoTextMessages <==> forall m :: m in ms ==> !IsText(m)
  {
    ReportLinesEmpty(ms);
    var lines := ReportLines(ms);
    if lines != [] {
      var first := lines[0];
      var t := ReportText(ms);
      assert lines[0] == ReportLine(Filter(ms, (m: Message) => IsText(m))[0]);
      var m0 := Filter(ms, (m: Message) => IsText(m))[0];
      assert first[|Sender(m0)|] == ':';
      assert t[|Sender(m0)|] == ':';
      assert ':' !in NoTextMessages;
    }
  }

  /** The report holds one line per text message, in order, when no sender
      or content holds a newline. */
  lemma ReportTextLines(ms: seq<Message>)
    requires exists m :: m in ms && IsText(m)
    requires forall m :: m in ms && IsText(m) ==> '\n' !in Sender(m) && '\n' !in Body(m)
    ensures SplitLines(ReportText(ms)) == ReportLines(ms)
  {
    ReportLinesEmpty(ms);
    ReportLinesFromTextMessages(ms);
    var lines := ReportLines(ms);
    forall k | 0 <= k < |lines| ensures '\n' !in lines[k] {
      assert lines[k] in lines;
      var m :| m in ms && IsText(m) && lines[k] == ReportLine(m);
      assert '\n' !in ": ";
    }
    SplitJoin(lines);
  }
}
