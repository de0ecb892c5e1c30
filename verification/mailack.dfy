/** `xymond/xymon-mailack.c`: the filter that turns a reply to an alert
    mail into a `xymondack` message. It reads the mail line by line in two
    phases: headers until the first empty line, then the body. From the
    headers it keeps the last `Return-Path:`, `From:` and `Subject:` values;
    from the body the last `delay` and `ack` lines and the first other
    non-empty line. The three regular expressions run on the subject, and
    `durationvalue`, are not part of this model: they are parameters
    (`Matchers`). The lines are taken as `sanitize_input` leaves them. */
module MailAck {

  import opened Text
  import opened Py

  // ---- The line scanner ----

  /** `skipwhitespace`: drops leading C whitespace. */
  function SkipSpace(s: string): (r: string)
    ensures |r| <= |s| && r == s[|s| - |r|..]
    ensures |r| > 0 ==> !IsCSpace(r[0])
    ensures forall i :: 0 <= i < |s| - |r| ==> IsCSpace(s[i])
  {
    if |s| > 0 && IsCSpace(s[0]) then SkipSpace(s[1..]) else s
  }

  /** What the loop has gathered so far. `None` is a null pointer. */
  datatype Scan = Scan(inHeaders: bool, subject: Option<string>, returnPath: Option<string>,
                       from: Option<string>, firstText: Option<string>, duration: int)

  const Start: Scan := Scan(true, None, None, None, None, 0)

  predicate IsDelayLine(line: string) {
    HasPrefixIgnoringCase(line, "delay=") || HasPrefixIgnoringCase(line, "delay ")
  }

  predicate IsAckLine(line: string) {
    HasPrefixIgnoringCase(line, "ack=") || HasPrefixIgnoringCase(line, "ack ")
  }

  /** The subject an `ack` body line stands in for. */
  function AckSubject(line: string): string
    requires |line| >= 4
  {
    "Subject: Xymon [" + line[4..] + "]"
  }

  /** The value a header line carries after its name. */
  function HeaderValue(line: string, name: string): string
    requires |name| <= |line|
  {
    SkipSpace(line[|name|..])
  }

  /** One body line. */
  function BodyStep(st: Scan, line: string, durationValue: string -> int): (r: Scan)
    ensures r.inHeaders == st.inHeaders && r.returnPath == st.returnPath && r.from == st.from
  {
    if IsDelayLine(line) then st.(duration := durationValue(line[6..]))
    else if IsAckLine(line) then st.(subject := Some(AckSubject(line)))
    else if |line| > 0 && st.firstText.None? then st.(firstText := Some(line))
    else st
  }

  /** One non-empty header line. */
  function HeaderStep(st: Scan, line: string): (r: Scan)
    ensures r.inHeaders == st.inHeaders && r.firstText == st.firstText && r.duration == st.duration
  {
    if HasPrefixIgnoringCase(line, "return-path:") then st.(returnPath := Some(HeaderValue(line, "return-path:")))
    else if HasPrefixIgnoringCase(line, "from:") then st.(from := Some(HeaderValue(line, "from:")))
    else if HasPrefixIgnoringCase(line, "subject:") then st.(subject := Some(HeaderValue(line, "subject:")))
    else st
  }

  /** One turn of the `while (unlimfgets(...))` loop. */
  function Step(st: Scan, line: string, durationValue: string -> int): Scan {
    if !st.inHeaders then BodyStep(st, line, durationValue)
    else if |line| == 0 then st.(inHeaders := false)
    else HeaderStep(st, line)
  }

  /** The loop over the remaining lines. */
  function ScanLines(st: Scan, lines: seq<string>, durationValue: string -> int): Scan
    decreases |lines|
  {
    if |lines| == 0 then st else ScanLines(Step(st, lines[0], durationValue), lines[1..], durationValue)
  }

  lemma {:induction false} ScanAppend(st: Scan, lines: seq<string>, line: string, durationValue: string -> int)
    ensures ScanLines(st, lines + [line], durationValue) == Step(ScanLines(st, lines, durationValue), line, durationValue)
    decreases |lines|
  {
    if |lines| == 0 {
      assert ScanLines(Step(st, line, durationValue), [], durationValue) == Step(st, line, durationValue);
    } else {
      assert (lines + [line])[1..] == lines[1..] + [line];
      ScanAppend(Step(st, lines[0], durationValue), lines[1..], line, durationValue);
    }
  }

  lemma {:induction false} ScanConcat(st: Scan, a: seq<string>, b: seq<string>, durationValue: string -> int)
    ensures ScanLines(st, a + b, durationValue) == ScanLines(ScanLines(st, a, durationValue), b, durationValue)
    decreases |a|
  {
    if |a| == 0 {
      assert a + b == b;
    } else {
      assert (a + b)[1..] == a[1..] + b;
      ScanConcat(Step(st, a[0], durationValue), a[1..], b, durationValue);
    }
  }

  // ---- What the scan means, stated without the loop ----

  /** Where the headers end: the first empty line, or the end of the mail. */
  function HeaderEnd(lines: seq<string>): (k: nat)
    ensures k <= |lines|
    ensures k < |lines| ==> |lines[k]| == 0
    ensures forall i :: 0 <= i < k ==> |lines[i]| > 0
  {
    if |lines| == 0 then 0
    else if |lines[0]| == 0 then 0
    else
      var k := HeaderEnd(lines[1..]);
      assert forall i :: 1 <= i < k + 1 ==> lines[i] == lines[1..][i - 1];
      k + 1
  }

  /** The value of the last header named `name`, if any. */
  function LastHeader(headers: seq<string>, name: string): (r: Option<string>)
    ensures r.Some? <==> exists i :: 0 <= i < |headers| && HasPrefixIgnoringCase(headers[i], name)
  {
    if |headers| == 0 then None
    else
      var last := headers[|headers| - 1];
      if HasPrefixIgnoringCase(last, name) then Some(HeaderValue(last, name))
      else
        var r := LastHeader(headers[..|headers| - 1], name);
        assert forall i :: 0 <= i < |headers| - 1 ==> headers[..|headers| - 1][i] == headers[i];
        r
  }

  /** The last body line satisfying `IsDelayLine`, if any. */
  function LastDelay(body: seq<string>): (r: Option<string>)
    ensures r.Some? ==> IsDelayLine(r.value) && r.value in body
    ensures r.None? ==> forall i :: 0 <= i < |body| ==> !IsDelayLine(body[i])
  {
    if |body| == 0 then None
    else if IsDelayLine(body[|body| - 1]) then Some(body[|body| - 1])
    else
      var r := LastDelay(body[..|body| - 1]);
      assert forall i :: 0 <= i < |body| - 1 ==> body[..|body| - 1][i] == body[i];
      r
  }

  /** The last `ack` body line, if any. */
  function LastAck(body: seq<string>): (r: Option<string>)
    ensures r.Some? ==> IsAckLine(r.value) && r.value in body
    ensures r.None? ==> forall i :: 0 <= i < |body| ==> !IsAckLine(body[i])
  {
    if |body| == 0 then None
    else if IsAckLine(body[|body| - 1]) then Some(body[|body| - 1])
    else
      var r := LastAck(body[..|body| - 1]);
      assert forall i :: 0 <= i < |body| - 1 ==> body[..|body| - 1][i] == body[i];
      r
  }

  /** A body line that can become the cause text. */
  predicate IsText(line: string) {
    |line| > 0 && !IsDelayLine(line) && !IsAckLine(line)
  }

  /** The first text line of the body, if any. */
  function FirstText(body: seq<string>): (r: Option<string>)
    ensures r.Some? ==> exists i :: (0 <= i < |body| && body[i] == r.value && IsText(body[i]) &&
      forall j :: 0 <= j < i ==> !IsText(body[j]))
    ensures r.None? ==> forall i :: 0 <= i < |body| ==> !IsText(body[i])
  {
    if |body| == 0 then None
    else if IsText(body[0]) then Some(body[0])
    else
      var r := FirstText(body[1..]);
      assert forall i :: 1 <= i < |body| ==> body[i] == body[1..][i - 1];
      if r.Some? then
        var i :| 0 <= i < |body[1..]| && body[1..][i] == r.value && IsText(body[1..][i]) &&
          forall j :: 0 <= j < i ==> !IsText(body[1..][j]);
        assert body[i + 1] == r.value && forall j :: 0 <= j < i + 1 ==> !IsText(body[j]);
        r
      else r
  }

  /** The header lines alone: each header keeps its last value. */
  lemma {:induction false} ScanHeaders(headers: seq<string>, durationValue: string -> int)
    requires forall i :: 0 <= i < |headers| ==> |headers[i]| > 0
    ensures var r := ScanLines(Start, headers, durationValue);
      r.inHeaders && r.firstText.None? && r.duration == 0 &&
      r.returnPath == LastHeader(headers, "return-path:") &&
      r.from == LastHeader(headers, "from:") &&
      r.subject == LastHeader(headers, "subject:")
    decreases |headers|
  {
    if |headers| > 0 {
      var init := headers[..|headers| - 1];
      var last := headers[|headers| - 1];
      assert headers == init + [last];
      ScanHeaders(init, durationValue);
      ScanAppend(Start, init, last, durationValue);
      var before := ScanLines(Start, init, durationValue);
      assert ScanLines(Start, headers, durationValue) == HeaderStep(before, last);
      PrefixesExclusive(last);
    }
  }

  /** No line starts with two of the recognised header names. */
  lemma PrefixesExclusive(line: string)
    ensures HasPrefixIgnoringCase(line, "return-path:") ==>
      !HasPrefixIgnoringCase(line, "from:") && !HasPrefixIgnoringCase(line, "subject:")
    ensures HasPrefixIgnoringCase(line, "from:") ==> !HasPrefixIgnoringCase(line, "subject:")
  {
    if HasPrefixIgnoringCase(line, "return-path:") {
      assert ToLower(line[0]) == 'r';
    }
    if HasPrefixIgnoringCase(line, "from:") {
      assert ToLower(line[0]) == 'f';
    }
  }

  /** The body lines after the headers: nothing but the subject, the cause
      text and the duration can change. */
  lemma {:induction false} ScanBody(st: Scan, body: seq<string>, durationValue: string -> int)
    requires !st.inHeaders
    ensures var r := ScanLines(st, body, durationValue);
      !r.inHeaders && r.returnPath == st.returnPath && r.from == st.from &&
      r.subject == (if LastAck(body).Some? then Some(AckSubject(LastAck(body).value)) else st.subject) &&
      r.duration == (if LastDelay(body).Some? then durationValue(LastDelay(body).value[6..]) else st.duration) &&
      r.firstText == (if st.firstText.Some? then st.firstText else FirstText(body))
    decreases |body|
  {
    if |body| > 0 {
      var init := body[..|body| - 1];
      var last := body[|body| - 1];
      assert body == init + [last];
      ScanBody(st, init, durationValue);
      ScanAppend(st, init, last, durationValue);
      FirstTextAppend(init, last);
      BodyLinesExclusive(last);
      assert body[..|body| - 1] == init;
    }
  }

  lemma {:induction false} FirstTextAppend(init: seq<string>, last: string)
    ensures FirstText(init + [last]) == (if FirstText(init).Some? then FirstText(init) else if IsText(last) then Some(last) else None)
    decreases |init|
  {
    if |init| == 0 {
      assert [last][1..] == [];
    } else {
      assert (init + [last])[0] == init[0];
      assert (init + [last])[1..] == init[1..] + [last];
      FirstTextAppend(init[1..], last);
    }
  }

  /** A `delay` line is never an `ack` line. */
  lemma BodyLinesExclusive(line: string)
    ensures IsDelayLine(line) ==> !IsAckLine(line)
  {
    if IsDelayLine(line) {
      assert ToLower(line[0]) == 'd';
    }
  }

  /** Non-empty lines never end the header phase. */
  lemma {:induction false} HeadersKeepPhase(st: Scan, headers: seq<string>, durationValue: string -> int)
    requires st.inHeaders
    requires forall i :: 0 <= i < |headers| ==> |headers[i]| > 0
    ensures ScanLines(st, headers, durationValue).inHeaders
    decreases |headers|
  {
    if |headers| > 0 {
      assert forall i :: 0 <= i < |headers| - 1 ==> headers[1..][i] == headers[i + 1];
      HeadersKeepPhase(Step(st, headers[0], durationValue), headers[1..], durationValue);
    }
  }

  /** The first empty line ends the header phase and is otherwise ignored. */
  lemma HeaderPhaseEnds(st: Scan, rest: seq<string>, durationValue: string -> int)
    requires st.inHeaders && |rest| > 0 && |rest[0]| == 0
    ensures ScanLines(st, rest, durationValue) == ScanLines(st.(inHeaders := false), rest[1..], durationValue)
  {
  }

  /** Reading the whole mail is reading the headers, then the body with
      the header phase over. */
  lemma ScanSplit(st: Scan, lines: seq<string>, durationValue: string -> int)
    requires st.inHeaders
    ensures var k := HeaderEnd(lines);
      var h := ScanLines(st, lines[..k], durationValue);
      ScanLines(st, lines, durationValue) ==
        if k < |lines| then ScanLines(h.(inHeaders := false), lines[k + 1..], durationValue) else h
  {
    var k := HeaderEnd(lines);
    if k < |lines| {
      ScanSplitAtEmptyLine(st, lines, k, durationValue);
    } else {
      assert lines[..k] == lines;
    }
  }

  lemma ScanSplitAtEmptyLine(st: Scan, lines: seq<string>, k: nat, durationValue: string -> int)
    requires st.inHeaders
    requires k < |lines| && |lines[k]| == 0
    requires forall i :: 0 <= i < k ==> |lines[i]| > 0
    ensures ScanLines(st, lines, durationValue) ==
      ScanLines(ScanLines(st, lines[..k], durationValue).(inHeaders := false), lines[k + 1..], durationValue)
  {
    var headers := lines[..k];
    var rest := lines[k..];
    assert forall i :: 0 <= i < |headers| ==> headers[i] == lines[i];
    HeadersKeepPhase(st, headers, durationValue);
    assert lines == headers + rest;
    assert rest[1..] == lines[k + 1..];
    ScanConcat(st, headers, rest, durationValue);
    HeaderPhaseEnds(ScanLines(st, headers, durationValue), rest, durationValue);
  }

  /** The whole scan: the first empty line ends the headers, and after it
      no header is recognised any more. */
  lemma ScanMeaning(lines: seq<string>, durationValue: string -> int)
    ensures var k := HeaderEnd(lines);
      var headers := lines[..k];
      var body := if k < |lines| then lines[k + 1..] else [];
      var r := ScanLines(Start, lines, durationValue);
      r.returnPath == LastHeader(headers, "return-path:") &&
      r.from == LastHeader(headers, "from:") &&
      r.subject == (if LastAck(body).Some? then Some(AckSubject(LastAck(body).value)) else LastHeader(headers, "subject:")) &&
      r.firstText == FirstText(body) &&
      r.duration == (if LastDelay(body).Some? then durationValue(LastDelay(body).value[6..]) else 0)
  {
    var k := HeaderEnd(lines);
    var headers := lines[..k];
    ScanSplit(Start, lines, durationValue);
    ScanHeaders(headers, durationValue);
    var h := ScanLines(Start, headers, durationValue);
    if k < |lines| {
      ScanBody(h.(inHeaders := false), lines[k + 1..], durationValue);
    } else {
      assert LastAck([]).None? && LastDelay([]).None? && FirstText([]).None?;
    }
  }

  // ---- The acknowledgement ----

  /** `.*(Xymon|Hobbit|BB)[ -]* \[*(-*[0-9]+)[\]!]*` on the subject: no
      match, or a match with its second group (absent if it did not take part). */
  datatype CookieMatch = NoCookieMatch | CookieMatched(group: Option<string>)

  /** The regular expressions (as what they find in a subject) and
      `durationvalue`. `delay` and `msg` give the first group of
      `.*DELAY[ =]+([0-9]+[mhdw]*)` and `.*MSG[ =]+(.*)` when they match. */
  datatype Matchers = Matchers(cookie: string -> CookieMatch, delay: string -> Option<string>,
                               msg: string -> Option<string>, durationValue: string -> int)

  /** `char cookie[10]`, `char delaytxt[4096]`, `char msgtxt[4096]`: a group
      copies only when it fits with its terminating NUL. */
  const CookieBuffer: nat := 10
  const TextBuffer: nat := 4096

  /** The acknowledgement `main` sends. */
  datatype AckMessage = AckMessage(cookie: string, duration: int, cause: string, ackedBy: Option<string>)

  /** Exit status 1 (no subject), 3 (subject does not match), 4 (no
      cookie), or 0 with the message sent. */
  datatype Outcome = NoSubject | NoMatch | NoCookie | Send(message: AckMessage)

  function ExitCode(o: Outcome): int {
    match o
    case NoSubject => 1
    case NoMatch => 3
    case NoCookie => 4
    case Send(_) => 0
  }

  /** Every `<` and `>` turned into a space, the rest left alone. */
  function Sanitize(s: string): (r: string)
    ensures |r| == |s|
    ensures '<' !in r && '>' !in r
    ensures forall i :: 0 <= i < |s| ==> r[i] == (if s[i] == '<' || s[i] == '>' then ' ' else s[i])
  {
    if |s| == 0 then ""
    else [if s[0] == '<' || s[0] == '>' then ' ' else s[0]] + Sanitize(s[1..])
  }

  lemma SanitizeIdempotent(s: string)
    ensures Sanitize(Sanitize(s)) == Sanitize(s)
  {
    var r := Sanitize(s);
    assert forall i :: 0 <= i < |r| ==> Sanitize(r)[i] == r[i];
  }

  /** The `From:` value, or the `Return-Path:` value when there is no
      `From:` header, sanitised. */
  function AckedBy(st: Scan): (r: Option<string>)
    ensures r.Some? <==> st.from.Some? || st.returnPath.Some?
    ensures r.Some? ==> '<' !in r.value && '>' !in r.value
    ensures st.from.Some? ==> r == Some(Sanitize(st.from.value))
    ensures st.from.None? && st.returnPath.Some? ==> r == Some(Sanitize(st.returnPath.value))
  {
    var from := if st.from.None? then st.returnPath else st.from;
    if from.Some? then Some(Sanitize(from.value)) else None
  }

  /** Whether a group the subject yielded fits its buffer. */
  predicate Fits(group: Option<string>, size: nat) {
    group.Some? && |group.value| < size
  }

  /** `main` after the scan. */
  function Acknowledge(st: Scan, mx: Matchers): (o: Outcome)
    ensures o.NoSubject? <==> st.subject.None?
    ensures o.NoMatch? <==> st.subject.Some? && mx.cookie(st.subject.value).NoCookieMatch?
    ensures o.NoCookie? <==> (st.subject.Some? && mx.cookie(st.subject.value).CookieMatched? &&
      !Fits(mx.cookie(st.subject.value).group, CookieBuffer))
    ensures o.Send? ==> (mx.cookie(st.subject.value) == CookieMatched(Some(o.message.cookie)) &&
      |o.message.cookie| < CookieBuffer)
    ensures o.Send? ==> o.message.ackedBy == AckedBy(st)
    ensures o.Send? ==> var delay := mx.delay(st.subject.value);
      var chosen := if Fits(delay, TextBuffer) then mx.durationValue(delay.value) else st.duration;
      o.message.duration != 0 && (chosen != 0 ==> o.message.duration == chosen) &&
      (chosen == 0 ==> o.message.duration == 60)
    ensures o.Send? ==> var msg := mx.msg(st.subject.value);
      (Fits(msg, TextBuffer) ==> o.message.cause == msg.value) &&
      (!Fits(msg, TextBuffer) && st.firstText.Some? ==> o.message.cause == st.firstText.value) &&
      (!Fits(msg, TextBuffer) && st.firstText.None? ==> o.message.cause == "<No cause specified>")
  {
    match st.subject
    case None => NoSubject
    case Some(subject) =>
      match mx.cookie(subject)
      case NoCookieMatch => NoMatch
      case CookieMatched(group) =>
        if !Fits(group, CookieBuffer) then NoCookie
        else
          var delay := mx.delay(subject);
          var duration := if Fits(delay, TextBuffer) then mx.durationValue(delay.value) else st.duration;
          var msg := mx.msg(subject);
          var text := if Fits(msg, TextBuffer) then msg else st.firstText;
          Send(AckMessage(
            group.value,
            if duration == 0 then 60 else duration,
            if text.Some? then text.value else "<No cause specified>",
            AckedBy(st)))
  }

  /** The filter on a whole mail. */
  function Main(lines: seq<string>, mx: Matchers): (o: Outcome)
    ensures o.NoSubject? <==>
      LastHeader(lines[..HeaderEnd(lines)], "subject:").None? &&
      (HeaderEnd(lines) == |lines| || LastAck(lines[HeaderEnd(lines) + 1..]).None?)
    ensures o.Send? ==> var headers := lines[..HeaderEnd(lines)];
      var from := LastHeader(headers, "from:");
      var returnPath := LastHeader(headers, "return-path:");
      o.message.ackedBy ==
        (if from.Some? then Some(Sanitize(from.value))
         else if returnPath.Some? then Some(Sanitize(returnPath.value))
         else None)
  {
    var st := ScanLines(Start, lines, mx.durationValue);
    var k := HeaderEnd(lines);
    var headers := lines[..k];
    ScanMeaning(lines, mx.durationValue);
    assert st.from == LastHeader(headers, "from:") && st.returnPath == LastHeader(headers, "return-path:");
    assert st.subject.None? <==>
      LastHeader(headers, "subject:").None? && (k == |lines| || LastAck(lines[k + 1..]).None?);
    Acknowledge(st, mx)
  }

  /** `sprintf("xymondack %s %d %s", ...)` and, when there is a sender,
      `"\nAcked by: %s"`. */
  function Render(m: AckMessage): string {
    "xymondack " + m.cookie + " " + IntString(m.duration) + " " + m.cause +
    (if m.ackedBy.Some? then "\nAcked by: " + m.ackedBy.value else "")
  }

  /** The receiver reads back what was sent: the first line's first three
      words are the command, the cookie and the duration, and the second
      line, if any, names the sender. */
  lemma RenderReadsBack(m: AckMessage)
    requires ' ' !in m.cookie && '\n' !in m.cookie && '\n' !in m.cause
    requires m.ackedBy.Some? ==> '\n' !in m.ackedBy.value
    ensures var lines := Split(Render(m), '\n');
      |lines| == (if m.ackedBy.Some? then 2 else 1) &&
      (m.ackedBy.Some? ==> lines[1] == "Acked by: " + m.ackedBy.value) &&
      var words := Split(lines[0], ' ');
      |words| >= 4 && words[0] == "xymondack" && words[1] == m.cookie && words[2] == IntString(m.duration)
  {
    var ds := IntString(m.duration);
    var first := "xymondack " + m.cookie + " " + ds + " " + m.cause;
    assert '\n' !in first;
    if m.ackedBy.Some? {
      var tail := "Acked by: " + m.ackedBy.value;
      assert '\n' !in tail;
      assert Render(m) == first + ['\n'] + tail;
      SplitAt(first, '\n', tail);
      SplitNone(tail, '\n');
    } else {
      assert Render(m) == first;
      SplitNone(first, '\n');
    }
    FirstLineWords(m.cookie, ds, m.cause);
  }

  lemma FirstLineWords(cookie: string, ds: string, cause: string)
    requires ' ' !in cookie && ' ' !in ds
    ensures var words := Split("xymondack " + cookie + " " + ds + " " + cause, ' ');
      |words| >= 4 && words[0] == "xymondack" && words[1] == cookie && words[2] == ds
  {
    var tail := ds + [' '] + cause;
    var rest := cookie + [' '] + tail;
    FirstLineShape(cookie, ds, cause);
    CommandHasNoSpace();
    SplitAt("xymondack", ' ', rest);
    SplitAt(cookie, ' ', tail);
    SplitAt(ds, ' ', cause);
    var words := Split("xymondack" + [' '] + rest, ' ');
    assert words == ["xymondack"] + ([cookie] + ([ds] + Split(cause, ' ')));
  }

  lemma FirstLineShape(cookie: string, ds: string, cause: string)
    ensures "xymondack " + cookie + " " + ds + " " + cause ==
      "xymondack" + [' '] + (cookie + [' '] + (ds + [' '] + cause))
  {
    assert "xymondack " == "xymondack" + [' '];
  }

  lemma CommandHasNoSpace()
    ensures ' ' !in "xymondack"
  {
    forall i | 0 <= i < |"xymondack"| ensures "xymondack"[i] != ' ' {}
  }
}
