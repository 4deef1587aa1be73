// Assembling log lines from LOG_MESSAGE payloads (m1_device.cpp, onFrameReceived).

module LogLines {
  import opened Bytes

  const NEWLINE: byte := 0x0A
  const RETURN: byte := 0x0D

  predicate NoNewline(s: seq<byte>) {
    forall k :: 0 <= k < |s| ==> s[k] != NEWLINE
  }

  /** The position of the first newline, or the length if there is none. */
  function FirstNewline(s: seq<byte>): (n: nat)
    ensures n <= |s| && NoNewline(s[..n]) && (n < |s| ==> s[n] == NEWLINE)
  {
    if s == [] || s[0] == NEWLINE then 0 else 1 + FirstNewline(s[1..])
  }

  /** What is shown of a line: nothing if only a carriage return, or nothing at all, is on it. */
  function Shown(line: seq<byte>): seq<seq<byte>> {
    var text := if line != [] && line[|line| - 1] == RETURN then line[..|line| - 1] else line;
    if text == [] then [] else [text]
  }

  /** The lines shown for a stream: those that a newline ends. */
  function Lines(s: seq<byte>): seq<seq<byte>>
    decreases |s|
  {
    var n := FirstNewline(s);
    if n == |s| then [] else Shown(s[..n]) + Lines(s[n + 1..])
  }

  /** The part of a stream after its last newline. */
  function Tail(s: seq<byte>): seq<byte>
    decreases |s|
  {
    var n := FirstNewline(s);
    if n == |s| then s else Tail(s[n + 1..])
  }

  class LogAssembler {
    var logBuf: seq<byte>
    var emitted: seq<seq<byte>>

    constructor ()
      ensures logBuf == [] && emitted == []
    {
      logBuf, emitted := [], [];
    }

    method OnLogMessage(payload: seq<byte>)
      requires NoNewline(logBuf)
      modifies this
      ensures emitted == old(emitted) + Lines(old(logBuf) + payload)
      ensures logBuf == Tail(old(logBuf) + payload) && NoNewline(logBuf)
    {
      hide Lines, Tail, FirstNewline;
      ghost var s := logBuf + payload;
      TailHasNoNewline(s);
      if |payload| > 0 {
        logBuf := logBuf + payload;
        var start := 0;
        assert s[0..] == s;
        for i := 0 to |logBuf|
          invariant 0 <= start <= i && logBuf == s
          invariant forall k :: start <= k < i ==> s[k] != NEWLINE
          invariant emitted + Lines(s[start..]) == old(emitted) + Lines(s)
          invariant Tail(s[start..]) == Tail(s)
        {
          if logBuf[i] == NEWLINE {
            var lineBytes := logBuf[start..i];
            NextLine(s, start, i);
            ghost var shown := Shown(lineBytes);
            assert (emitted + shown) + Lines(s[i + 1..]) == emitted + (shown + Lines(s[i + 1..]));
            if lineBytes != [] && lineBytes[|lineBytes| - 1] == RETURN {
              lineBytes := lineBytes[..|lineBytes| - 1];
            }
            assert shown == if lineBytes == [] then [] else [lineBytes];
            if lineBytes != [] {
              emitted := emitted + [lineBytes];
            } else {
              assert emitted + shown == emitted;
            }
            start := i + 1;
          }
        }
        NoMoreLines(s[start..]);
        assert emitted + [] == emitted;
        logBuf := logBuf[start..];
      } else {
        assert s == logBuf;
        NoMoreLines(s);
        assert emitted + [] == emitted;
      }
    }
  }

  lemma NextLine(s: seq<byte>, start: nat, end: nat)
    requires start <= end < |s| && s[end] == NEWLINE && forall k :: start <= k < end ==> s[k] != NEWLINE
    ensures Lines(s[start..]) == Shown(s[start..end]) + Lines(s[end + 1..])
    ensures Tail(s[start..]) == Tail(s[end + 1..])
  {
    hide Shown;
    var t, n := s[start..], end - start;
    assert t[..n] == s[start..end] && t[n + 1..] == s[end + 1..];
    FirstNewlineIs(t, n);
  }

  lemma FirstNewlineIs(s: seq<byte>, n: nat)
    requires n <= |s| && NoNewline(s[..n]) && (n < |s| ==> s[n] == NEWLINE)
    ensures FirstNewline(s) == n
  {
    var m := FirstNewline(s);
    assert forall k :: 0 <= k < n ==> s[k] == s[..n][k];
    assert forall k :: 0 <= k < m ==> s[k] == s[..m][k];
  }

  lemma NoMoreLines(s: seq<byte>)
    requires NoNewline(s)
    ensures Lines(s) == [] && Tail(s) == s
  {
    FirstNewlineIs(s, |s|);
  }

  lemma {:induction false} TailHasNoNewline(s: seq<byte>)
    ensures NoNewline(Tail(s))
    decreases |s|
  {
    var n := FirstNewline(s);
    if n < |s| {
      TailHasNoNewline(s[n + 1..]);
    } else {
      assert s[..n] == s;
    }
  }

  /** Reading on after the tail of what has been read gives the lines of the whole. */
  lemma {:induction false} LinesConcat(a: seq<byte>, b: seq<byte>)
    ensures Lines(a + b) == Lines(a) + Lines(Tail(a) + b)
    ensures Tail(a + b) == Tail(Tail(a) + b)
    decreases |a|
  {
    hide Shown, Lines, Tail;
    var n := FirstNewline(a);
    assert forall k :: 0 <= k < n ==> a[k] == a[..n][k];
    if n == |a| {
      assert a[..n] == a;
      NoMoreLines(a);
    } else {
      var rest := a[n + 1..];
      NextLine(a, 0, n);
      NextLine(a + b, 0, n);
      assert a[0..] == a && (a + b)[0..] == a + b;
      assert (a + b)[0..n] == a[0..n] && (a + b)[n + 1..] == rest + b;
      LinesConcat(rest, b);
      var line := Shown(a[0..n]);
      assert line + (Lines(rest) + Lines(Tail(rest) + b)) == line + Lines(rest) + Lines(Tail(rest) + b);
    }
  }

  /** The lines shown for a sequence of payloads, and the carried buffer after them. */
  function LinesOfPayloads(buf: seq<byte>, payloads: seq<seq<byte>>): (seq<seq<byte>>, seq<byte>)
    decreases |payloads|
  {
    if payloads == [] then ([], buf)
    else
      var (later, rest) := LinesOfPayloads(Tail(buf + payloads[0]), payloads[1..]);
      (Lines(buf + payloads[0]) + later, rest)
  }

  /** Log lines do not depend on how the log is cut into payloads. */
  lemma {:induction false} FragmentationIrrelevant(buf: seq<byte>, payloads: seq<seq<byte>>)
    requires NoNewline(buf)
    ensures LinesOfPayloads(buf, payloads) == (Lines(buf + Concat(payloads)), Tail(buf + Concat(payloads)))
    decreases |payloads|
  {
    hide Lines, Tail;
    if payloads == [] {
      assert buf + Concat(payloads) == buf;
      NoMoreLines(buf);
    } else {
      var a := buf + payloads[0];
      TailHasNoNewline(a);
      FragmentationIrrelevant(Tail(a), payloads[1..]);
      LinesConcat(a, Concat(payloads[1..]));
      assert buf + Concat(payloads) == a + Concat(payloads[1..]);
    }
  }

  // ---------------------------------------------------------------------------
  // Against the text that was logged
  // ---------------------------------------------------------------------------

  /** The stream of a device that ends every line with a newline, and has begun another. */
  function Logged(lines: seq<seq<byte>>, begun: seq<byte>): seq<byte> {
    if lines == [] then begun else lines[0] + [NEWLINE] + Logged(lines[1..], begun)
  }

  function ShownAll(lines: seq<seq<byte>>): seq<seq<byte>> {
    if lines == [] then [] else Shown(lines[0]) + ShownAll(lines[1..])
  }

  /** However it is cut up, a log is shown line by line; what has no newline yet is carried over. */
  lemma {:induction false} LoggedLinesAreShown(lines: seq<seq<byte>>, begun: seq<byte>)
    requires NoNewline(begun) && forall k :: 0 <= k < |lines| ==> NoNewline(lines[k])
    ensures Lines(Logged(lines, begun)) == ShownAll(lines) && Tail(Logged(lines, begun)) == begun
    decreases |lines|
  {
    var s := Logged(lines, begun);
    if lines == [] {
      NoMoreLines(s);
    } else {
      var n := |lines[0]|;
      assert s[..n] == lines[0] && s[n + 1..] == Logged(lines[1..], begun);
      FirstNewlineIs(s, n);
      LoggedLinesAreShown(lines[1..], begun);
    }
  }

  /** A logged line: its text, and how the device ended it. */
  datatype TextLine = TextLine(text: seq<byte>, withReturn: bool)

  function Written(lines: seq<TextLine>, begun: seq<byte>): seq<byte> {
    if lines == [] then begun
    else lines[0].text + (if lines[0].withReturn then [0x0D, 0x0A] else [0x0A]) + Written(lines[1..], begun)
  }

  function NonEmptyTexts(lines: seq<TextLine>): seq<seq<byte>> {
    if lines == [] then []
    else (if lines[0].text == [] then [] else [lines[0].text]) + NonEmptyTexts(lines[1..])
  }

  /** The text fits on a line, and its end is not mistaken for a part of the line's end. */
  predicate PlainText(text: seq<byte>) {
    0x0A !in text && (text != [] ==> text[|text| - 1] != 0x0D)
  }

  lemma PlainLineIsShown(t: TextLine)
    requires PlainText(t.text)
    ensures var line := t.text + if t.withReturn then [0x0D] else [];
            NoNewline(line) && Shown(line) == if t.text == [] then [] else [t.text]
  {
    var line := t.text + if t.withReturn then [0x0D] else [];
    assert t.withReturn ==> line[..|line| - 1] == t.text;
    assert !t.withReturn ==> line == t.text;
  }

  function RawLines(lines: seq<TextLine>): seq<seq<byte>> {
    if lines == [] then []
    else [lines[0].text + if lines[0].withReturn then [0x0D] else []] + RawLines(lines[1..])
  }

  lemma {:induction false} WrittenIsLogged(lines: seq<TextLine>, begun: seq<byte>)
    requires forall k :: 0 <= k < |lines| ==> PlainText(lines[k].text)
    ensures Written(lines, begun) == Logged(RawLines(lines), begun)
    ensures ShownAll(RawLines(lines)) == NonEmptyTexts(lines)
    ensures forall k :: 0 <= k < |RawLines(lines)| ==> NoNewline(RawLines(lines)[k])
    decreases |lines|
  {
    hide Shown, PlainText, NoNewline;
    if lines != [] {
      var line := lines[0].text + if lines[0].withReturn then [0x0D] else [];
      PlainLineIsShown(lines[0]);
      WrittenIsLogged(lines[1..], begun);
      assert RawLines(lines)[1..] == RawLines(lines[1..]);
      assert lines[0].text + (if lines[0].withReturn then [0x0D, 0x0A] else [0x0A]) == line + [NEWLINE];
    }
  }

  /**
   * A log of texts, each ended with LF or with CR LF, is shown as exactly its non-empty texts, in
   * order, however it is cut into payloads; a line that has only begun is carried over.
   */
  lemma TextsAreShown(lines: seq<TextLine>, begun: seq<byte>, payloads: seq<seq<byte>>)
    requires forall k :: 0 <= k < |lines| ==> PlainText(lines[k].text)
    requires 0x0A !in begun && Concat(payloads) == Written(lines, begun)
    ensures LinesOfPayloads([], payloads) == (NonEmptyTexts(lines), begun)
  {
    hide Lines, Tail, Shown, PlainText;
    var s := Written(lines, begun);
    FragmentationIrrelevant([], payloads);
    assert [] + Concat(payloads) == s;
    WrittenIsLogged(lines, begun);
    LoggedLinesAreShown(RawLines(lines), begun);
  }
}
