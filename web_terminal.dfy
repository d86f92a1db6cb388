/** The web terminal's command path (web_terminal/src/main.rs): how a
    WebSocket message becomes the bytes written to the shell's pseudo-terminal.

    A text message containing the four characters `\x03`, or consisting of the
    single byte 3, interrupts the shell with ETX. Any other text is trimmed of
    white space, then of double quotes, and sent with a carriage return. The
    written text stands for its UTF-8 bytes; ETX is the character U+0003. */
module WebTerminal {
  import opened Text

  const Etx: char := 3 as char

  /** The four characters a sender types for ETX: backslash, x, 0, 3. */
  const EscapedEtx: string := "\\x03"

  /** Rust's char::is_whitespace, the Unicode White_Space property. */
  predicate IsWhiteSpace(c: char) {
    var n := c as int;
    0x09 <= n <= 0x0D || n == 0x20 || n == 0x85 || n == 0xA0 || n == 0x1680
    || 0x2000 <= n <= 0x200A || n == 0x2028 || n == 0x2029 || n == 0x202F
    || n == 0x205F || n == 0x3000
  }

  predicate IsQuote(c: char) {
    c == '"'
  }

  /** The characters a trim drops: double quotes for trim_matches('"'),
      white space for trim. */
  predicate Dropped(c: char, quotes: bool) {
    if quotes then IsQuote(c) else IsWhiteSpace(c)
  }

  predicate AllDropped(s: string, quotes: bool) {
    forall i :: 0 <= i < |s| ==> Dropped(s[i], quotes)
  }

  /** Drops the longest prefix of dropped characters. */
  function TrimStartBy(s: string, quotes: bool): string {
    if s != [] && Dropped(s[0], quotes) then TrimStartBy(s[1..], quotes) else s
  }

  /** Drops the longest suffix of dropped characters. */
  function TrimEndBy(s: string, quotes: bool): string {
    if s != [] && Dropped(s[|s| - 1], quotes) then TrimEndBy(s[..|s| - 1], quotes) else s
  }

  /** Trimming the front keeps a suffix, drops only dropped characters, and
      stops at the first kept one. */
  lemma {:induction false} TrimStartFacts(s: string, quotes: bool)
    ensures var r := TrimStartBy(s, quotes);
      && |r| <= |s| && r == s[|s| - |r|..]
      && (r == [] || !Dropped(r[0], quotes))
      && AllDropped(s[..|s| - |r|], quotes)
  {
    if s != [] && Dropped(s[0], quotes) {
      TrimStartFacts(s[1..], quotes);
      var r := TrimStartBy(s, quotes);
      assert s[..|s| - |r|] == [s[0]] + s[1..][..|s| - 1 - |r|];
    }
  }

  /** Trimming the back keeps a prefix, drops only dropped characters, and
      stops at the last kept one. */
  lemma {:induction false} TrimEndFacts(s: string, quotes: bool)
    ensures var r := TrimEndBy(s, quotes);
      && |r| <= |s| && r == s[..|r|]
      && (r == [] || !Dropped(r[|r| - 1], quotes))
      && AllDropped(s[|r|..], quotes)
  {
    if s != [] && Dropped(s[|s| - 1], quotes) {
      var p := s[..|s| - 1];
      TrimEndFacts(p, quotes);
      var r := TrimEndBy(s, quotes);
      assert s[|r|..] == p[|r|..] + [s[|s| - 1]];
    }
  }

  /** str::trim */
  function Trim(s: string): string {
    TrimEndBy(TrimStartBy(s, false), false)
  }

  /** str::trim_matches('"') */
  function TrimQuotes(s: string): string {
    TrimEndBy(TrimStartBy(s, true), true)
  }

  /** The command text: white space trimmed first, then quotes. */
  function CommandBody(text: string): string {
    TrimQuotes(Trim(text))
  }

  /** Trimming both ends keeps a piece of the text with only dropped
      characters around it, and the piece starts and ends with kept ones. */
  lemma TrimBothInfix(s: string, quotes: bool) returns (a: nat)
    ensures var r := TrimEndBy(TrimStartBy(s, quotes), quotes);
      && a + |r| <= |s| && r == s[a..a + |r|]
      && AllDropped(s[..a], quotes) && AllDropped(s[a + |r|..], quotes)
      && (r == [] || (!Dropped(r[0], quotes) && !Dropped(r[|r| - 1], quotes)))
  {
    var t := TrimStartBy(s, quotes);
    var r := TrimEndBy(t, quotes);
    TrimStartFacts(s, quotes);
    TrimEndFacts(t, quotes);
    a := |s| - |t|;
    assert s[a..] == t;
    assert s[a + |r|..] == t[|r|..];
    if r != [] {
      assert r[0] == t[0];
    }
  }

  /** The command text never begins or ends with a quote. */
  lemma CommandBodyUnquoted(text: string)
    ensures var body := CommandBody(text); body == [] || (body[0] != '"' && body[|body| - 1] != '"')
  {
    var _ := TrimBothInfix(Trim(text), true);
  }

  /** A message from the WebSocket stream: a text frame, any other frame
      (binary, ping, pong, close), or a receive error. */
  datatype WsEvent = TextFrame(text: string) | OtherFrame | ReceiveError

  predicate IsInterrupt(text: string) {
    Contains(text, EscapedEtx) || text == [Etx]
  }

  /** The characters written to the terminal for one WebSocket message. */
  function Translate(e: WsEvent): string {
    match e
    case TextFrame(text) =>
      if IsInterrupt(text) then [Etx]
      else CommandBody(text) + "\r"
    case _ => []
  }

  /** Only text writes anything, and the two kinds of text output cannot be
      confused: exactly the interrupts write the lone ETX, and every other text
      writes its command body followed by a carriage return. */
  lemma TranslateShape(e: WsEvent)
    ensures var out := Translate(e);
      && (out == [] <==> !e.TextFrame?)
      && (e.TextFrame? ==> (out == [Etx] <==> IsInterrupt(e.text)))
      && (e.TextFrame? && !IsInterrupt(e.text) ==>
            out[|out| - 1] == '\r' && out[..|out| - 1] == CommandBody(e.text))
  {
    if e.TextFrame? && !IsInterrupt(e.text) {
      var out := Translate(e);
      assert out[|out| - 1] == '\r' != Etx;
    }
  }

  /** A command without quotes is sent white-space trimmed, and the carriage
      return the terminal sees is the only line ending at its end: nothing
      before it is white space. */
  lemma {:induction false} UnquotedCommandEndsOnce(text: string)
    requires forall k :: 0 <= k < |text| ==> text[k] != '"'
    requires !IsInterrupt(text)
    ensures var out := Translate(TextFrame(text));
      && out == Trim(text) + "\r"
      && (|out| == 1 || !IsWhiteSpace(out[|out| - 2]))
  {
    var t := Trim(text);
    var a := TrimBothInfix(text, false);
    if t != [] {
      assert t[0] == text[a] && t[|t| - 1] == text[a + |t| - 1];
      assert TrimStartBy(t, true) == t;
      assert TrimEndBy(t, true) == t;
    } else {
      assert TrimQuotes(t) == t;
    }
  }

  /** Quotes are stripped after white space, so white space inside the quotes
      is kept: a quoted command padded with white space outside the quotes
      is sent exactly as written between the quotes. */
  lemma {:induction false} QuotedCommand(pad1: string, cmd: string, pad2: string)
    requires forall k :: 0 <= k < |pad1| ==> IsWhiteSpace(pad1[k])
    requires forall k :: 0 <= k < |pad2| ==> IsWhiteSpace(pad2[k])
    requires cmd != [] && cmd[0] != '"' && cmd[|cmd| - 1] != '"'
    ensures CommandBody(pad1 + "\"" + cmd + "\"" + pad2) == cmd
  {
    var q := "\"" + cmd + "\"";
    var text := pad1 + q + pad2;
    assert text == pad1 + (q + pad2);
    assert pad1 + "\"" + cmd + "\"" + pad2 == text;
    TrimStartAll(pad1, q + pad2, false);
    TrimEndAll(q, pad2, false);
    assert Trim(text) == q;
    assert q == "\"" + (cmd + "\"");
    TrimStartAll("\"", cmd + "\"", true);
    TrimEndAll(cmd, "\"", true);
    assert TrimQuotes(q) == cmd;
  }

  /** A command with no white space or quotes at its ends is sent as it is. */
  lemma PlainCommand(cmd: string)
    requires cmd != []
    requires !IsWhiteSpace(cmd[0]) && !IsWhiteSpace(cmd[|cmd| - 1])
    requires !IsQuote(cmd[0]) && !IsQuote(cmd[|cmd| - 1])
    ensures CommandBody(cmd) == cmd
  {
    TrimStartAll([], cmd, false);
    TrimEndAll(cmd, [], false);
    TrimStartAll([], cmd, true);
    TrimEndAll(cmd, [], true);
  }

  /** Trimming a prefix of droppable characters before a kept one. */
  lemma {:induction false} TrimStartAll(pad: string, rest: string, quotes: bool)
    requires forall k :: 0 <= k < |pad| ==> Dropped(pad[k], quotes)
    requires rest != [] && !Dropped(rest[0], quotes)
    ensures TrimStartBy(pad + rest, quotes) == rest
  {
    if pad == [] {
      assert pad + rest == rest;
    } else {
      TrimStartAll(pad[1..], rest, quotes);
      assert (pad + rest)[1..] == pad[1..] + rest;
    }
  }

  /** Trimming a suffix of droppable characters after a kept one. */
  lemma {:induction false} TrimEndAll(rest: string, pad: string, quotes: bool)
    requires forall k :: 0 <= k < |pad| ==> Dropped(pad[k], quotes)
    requires rest != [] && !Dropped(rest[|rest| - 1], quotes)
    ensures TrimEndBy(rest + pad, quotes) == rest
  {
    if pad == [] {
      assert rest + pad == rest;
    } else {
      var p := pad[..|pad| - 1];
      TrimEndAll(rest, p, quotes);
      assert (rest + pad)[..|rest + pad| - 1] == rest + p;
    }
  }

  /** The characters written for a run of messages, in order. */
  function TranslateAll(events: seq<WsEvent>): string {
    if events == [] then [] else TranslateAll(events[..|events| - 1]) + Translate(events[|events| - 1])
  }

  /** Only text frames write anything. */
  lemma {:induction false} OnlyTextWrites(events: seq<WsEvent>)
    requires forall k :: 0 <= k < |events| ==> !events[k].TextFrame?
    ensures TranslateAll(events) == []
  {
    if events != [] {
      OnlyTextWrites(events[..|events| - 1]);
    }
  }

  /** The pseudo-terminal's input side: everything written so far. */
  class PtyWriter {
    var written: string

    constructor ()
      ensures written == []
    {
      written := [];
    }

    /** The WebSocket arm of the main loop for one message. */
    method Receive(e: WsEvent)
      modifies this
      ensures written == old(written) + Translate(e)
    {
      if e.TextFrame? {
        var text := e.text;
        if Contains(text, EscapedEtx) || text == [Etx] {
          written := written + [Etx];
        } else {
          var cleanCmd := CommandBody(text) + "\r";
          written := written + cleanCmd;
        }
      }
    }

    /** The main loop over the messages that arrive, in order. */
    method Pump(events: seq<WsEvent>)
      modifies this
      ensures written == old(written) + TranslateAll(events)
    {
      for k := 0 to |events|
        invariant written == old(written) + TranslateAll(events[..k])
      {
        assert events[..k + 1][..k] == events[..k];
        assert TranslateAll(events[..k + 1]) == TranslateAll(events[..k]) + Translate(events[k]);
        Receive(events[k]);
      }
      assert events[..|events|] == events;
    }
  }
}
