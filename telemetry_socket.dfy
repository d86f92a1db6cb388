/** The browser's telemetry socket hook (Websocket.jsx).

    The hook owns one WebSocket, a `connection` flag and a `status` record. A
    text message "ConnectedClients:<n>" sets the client count; a text message
    of seven comma-separated fields sets the telemetry fields; anything else
    leaves the status as it was. `send` transmits only on an open socket. */
module TelemetrySocket {
  import opened Wrappers
  import opened Text
  import opened Signal

  /** JavaScript's white space and line terminators, the characters
      String.prototype.trim and parseInt skip. */
  predicate IsJsSpace(c: char) {
    var n := c as int;
    0x09 <= n <= 0x0D || n == 0x20 || n == 0xA0 || n == 0x1680 || 0x2000 <= n <= 0x200A
    || n == 0x2028 || n == 0x2029 || n == 0x202F || n == 0x205F || n == 0x3000 || n == 0xFEFF
  }

  function TrimStart(s: string): (r: string)
    ensures |r| <= |s| && r == s[|s| - |r|..]
    ensures r == [] || !IsJsSpace(r[0])
    ensures forall i :: 0 <= i < |s| - |r| ==> IsJsSpace(s[i])
  {
    if s != [] && IsJsSpace(s[0]) then TrimStart(s[1..]) else s
  }

  function TrimEnd(s: string): (r: string)
    ensures |r| <= |s| && r == s[..|r|]
    ensures r == [] || !IsJsSpace(r[|r| - 1])
    ensures forall i :: |r| <= i < |s| ==> IsJsSpace(s[i])
  {
    if s != [] && IsJsSpace(s[|s| - 1]) then TrimEnd(s[..|s| - 1]) else s
  }

  /** String.prototype.trim */
  function Trim(s: string): string {
    TrimEnd(TrimStart(s))
  }

  /** A JavaScript number as parseInt produces it: NaN or an integer. */
  datatype JsNumber = NaN | Int(value: int)

  /** parseFloat(text): the conversion is kept as the text it was applied to. */
  datatype Float = ParsedFloat(text: string)

  predicate IsHexDigit(c: char) {
    IsDigit(c) || 'a' <= c <= 'f' || 'A' <= c <= 'F'
  }

  function HexDigitValue(c: char): (d: nat)
    requires IsHexDigit(c)
    ensures d < 16
  {
    if IsDigit(c) then DigitValue(c)
    else if 'a' <= c <= 'f' then c as int - 'a' as int + 10
    else c as int - 'A' as int + 10
  }

  predicate IsRadixDigit(c: char, hex: bool) {
    if hex then IsHexDigit(c) else IsDigit(c)
  }

  /** Length of the run of digits of the radix that starts `s`. */
  function DigitRun(s: string, hex: bool): (n: nat)
    ensures n <= |s|
    ensures forall i :: 0 <= i < n ==> IsRadixDigit(s[i], hex)
    ensures n == |s| || !IsRadixDigit(s[n], hex)
  {
    if s == [] || !IsRadixDigit(s[0], hex) then 0 else 1 + DigitRun(s[1..], hex)
  }

  /** The value of a run of hexadecimal digits, most significant first. */
  function HexValue(s: string): nat
    requires forall i :: 0 <= i < |s| ==> IsHexDigit(s[i])
  {
    if s == [] then 0 else HexValue(s[..|s| - 1]) * 16 + HexDigitValue(s[|s| - 1])
  }

  /** The text after an optional leading sign. */
  function Unsigned(t: string): (u: string)
    ensures u == t || (t != [] && (t[0] == '-' || t[0] == '+') && u == t[1..])
  {
    if t != [] && (t[0] == '-' || t[0] == '+') then t[1..] else t
  }

  predicate HexPrefixed(u: string) {
    |u| >= 2 && u[0] == '0' && (u[1] == 'x' || u[1] == 'X')
  }

  /** The value of the run of digits that starts `body`; None when there is none. */
  function Magnitude(body: string, hex: bool): (m: Option<nat>)
    ensures m.None? <==> body == [] || !IsRadixDigit(body[0], hex)
  {
    var n := DigitRun(body, hex);
    if n == 0 then None
    else if hex then Some(HexValue(body[..n]))
    else Some(DigitsValue(body[..n]))
  }

  /** parseInt(s, 10) when `autoRadix` is false, parseInt(s) when it is true:
      leading white space is skipped, then an optional sign; with no radix
      given a "0x" or "0X" prefix selects hexadecimal; then the longest run of
      digits is read, and no digit at all gives NaN. */
  function ParseInt(s: string, autoRadix: bool): JsNumber {
    var t := TrimStart(s);
    var u := Unsigned(t);
    var hex := autoRadix && HexPrefixed(u);
    match Magnitude(if hex then u[2..] else u, hex)
    case None => NaN
    case Some(m) =>
      var v: int := m;
      Int(if t != [] && t[0] == '-' then -v else v)
  }

  /** Text without any hexadecimal digit parses to NaN. */
  lemma NoDigitsNaN(s: string, autoRadix: bool)
    requires forall i :: 0 <= i < |s| ==> !IsHexDigit(s[i])
    ensures ParseInt(s, autoRadix) == NaN
  {
    var t := TrimStart(s);
    var u := Unsigned(t);
    assert u == s[|s| - |u|..];
    if u != [] {
      assert u[0] == s[|s| - |u|];
    }
  }

  /** The decimal text of an integer, as String(n) writes it. */
  function IntText(n: int): (s: string)
    ensures s != [] && (IsDigit(s[0]) || s[0] == '-')
  {
    if n < 0 then "-" + NatToString(-n) else NatToString(n)
  }

  lemma {:induction false} DigitRunOfNumber(n: nat, rest: string, hex: bool)
    requires rest == [] || !IsRadixDigit(rest[0], hex)
    requires !hex
    ensures DigitRun(NatToString(n) + rest, hex) == |NatToString(n)|
    ensures (NatToString(n) + rest)[..|NatToString(n)|] == NatToString(n)
  {
    var d := NatToString(n);
    DigitRunPrefix(d, rest, hex);
  }

  lemma {:induction false} DigitRunPrefix(d: string, rest: string, hex: bool)
    requires AllDigits(d) && !hex
    requires rest == [] || !IsRadixDigit(rest[0], hex)
    ensures DigitRun(d + rest, hex) == |d|
  {
    if d != [] {
      DigitRunPrefix(d[1..], rest, hex);
      assert (d + rest)[1..] == d[1..] + rest;
    } else {
      assert d + rest == rest;
    }
  }

  /** The digits of a rendered number, and nothing after them, are read. */
  lemma MagnitudeOfNumber(m: nat, rest: string)
    requires rest == [] || !IsDigit(rest[0])
    ensures Magnitude(NatToString(m) + rest, false) == Some(m)
  {
    DigitRunOfNumber(m, rest, false);
    NatToStringValue(m);
  }

  /** After the sign of a rendered integer come the digits of its magnitude. */
  lemma UnsignedText(n: int, rest: string)
    ensures TrimStart(IntText(n) + rest) == IntText(n) + rest
    ensures Unsigned(IntText(n) + rest) == NatToString(if n < 0 then -n else n) + rest
    ensures var t := IntText(n) + rest; (t != [] && t[0] == '-') <==> n < 0
  {
    var s := IntText(n) + rest;
    var d := NatToString(if n < 0 then -n else n);
    assert s[0] == IntText(n)[0];
    assert !IsJsSpace(s[0]);
    if n < 0 {
      assert s == ['-'] + (d + rest);
    } else {
      assert s == d + rest;
    }
  }

  /** parseInt reads back what String(n) wrote, with or without a radix,
      whatever non-digit text follows. */
  lemma {:induction false} ParseIntText(n: int, rest: string, autoRadix: bool)
    requires rest == [] || (!IsDigit(rest[0]) && (autoRadix ==> rest[0] != 'x' && rest[0] != 'X'))
    ensures ParseInt(IntText(n) + rest, autoRadix) == Int(n)
  {
    var m := if n < 0 then -n else n;
    var d := NatToString(m);
    var u := d + rest;
    UnsignedText(n, rest);
    assert !HexPrefixed(u) || !autoRadix by {
      if |u| >= 2 && u[0] == '0' {
        assert u[0] == d[0];
        assert |d| == 1;
        assert u[1] == rest[0];
      }
    }
    MagnitudeOfNumber(m, rest);
  }

  /** Trimming removes leading white space up to a non-space character. */
  lemma {:induction false} TrimStartPadded(pad: string, w: string)
    requires forall i :: 0 <= i < |pad| ==> IsJsSpace(pad[i])
    requires w == [] || !IsJsSpace(w[0])
    ensures TrimStart(pad + w) == w
  {
    if pad == [] {
      assert pad + w == w;
    } else {
      TrimStartPadded(pad[1..], w);
      assert (pad + w)[1..] == pad[1..] + w;
    }
  }

  /** The seven telemetry fields of a CSV message. */
  datatype Telemetry = Telemetry(aux: Float, batteryVoltage: Float, lat: Float, log: Float,
                                 speed: Float, sat: Float, time: JsNumber)

  /** The status record: the client count, and the telemetry fields once a
      CSV message has arrived. */
  datatype Status = Status(connectedClients: JsNumber, telemetry: Option<Telemetry>)

  const InitialStatus := Status(Int(0), None)

  /** event.data: text, or a Blob/ArrayBuffer for a binary message. */
  datatype Message = TextMessage(text: string) | BinaryMessage

  const ClientsPrefix := "ConnectedClients"

  lemma {:induction false} CountPositive(s: string, c: char)
    ensures Count(s, c) > 0 <==> c in s
  {
    if s != [] {
      CountPositive(s[1..], c);
      assert s == [s[0]] + s[1..];
    }
  }

  /** The status update of onmessage. A failure is the exception the handler
      throws, and the status is then left as it was. */
  function HandleMessage(prev: Status, m: Message): (r: Result<Status, string>)
    ensures r.Err? <==> m.BinaryMessage? || (StartsWith(m.text, ClientsPrefix) && ':' !in m.text)
    ensures r.Ok? && StartsWith(m.text, ClientsPrefix) ==> r.value.telemetry == prev.telemetry
    ensures r.Ok? && !StartsWith(m.text, ClientsPrefix) ==> r.value.connectedClients == prev.connectedClients
    ensures r.Ok? && !StartsWith(m.text, ClientsPrefix) && Count(m.text, ',') != 6 ==> r.value == prev
  {
    match m
    case BinaryMessage => Err("message.startsWith is not a function")
    case TextMessage(text) =>
      if StartsWith(text, ClientsPrefix) then
        var parts := Split(text, ':');
        SplitCount(text, ':');
        CountPositive(text, ':');
        if |parts| < 2 then Err("Cannot read properties of undefined (reading 'trim')")
        else Ok(prev.(connectedClients := ParseInt(Trim(parts[1]), false)))
      else if ',' in text then
        var parts := Split(text, ',');
        SplitCount(text, ',');
        if |parts| == 7 then
          Ok(prev.(telemetry := Some(Telemetry(ParsedFloat(parts[0]), ParsedFloat(parts[1]),
            ParsedFloat(parts[2]), ParsedFloat(parts[3]), ParsedFloat(parts[4]),
            ParsedFloat(parts[5]), ParseInt(parts[6], true)))))
        else Ok(prev)
      else
        CountPositive(text, ',');
        Ok(prev)
  }

  /** A message made of the prefix, a colon and colon-free text splits into
      the prefix and that text. */
  lemma SplitClientsMessage(w: string)
    requires ':' !in w
    ensures StartsWith(ClientsPrefix + ":" + w, ClientsPrefix)
    ensures Split(ClientsPrefix + ":" + w, ':') == [ClientsPrefix, w]
  {
    var text := ClientsPrefix + ":" + w;
    assert text == ClientsPrefix + [':'] + w;
    assert text[..|ClientsPrefix|] == ClientsPrefix;
    assert ':' !in ClientsPrefix;
    SplitAtFirst(ClientsPrefix, w, ':');
    SplitNoSeparator(w, ':');
  }

  /** A rendered integer is a sign and digits. */
  lemma IntTextChars(n: int)
    ensures forall i :: 0 <= i < |IntText(n)| ==> IntText(n)[i] == '-' || IsDigit(IntText(n)[i])
    ensures IsDigit(IntText(n)[|IntText(n)| - 1])
  {
    var s := IntText(n);
    var d := NatToString(if n < 0 then -n else n);
    if n < 0 {
      assert forall i :: 1 <= i < |s| ==> s[i] == d[i - 1];
    }
    assert s[|s| - 1] == d[|d| - 1];
  }

  /** Padding and a rendered integer hold no colon. */
  lemma PaddedNumberColonFree(pad: string, n: int)
    requires forall i :: 0 <= i < |pad| ==> IsJsSpace(pad[i])
    ensures ':' !in pad + IntText(n)
  {
    var s := IntText(n);
    var w := pad + s;
    IntTextChars(n);
    forall i | 0 <= i < |w|
      ensures w[i] != ':'
    {
      if i < |pad| {
        assert w[i] == pad[i];
        assert IsJsSpace(pad[i]);
      } else {
        assert w[i] == s[i - |pad|];
      }
    }
  }

  /** Trimming padding off a rendered integer leaves the integer. */
  lemma PaddedNumberTrim(pad: string, n: int)
    requires forall i :: 0 <= i < |pad| ==> IsJsSpace(pad[i])
    ensures Trim(pad + IntText(n)) == IntText(n)
  {
    var s := IntText(n);
    IntTextChars(n);
    TrimStartPadded(pad, s);
    assert !IsJsSpace(s[|s| - 1]);
  }

  /** "ConnectedClients:" followed by optional white space and a number sets
      the count to that number and keeps the telemetry. */
  lemma ConnectedClientsMessage(prev: Status, pad: string, n: int)
    requires forall i :: 0 <= i < |pad| ==> IsJsSpace(pad[i])
    ensures HandleMessage(prev, TextMessage(ClientsPrefix + ":" + (pad + IntText(n))))
         == Ok(prev.(connectedClients := Int(n)))
  {
    PaddedNumberColonFree(pad, n);
    PaddedNumberTrim(pad, n);
    SplitClientsMessage(pad + IntText(n));
    ParseIntText(n, "", false);
    assert IntText(n) + "" == IntText(n);
  }

  /** Seven comma-free fields joined by commas set the telemetry fields in
      that order and keep the client count. */
  lemma CsvMessage(prev: Status, fields: seq<string>)
    requires |fields| == 7
    requires forall i :: 0 <= i < 7 ==> ',' !in fields[i]
    requires !StartsWith(Join(fields, ','), ClientsPrefix)
    ensures HandleMessage(prev, TextMessage(Join(fields, ',')))
         == Ok(prev.(telemetry := Some(Telemetry(ParsedFloat(fields[0]), ParsedFloat(fields[1]),
              ParsedFloat(fields[2]), ParsedFloat(fields[3]), ParsedFloat(fields[4]),
              ParsedFloat(fields[5]), ParseInt(fields[6], true)))))
  {
    var text := Join(fields, ',');
    SplitJoin(fields, ',');
    SplitCount(text, ',');
    CountPositive(text, ',');
  }

  /** The state of the hook: the socket ref (None while it is null), the
      status, the connection flag, and the data sent so far. */
  class Hook {
    var socket: Option<ReadyState>
    var status: Status
    var connection: bool
    var sent: seq<string>

    /** First render: no socket yet, `{connectedClients: 0}`, not connected. */
    constructor ()
      ensures socket == None && status == InitialStatus && !connection && sent == []
    {
      socket := None;
      status := InitialStatus;
      connection := false;
      sent := [];
    }

    /** The effect: a new socket, still connecting. */
    method Connect()
      modifies this
      ensures socket == Some(Connecting)
      ensures status == old(status) && connection == old(connection) && sent == old(sent)
    {
      socket := Some(Connecting);
    }

    /** onopen */
    method OnOpen()
      modifies this
      ensures socket == Some(Open) && connection
      ensures status == old(status) && sent == old(sent)
    {
      socket := Some(Open);
      connection := true;
    }

    /** onclose */
    method OnClose()
      modifies this
      ensures socket == Some(Closed) && !connection
      ensures status == old(status) && sent == old(sent)
    {
      socket := Some(Closed);
      connection := false;
    }

    /** onmessage: the status takes the update; a thrown error leaves it. */
    method OnMessage(m: Message) returns (error: Option<string>)
      modifies this
      ensures HandleMessage(old(status), m).Ok? ==> status == HandleMessage(old(status), m).value && error == None
      ensures HandleMessage(old(status), m).Err? ==> status == old(status) && error == Some(HandleMessage(old(status), m).error)
      ensures socket == old(socket) && connection == old(connection) && sent == old(sent)
    {
      var r := HandleMessage(status, m);
      if r.Ok? {
        status := r.value;
        error := None;
      } else {
        error := Some(r.error);
      }
    }

    /** send: only an open socket transmits; otherwise the flag drops. */
    method Send(data: string)
      modifies this
      ensures socket == Some(Open) ==> sent == old(sent) + [data] && connection == old(connection)
      ensures socket != Some(Open) ==> sent == old(sent) && !connection
      ensures socket == old(socket) && status == old(status)
    {
      if socket.Some? && socket.value == Open {
        sent := sent + [data];
      } else {
        connection := false;
      }
    }

    /** The effect's cleanup: close() moves a live socket to Closing. */
    method Cleanup()
      modifies this
      ensures socket == (if old(socket) == Some(Connecting) || old(socket) == Some(Open) then Some(Closing) else old(socket))
      ensures status == old(status) && connection == old(connection) && sent == old(sent)
    {
      if socket.Some? && (socket.value == Connecting || socket.value == Open) {
        socket := Some(Closing);
      }
    }
  }
}
