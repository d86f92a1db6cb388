/** The camera device's signalling peer (RTC_Server.py).

    It parses the ICE candidate lines the browser sends by position: any eight
    or more fields whose second, fourth and sixth are integers are accepted,
    the "typ" keyword is not checked, and the related address and port are
    found by key. A line written after the candidate-attribute grammar of
    section 5.1 of RFC 8839 is read back exactly. It rewrites the SDP of its
    offer to carry two bitrate attributes after every video media line (section 5.14 of
    RFC 8866), dispatches the frames of the signalling socket, and keeps at most
    one live peer connection and camera track in the globals `pc` and `track`. */
module RtcServer {
  import opened Wrappers
  import opened Text
  import opened Signal

  // ---------------------------------------------------------------------------
  // Python string primitives: str.strip(), str.split(), int()

  /** The characters Python's str.isspace() accepts. */
  predicate IsSpace(c: char) {
    var n := c as int;
    n == 0x20 || 0x09 <= n <= 0x0D || 0x1C <= n <= 0x1F || n == 0x85 || n == 0xA0
    || n == 0x1680 || 0x2000 <= n <= 0x200A || n == 0x2028 || n == 0x2029
    || n == 0x202F || n == 0x205F || n == 0x3000
  }

  predicate NoSpace(s: string) {
    forall i :: 0 <= i < |s| ==> !IsSpace(s[i])
  }

  /** s.lstrip() */
  function TrimStart(s: string): string {
    if s != [] && IsSpace(s[0]) then TrimStart(s[1..]) else s
  }

  /** s.rstrip() */
  function TrimEnd(s: string): string {
    if s != [] && IsSpace(s[|s| - 1]) then TrimEnd(s[..|s| - 1]) else s
  }

  /** lstrip keeps a suffix, removes only white space, and stops at the
      first character that is not white space. */
  lemma {:induction false} TrimStartFacts(s: string)
    ensures var r := TrimStart(s);
      && |r| <= |s| && r == s[|s| - |r|..]
      && (r == [] || !IsSpace(r[0]))
      && forall i :: 0 <= i < |s| - |r| ==> IsSpace(s[i])
  {
    if s != [] && IsSpace(s[0]) {
      TrimStartFacts(s[1..]);
      var r := TrimStart(s);
      assert s[1..][|s| - 1 - |r|..] == s[|s| - |r|..];
      forall i | 1 <= i < |s| - |r|
        ensures IsSpace(s[i])
      {
        assert s[i] == s[1..][i - 1];
      }
    }
  }

  /** rstrip keeps a prefix, removes only white space, and stops at the last
      character that is not white space. */
  lemma {:induction false} TrimEndFacts(s: string)
    ensures var r := TrimEnd(s);
      && |r| <= |s| && r == s[..|r|]
      && (r == [] || !IsSpace(r[|r| - 1]))
      && forall i :: |r| <= i < |s| ==> IsSpace(s[i])
  {
    if s != [] && IsSpace(s[|s| - 1]) {
      var p := s[..|s| - 1];
      TrimEndFacts(p);
      var r := TrimEnd(s);
      assert p[..|r|] == s[..|r|];
      forall i | |r| <= i < |s| - 1
        ensures IsSpace(s[i])
      {
        assert s[i] == p[i];
      }
    }
  }

  /** s.strip() */
  function Strip(s: string): string {
    TrimEnd(TrimStart(s))
  }

  /** Length of the run of non-space characters that starts `s`. */
  function WordEnd(s: string): (n: nat)
    ensures n <= |s| && NoSpace(s[..n]) && (n == |s| || IsSpace(s[n]))
  {
    if s == [] || IsSpace(s[0]) then 0 else 1 + WordEnd(s[1..])
  }

  /** s.split(): the maximal runs of non-space characters, in order. */
  function Words(s: string): (ws: seq<string>)
    ensures forall i :: 0 <= i < |ws| ==> ws[i] != [] && NoSpace(ws[i])
    decreases |s|
  {
    if s == [] then []
    else if IsSpace(s[0]) then Words(s[1..])
    else
      var n := WordEnd(s);
      [s[..n]] + Words(s[n..])
  }

  /** " ".join(ws) */
  function Unwords(ws: seq<string>): string {
    if ws == [] then "" else if |ws| == 1 then ws[0] else ws[0] + " " + Unwords(ws[1..])
  }

  predicate IsToken(w: string) {
    w != [] && NoSpace(w)
  }

  lemma {:induction false} WordEndOfToken(w: string, rest: string)
    requires IsToken(w)
    requires rest == [] || IsSpace(rest[0])
    ensures WordEnd(w + rest) == |w|
  {
    if |w| > 1 {
      assert (w + rest)[1..] == w[1..] + rest;
      WordEndOfToken(w[1..], rest);
    }
  }

  /** Splitting tokens joined by single spaces gives the tokens back. */
  lemma {:induction false} WordsUnwords(ws: seq<string>)
    requires forall i :: 0 <= i < |ws| ==> IsToken(ws[i])
    ensures Words(Unwords(ws)) == ws
  {
    if |ws| == 1 {
      WordEndOfToken(ws[0], "");
      assert ws[0] + "" == ws[0];
    } else if |ws| > 1 {
      var s := Unwords(ws);
      var rest := Unwords(ws[1..]);
      assert s == ws[0] + (" " + rest);
      WordEndOfToken(ws[0], " " + rest);
      assert s[..|ws[0]|] == ws[0];
      assert s[|ws[0]|..] == " " + rest;
      assert (" " + rest)[1..] == rest;
      WordsUnwords(ws[1..]);
    }
  }

  /** Python's int() of a decimal string: an optional sign, then digits in
      groups joined by single underscores. */
  predicate DigitGroups(s: string) {
    && |s| > 0 && IsDigit(s[0]) && IsDigit(s[|s| - 1])
    && forall i :: 0 <= i < |s| ==>
         IsDigit(s[i]) || (s[i] == '_' && 0 < i < |s| - 1 && IsDigit(s[i - 1]) && IsDigit(s[i + 1]))
  }

  /** The digits of `s`, underscores dropped. */
  function Digits(s: string): (d: string)
    ensures AllDigits(d)
  {
    if s == [] then [] else (if IsDigit(s[0]) then [s[0]] else []) + Digits(s[1..])
  }

  function PyInt(s: string): Option<int> {
    if |s| > 0 && (s[0] == '-' || s[0] == '+') then
      if DigitGroups(s[1..]) then
        var v: int := DigitsValue(Digits(s[1..]));
        Some(if s[0] == '-' then -v else v)
      else None
    else if DigitGroups(s) then Some(DigitsValue(Digits(s)))
    else None
  }

  /** str(n) */
  function IntToString(n: int): string {
    if n < 0 then "-" + NatToString(-n) else NatToString(n)
  }

  lemma {:induction false} DigitsOfDigits(s: string)
    requires AllDigits(s)
    ensures Digits(s) == s
  {
    if s != [] {
      DigitsOfDigits(s[1..]);
    }
  }

  lemma AllDigitsGroups(d: string)
    requires d != [] && AllDigits(d)
    ensures DigitGroups(d)
  {
  }

  lemma PyIntNegative(d: string)
    requires DigitGroups(d)
    ensures PyInt("-" + d) == Some(-(DigitsValue(Digits(d)) as int))
  {
    assert ("-" + d)[1..] == d;
  }

  lemma PyIntUnsigned(d: string)
    requires DigitGroups(d)
    ensures PyInt(d) == Some(DigitsValue(Digits(d)))
  {
    assert IsDigit(d[0]);
  }

  /** int(str(n)) == n */
  lemma PyIntOfString(n: int)
    ensures PyInt(IntToString(n)) == Some(n)
  {
    var m: nat := if n < 0 then -n else n;
    var d := NatToString(m);
    DigitsOfDigits(d);
    NatToStringValue(m);
    AllDigitsGroups(d);
    if n < 0 {
      PyIntNegative(d);
    } else {
      PyIntUnsigned(d);
    }
  }

  lemma IntToStringIsToken(n: int)
    ensures IsToken(IntToString(n))
  {
    var m: nat := if n < 0 then -n else n;
    var d := NatToString(m);
    assert forall i :: 0 <= i < |d| ==> !IsSpace(d[i]);
  }

  // ---------------------------------------------------------------------------
  // ICE candidate lines

  /** The `candidate` object of an inbound frame; a missing "candidate" key is "". */
  datatype CandidateDict = CandidateDict(candidate: string, sdpMid: Option<string>, sdpMLineIndex: Option<int>)

  /** The fields handed to aiortc's RTCIceCandidate. */
  datatype Candidate = Candidate(
    foundation: string, component: int, protocol: string, priority: int,
    ip: string, port: int, candidateType: string,
    relatedAddress: Option<string>, relatedPort: Option<int>,
    sdpMid: Option<string>, sdpMLineIndex: Option<int>)

  datatype CandidateError = TooShort | NotAnInteger(text: string) | MissingValue(key: string)

  datatype Related = Related(address: Option<string>, port: Option<int>)

  /** The candidate text, stripped, without a leading "candidate:", stripped again. */
  function CandidateBody(text: string): string {
    var t := Strip(text);
    if StartsWith(t, "candidate:") then Strip(t[10..]) else t
  }

  /** The `raddr`/`rport` search over offsets i, i+2, ...: each key takes the
      token after it, a key in last place has no value (an IndexError in the
      source), and an rport value must be an integer. */
  function ScanRelated(parts: seq<string>, i: nat, acc: Related): Result<Related, CandidateError>
    decreases |parts| - i
  {
    if i >= |parts| then Ok(acc)
    else if parts[i] == "raddr" then
      if i + 1 >= |parts| then Err(MissingValue("raddr"))
      else ScanRelated(parts, i + 2, acc.(address := Some(parts[i + 1])))
    else if parts[i] == "rport" then
      if i + 1 >= |parts| then Err(MissingValue("rport"))
      else
        match PyInt(parts[i + 1])
        case None => Err(NotAnInteger(parts[i + 1]))
        case Some(p) => ScanRelated(parts, i + 2, acc.(port := Some(p)))
    else ScanRelated(parts, i + 2, acc)
  }

  /** The loop of the source over range(8, len(parts), 2). */
  method FindRelated(parts: seq<string>) returns (r: Result<Related, CandidateError>)
    ensures r == ScanRelated(parts, 8, Related(None, None))
  {
    var address: Option<string> := None;
    var port: Option<int> := None;
    var i := 8;
    while i < |parts|
      invariant i >= 8
      invariant ScanRelated(parts, i, Related(address, port)) == ScanRelated(parts, 8, Related(None, None))
      decreases |parts| - i
    {
      if parts[i] == "raddr" {
        if i + 1 >= |parts| {
          return Err(MissingValue("raddr"));
        }
        address := Some(parts[i + 1]);
      } else if parts[i] == "rport" {
        if i + 1 >= |parts| {
          return Err(MissingValue("rport"));
        }
        var p := PyInt(parts[i + 1]);
        if p.None? {
          return Err(NotAnInteger(parts[i + 1]));
        }
        port := p;
      }
      i := i + 2;
    }
    return Ok(Related(address, port));
  }

  /** Independent reference for the related fields: the token after the LAST
      `key` among the first k scanned offsets 8, 10, ..., 8 + 2(k-1). */
  function LastValue(parts: seq<string>, key: string, k: nat): Option<string> {
    if k == 0 then None
    else
      var p := 8 + 2 * (k - 1);
      if p + 1 < |parts| && parts[p] == key then Some(parts[p + 1])
      else LastValue(parts, key, k - 1)
  }

  /** How many offsets the scan visits. */
  function ScanCount(parts: seq<string>): nat {
    if |parts| <= 8 then 0 else (|parts| - 7) / 2
  }

  predicate RelatedAgrees(acc: Related, parts: seq<string>, k: nat) {
    && acc.address == LastValue(parts, "raddr", k)
    && (acc.port.None? <==> LastValue(parts, "rport", k).None?)
    && (acc.port.Some? ==> PyInt(LastValue(parts, "rport", k).value) == acc.port)
  }

  /** The accumulator after the scan visits offset i. */
  function ScanNext(parts: seq<string>, i: nat, acc: Related): Related
    requires i < |parts|
  {
    if i + 1 >= |parts| then acc
    else if parts[i] == "raddr" then acc.(address := Some(parts[i + 1]))
    else if parts[i] == "rport" then acc.(port := PyInt(parts[i + 1]))
    else acc
  }

  /** One step of the scan keeps the accumulator equal to the last occurrences. */
  lemma ScanStep(parts: seq<string>, k: nat, acc: Related)
    requires 8 + 2 * k < |parts|
    requires RelatedAgrees(acc, parts, k)
    requires parts[8 + 2 * k] == "rport" && 8 + 2 * k + 1 < |parts| ==> PyInt(parts[8 + 2 * k + 1]).Some?
    ensures RelatedAgrees(ScanNext(parts, 8 + 2 * k, acc), parts, k + 1)
  {
    var p := 8 + 2 * k;
    assert p == 8 + 2 * ((k + 1) - 1);
    if parts[p] == "rport" && p + 1 < |parts| {
      assert LastValue(parts, "rport", k + 1) == Some(parts[p + 1]);
    }
  }

  lemma {:induction false} ScanFindsLast(parts: seq<string>, k: nat, acc: Related)
    requires k <= ScanCount(parts)
    requires RelatedAgrees(acc, parts, k)
    requires ScanRelated(parts, 8 + 2 * k, acc).Ok?
    ensures RelatedAgrees(ScanRelated(parts, 8 + 2 * k, acc).value, parts, ScanCount(parts))
    decreases ScanCount(parts) - k
  {
    var i := 8 + 2 * k;
    if i >= |parts| {
      assert k == ScanCount(parts);
    } else {
      assert k < ScanCount(parts);
      var next := ScanNext(parts, i, acc);
      assert ScanRelated(parts, i, acc) == ScanRelated(parts, 8 + 2 * (k + 1), next);
      ScanStep(parts, k, acc);
      ScanFindsLast(parts, k + 1, next);
    }
  }

  /** raddr/rport are the values after the last occurrence of their key at
      the scanned offsets, and None when the key does not occur there. */
  lemma RelatedIsLastOccurrence(parts: seq<string>)
    requires ScanRelated(parts, 8, Related(None, None)).Ok?
    ensures var rel := ScanRelated(parts, 8, Related(None, None)).value;
      && rel.address == LastValue(parts, "raddr", ScanCount(parts))
      && (rel.port.Some? <==> LastValue(parts, "rport", ScanCount(parts)).Some?)
      && (rel.port.Some? ==> Some(rel.port.value) == PyInt(LastValue(parts, "rport", ScanCount(parts)).value))
  {
    ScanFindsLast(parts, 0, Related(None, None));
  }

  /** The candidate handler's parse: positional fields after the split, at
      least eight of them, three integers, and the related-address search. */
  function ParseCandidate(d: CandidateDict): Result<Candidate, CandidateError> {
    ParseParts(Words(CandidateBody(d.candidate)), d.sdpMid, d.sdpMLineIndex)
  }

  /** The candidate built from the split fields. */
  function ParseParts(parts: seq<string>, sdpMid: Option<string>, sdpMLineIndex: Option<int>): Result<Candidate, CandidateError> {
    if |parts| < 8 then Err(TooShort)
    else
      var component := PyInt(parts[1]);
      if component.None? then Err(NotAnInteger(parts[1]))
      else
        var priority := PyInt(parts[3]);
        if priority.None? then Err(NotAnInteger(parts[3]))
        else
          var port := PyInt(parts[5]);
          if port.None? then Err(NotAnInteger(parts[5]))
          else
            match ScanRelated(parts, 8, Related(None, None))
            case Err(e) => Err(e)
            case Ok(rel) =>
              Ok(Candidate(parts[0], component.value, Lower(parts[2]), priority.value, parts[4],
                           port.value, parts[7], rel.address, rel.port, sdpMid, sdpMLineIndex))
  }

  /** Fewer than eight fields, a non-integer component, priority or port, or a
      failing related-address search is rejected, and nothing else is; an
      accepted candidate has the positional fields, with the transport
      lower-cased, the values after the last "raddr" and "rport" keys, and the
      frame's sdpMid and sdpMLineIndex. */
  lemma ParseCandidateFields(d: CandidateDict)
    ensures var parts, r := Words(CandidateBody(d.candidate)), ParseCandidate(d);
      && (|parts| < 8 ==> r == Err(TooShort))
      && (r.Ok? ==>
            && |parts| >= 8
            && r.value.foundation == parts[0] && r.value.protocol == Lower(parts[2])
            && Some(r.value.component) == PyInt(parts[1]) && Some(r.value.priority) == PyInt(parts[3])
            && r.value.ip == parts[4] && Some(r.value.port) == PyInt(parts[5])
            && r.value.candidateType == parts[7]
            && r.value.sdpMid == d.sdpMid && r.value.sdpMLineIndex == d.sdpMLineIndex)
      && (&& |parts| >= 8
          && (PyInt(parts[1]).None? || PyInt(parts[3]).None? || PyInt(parts[5]).None?)
          ==> r.Err?)
      && (&& |parts| >= 8
          && PyInt(parts[1]).Some? && PyInt(parts[3]).Some? && PyInt(parts[5]).Some?
          && ScanRelated(parts, 8, Related(None, None)).Ok?
          ==> r.Ok?)
      && (|parts| >= 8 && ScanRelated(parts, 8, Related(None, None)).Err? ==> r.Err?)
    ensures var parts, r := Words(CandidateBody(d.candidate)), ParseCandidate(d);
      r.Ok? ==>
        && r.value.relatedAddress == LastValue(parts, "raddr", ScanCount(parts))
        && (r.value.relatedPort.Some? <==> LastValue(parts, "rport", ScanCount(parts)).Some?)
        && (r.value.relatedPort.Some? ==>
              Some(r.value.relatedPort.value) == PyInt(LastValue(parts, "rport", ScanCount(parts)).value))
  {
    var parts := Words(CandidateBody(d.candidate));
    if ParseCandidate(d).Ok? {
      RelatedIsLastOccurrence(parts);
    }
  }

  /** The tokens of a candidate line: foundation, component, transport,
      priority, address, port, "typ", type, then the optional related address
      and port. */
  function CandidateTokens(c: Candidate): seq<string> {
    [c.foundation, IntToString(c.component), c.protocol, IntToString(c.priority),
     c.ip, IntToString(c.port), "typ", c.candidateType]
    + (if c.relatedAddress.Some? then ["raddr", c.relatedAddress.value] else [])
    + (if c.relatedPort.Some? then ["rport", IntToString(c.relatedPort.value)] else [])
  }

  /** A candidate line as the browser writes it. */
  function FormatCandidate(c: Candidate): string {
    "candidate:" + Unwords(CandidateTokens(c))
  }

  predicate WellFormed(c: Candidate) {
    && IsToken(c.foundation) && IsToken(c.protocol) && Lower(c.protocol) == c.protocol
    && IsToken(c.ip) && IsToken(c.candidateType)
    && (c.relatedAddress.Some? ==> IsToken(c.relatedAddress.value))
  }

  lemma StripToken(s: string)
    requires s != [] && !IsSpace(s[0]) && !IsSpace(s[|s| - 1])
    ensures Strip(s) == s
  {
  }

  lemma {:induction false} UnwordsEnds(ws: seq<string>)
    requires |ws| > 0 && forall i :: 0 <= i < |ws| ==> IsToken(ws[i])
    requires ws[0] != [] && ws[|ws| - 1] != []
    ensures var s := Unwords(ws); s != [] && s[0] == ws[0][0] && s[|s| - 1] == ws[|ws| - 1][|ws[|ws| - 1]| - 1]
  {
    if |ws| > 1 {
      UnwordsEnds(ws[1..]);
    }
  }

  lemma CandidateTokensAreTokens(c: Candidate)
    requires WellFormed(c)
    ensures |CandidateTokens(c)| >= 8
    ensures forall i :: 0 <= i < |CandidateTokens(c)| ==> IsToken(CandidateTokens(c)[i])
  {
    IntToStringIsToken(c.component);
    IntToStringIsToken(c.priority);
    IntToStringIsToken(c.port);
    if c.relatedPort.Some? {
      IntToStringIsToken(c.relatedPort.value);
    }
  }

  /** Stripping and the prefix removal leave exactly the tokens' line. */
  lemma CandidateBodyOfFormatted(c: Candidate)
    requires WellFormed(c)
    ensures CandidateBody(FormatCandidate(c)) == Unwords(CandidateTokens(c))
  {
    var ts := CandidateTokens(c);
    CandidateTokensAreTokens(c);
    var body := Unwords(ts);
    UnwordsEnds(ts);
    var text := FormatCandidate(c);
    assert text == "candidate:" + body;
    StripToken(text);
    assert text[..10] == "candidate:";
    assert text[10..] == body;
    StripToken(body);
  }

  /** The related-address search finds the optional trailing fields. */
  lemma ScanOfTokens(c: Candidate)
    requires WellFormed(c)
    ensures ScanRelated(CandidateTokens(c), 8, Related(None, None)) == Ok(Related(c.relatedAddress, c.relatedPort))
  {
    var ts := CandidateTokens(c);
    if c.relatedPort.Some? {
      PyIntOfString(c.relatedPort.value);
    }
    if c.relatedAddress.Some? {
      assert ts[8] == "raddr" && ts[9] == c.relatedAddress.value;
      var acc := Related(c.relatedAddress, None);
      assert ScanRelated(ts, 8, Related(None, None)) == ScanRelated(ts, 10, acc);
      if c.relatedPort.Some? {
        assert ts[10] == "rport" && ts[11] == IntToString(c.relatedPort.value) && |ts| == 12;
        assert ScanRelated(ts, 10, acc) == ScanRelated(ts, 12, acc.(port := c.relatedPort));
      }
    } else if c.relatedPort.Some? {
      assert ts[8] == "rport" && ts[9] == IntToString(c.relatedPort.value) && |ts| == 10;
      assert ScanRelated(ts, 8, Related(None, None)) == ScanRelated(ts, 10, Related(None, c.relatedPort));
    }
  }

  /** Parsing a well-formed candidate line gives back the candidate. */
  lemma ParseFormatted(c: Candidate)
    requires WellFormed(c)
    ensures ParseCandidate(CandidateDict(FormatCandidate(c), c.sdpMid, c.sdpMLineIndex)) == Ok(c)
  {
    var ts := CandidateTokens(c);
    CandidateTokensAreTokens(c);
    CandidateBodyOfFormatted(c);
    WordsUnwords(ts);
    ParseTokens(c);
  }

  /** The fields of a candidate's tokens are the candidate's fields. */
  lemma ParseTokens(c: Candidate)
    requires WellFormed(c)
    ensures ParseParts(CandidateTokens(c), c.sdpMid, c.sdpMLineIndex) == Ok(c)
  {
    var ts := CandidateTokens(c);
    PyIntOfString(c.component);
    PyIntOfString(c.priority);
    PyIntOfString(c.port);
    ScanOfTokens(c);
    assert Lower(ts[2]) == c.protocol;
  }

  /** The outbound candidate frame of `on_icecandidate`: a falsy sdpMid (None
      or "") becomes "0", a falsy sdpMLineIndex (None or 0) becomes 0. */
  function OutboundCandidate(candidate: string, sdpMid: Option<string>, sdpMLineIndex: Option<int>): (f: Frame)
    ensures f.IceCandidate? && f.candidate == candidate
    ensures f.sdpMid.Some? && f.sdpMid.value != ""
    ensures f.sdpMid == (if sdpMid.Some? && sdpMid.value != "" then sdpMid else Some("0"))
    ensures f.sdpMLineIndex == Some(if sdpMLineIndex.Some? then sdpMLineIndex.value else 0)
  {
    IceCandidate(candidate,
                 Some(if sdpMid.Some? && sdpMid.value != "" then sdpMid.value else "0"),
                 Some(if sdpMLineIndex.Some? && sdpMLineIndex.value != 0 then sdpMLineIndex.value else 0))
  }

  // ---------------------------------------------------------------------------
  // SDP bitrate lines

  const MaxBitrateLine := "a=x-google-max-bitrate=2000"
  const MinBitrateLine := "a=x-google-min-bitrate=500"

  const VideoPrefix := "m=video"

  /** line.startswith("m=video"), compared character by character. */
  predicate IsVideoLine(line: string) {
    |line| >= |VideoPrefix| && forall k :: 0 <= k < |VideoPrefix| ==> line[k] == VideoPrefix[k]
  }

  lemma IsVideoLineStartsWith(line: string)
    ensures IsVideoLine(line) <==> StartsWith(line, VideoPrefix)
  {
    if StartsWith(line, VideoPrefix) {
      forall k | 0 <= k < |VideoPrefix|
        ensures line[k] == VideoPrefix[k]
      {
        assert line[..|VideoPrefix|][k] == line[k];
      }
    }
    if IsVideoLine(line) {
      assert line[..|VideoPrefix|] == VideoPrefix;
    }
  }

  /** One original line and what follows it in the rewritten SDP. */
  function Expand(line: string): seq<string> {
    if IsVideoLine(line) then [line, MaxBitrateLine, MinBitrateLine] else [line]
  }

  function WithBitrateLines(lines: seq<string>): seq<string> {
    if lines == [] then [] else Expand(lines[0]) + WithBitrateLines(lines[1..])
  }

  /** The rewrite works line by line, so it distributes over concatenation. */
  lemma {:induction false} WithBitrateLinesConcat(a: seq<string>, b: seq<string>)
    ensures WithBitrateLines(a + b) == WithBitrateLines(a) + WithBitrateLines(b)
  {
    if a == [] {
      assert a + b == b;
    } else {
      assert (a + b)[1..] == a[1..] + b;
      WithBitrateLinesConcat(a[1..], b);
    }
  }

  /** The rewriting loop of create_and_send_offer. */
  method InsertBitrateLines(lines: seq<string>) returns (out: seq<string>)
    ensures out == WithBitrateLines(lines)
  {
    out := [];
    for i := 0 to |lines|
      invariant out == WithBitrateLines(lines[..i])
    {
      var line := lines[i];
      WithBitrateLinesConcat(lines[..i], [line]);
      assert lines[..i + 1] == lines[..i] + [line];
      out := out + [line];
      IsVideoLineStartsWith(line);
      if StartsWith(line, "m=video") {
        out := out + [MaxBitrateLine];
        out := out + [MinBitrateLine];
      }
    }
    assert lines[..|lines|] == lines;
  }

  function VideoCount(lines: seq<string>): nat {
    if lines == [] then 0 else (if IsVideoLine(lines[0]) then 1 else 0) + VideoCount(lines[1..])
  }

  /** Two lines are added per video media line and none otherwise. */
  lemma {:induction false} WithBitrateLinesLength(lines: seq<string>)
    ensures |WithBitrateLines(lines)| == |lines| + 2 * VideoCount(lines)
  {
    if lines != [] {
      WithBitrateLinesLength(lines[1..]);
    }
  }

  /** Where original line i lands in the rewritten SDP. */
  function Position(lines: seq<string>, i: nat): nat
    requires i <= |lines|
  {
    i + 2 * VideoCount(lines[..i])
  }

  lemma {:induction false} VideoCountAppend(lines: seq<string>, line: string)
    ensures VideoCount(lines + [line]) == VideoCount(lines) + (if IsVideoLine(line) then 1 else 0)
  {
    if lines != [] {
      assert (lines + [line])[1..] == lines[1..] + [line];
      VideoCountAppend(lines[1..], line);
    }
  }

  /** Every original line is kept, in order, and each video media line is
      followed by exactly the maximum then the minimum bitrate line. */
  lemma {:induction false} WithBitrateLinesAt(lines: seq<string>, i: nat)
    requires i < |lines|
    ensures var out, p := WithBitrateLines(lines), Position(lines, i);
      && |out| == |lines| + 2 * VideoCount(lines)
      && p < |out| && out[p] == lines[i]
      && (IsVideoLine(lines[i]) ==> p + 2 < |out| && out[p + 1] == MaxBitrateLine && out[p + 2] == MinBitrateLine)
      && (!IsVideoLine(lines[i]) && i + 1 < |lines| ==> Position(lines, i + 1) == p + 1)
      && (IsVideoLine(lines[i]) && i + 1 < |lines| ==> Position(lines, i + 1) == p + 3)
  {
    var out, p := WithBitrateLines(lines), Position(lines, i);
    var e, rest := Expand(lines[0]), lines[1..];
    WithBitrateLinesLength(lines);
    assert out == e + WithBitrateLines(rest);
    PositionStep(lines, i);
    if i + 1 < |lines| {
      PositionStep(lines, i + 1);
    }
    if i > 0 {
      WithBitrateLinesAt(rest, i - 1);
    }
  }

  /** Positions after the first line are shifted by that line's expansion. */
  lemma PositionStep(lines: seq<string>, i: nat)
    requires 0 < |lines| && i <= |lines|
    ensures Position(lines, i) ==
      if i == 0 then 0 else |Expand(lines[0])| + Position(lines[1..], i - 1)
  {
    if i > 0 {
      assert lines[..i][1..] == lines[1..][..i - 1];
    } else {
      assert lines[..0] == [];
    }
  }

  /** Inverse of the rewrite: drop the two lines that follow each video line. */
  function DropBitrateLines(out: seq<string>): seq<string>
    decreases |out|
  {
    if out == [] then []
    else if IsVideoLine(out[0]) && |out| >= 3 && out[1] == MaxBitrateLine && out[2] == MinBitrateLine
    then [out[0]] + DropBitrateLines(out[3..])
    else [out[0]] + DropBitrateLines(out[1..])
  }

  /** Nothing of the original SDP is lost or reordered. */
  lemma {:induction false} DropWithBitrateLines(lines: seq<string>)
    ensures DropBitrateLines(WithBitrateLines(lines)) == lines
  {
    if lines != [] {
      var out := WithBitrateLines(lines);
      DropWithBitrateLines(lines[1..]);
      if IsVideoLine(lines[0]) {
        assert out[3..] == WithBitrateLines(lines[1..]);
      } else {
        assert out[1..] == WithBitrateLines(lines[1..]);
      }
    }
  }

  /** The line boundaries of Python's str.splitlines(). */
  predicate IsLineBreak(c: char) {
    var n := c as int;
    0x0A <= n <= 0x0D || 0x1C <= n <= 0x1E || n == 0x85 || n == 0x2028 || n == 0x2029
  }

  function LineEnd(s: string): (n: nat)
    ensures n <= |s| && (n == |s| || IsLineBreak(s[n]))
    ensures forall i :: 0 <= i < n ==> !IsLineBreak(s[i])
  {
    if s == [] || IsLineBreak(s[0]) then 0 else 1 + LineEnd(s[1..])
  }

  /** s.splitlines(): "\r\n" is one boundary; a final boundary adds no empty line. */
  function SplitLines(s: string): seq<string>
    decreases |s|
  {
    if s == [] then []
    else
      var n := LineEnd(s);
      if n == |s| then [s]
      else
        var skip := if s[n] == '\r' && n + 1 < |s| && s[n + 1] == '\n' then 2 else 1;
        [s[..n]] + SplitLines(s[n + skip..])
  }

  /** "\n".join(lines) */
  function JoinLines(lines: seq<string>): string {
    if lines == [] then "" else if |lines| == 1 then lines[0] else lines[0] + "\n" + JoinLines(lines[1..])
  }

  /** The SDP of the offer the device sends. */
  function RewriteSdp(sdp: string): string {
    JoinLines(WithBitrateLines(SplitLines(sdp)))
  }

  // ---------------------------------------------------------------------------
  // Message dispatch and the single connection

  /** A parsed JSON object of the signalling socket; a key that is absent is None. */
  datatype DeviceMessage = DeviceMessage(
    action: Option<string>, sdp: Option<string>, kind: Option<string>, candidate: Option<CandidateDict>)

  datatype DeviceInbound = BinaryFrame | NotJson | Json(msg: DeviceMessage)

  datatype DeviceAction =
    | CreateOffer
    | ApplyAnswer(sdp: string)
    | ApplyCandidate(init: CandidateDict)
    | Ignore

  /** The branches of the message loop, tried in order: an offer request,
      then an answer and a candidate, both only while a connection exists.
      An SDP frame without "type" raises KeyError and is dropped. */
  function Dispatch(m: DeviceInbound, hasPc: bool): (a: DeviceAction)
    ensures m.Json? && m.msg.action == Some("request-offer") ==> a == CreateOffer
    ensures a == CreateOffer ==> m.Json? && m.msg.action == Some("request-offer")
    ensures !hasPc ==> a == CreateOffer || a == Ignore
    ensures a.ApplyAnswer? ==> hasPc && m.Json? && m.msg.sdp == Some(a.sdp) && m.msg.kind == Some("answer")
    ensures a.ApplyCandidate? ==>
      && hasPc && m.Json? && m.msg.candidate == Some(a.init)
      && m.msg.action != Some("request-offer")
      && (m.msg.sdp.Some? ==> m.msg.kind.Some? && m.msg.kind != Some("answer"))
    ensures !m.Json? ==> a == Ignore
    // An answer or a candidate that reaches its branch is applied.
    ensures hasPc && m.Json? && m.msg.action != Some("request-offer")
            && m.msg.sdp.Some? && m.msg.kind == Some("answer")
            ==> a == ApplyAnswer(m.msg.sdp.value)
    ensures hasPc && m.Json? && m.msg.action != Some("request-offer") && m.msg.candidate.Some?
            && (m.msg.sdp.None? || (m.msg.kind.Some? && m.msg.kind != Some("answer")))
            ==> a == ApplyCandidate(m.msg.candidate.value)
    // An SDP frame without "type" raises KeyError and is dropped.
    ensures hasPc && m.Json? && m.msg.action != Some("request-offer") && m.msg.sdp.Some? && m.msg.kind.None?
            ==> a == Ignore
  {
    match m
    case Json(msg) =>
      if msg.action == Some("request-offer") then CreateOffer
      else if hasPc && msg.sdp.Some? && msg.kind.None? then Ignore
      else if hasPc && msg.sdp.Some? && msg.kind == Some("answer") then ApplyAnswer(msg.sdp.value)
      else if hasPc && msg.candidate.Some? then ApplyCandidate(msg.candidate.value)
      else Ignore
    case _ => Ignore
  }

  /** How the media stack answers one offer of the device: whether the camera
      opens, the SDP of createOffer (None: it raises), whether
      setLocalDescription succeeds, and the SDP that localDescription then
      reports (None: the SDP that was set, unchanged). */
  datatype DeviceEnv = DeviceEnv(
    cameraOpens: bool,
    offer: Option<string>,
    setLocalSucceeds: bool,
    reportedLocal: Option<string>)

  /** pc.localDescription.sdp after setLocalDescription was given `given`. */
  function LocalSdp(env: DeviceEnv, given: string): string {
    if env.reportedLocal.Some? then env.reportedLocal.value else given
  }

  /** Calls the device makes on its peer connections, tagged by connection. */
  datatype DeviceOp =
    | SetLocalOffer(pc: nat, sdp: string)
    | SetRemoteAnswer(pc: nat, sdp: string)
    | AddRemoteCandidate(pc: nat, candidate: Candidate)

  /** The global state of RTC_Server.py. Peer connections and camera tracks
      are numbered in creation order; track k was created for connection k. */
  class Device {
    var pc: Option<nat>
    var track: Option<nat>
    var created: nat
    /** connections whose `_local_track` was set (camera opened) */
    var withTrack: set<nat>
    var closed: set<nat>
    var stopped: set<nat>
    var ops: seq<DeviceOp>
    var sent: seq<Frame>

    /** At most one connection is open, and it is the global `pc`; at most one
        track runs, and it is the global `track`. */
    ghost predicate Valid()
      reads this
    {
      && (pc.Some? ==> pc.value < created && pc.value !in closed)
      && (forall k :: 0 <= k < created && pc != Some(k) ==> k in closed)
      && (forall k :: k in closed ==> k < created)
      && (track.Some? ==> track.value in withTrack)
      && (forall k :: k in withTrack ==> k < created)
      && (forall k :: k in withTrack && track != Some(k) ==> k in stopped)
    }

    /** run_client after connecting: announce the "pi" role. */
    constructor ()
      ensures Valid()
      ensures pc == None && track == None && created == 0
      ensures sent == [RoleAnnouncement("pi")] && ops == []
    {
      pc, track, created := None, None, 0;
      withTrack, closed, stopped := {}, {}, {};
      ops := [];
      sent := [RoleAnnouncement("pi")];
    }

    /** The cleanup of create_and_send_offer: close the old connection and
        stop the old track. */
    method CloseCurrent()
      requires Valid()
      modifies this
      ensures Valid() && pc == None && track == None
      ensures closed == old(closed) + (if old(pc).Some? then {old(pc).value} else {})
      ensures stopped == old(stopped) + (if old(track).Some? then {old(track).value} else {})
      ensures created == old(created) && withTrack == old(withTrack) && ops == old(ops) && sent == old(sent)
    {
      if pc.Some? {
        closed := closed + {pc.value};
        pc := None;
      }
      if track.Some? {
        stopped := stopped + {track.value};
        track := None;
      }
    }

    /** Create connection `created` and, when the camera opens, its track.
        A camera that does not open raises after the new connection exists. */
    method OpenNext(cameraOpens: bool)
      requires Valid() && pc == None && track == None
      modifies this
      ensures Valid()
      ensures created == old(created) + 1 && pc == Some(old(created))
      ensures cameraOpens ==> track == Some(old(created)) && withTrack == old(withTrack) + {old(created)}
      ensures !cameraOpens ==> track == None && withTrack == old(withTrack)
      ensures closed == old(closed) && stopped == old(stopped) && ops == old(ops) && sent == old(sent)
    {
      var id := created;
      pc := Some(id);
      created := created + 1;
      if cameraOpens {
        track := Some(id);
        withTrack := withTrack + {id};
      }
    }

    /** create_and_send_offer: replace the connection, then set the offer
        with the bitrate lines as local description and send what the
        connection reports as its local description. A camera that does not
        open, a createOffer that raises or a setLocalDescription that raises
        sends nothing. */
    method CreateAndSendOffer(env: DeviceEnv)
      requires Valid()
      modifies this
      ensures Valid()
      ensures created == old(created) + 1 && pc == Some(old(created))
      ensures closed == old(closed) + (if old(pc).Some? then {old(pc).value} else {})
      ensures stopped == old(stopped) + (if old(track).Some? then {old(track).value} else {})
      ensures env.cameraOpens ==> track == Some(old(created)) && withTrack == old(withTrack) + {old(created)}
      ensures !env.cameraOpens ==> track == None && withTrack == old(withTrack)
      ensures env.cameraOpens && env.offer.Some? ==>
        ops == old(ops) + [SetLocalOffer(old(created), RewriteSdp(env.offer.value))]
      ensures !(env.cameraOpens && env.offer.Some?) ==> ops == old(ops)
      ensures env.cameraOpens && env.offer.Some? && env.setLocalSucceeds ==>
        sent == old(sent) + [SessionDescription(LocalSdp(env, RewriteSdp(env.offer.value)), "offer")]
      ensures !(env.cameraOpens && env.offer.Some? && env.setLocalSucceeds) ==> sent == old(sent)
    {
      var id := created;
      CloseCurrent();
      OpenNext(env.cameraOpens);
      if !env.cameraOpens || env.offer.None? {
        return;
      }
      var lines := SplitLines(env.offer.value);
      var rewritten := InsertBitrateLines(lines);
      var sdp := JoinLines(rewritten);
      ops := ops + [SetLocalOffer(id, sdp)];
      if !env.setLocalSucceeds {
        return;
      }
      sent := sent + [SessionDescription(LocalSdp(env, sdp), "offer")];
    }

    /** on_connectionstatechange: a disconnected, failed or closed connection
        is closed, its own track stopped, and `pc` reset; `track` is kept. */
    method OnConnectionStateChange(state: string)
      requires Valid()
      modifies this
      ensures Valid()
      ensures var lost := old(pc).Some? && state in {"disconnected", "failed", "closed"};
        && pc == (if lost then None else old(pc))
        && closed == old(closed) + (if lost then {old(pc).value} else {})
        && stopped == old(stopped) + (if lost && old(pc).value in withTrack then {old(pc).value} else {})
      ensures track == old(track) && created == old(created) && withTrack == old(withTrack)
      ensures ops == old(ops) && sent == old(sent)
    {
      if pc.Some? && (state == "disconnected" || state == "failed" || state == "closed") {
        var id := pc.value;
        closed := closed + {id};
        if id in withTrack {
          stopped := stopped + {id};
        }
        pc := None;
      }
    }

    /** on_icecandidate of the current connection. */
    method OnLocalCandidate(c: Option<CandidateDict>)
      modifies this
      ensures sent == old(sent) + (if c.Some? then [OutboundCandidate(c.value.candidate, c.value.sdpMid, c.value.sdpMLineIndex)] else [])
      ensures pc == old(pc) && track == old(track) && created == old(created) && withTrack == old(withTrack)
      ensures closed == old(closed) && stopped == old(stopped) && ops == old(ops)
    {
      if c.Some? {
        sent := sent + [OutboundCandidate(c.value.candidate, c.value.sdpMid, c.value.sdpMLineIndex)];
      }
    }

    /** One iteration of the message loop of run_client. Every failure is
        caught and the loop goes on with the next message. */
    method HandleMessage(m: DeviceInbound, env: DeviceEnv)
      requires Valid()
      modifies this
      ensures Valid()
      ensures Dispatch(m, old(pc).Some?) != CreateOffer ==>
        pc == old(pc) && track == old(track) && created == old(created) && closed == old(closed)
        && stopped == old(stopped) && withTrack == old(withTrack) && sent == old(sent)
      // An offer request runs create_and_send_offer.
      ensures Dispatch(m, old(pc).Some?) == CreateOffer ==>
        && created == old(created) + 1 && pc == Some(old(created))
        && closed == old(closed) + (if old(pc).Some? then {old(pc).value} else {})
        && stopped == old(stopped) + (if old(track).Some? then {old(track).value} else {})
        && (env.cameraOpens ==> track == Some(old(created)) && withTrack == old(withTrack) + {old(created)})
        && (!env.cameraOpens ==> track == None && withTrack == old(withTrack))
      ensures Dispatch(m, old(pc).Some?) == CreateOffer ==>
        && (env.cameraOpens && env.offer.Some? ==>
              ops == old(ops) + [SetLocalOffer(old(created), RewriteSdp(env.offer.value))])
        && (!(env.cameraOpens && env.offer.Some?) ==> ops == old(ops))
        && (env.cameraOpens && env.offer.Some? && env.setLocalSucceeds ==>
              sent == old(sent) + [SessionDescription(LocalSdp(env, RewriteSdp(env.offer.value)), "offer")])
        && (!(env.cameraOpens && env.offer.Some? && env.setLocalSucceeds) ==> sent == old(sent))
      ensures var a := Dispatch(m, old(pc).Some?);
        && (a.ApplyAnswer? ==> ops == old(ops) + [SetRemoteAnswer(old(pc).value, a.sdp)])
        && (a.ApplyCandidate? ==>
              ops == old(ops) + (if ParseCandidate(a.init).Ok?
                                 then [AddRemoteCandidate(old(pc).value, ParseCandidate(a.init).value)]
                                 else []))
        && (a == Ignore ==> ops == old(ops))
    {
      var a := Dispatch(m, pc.Some?);
      match a
      case CreateOffer =>
        CreateAndSendOffer(env);
      case ApplyAnswer(sdp) =>
        ops := ops + [SetRemoteAnswer(pc.value, sdp)];
      case ApplyCandidate(init) =>
        var parsed := ParseCandidate(init);
        if parsed.Ok? {
          ops := ops + [AddRemoteCandidate(pc.value, parsed.value)];
        }
      case Ignore =>
    }
  }
}
