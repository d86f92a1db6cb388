# Perceptron remote-vehicle link: a Dafny model

This project models the message-handling core of the Perceptron remote
vehicle system. A browser shows the vehicle's camera over WebRTC, reads
telemetry and drives a web terminal. A Java relay forwards the signalling and
data frames between the browser and the on-board computer. On the vehicle, a
Python peer streams the camera, a Python decoder reads RC control frames, and a
Rust program feeds terminal commands to a shell. Each core file has its own
module:

- `VideoStream` (video_stream.dfy): the browser's video-session client.
  - Its state: the `streaming` flag, the status label, the bitrate, the
    peer-connection and socket references, and the retained throughput sample.
  - What it does: start/stop guards, the handshake on socket open,
    dispatch of inbound signalling frames, gating of local ICE candidates on
    socket readiness, and the integer rounding of the bitrate.
  - The peer connection and the socket are an abstract environment. Each
    operation's success or failure is an input.
- `RtcServer` (rtc_server.dfy): the device's signalling peer.
  - The ICE candidate-line parser is positional: it accepts any eight or more
    fields whose second, fourth and sixth are integers, does not check the
    "typ" keyword, and finds the related address and port by key. A round-trip
    lemma shows that a line formatted after the candidate-attribute grammar of
    section 5.1 of RFC 8839 is read back exactly.
  - The SDP rewrite inserts two bitrate attributes after every `m=video` line
    (section 5.14 of RFC 8866). It has a loop method and an inverse.
  - The message dispatch, the `on_icecandidate` defaults, and the rule that
    keeps at most one live connection and camera track.
- `Relay` (relay.dfy): the relay's session set and session-to-role map.
  - Binary frames are routed by role, or broadcast when the sender has no role.
  - `broadcastData`, and the connect/close updates.
- `RcDecoder` (rc_decoder.dfy): the RC TLV decoder.
  - Little-endian u16/u32 decoding, with round trips.
  - Channel naming with its fallbacks, and last-writer-wins dictionaries.
  - The `latest_data` replacement rule with the 32-bit arrival stamp.
- `TelemetrySocket` (telemetry_socket.dfy): the browser's telemetry socket hook.
  - The `ConnectedClients:` and seven-field CSV messages.
  - JavaScript `trim`, `split` and `parseInt`.
  - The `connection` flag, and `send` gated on an open socket.
- `WebTerminal` (web_terminal.dfy): the translation of a WebSocket text frame
  into what is written to the shell's pseudo-terminal. The result is ETX, or
  the whitespace-trimmed, quote-trimmed text followed by `\r`.
- Shared modules:
  - `Signal` (signal.dfy): the structured signalling frames and the WebSocket
    ready state.
  - `Text` (text.dfy): decimal rendering, lower-casing, prefixes, and
    single-character split/join.
  - `Wrappers` (wrappers.dfy): `Option` and `Result`.

JSON text is not modelled. A frame is the structured value that its sender
serialises and its receiver parses.

## Model

| member | source | states |
|---|---|---|
| VideoStream.Respond | frontend/src/WebRtc/VideoStream.jsx:150-224 | At most one frame goes back: the answer, exactly when the frame is an offer whose set-remote, create-answer and set-local all succeed, and the status is then "Answer sent, connecting...". Offer handling issues those calls in that order and reaches each next call exactly when the previous one succeeded; the first failure ends it with status "Error: " + its message. An answer only sets the remote description, sends nothing, and reports "Answer processed, connecting..." or the error. A candidate is added exactly once and its failure is swallowed. Binary, non-JSON, falsy and unmatched frames, and SDP frames of another type, do nothing. |
| VideoStream.CandidateOut | frontend/src/WebRtc/VideoStream.jsx:78-97 | A local candidate produces one frame exactly when it is present and the socket is open. The frame carries the candidate's three fields. End-of-candidates and a closed socket send nothing, and nothing is queued. |
| VideoStream.RoundedKbps | frontend/src/WebRtc/VideoStream.jsx:115-120 | The result is within half a unit of 8·deltaBytes/deltaMs, with halves rounded up (Math.round of the kbit/s rate). It is non-negative when the bytes grew. |
| VideoStream.RoundedKbpsUnique | frontend/src/WebRtc/VideoStream.jsx:119-120 | Only one integer satisfies those rounding bounds. |
| VideoStream.ReportStep | frontend/src/WebRtc/VideoStream.jsx:111-126 | A report other than inbound-rtp video changes nothing. An inbound video report always becomes the retained sample. The bitrate changes only when the previous bytes and timestamp are positive, the new timestamp is later, and the gap is over 1 ms; the new value is then the rounded rate. |
| VideoStream.RetainedSampleIsLatest | frontend/src/WebRtc/VideoStream.jsx:109-127 | After a poll, the retained sample is that of the poll's last inbound video report, or the previous one if the poll had none. |
| VideoStream.FirstSampleKeepsBitrate | frontend/src/WebRtc/VideoStream.jsx:101-125 | The first sample after the (0, 0) start never changes the bitrate. |
| VideoStream.BitrateNonNegative | frontend/src/WebRtc/VideoStream.jsx:113-125 | If the byte counter never decreases, the bitrate stays non-negative across a poll. |
| VideoStream.ExampleFourThousand | frontend/src/WebRtc/VideoStream.jsx:115-125 | 1,000,000 then 1,500,000 bytes, 1000 ms apart, give 4000 kbit/s. |
| VideoStream.VideoSession.constructor | frontend/src/WebRtc/VideoStream.jsx:5-9 | Not streaming, status "Disconnected", bitrate 0, no references. |
| VideoStream.VideoSession.Start | frontend/src/WebRtc/VideoStream.jsx:11-238 | While streaming, nothing changes. Otherwise: status "Connecting...", a fresh connecting socket with nothing sent, a fresh peer connection, the (0, 0) sample, both references set, and streaming. |
| VideoStream.VideoSession.Stop | frontend/src/WebRtc/VideoStream.jsx:256-275 | While not streaming, nothing changes, so a second stop is a no-op. Otherwise the peer connection is closed and a live socket moves to Closing. Both references are dropped, streaming is false, status is "Disconnected" and bitrate is 0. |
| VideoStream.VideoSession.OnSocketOpen | frontend/src/WebRtc/VideoStream.jsx:142-148 | Exactly two frames are appended: the "browser" role announcement, then the offer request. Status is "Connected to server, requesting offer...". |
| VideoStream.VideoSession.OnMessage | frontend/src/WebRtc/VideoStream.jsx:150-224 | Peer operations, sent frames and status advance exactly as Respond says. Nothing else changes. |
| VideoStream.VideoSession.OnLocalCandidate | frontend/src/WebRtc/VideoStream.jsx:78-97 | The sent log grows by CandidateOut, gated on the socket reference being set and open. Nothing else changes. |
| VideoStream.VideoSession.OnConnectionStateChange | frontend/src/WebRtc/VideoStream.jsx:57-64 | Status is the lower-cased state. "disconnected" and "failed" also zero the bitrate. |
| VideoStream.VideoSession.OnIceConnectionStateChange | frontend/src/WebRtc/VideoStream.jsx:66-73 | Only "connected" changes the status, to "connected". |
| VideoStream.VideoSession.OnVideoMetadataLoaded | frontend/src/WebRtc/VideoStream.jsx:35-45 | With a mounted video element, the `onloadedmetadata` listener that `ontrack` installs sets the status to "connected". Nothing else changes. |
| VideoStream.VideoSession.OnSocketError | frontend/src/WebRtc/VideoStream.jsx:225-228 | Status is "WebSocket error". Nothing else changes. |
| VideoStream.VideoSession.OnSocketClose | frontend/src/WebRtc/VideoStream.jsx:230-234 | The socket is closed, status is "Disconnected" and bitrate is 0. `streaming` is unchanged. |
| VideoStream.VideoSession.PollStats | frontend/src/WebRtc/VideoStream.jsx:103-135 | A round runs only while the connection state is "connected". A round that runs takes the sample and bitrate to ApplyReports of the old ones over the reports. A rejected getStats changes nothing. |
| RtcServer.TrimStartFacts | jetson_OR_RasberryPI_Remote_server/RTC_Server.py:180 | lstrip removes exactly the leading Python white space, and the result is a suffix. |
| RtcServer.TrimEndFacts | jetson_OR_RasberryPI_Remote_server/RTC_Server.py:180 | rstrip removes exactly the trailing Python white space, and the result is a prefix. |
| RtcServer.Words | jetson_OR_RasberryPI_Remote_server/RTC_Server.py:184 | str.split() gives non-empty pieces free of white space. |
| RtcServer.WordsUnwords | jetson_OR_RasberryPI_Remote_server/RTC_Server.py:184 | Splitting tokens joined by single spaces gives the tokens back. |
| RtcServer.PyIntOfString | jetson_OR_RasberryPI_Remote_server/RTC_Server.py:190-194 | int(str(n)) == n for every integer, signs included. |
| RtcServer.FindRelated | jetson_OR_RasberryPI_Remote_server/RTC_Server.py:199-205 | The loop over offsets 8, 10, ... returns what ScanRelated specifies. A key in last place is an error, and so is a non-integer rport. |
| RtcServer.ScanFindsLast | jetson_OR_RasberryPI_Remote_server/RTC_Server.py:199-205 | Every step of the scan keeps the found values equal to the last occurrence so far. |
| RtcServer.RelatedIsLastOccurrence | jetson_OR_RasberryPI_Remote_server/RTC_Server.py:199-205 | raddr and rport are the values after the last occurrence of their key at the scanned even offsets, and None when the key does not occur there. |
| RtcServer.ParseCandidateFields | jetson_OR_RasberryPI_Remote_server/RTC_Server.py:180-220 | A candidate is rejected exactly when it has fewer than 8 fields, a non-integer component, priority or port, or a failing related-address search. An accepted one has the positional fields, the transport lower-cased, the values after the last "raddr" and "rport" keys (the rport value read by int()), and the frame's sdpMid and sdpMLineIndex. |
| RtcServer.CandidateBodyOfFormatted | jetson_OR_RasberryPI_Remote_server/RTC_Server.py:180-182 | The strip, prefix removal and second strip leave exactly the token line of a formatted candidate. |
| RtcServer.ParseFormatted | jetson_OR_RasberryPI_Remote_server/RTC_Server.py:180-220 | Parsing a well-formed candidate line, written as a browser writes it, gives the candidate back, related address and port included. |
| RtcServer.ParseTokens | jetson_OR_RasberryPI_Remote_server/RTC_Server.py:184-220 | The positional fields and the related-address search read a candidate's own token list back into that candidate. |
| RtcServer.OutboundCandidate | jetson_OR_RasberryPI_Remote_server/RTC_Server.py:96-107 | The candidate text is kept. A falsy sdpMid becomes "0" and a falsy sdpMLineIndex becomes 0, so both are always present. |
| RtcServer.InsertBitrateLines | jetson_OR_RasberryPI_Remote_server/RTC_Server.py:130-137 | The append loop produces WithBitrateLines of the lines. |
| RtcServer.IsVideoLineStartsWith | jetson_OR_RasberryPI_Remote_server/RTC_Server.py:134 | The character-by-character test for a video media line holds exactly when the line starts with "m=video". |
| RtcServer.WithBitrateLinesConcat | jetson_OR_RasberryPI_Remote_server/RTC_Server.py:132-136 | The rewrite works line by line: rewriting two pieces and concatenating gives the rewrite of the whole. |
| RtcServer.WithBitrateLinesLength | jetson_OR_RasberryPI_Remote_server/RTC_Server.py:132-136 | The output has n + 2·(number of m=video lines) lines. |
| RtcServer.WithBitrateLinesAt | jetson_OR_RasberryPI_Remote_server/RTC_Server.py:132-136 | Every original line keeps its order. Each m=video line is followed by the max-bitrate line, then the min-bitrate line. Other lines are followed directly by their successor. |
| RtcServer.DropWithBitrateLines | jetson_OR_RasberryPI_Remote_server/RTC_Server.py:132-136 | Removing the inserted pairs gives the original lines back, so nothing is lost or reordered. |
| RtcServer.LineEnd | jetson_OR_RasberryPI_Remote_server/RTC_Server.py:130 | A splitlines line ends at the first of Python's line boundaries. |
| RtcServer.Dispatch | jetson_OR_RasberryPI_Remote_server/RTC_Server.py:168-175 | An offer is created if and only if the action is "request-offer". With a connection and no offer request, the branches are taken in order. An answer is applied if and only if the frame has an sdp of type "answer". An sdp without a type raises KeyError and is ignored. Otherwise the candidate is applied if and only if the frame has one. Without a connection, and for non-JSON and binary frames, everything but an offer request is ignored. |
| RtcServer.Device.constructor | jetson_OR_RasberryPI_Remote_server/RTC_Server.py:148-154 | No connection and no track. The "pi" role is announced first. |
| RtcServer.Device.CloseCurrent | jetson_OR_RasberryPI_Remote_server/RTC_Server.py:66-72 | The current connection is closed and the current track stopped, both globals become None, and Valid is preserved. |
| RtcServer.Device.OpenNext | jetson_OR_RasberryPI_Remote_server/RTC_Server.py:76-93 | A new connection becomes the only live one. Its camera track is created when the camera opens; a camera that fails leaves the new connection without a track. Valid is preserved. |
| RtcServer.Device.CreateAndSendOffer | jetson_OR_RasberryPI_Remote_server/RTC_Server.py:64-143 | The old connection is closed and the old track stopped, then a new connection becomes the only live one, with a track exactly when the camera opens. With a camera and an offer, the rewritten SDP is set as local description; the offer frame, carrying the SDP the connection then reports, is sent exactly when that call succeeds. A camera failure, a createOffer failure or a setLocalDescription failure sends nothing. Valid (at most one live connection and one running track) is preserved. |
| RtcServer.Device.OnConnectionStateChange | jetson_OR_RasberryPI_Remote_server/RTC_Server.py:110-125 | "disconnected", "failed" or "closed" close the current connection, stop its own track and reset `pc`. The global `track` is kept. Valid is preserved. |
| RtcServer.Device.OnLocalCandidate | jetson_OR_RasberryPI_Remote_server/RTC_Server.py:96-107 | A present candidate sends OutboundCandidate. End-of-candidates sends nothing. |
| RtcServer.Device.HandleMessage | jetson_OR_RasberryPI_Remote_server/RTC_Server.py:157-237 | Follows Dispatch. An offer request has exactly the effect of CreateAndSendOffer on the connections, tracks, calls and sent frames. An answer sets the remote description of the current one. A candidate that parses is added and one that does not changes nothing. Any other message changes no state, and no message but an offer request touches the connections, the tracks or the sent frames. |
| Relay.RoleRoutingNarrowsBroadcast | backend/src/main/java/com/example/WebRemote/Component/WebSocketHandler.java:84-113 | Routing by role never reaches a session the fallback broadcast would not: the sessions it leaves out have no role or share the sender's. When every other session has a role different from the sender's, both routes reach the same sessions. |
| Relay.Targets | backend/src/main/java/com/example/WebRemote/Component/WebSocketHandler.java:81-113 | The sender is never a target, and targets are open sessions. A sender without a role broadcasts to every other open session. A sender with a role reaches exactly the other open sessions whose role is set and differs from its own. |
| Relay.Handler.constructor | backend/src/main/java/com/example/WebRemote/Component/WebSocketHandler.java:22-23 | No sessions and no roles. |
| Relay.Handler.ConnectionEstablished | backend/src/main/java/com/example/WebRemote/Component/WebSocketHandler.java:117-121 | The session is added. Roles are unchanged. |
| Relay.Handler.ConnectionClosed | backend/src/main/java/com/example/WebRemote/Component/WebSocketHandler.java:123-128 | The session and its role entry go, and nothing else changes. |
| Relay.Handler.HandleBinary | backend/src/main/java/com/example/WebRemote/Component/WebSocketHandler.java:76-115 | With a role, every target whose send does not fail receives the frame, and failures whose message says "Connection reset by peer" close that session. Without a role, the first failure aborts the handler, and the handler aborts exactly when some target fails. The sender never receives. |
| Relay.Handler.BroadcastData | backend/src/main/java/com/example/WebRemote/Component/WebSocketHandler.java:30-43 | Exactly the open sessions whose send does not fail receive the data. |
| Relay.RolesOnlyShrink | backend/src/main/java/com/example/WebRemote/Component/WebSocketHandler.java:117-128 | Connects and closes never add a role key. Starting empty, the role map stays empty. |
| Relay.FreshHandlerBroadcasts | backend/src/main/java/com/example/WebRemote/Component/WebSocketHandler.java:81-113 | Since no role is ever written, a handler that started empty sends every binary frame through the fallback broadcast. |
| RcDecoder.ChannelName | Controller_Jetson/Automomus_car_v1/RCDataDecoder.py:10-18 | RC_CHANNELS names exactly ids 0 to 6. |
| RcDecoder.ChannelKey | Controller_Jetson/Automomus_car_v1/RCDataDecoder.py:48 | The key is the channel name, or the fallback followed by the decimal id for ids from 7 on. It always starts with a capital. |
| RcDecoder.FallbackKeysDistinct | Controller_Jetson/Automomus_car_v1/RCDataDecoder.py:73 | Distinct unnamed ids never share a fallback key. |
| RcDecoder.U16 | Controller_Jetson/Automomus_car_v1/RCDataDecoder.py:47 | A little-endian u16 lies in [0, 65535]. |
| RcDecoder.U32 | Controller_Jetson/Automomus_car_v1/RCDataDecoder.py:68 | A little-endian u32 lies in [0, 2^32). |
| RcDecoder.U16RoundTrip | Controller_Jetson/Automomus_car_v1/RCDataDecoder.py:47 | unpack('<H') and pack('<H') are inverse in both directions. |
| RcDecoder.U32OfEncode | Controller_Jetson/Automomus_car_v1/RCDataDecoder.py:68 | unpack('<I') of pack('<I', v) is v. |
| RcDecoder.EncodeOfU32 | Controller_Jetson/Automomus_car_v1/RCDataDecoder.py:68 | pack('<I') of unpack('<I', data) is data. |
| RcDecoder.U32RoundTrip | Controller_Jetson/Automomus_car_v1/RCDataDecoder.py:68 | unpack('<I') and pack('<I') are inverse in both directions. |
| RcDecoder.KeyOf | Controller_Jetson/Automomus_car_v1/RCDataDecoder.py:46-73 | A TLV writes a key exactly when it has 2 bytes in a CONFIG or RC frame, or is the 4-byte TLV with id 100 in an RC frame; that TLV and only it writes "timestamp". A 2-byte TLV of a CONFIG frame writes its channel name or Config_Ch_<id>, and one of an RC frame its channel name or Channel_<id>. |
| RcDecoder.ChannelKeysDistinct | Controller_Jetson/Automomus_car_v1/RCDataDecoder.py:10-18 | Within a frame kind, distinct ids never share a key: the RC_CHANNELS names differ from each other and from every fallback key. |
| RcDecoder.ValueOf | Controller_Jetson/Automomus_car_v1/RCDataDecoder.py:47-72 | A 2-byte value is below 2^16. |
| RcDecoder.EntriesBounded | Controller_Jetson/Automomus_car_v1/RCDataDecoder.py:59-74 | Every decoded value is a number within its bound: the timestamp below 2^32, everything else below 2^16. Every key is "timestamp" or starts with a capital. |
| RcDecoder.DecodeSpec | Controller_Jetson/Automomus_car_v1/RCDataDecoder.py:33-79 | A CONFIG result always holds "_frame_type": "CONFIG". An RC result never does. An unknown type gives the empty dictionary. For a CONFIG or RC frame, the result holds every decoded entry with its value, and nothing else but the marker. |
| RcDecoder.EntriesKeys | Controller_Jetson/Automomus_car_v1/RCDataDecoder.py:40-74 | A key is present exactly when some TLV of the frame writes it. |
| RcDecoder.EntriesLastWins | Controller_Jetson/Automomus_car_v1/RCDataDecoder.py:49-74 | The last TLV writing a key decides its value. |
| RcDecoder.DecodedChannel | Controller_Jetson/Automomus_car_v1/RCDataDecoder.py:40-74 | The last 2-byte TLV with a given id decides that channel: the decoded dictionary maps its channel name, or its Config_Ch_/Channel_ fallback key, to the little-endian u16 of its bytes. |
| RcDecoder.DecodedTimestamp | Controller_Jetson/Automomus_car_v1/RCDataDecoder.py:59-68 | In an RC frame, the last 4-byte TLV with id 100 decides "timestamp", read as a little-endian u32. |
| RcDecoder.Decode | Controller_Jetson/Automomus_car_v1/RCDataDecoder.py:33-79 | The two `while True` TLV loops compute DecodeSpec. |
| RcDecoder.ArrivalStamp | Controller_Jetson/Automomus_car_v1/RCDataDecoder.py:91 | Masking with 0xFFFFFFFF gives a value below 2^32. It is the identity below 2^32 and wraps modulo 2^32. |
| RcDecoder.ReceiveAllStamped | Controller_Jetson/Automomus_car_v1/RCDataDecoder.py:95-101 | The latest data is always empty or carries an arrival stamp. Frames that all decode to nothing leave it unchanged. |
| RcDecoder.ReceiveReplaces | Controller_Jetson/Automomus_car_v1/RCDataDecoder.py:91-101 | A frame that decodes to something replaces the latest data, whatever it held, by the decoded dictionary plus "arrival_ts"; the stamp never overwrites a decoded entry. |
| RcDecoder.ConfigReplaces | Controller_Jetson/Automomus_car_v1/RCDataDecoder.py:52-101 | A CONFIG frame is never empty, even without channels, because of its "_frame_type" marker, so it always replaces the latest data by its stamped decode. |
| RcDecoder.Receiver.constructor | Controller_Jetson/Automomus_car_v1/RCDataDecoder.py:24-27 | The latest data starts empty. |
| RcDecoder.Receiver.LatestData | Controller_Jetson/Automomus_car_v1/RCDataDecoder.py:29-31 | The returned dictionary is empty or stamped. |
| RcDecoder.Receiver.OnMessage | Controller_Jetson/Automomus_car_v1/RCDataDecoder.py:89-101 | A text message is skipped. Otherwise the frames apply in order, each non-empty result replacing the latest data with the arrival stamp added. The stamped invariant is preserved. |
| TelemetrySocket.TrimStart | frontend/src/Home/Websocket.jsx:21 | Exactly the leading JavaScript white space is removed. |
| TelemetrySocket.TrimEnd | frontend/src/Home/Websocket.jsx:21 | Exactly the trailing JavaScript white space is removed. |
| TelemetrySocket.Magnitude | frontend/src/Home/Websocket.jsx:21 | There is no value exactly when the text does not start with a digit of the radix. |
| TelemetrySocket.NoDigitsNaN | frontend/src/Home/Websocket.jsx:21 | parseInt of text without digits is NaN. |
| TelemetrySocket.ParseIntText | frontend/src/Home/Websocket.jsx:41 | parseInt reads back any integer String(n) wrote, with radix 10 or automatic, whatever non-digit text follows. |
| TelemetrySocket.HandleMessage | frontend/src/Home/Websocket.jsx:16-46 | A failure happens exactly for a binary message, or a "ConnectedClients" message without ':'. The ConnectedClients branch keeps the telemetry. Any other message keeps the count. A message that is not ConnectedClients and does not have exactly six commas leaves the status unchanged. |
| TelemetrySocket.ConnectedClientsMessage | frontend/src/Home/Websocket.jsx:20-25 | "ConnectedClients:" followed by white space and an integer sets the count to that integer and keeps everything else. |
| TelemetrySocket.CsvMessage | frontend/src/Home/Websocket.jsx:26-42 | Seven comma-free fields set aux, batteryVoltage, lat, log, speed, sat and time in that order, and keep the count. |
| TelemetrySocket.Hook.constructor | frontend/src/Home/Websocket.jsx:4-6 | No socket, status {connectedClients: 0}, not connected. |
| TelemetrySocket.Hook.Connect | frontend/src/Home/Websocket.jsx:8-9 | A new connecting socket. Nothing else changes. |
| TelemetrySocket.Hook.OnOpen | frontend/src/Home/Websocket.jsx:11-14 | Open and connected. |
| TelemetrySocket.Hook.OnClose | frontend/src/Home/Websocket.jsx:48-51 | Closed and not connected. |
| TelemetrySocket.Hook.OnMessage | frontend/src/Home/Websocket.jsx:16-46 | The status takes HandleMessage's update. A thrown error leaves it unchanged and is reported. |
| TelemetrySocket.Hook.Send | frontend/src/Home/Websocket.jsx:58-64 | Data goes out only on an open socket. Otherwise nothing is sent and `connection` becomes false. |
| TelemetrySocket.Hook.Cleanup | frontend/src/Home/Websocket.jsx:53-55 | A connecting or open socket moves to Closing. Nothing else changes. |
| WebTerminal.TrimStartFacts | Controller_Jetson/web_terminal/src/main.rs:62 | A start trim drops only trimmable characters, keeps a suffix, and stops at a kept one. |
| WebTerminal.TrimEndFacts | Controller_Jetson/web_terminal/src/main.rs:62 | An end trim drops only trimmable characters, keeps a prefix, and stops at a kept one. |
| WebTerminal.TrimBothInfix | Controller_Jetson/web_terminal/src/main.rs:62 | Trimming both ends keeps a contiguous piece with only trimmable characters around it. The piece begins and ends with kept characters. |
| WebTerminal.CommandBodyUnquoted | Controller_Jetson/web_terminal/src/main.rs:62 | The written command never begins or ends with '"'. |
| WebTerminal.TranslateShape | Controller_Jetson/web_terminal/src/main.rs:53-66 | Exactly the text frames write something. Among them, exactly the interrupts (text containing `\x03`, or the single byte 3) write the lone ETX; every other text writes its command body followed by a carriage return. |
| WebTerminal.UnquotedCommandEndsOnce | Controller_Jetson/web_terminal/src/main.rs:60-63 | A command without quotes is sent white-space trimmed, and the carriage return is the only line ending at its end: the character before it is not white space. |
| WebTerminal.QuotedCommand | Controller_Jetson/web_terminal/src/main.rs:62 | Whitespace is trimmed before quotes, so a quoted command padded outside its quotes is sent exactly as written between them, inner white space included. |
| WebTerminal.PlainCommand | Controller_Jetson/web_terminal/src/main.rs:62 | A command with no white space or quote at its ends is sent unchanged. |
| WebTerminal.TrimStartAll | Controller_Jetson/web_terminal/src/main.rs:62 | Trimming a run of trimmable characters in front of a kept one leaves the rest. |
| WebTerminal.TrimEndAll | Controller_Jetson/web_terminal/src/main.rs:62 | Trimming a run of trimmable characters after a kept one leaves the rest. |
| WebTerminal.OnlyTextWrites | Controller_Jetson/web_terminal/src/main.rs:54 | A run of non-text messages and receive errors writes nothing. |
| WebTerminal.PtyWriter.constructor | Controller_Jetson/web_terminal/src/main.rs:36 | Nothing has been written yet. |
| WebTerminal.PtyWriter.Receive | Controller_Jetson/web_terminal/src/main.rs:53-66 | One message appends exactly its translation. |
| WebTerminal.PtyWriter.Pump | Controller_Jetson/web_terminal/src/main.rs:50-67 | The WebSocket arm of the main loop appends the translation of each message in arrival order. |
| Text.NatToString | Controller_Jetson/Automomus_car_v1/RCDataDecoder.py:48 | Decimal rendering is non-empty and all digits, with no leading zero. |
| Text.NatToStringValue | Controller_Jetson/Automomus_car_v1/RCDataDecoder.py:48 | Reading a rendered number back gives the number. |
| Text.NatToStringInjective | Controller_Jetson/Automomus_car_v1/RCDataDecoder.py:73 | Distinct numbers render differently. |
| Text.Lower | jetson_OR_RasberryPI_Remote_server/RTC_Server.py:191 | ASCII lower-casing: the length is kept, A-Z maps to a-z, and every other character is kept. |
| Text.Split | frontend/src/Home/Websocket.jsx:28 | split on one character always gives at least one piece. |
| Text.SplitPiecesFree | frontend/src/Home/Websocket.jsx:28 | No piece holds the separator. |
| Text.SplitCount | frontend/src/Home/Websocket.jsx:28-29 | There is one piece more than there are separators. |
| Text.JoinSplit | frontend/src/Home/Websocket.jsx:28 | Joining the pieces with the separator gives the text back. |
| Text.SplitJoin | frontend/src/Home/Websocket.jsx:28 | Splitting separator-free pieces joined by the separator gives the pieces back. |
| Text.SplitAtFirst | frontend/src/Home/Websocket.jsx:21 | A separator-free prefix before the first separator splits off as the first piece. |
| Text.ContainsAt | Controller_Jetson/web_terminal/src/main.rs:56 | A needle found at any position is contained in the text. |

## Left out

- JSON text is not modelled. Frames are structured values, and an absent or falsy JavaScript field is the empty string.
- The JSON parse of non-dictionary values on the device (a list or number raises and is caught) is folded into `NotJson`.
- Timers are not modelled: the 5 s grace delay, the 1 s readiness interval and the 2 s sleep between polls. One poll of `monitorStats` is one `PollStats` step.
- Concurrency is not modelled: asynchronous interleaving, `ConcurrentHashMap` thread safety, `tokio::select!` and the PTY reader thread.
- Callbacks that arrive after `stopVideo` are not modelled. The client has no generation guard and none is added.
- Floating point is not modelled.
  - `parseFloat` fields are kept as the text they were applied to.
  - The MB/s display is left out.
  - Stats timestamps are whole milliseconds.
  - `time.time()` is an input in milliseconds.
- The peer connection, aiortc, `getStats`, `createOffer`/`createAnswer` and the camera are abstract. The outcome of each call that changes a modelled result is an input: the camera opening, the offer SDP, `setLocalDescription` succeeding and the SDP `localDescription` reports on the device, and each peer call of the browser. On the device, a failing `setRemoteDescription` or `addIceCandidate` is caught and changes no modelled state, so the call is recorded either way.
- Attaching the remote stream to the `<video>` element in `ontrack`, and its `onplay` and `onerror` listeners, are left out: they only log. The `onloadedmetadata` status change is `OnVideoMetadataLoaded`.
- VideoStream.VideoSession.PollStats: the model lets a polling round run whenever the connection state is "connected". The source starts `monitorStats` once, after the 5 s delay or the first 1 s check that sees "connected", and a loop that has stopped is never restarted for that start. Rounds after the loop has stopped are not excluded by the model, and the timers are not modelled.
- Text.Lower: only ASCII A-Z is lower-cased. Python `str.lower()` and JavaScript `toLowerCase()` apply full Unicode case mapping, which can change other letters and the length (U+0130 becomes two characters). Candidate transports and connection states outside ASCII are not modelled.
- The component's unmount cleanup (frontend/src/WebRtc/VideoStream.jsx:277-282) is left out: the component has no state after it.
- The TinyTLVRx framer is not part of this model. Its frames (type plus TLVs) are the input, and a TLV's length is the number of its value bytes.
- MQTT publishing in `handleTextMessage` is left out: it is a call to a broker.
- Socket connection and reconnect loops are left out, and so is PTY and child-process I/O.
- WebTerminal.PtyWriter.Pump: the written output is characters. Their UTF-8 encoding is not modelled.
- Python's `int()` of Unicode digits other than ASCII is not modelled. Only ASCII digits with `_` grouping are accepted.
- TelemetrySocket.ParseInt: JavaScript numbers are unbounded integers here. Precision above 2^53 and the value -0 are not modelled.
- Re-running the hook's effect when `url` changes is left out. Connect and Cleanup model one run of the effect.
- Relay.Handler.HandleBinary: an IOException with a null message would throw out of the role loop at the `contains` call. Failures here always carry a message.
- VideoStream.BitrateNonNegative: the code computes a negative bitrate when the byte counter drops between two samples. Non-negativity is proved only for counters that never decrease.
- VideoStream.VideoSession.OnLocalCandidate: a local candidate that arrives while the socket is not open is dropped, not queued. The model does the same.
- WebTerminal.CommandBodyUnquoted: the command body is proved free of quotes at its ends. Its position inside the original text is proved only for each trim separately (TrimBothInfix), not for the two trims composed.
