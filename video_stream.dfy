/** The browser's video-session client (the VideoStream component).

    The component keeps a `streaming` flag, a `status` label, a `bitrate` in
    kbit/s, references to one peer connection and one signalling socket, and
    the last throughput sample of its stats monitor. The peer connection and the
    socket are an abstract environment: the socket has a ready state and a log
    of the frames handed to it while open; the peer connection has a log of the
    operations applied to it, and each operation's success or failure is an
    input of the handler that issues it. */
module VideoStream {
  import opened Wrappers
  import opened Text
  import opened Signal

  /** The candidate object of a signalling frame, or of a local ICE event. */
  datatype CandidateInit = CandidateInit(candidate: string, sdpMid: Option<string>, sdpMLineIndex: Option<int>)

  /** An inbound frame as `ws.onmessage` sees it. In a parsed JSON value an
      absent or falsy `sdp` or `type` field is the empty string. */
  datatype Inbound =
    | BinaryData
    | NotJson
    | JsonFalsy
    | JsonValue(sdp: string, kind: string, candidate: Option<CandidateInit>)

  /** What a call into the peer connection does: resolve or reject with a message. */
  datatype Outcome = Succeeds | Throws(message: string)

  /** How the peer connection answers the calls of one message handler. */
  datatype PeerBehaviour = PeerBehaviour(
    setRemote: Outcome,
    createAnswer: Result<string, string>,
    setLocal: Outcome,
    addCandidate: Outcome)

  /** Calls the client makes on its peer connection, in the order made. */
  datatype PeerOp =
    | SetRemote(sdp: string, kind: string)
    | CreateAnswer
    | SetLocal(sdp: string, kind: string)
    | AddCandidate(init: CandidateInit)
    | ClosePeer

  /** The effect of one inbound frame: the peer operations issued, the frames
      sent back, and the status label it leaves (None: status untouched). */
  datatype Reaction = Reaction(ops: seq<PeerOp>, frames: seq<Frame>, status: Option<string>)

  const NoReaction := Reaction([], [], None)

  predicate IsOffer(f: Inbound) {
    f.JsonValue? && f.sdp != "" && f.kind == "offer"
  }

  predicate IsAnswer(f: Inbound) {
    f.JsonValue? && f.sdp != "" && f.kind == "answer"
  }

  /** A candidate frame is one that carries a candidate and is not an SDP frame. */
  predicate IsCandidate(f: Inbound) {
    f.JsonValue? && !(f.sdp != "" && f.kind != "") && f.candidate.Some?
  }

  /** Every step of offer handling succeeds. */
  predicate Negotiates(env: PeerBehaviour) {
    env.setRemote.Succeeds? && env.createAnswer.Ok? && env.setLocal.Succeeds?
  }

  /** The message of the first step of offer handling that fails. */
  function FirstFailure(env: PeerBehaviour): string
    requires !Negotiates(env)
  {
    if env.setRemote.Throws? then env.setRemote.message
    else if env.createAnswer.Err? then env.createAnswer.error
    else env.setLocal.message
  }

  /** Offer handling: set the offer as remote description, create an answer,
      set it as local description, send it. The first failure ends the handler
      with an error status. */
  function AnswerOffer(sdp: string, env: PeerBehaviour): Reaction {
    var remote := SetRemote(sdp, "offer");
    if env.setRemote.Throws? then
      Reaction([remote], [], Some("Error: " + env.setRemote.message))
    else if env.createAnswer.Err? then
      Reaction([remote, CreateAnswer], [], Some("Error: " + env.createAnswer.error))
    else
      var answer := env.createAnswer.value;
      var ops := [remote, CreateAnswer, SetLocal(answer, "answer")];
      if env.setLocal.Throws? then Reaction(ops, [], Some("Error: " + env.setLocal.message))
      else Reaction(ops, [SessionDescription(answer, "answer")], Some("Answer sent, connecting..."))
  }

  /** Dispatch of one inbound signalling frame. */
  function Respond(f: Inbound, env: PeerBehaviour): (r: Reaction)
    // At most one frame is sent, and only for an offer whose handling succeeds.
    ensures |r.frames| <= 1
    ensures r.frames != [] <==> IsOffer(f) && Negotiates(env)
    ensures r.frames != [] ==>
      && r.frames == [SessionDescription(env.createAnswer.value, "answer")]
      && r.ops == [SetRemote(f.sdp, "offer"), CreateAnswer, SetLocal(env.createAnswer.value, "answer")]
    // Offer handling issues its calls in order and stops at the first failure.
    ensures IsOffer(f) ==>
      && 1 <= |r.ops| <= 3 && r.ops[0] == SetRemote(f.sdp, "offer")
      && (|r.ops| > 1 <==> env.setRemote.Succeeds?)
      && (|r.ops| > 1 ==> r.ops[1] == CreateAnswer)
      && (|r.ops| > 2 <==> env.setRemote.Succeeds? && env.createAnswer.Ok?)
      && (|r.ops| > 2 ==> r.ops[2] == SetLocal(env.createAnswer.value, "answer"))
    // A successful offer leaves the "answer sent" status; a failure is shown as an error.
    ensures IsOffer(f) && Negotiates(env) ==> r.status == Some("Answer sent, connecting...")
    ensures IsOffer(f) && !Negotiates(env) ==> r.status == Some("Error: " + FirstFailure(env))
    ensures IsAnswer(f) ==> r.ops == [SetRemote(f.sdp, "answer")] && r.frames == []
    ensures IsAnswer(f) ==>
      r.status == Some(if env.setRemote.Throws? then "Error: " + env.setRemote.message
                       else "Answer processed, connecting...")
    // A candidate is added exactly once; its failure is swallowed.
    ensures IsCandidate(f) ==> r == Reaction([AddCandidate(f.candidate.value)], [], None)
    ensures !IsCandidate(f) ==> forall i :: 0 <= i < |r.ops| ==> !r.ops[i].AddCandidate?
    // Everything else is ignored: binary, non-JSON, falsy JSON, SDP frames of another
    // type (even when they also carry a candidate), and unmatched objects.
    ensures !IsOffer(f) && !IsAnswer(f) && !IsCandidate(f) ==> r == NoReaction
  {
    match f
    case JsonValue(sdp, kind, candidate) =>
      if sdp != "" && kind != "" then
        if kind == "offer" then AnswerOffer(sdp, env)
        else if kind == "answer" then
          Reaction([SetRemote(sdp, "answer")], [],
                   Some(if env.setRemote.Throws? then "Error: " + env.setRemote.message
                        else "Answer processed, connecting..."))
        else NoReaction
      else if candidate.Some? then Reaction([AddCandidate(candidate.value)], [], None)
      else NoReaction
    case _ => NoReaction
  }

  /** The frame a local ICE event produces: sent at once when the socket is
      open, dropped otherwise; the end-of-candidates event (None) sends nothing. */
  function CandidateOut(c: Option<CandidateInit>, socketOpen: bool): (out: seq<Frame>)
    ensures |out| <= 1
    ensures out != [] <==> c.Some? && socketOpen
    ensures out != [] ==>
      && out[0].IceCandidate? && out[0].candidate == c.value.candidate
      && out[0].sdpMid == c.value.sdpMid && out[0].sdpMLineIndex == c.value.sdpMLineIndex
  {
    if c.Some? && socketOpen then [IceCandidate(c.value.candidate, c.value.sdpMid, c.value.sdpMLineIndex)]
    else []
  }

  // ---------------------------------------------------------------------------
  // Throughput

  /** Math.round(8 * deltaBytes / deltaMs): the kbit/s value nearest to the
      exact rate, halves rounded up. */
  function RoundedKbps(deltaBytes: int, deltaMs: int): (kbps: int)
    requires deltaMs > 0
    ensures 2 * deltaMs * kbps - deltaMs <= 16 * deltaBytes < 2 * deltaMs * kbps + deltaMs
    ensures deltaBytes >= 0 ==> kbps >= 0
  {
    var q := (16 * deltaBytes + deltaMs) / (2 * deltaMs);
    DivBounds(16 * deltaBytes + deltaMs, 2 * deltaMs);
    q
  }

  lemma DivBounds(a: int, b: int)
    requires b > 0
    ensures b * (a / b) <= a < b * (a / b) + b
  {
  }

  /** The rounding is exact: no other integer satisfies the rounding bounds. */
  lemma {:induction false} RoundedKbpsUnique(deltaBytes: int, deltaMs: int, k: int)
    requires deltaMs > 0
    requires 2 * deltaMs * k - deltaMs <= 16 * deltaBytes < 2 * deltaMs * k + deltaMs
    ensures k == RoundedKbps(deltaBytes, deltaMs)
  {
    var r := RoundedKbps(deltaBytes, deltaMs);
    if k < r {
      MulMonotone(2 * deltaMs, k + 1, r);
    } else if k > r {
      MulMonotone(2 * deltaMs, r + 1, k);
    }
  }

  lemma MulMonotone(d: int, a: int, b: int)
    requires d >= 0 && a <= b
    ensures d * a <= d * b
  {
    var c := b - a;
    assert d * b == d * a + d * c;
  }

  /** One entry of a getStats() result. A missing `bytesReceived` is 0
      (`report.bytesReceived || 0`); timestamps are whole milliseconds. */
  datatype StatsReport = StatsReport(reportType: string, kind: string, bytesReceived: int, timestamp: int)

  /** The retained (bytesReceived, timestamp) sample. */
  datatype Sample = Sample(bytes: int, timestamp: int)

  datatype Monitor = Monitor(last: Sample, bitrate: int)

  predicate IsInboundVideo(r: StatsReport) {
    r.reportType == "inbound-rtp" && r.kind == "video"
  }

  /** A rate is computed only from a real previous sample and a gap of more
      than one millisecond (0.001 s). */
  predicate Measurable(last: Sample, r: StatsReport) {
    last.bytes > 0 && last.timestamp > 0 && r.timestamp > last.timestamp
    && r.timestamp - last.timestamp > 1
  }

  /** The effect of one report on the monitor. */
  function ReportStep(m: Monitor, r: StatsReport): (m': Monitor)
    ensures !IsInboundVideo(r) ==> m' == m
    ensures IsInboundVideo(r) ==> m'.last == Sample(r.bytesReceived, r.timestamp)
    ensures m'.bitrate != m.bitrate ==> IsInboundVideo(r) && Measurable(m.last, r)
    ensures IsInboundVideo(r) && Measurable(m.last, r) ==>
      var db, dm := r.bytesReceived - m.last.bytes, r.timestamp - m.last.timestamp;
      2 * dm * m'.bitrate - dm <= 16 * db < 2 * dm * m'.bitrate + dm
  {
    if !IsInboundVideo(r) then m
    else
      var bitrate :=
        if Measurable(m.last, r)
        then RoundedKbps(r.bytesReceived - m.last.bytes, r.timestamp - m.last.timestamp)
        else m.bitrate;
      Monitor(Sample(r.bytesReceived, r.timestamp), bitrate)
  }

  /** The effect of the reports of one poll, in the order getStats lists them. */
  function ApplyReports(m: Monitor, reports: seq<StatsReport>): Monitor
  {
    if reports == [] then m
    else ReportStep(ApplyReports(m, reports[..|reports| - 1]), reports[|reports| - 1])
  }

  /** The sample kept after a poll is that of its last inbound video report,
      or the previous one when the poll had none. */
  function LastVideoSample(last: Sample, reports: seq<StatsReport>): Sample {
    if reports == [] then last
    else if IsInboundVideo(reports[|reports| - 1]) then
      Sample(reports[|reports| - 1].bytesReceived, reports[|reports| - 1].timestamp)
    else LastVideoSample(last, reports[..|reports| - 1])
  }

  lemma {:induction false} RetainedSampleIsLatest(m: Monitor, reports: seq<StatsReport>)
    ensures ApplyReports(m, reports).last == LastVideoSample(m.last, reports)
  {
    if reports != [] {
      RetainedSampleIsLatest(m, reports[..|reports| - 1]);
    }
  }

  /** The first sample of a session (the retained sample is still (0, 0))
      never changes the bitrate. */
  lemma FirstSampleKeepsBitrate(bitrate: int, r: StatsReport)
    ensures ReportStep(Monitor(Sample(0, 0), bitrate), r).bitrate == bitrate
  {
  }

  /** A poll that sees the byte counter grow never produces a negative rate. */
  lemma {:induction false} BitrateNonNegative(m: Monitor, reports: seq<StatsReport>)
    requires m.bitrate >= 0 && m.last.bytes >= 0
    requires forall i :: 0 <= i < |reports| ==> reports[i].bytesReceived >= 0
    requires forall i, j :: 0 <= i < j < |reports| ==> reports[i].bytesReceived <= reports[j].bytesReceived
    requires forall i :: 0 <= i < |reports| ==> m.last.bytes <= reports[i].bytesReceived
    ensures ApplyReports(m, reports).bitrate >= 0
    ensures ApplyReports(m, reports).last.bytes >= 0
  {
    if reports != [] {
      var init := reports[..|reports| - 1];
      BitrateNonNegative(m, init);
      var p := ApplyReports(m, init);
      var r := reports[|reports| - 1];
      RetainedSampleIsLatest(m, init);
      LastSampleBelow(m.last, init, r.bytesReceived);
    }
  }

  lemma {:induction false} LastSampleBelow(last: Sample, reports: seq<StatsReport>, bound: int)
    requires last.bytes <= bound
    requires forall i :: 0 <= i < |reports| ==> reports[i].bytesReceived <= bound
    ensures LastVideoSample(last, reports).bytes <= bound
  {
    if reports != [] {
      LastSampleBelow(last, reports[..|reports| - 1], bound);
    }
  }

  /** Two polls 1000 ms apart, 1,000,000 then 1,500,000 bytes: 4000 kbit/s. */
  lemma ExampleFourThousand(bitrate: int)
    ensures var video := StatsReport("inbound-rtp", "video", 1000000, 0);
      ApplyReports(Monitor(Sample(0, 0), bitrate),
                   [video.(timestamp := 5000), video.(bytesReceived := 1500000, timestamp := 6000)])
        == Monitor(Sample(1500000, 6000), 4000)
  {
    var video := StatsReport("inbound-rtp", "video", 1000000, 0);
    var rs := [video.(timestamp := 5000), video.(bytesReceived := 1500000, timestamp := 6000)];
    assert rs[..1] == [rs[0]];
    assert rs[..0] == [];
    RoundedKbpsUnique(500000, 1000, 4000);
  }

  // ---------------------------------------------------------------------------
  // The component

  class VideoSession {
    var streaming: bool
    var status: string
    var bitrate: int
    /** pcRef.current and wsRef.current are non-null */
    var hasPeer: bool
    var hasSocket: bool
    /** environment of the latest start: the socket's ready state and the frames
        handed to it, the peer connection's state and the calls made on it */
    var socket: ReadyState
    var sent: seq<Frame>
    var connectionState: string
    var peerOps: seq<PeerOp>
    /** the monitor's (lastBytesReceived, lastTimestamp) */
    var last: Sample

    ghost predicate Valid()
      reads this
    {
      hasPeer == streaming && hasSocket == streaming
    }

    constructor ()
      ensures Valid()
      ensures !streaming && status == "Disconnected" && bitrate == 0
      ensures socket == Closed && sent == [] && peerOps == []
    {
      streaming, status, bitrate := false, "Disconnected", 0;
      hasPeer, hasSocket := false, false;
      socket, sent := Closed, [];
      connectionState, peerOps := "new", [];
      last := Sample(0, 0);
    }

    /** startVideo: a no-op while streaming; otherwise a fresh peer connection,
        a fresh connecting socket and a fresh (0, 0) sample. */
    method Start()
      requires Valid()
      modifies this
      ensures Valid()
      ensures old(streaming) ==> unchanged(this)
      ensures !old(streaming) ==>
        && streaming && status == "Connecting..." && bitrate == old(bitrate)
        && socket == Connecting && sent == []
        && connectionState == "new" && peerOps == []
        && last == Sample(0, 0)
    {
      if streaming {
        return;
      }
      status := "Connecting...";
      connectionState, peerOps := "new", [];
      last := Sample(0, 0);
      socket, sent := Connecting, [];
      hasPeer, hasSocket := true, true;
      streaming := true;
    }

    /** stopVideo: a no-op while not streaming; otherwise closes both handles,
        drops both references and resets the published status. */
    method Stop()
      requires Valid()
      modifies this
      ensures Valid()
      ensures !old(streaming) ==> unchanged(this)
      ensures old(streaming) ==>
        && !streaming && status == "Disconnected" && bitrate == 0
        && !hasPeer && !hasSocket
        && peerOps == old(peerOps) + [ClosePeer] && connectionState == "closed"
        && socket == (if old(socket) in {Connecting, Open} then Closing else old(socket))
        && sent == old(sent) && last == old(last)
    {
      if !streaming {
        return;
      }
      if hasPeer {
        peerOps := peerOps + [ClosePeer];
        connectionState := "closed";
        hasPeer := false;
      }
      if hasSocket {
        if socket == Connecting || socket == Open {
          socket := Closing;
        }
        hasSocket := false;
      }
      streaming := false;
      status := "Disconnected";
      bitrate := 0;
    }

    /** ws.onopen: announce the browser role, then request an offer. */
    method OnSocketOpen()
      modifies this
      ensures socket == Open
      ensures sent == old(sent) + [RoleAnnouncement("browser"), OfferRequest]
      ensures status == "Connected to server, requesting offer..."
      ensures streaming == old(streaming) && bitrate == old(bitrate) && hasPeer == old(hasPeer)
      ensures hasSocket == old(hasSocket) && peerOps == old(peerOps)
      ensures connectionState == old(connectionState) && last == old(last)
    {
      socket := Open;
      sent := sent + [RoleAnnouncement("browser")];
      sent := sent + [OfferRequest];
      status := "Connected to server, requesting offer...";
    }

    /** ws.onmessage: frames arrive only on an open socket. */
    method OnMessage(f: Inbound, env: PeerBehaviour)
      requires socket == Open
      modifies this
      ensures var r := Respond(f, env);
        && peerOps == old(peerOps) + r.ops
        && sent == old(sent) + r.frames
        && status == (if r.status.Some? then r.status.value else old(status))
      ensures streaming == old(streaming) && bitrate == old(bitrate) && hasPeer == old(hasPeer)
      ensures hasSocket == old(hasSocket) && socket == old(socket)
      ensures connectionState == old(connectionState) && last == old(last)
    {
      var r := Respond(f, env);
      peerOps := peerOps + r.ops;
      sent := sent + r.frames;
      if r.status.Some? {
        status := r.status.value;
      }
    }

    /** pc.onicecandidate: forwarded only while the socket reference is set and
        open; never queued. */
    method OnLocalCandidate(c: Option<CandidateInit>)
      modifies this
      ensures sent == old(sent) + CandidateOut(c, old(hasSocket) && old(socket) == Open)
      ensures streaming == old(streaming) && status == old(status) && bitrate == old(bitrate)
      ensures hasPeer == old(hasPeer) && hasSocket == old(hasSocket) && socket == old(socket)
      ensures peerOps == old(peerOps) && connectionState == old(connectionState) && last == old(last)
    {
      sent := sent + CandidateOut(c, hasSocket && socket == Open);
    }

    /** pc.onconnectionstatechange: the status is the lower-cased state; a
        disconnected or failed connection also zeroes the bitrate. */
    method OnConnectionStateChange(state: string)
      modifies this
      ensures connectionState == state && status == Lower(state)
      ensures bitrate == (if state == "disconnected" || state == "failed" then 0 else old(bitrate))
      ensures streaming == old(streaming) && hasPeer == old(hasPeer) && hasSocket == old(hasSocket)
      ensures socket == old(socket) && sent == old(sent) && peerOps == old(peerOps) && last == old(last)
    {
      connectionState := state;
      status := Lower(state);
      if state == "disconnected" || state == "failed" {
        bitrate := 0;
      }
    }

    /** pc.oniceconnectionstatechange: only "connected" touches the status. */
    method OnIceConnectionStateChange(iceState: string)
      modifies this
      ensures status == (if iceState == "connected" then "connected" else old(status))
      ensures streaming == old(streaming) && bitrate == old(bitrate) && hasPeer == old(hasPeer)
      ensures hasSocket == old(hasSocket) && socket == old(socket) && sent == old(sent)
      ensures peerOps == old(peerOps) && connectionState == old(connectionState) && last == old(last)
    {
      if iceState == "connected" {
        status := "connected";
      }
    }

    /** The `onloadedmetadata` listener that `pc.ontrack` installs on the video
        element: once the remote stream's metadata has loaded, the status is
        "connected". Without a mounted video element no listener exists. */
    method OnVideoMetadataLoaded(hasVideoElement: bool)
      modifies this
      ensures status == (if hasVideoElement then "connected" else old(status))
      ensures streaming == old(streaming) && bitrate == old(bitrate) && hasPeer == old(hasPeer)
      ensures hasSocket == old(hasSocket) && socket == old(socket) && sent == old(sent)
      ensures peerOps == old(peerOps) && connectionState == old(connectionState) && last == old(last)
    {
      if hasVideoElement {
        status := "connected";
      }
    }

    /** ws.onerror */
    method OnSocketError()
      modifies this
      ensures status == "WebSocket error"
      ensures streaming == old(streaming) && bitrate == old(bitrate) && hasPeer == old(hasPeer)
      ensures hasSocket == old(hasSocket) && socket == old(socket) && sent == old(sent)
      ensures peerOps == old(peerOps) && connectionState == old(connectionState) && last == old(last)
    {
      status := "WebSocket error";
    }

    /** ws.onclose: "Disconnected" and a zero bitrate; `streaming` is left as it is. */
    method OnSocketClose()
      modifies this
      ensures socket == Closed && status == "Disconnected" && bitrate == 0
      ensures streaming == old(streaming) && hasPeer == old(hasPeer) && hasSocket == old(hasSocket)
      ensures sent == old(sent) && peerOps == old(peerOps)
      ensures connectionState == old(connectionState) && last == old(last)
    {
      socket := Closed;
      status := "Disconnected";
      bitrate := 0;
    }

    /** One round of monitorStats: the loop runs only while the connection is
        "connected"; a getStats() that rejects (None) changes nothing. Returns
        whether the round ran. */
    method PollStats(stats: Option<seq<StatsReport>>) returns (running: bool)
      modifies this
      ensures running == (connectionState == "connected")
      ensures running && stats.Some? ==>
        Monitor(last, bitrate) == ApplyReports(old(Monitor(last, bitrate)), stats.value)
      ensures !running || stats.None? ==> last == old(last) && bitrate == old(bitrate)
      ensures streaming == old(streaming) && status == old(status) && hasPeer == old(hasPeer)
      ensures hasSocket == old(hasSocket) && socket == old(socket) && sent == old(sent)
      ensures peerOps == old(peerOps) && connectionState == old(connectionState)
    {
      running := connectionState == "connected";
      if !running || stats.None? {
        return;
      }
      var reports := stats.value;
      ghost var start := Monitor(last, bitrate);
      for i := 0 to |reports|
        invariant Monitor(last, bitrate) == ApplyReports(start, reports[..i])
        invariant connectionState == old(connectionState)
        invariant streaming == old(streaming) && status == old(status) && hasPeer == old(hasPeer)
        invariant hasSocket == old(hasSocket) && socket == old(socket) && sent == old(sent)
        invariant peerOps == old(peerOps)
      {
        var r := reports[i];
        assert reports[..i + 1][..i] == reports[..i];
        if r.reportType == "inbound-rtp" && r.kind == "video" {
          var bytesReceived := r.bytesReceived;
          var timestamp := r.timestamp;
          if last.bytes > 0 && last.timestamp > 0 && timestamp > last.timestamp {
            var deltaBytes := bytesReceived - last.bytes;
            var deltaMs := timestamp - last.timestamp;
            if deltaMs > 1 {
              bitrate := RoundedKbps(deltaBytes, deltaMs);
            }
          }
          last := Sample(bytesReceived, timestamp);
        }
      }
      assert reports[..|reports|] == reports;
    }
  }
}
