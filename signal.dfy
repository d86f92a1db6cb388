/** The signalling frames exchanged through the relay between the browser
    client and the camera device. The JSON text of a frame is not modelled:
    a frame is the structured value that the sender serialises and the
    receiver parses. */
module Signal {
  import opened Wrappers

  datatype Frame =
      /** `{"role": role}`, the first frame each peer sends */
    | RoleAnnouncement(role: string)
      /** `{"action": "request-offer"}` */
    | OfferRequest
      /** `{"sdp": sdp, "type": kind}`, an offer or an answer */
    | SessionDescription(sdp: string, kind: string)
      /** `{"candidate": {"candidate": ..., "sdpMid": ..., "sdpMLineIndex": ...}}`;
          `None` stands for JSON null */
    | IceCandidate(candidate: string, sdpMid: Option<string>, sdpMLineIndex: Option<int>)

  /** The readyState of a browser WebSocket. */
  datatype ReadyState = Connecting | Open | Closing | Closed
}
