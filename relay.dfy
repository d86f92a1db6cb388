/** The relay's WebSocket handler (WebSocketHandler.java).

    The handler keeps the set of connected sessions and a map from session id to
    role. A binary frame from a session with a role goes to every other open
    session whose role is set and differs; a frame from a session without a role
    goes to every other open session. Whether a session is open, and which sends
    throw, belong to the sessions and are inputs here. A session is named by its
    id; the source compares sessions by identity and looks roles up by id, and
    ids are unique per session. */
module Relay {

  type SessionId = nat

  /** Recipients of a binary frame from a sender with role `senderRole`. */
  function RoleRecipients(sessions: set<SessionId>, roles: map<SessionId, string>, open: set<SessionId>,
                          sender: SessionId, senderRole: string): (r: set<SessionId>)
    ensures forall s :: s in r <==>
      s in sessions && s != sender && s in roles && roles[s] != senderRole && s in open
  {
    set s | s in sessions && s != sender && s in roles && roles[s] != senderRole && s in open
  }

  /** Recipients of a frame from a sender without a role. */
  function OtherOpen(sessions: set<SessionId>, open: set<SessionId>, sender: SessionId): (r: set<SessionId>)
    ensures forall s :: s in r <==> s in sessions && s != sender && s in open
  {
    set s | s in sessions && s != sender && s in open
  }

  /** Routing by role never reaches further than the fallback broadcast: the
      role recipients are the broadcast recipients minus those without a role
      and those sharing the sender's role. When every other session carries a
      different role, the two routes coincide. */
  lemma RoleRoutingNarrowsBroadcast(sessions: set<SessionId>, roles: map<SessionId, string>,
                                    open: set<SessionId>, sender: SessionId, senderRole: string)
    ensures RoleRecipients(sessions, roles, open, sender, senderRole) <= OtherOpen(sessions, open, sender)
    ensures forall s :: s in OtherOpen(sessions, open, sender) - RoleRecipients(sessions, roles, open, sender, senderRole)
                        ==> s !in roles || roles[s] == senderRole
    ensures (forall s :: s in sessions && s != sender ==> s in roles && roles[s] != senderRole) ==>
      RoleRecipients(sessions, roles, open, sender, senderRole) == OtherOpen(sessions, open, sender)
  {
  }

  /** The frame's route: by role when the sender has one, to everybody else otherwise. */
  function Targets(sessions: set<SessionId>, roles: map<SessionId, string>, open: set<SessionId>,
                   sender: SessionId): (r: set<SessionId>)
    ensures sender !in r
    ensures r <= sessions * open
    ensures sender !in roles ==> r == OtherOpen(sessions, open, sender)
    ensures sender in roles ==> forall s :: s in r ==> s in roles && roles[s] != roles[sender]
    ensures sender in roles ==> forall s :: s in r <==>
      s in sessions && s in open && s != sender && s in roles && roles[s] != roles[sender]
  {
    if sender in roles then RoleRecipients(sessions, roles, open, sender, roles[sender])
    else OtherOpen(sessions, open, sender)
  }

  /** What happened to one frame: who received it, which sessions the handler
      closed after a "Connection reset by peer" failure, and whether an
      exception escaped the handler. */
  datatype Delivery = Delivery(received: set<SessionId>, closedNow: set<SessionId>, aborted: bool)

  class Handler {
    var sessions: set<SessionId>
    var roles: map<SessionId, string>

    constructor ()
      ensures sessions == {} && roles == map[]
    {
      sessions := {};
      roles := map[];
    }

    /** afterConnectionEstablished */
    method ConnectionEstablished(s: SessionId)
      modifies this
      ensures sessions == old(sessions) + {s} && roles == old(roles)
    {
      sessions := sessions + {s};
    }

    /** afterConnectionClosed: the session and its role go, nothing else changes. */
    method ConnectionClosed(s: SessionId)
      modifies this
      ensures sessions == old(sessions) - {s} && roles == old(roles) - {s}
      ensures roles.Keys <= old(roles.Keys)
    {
      sessions := sessions - {s};
      roles := roles - {s};
    }

    /** handleBinaryMessage. The sessions are visited in the set's own
        (unspecified) order. In the role branch a failed send is caught and the
        loop goes on; a failure whose message says "Connection reset by peer"
        (`resets`) also closes that session. In the fallback branch the first
        failed send ends the handler with the exception. */
    method HandleBinary(sender: SessionId, open: set<SessionId>, failing: set<SessionId>, resets: set<SessionId>)
      returns (d: Delivery)
      requires resets <= failing
      ensures d.received == Targets(sessions, roles, open, sender) - failing
        || (d.aborted && d.received <= Targets(sessions, roles, open, sender) - failing)
      ensures d.aborted <==> sender !in roles && Targets(sessions, roles, open, sender) * failing != {}
      ensures sender in roles ==> d.received == Targets(sessions, roles, open, sender) - failing
      ensures d.closedNow == (if sender in roles then Targets(sessions, roles, open, sender) * resets else {})
      ensures sender !in d.received
    {
      var targets := Targets(sessions, roles, open, sender);
      if sender in roles {
        var senderRole := roles[sender];
        var pending := sessions;
        var received: set<SessionId> := {};
        var closedNow: set<SessionId> := {};
        while pending != {}
          invariant pending <= sessions
          invariant received == (targets - pending) - failing
          invariant closedNow == (targets - pending) * resets
          decreases pending
        {
          var other :| other in pending;
          if other != sender {
            if other in roles && roles[other] != senderRole {
              if other in open {
                if other in failing {
                  if other in resets {
                    closedNow := closedNow + {other};
                  }
                } else {
                  received := received + {other};
                }
              }
            }
          }
          pending := pending - {other};
        }
        return Delivery(received, closedNow, false);
      } else {
        var pending := sessions;
        var received: set<SessionId> := {};
        while pending != {}
          invariant pending <= sessions
          invariant received == targets - pending
          invariant received * failing == {}
          decreases pending
        {
          var other :| other in pending;
          if other != sender && other in open {
            if other in failing {
              return Delivery(received, {}, true);
            }
            received := received + {other};
          }
          pending := pending - {other};
        }
        return Delivery(received, {}, false);
      }
    }

    /** broadcastData: every open session receives the data; a failed send is
        caught and the loop goes on. */
    method BroadcastData(open: set<SessionId>, failing: set<SessionId>) returns (received: set<SessionId>)
      ensures received == (sessions * open) - failing
    {
      var pending := sessions;
      received := {};
      while pending != {}
        invariant pending <= sessions
        invariant received == ((sessions - pending) * open) - failing
        decreases pending
      {
        var s :| s in pending;
        if s in open && s !in failing {
          received := received + {s};
        }
        pending := pending - {s};
      }
    }
  }

  /** The role map only ever loses entries: from the empty map of a new
      handler it stays empty through any run of connects and closes. */
  datatype Event = Connect(id: SessionId) | Close(id: SessionId)

  function Replay(roles: map<SessionId, string>, events: seq<Event>): map<SessionId, string> {
    if events == [] then roles
    else
      var last := events[|events| - 1];
      var before := Replay(roles, events[..|events| - 1]);
      if last.Close? then before - {last.id} else before
  }

  lemma {:induction false} RolesOnlyShrink(roles: map<SessionId, string>, events: seq<Event>)
    ensures Replay(roles, events).Keys <= roles.Keys
    ensures roles == map[] ==> Replay(roles, events) == map[]
  {
    if events != [] {
      RolesOnlyShrink(roles, events[..|events| - 1]);
    }
  }

  /** Since nothing ever adds a role, a handler that started empty routes every
      binary frame through the fallback branch, whatever connects and closes
      came before. */
  lemma FreshHandlerBroadcasts(events: seq<Event>, sessions: set<SessionId>, open: set<SessionId>, sender: SessionId)
    ensures Targets(sessions, Replay(map[], events), open, sender) == OtherOpen(sessions, open, sender)
  {
    RolesOnlyShrink(map[], events);
  }
}
