/** One connection from accept to close: the handler is asked to admit the peer, the session runs if it
    does, and the handler is told of the end exactly once. */
module Tasks {
  import opened Basics
  import opened Connections
  import opened PeerFilters
  import opened Fail2Bans
  import opened Proxy
  import opened Transcripts
  import opened Invariants
  import opened SessionTheorems
  import opened Forwarding
  import opened Sessions
  import P = Protocol
  import Server

  // The transcript of the session, cut off after a number of turns; a rejected peer has none.
  ghost function Conversation(env: P.Env<ProxyState>, o: Origin<ProxyState>, accepted: bool, turns: nat): P.Log
  {
    if accepted then At(env, o, turns).log else []
  }

  // What a connection leaves behind: the mails of its conversation that its client may send, and
  // peer records in which it counts as a failure exactly if it was unproductive.
  method Serve(handler: ProxyHandler, connection: Connection, env: P.Env<ProxyState>, peer: IpAddr, turns: nat,
               pushed: Instant, swept: Instant, closed: Instant)
    returns (accepted: bool)
    requires handler.State() == FRESH && connection.Valid() && connection.output == "" && !connection.secure
    requires env.handler == Callbacks(handler.Config())
    modifies handler, handler.fail2ban, connection
    ensures var cfg := old(handler.Config());
            var records := Server.Config(handler.fail2ban.limits, handler.filter.rules);
            var o := Origin(FRESH, old(connection.Rest()), connection.acceptor);
            var t := Conversation(env, o, accepted, turns);
            var (during, admitted) := Server.OnConnect(records, old(handler.fail2ban.peers), peer, pushed, swept);
            && accepted == admitted
            && handler.forwarded == Deserved(env, cfg, t)
            && handler.fail2ban.peers == Server.OnDisconnect(during, peer, WasProductive(env, cfg, t), closed)
  {
    ghost var o := Origin(FRESH, connection.Rest(), connection.acceptor);
    ghost var cfg := handler.Config();
    accepted := handler.OnConnect(peer, pushed, swept);
    if accepted {
      var session := new Session(connection, env, handler.State());
      var status := session.HandleFor(turns);
      handler.Resume(session.handler);
      OutcomeIsDeserved(env, cfg, o, turns);
    }
    handler.OnDisconnect(peer, closed);
  }
}
