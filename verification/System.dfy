/** The whole server: sessions of many peers talking in turns, in any interleaving, over the shared
    peer records, which learn from each session's conversation whether it was productive. */
module Systems {
  import opened Basics
  import opened Connections
  import opened PeerFilters
  import opened Fail2Bans
  import opened Proxy
  import opened Transcripts
  import opened Invariants
  import opened SessionTheorems
  import opened Forwarding
  import P = Protocol
  import Server

  // A session in progress: what it started from and how many turns it has made.
  datatype Visit = Visit(origin: Origin<ProxyState>, turns: nat)

  // What the records were told, oldest first: a peer came, or went after a conversation.
  datatype Told = Came(peer: IpAddr, created: bool) | Went(peer: IpAddr, conversation: P.Log)

  datatype System = System(world: Server.World, visits: map<nat, Visit>, told: seq<Told>)

  // A session may be cut off anywhere, also within a turn: reached says how many events had happened.
  datatype Move =
    | Arrive(id: nat, peer: IpAddr, pushed: Instant, swept: Instant, input: Bytes, acceptor: Option<Acceptor>)
    | Talk(id: nat)
    | Leave(id: nat, reached: nat, now: Instant)

  type Env = P.Env<ProxyState>

  const EMPTY := System(Server.INITIAL, map[], [])

  // ----- the transition system -----

  function Whole(env: Env, s: System, id: nat): P.Log
  {
    if id in s.visits then At(env, s.visits[id].origin, s.visits[id].turns).log else []
  }

  // The records see a session as productive if the handler's callbacks say so at that point.
  function Departure(env: Env, s: System, id: nat, reached: nat, now: Instant): Server.Action
    requires id in s.world.live && reached <= |Whole(env, s, id)|
  {
    var productive := Replay(env.handler, FRESH, Whole(env, s, id)[..reached]).productive;
    Server.Disconnect(id, s.world.live[id].admitted && productive, now)
  }

  predicate Legal(env: Env, s: System, m: Move)
  {
    match m
    case Arrive(id, peer, pushed, swept, _, _) => Server.Enabled(s.world, Server.Connect(id, peer, pushed, swept))
    case Talk(id) => id in s.visits
    case Leave(id, reached, now) =>
      id in s.world.live && reached <= |Whole(env, s, id)| && s.world.clock <= now
  }

  function After(rules: Server.Config, env: Env, s: System, m: Move): System
    requires Legal(env, s, m)
  {
    match m
    case Arrive(id, peer, pushed, swept, input, acceptor) =>
      var world := Server.Next(rules, s.world, Server.Connect(id, peer, pushed, swept));
      System(world,
             if world.live[id].admitted then s.visits[id := Visit(Origin(FRESH, input, acceptor), 0)] else s.visits,
             s.told + [Came(peer, peer !in s.world.peers)])
    case Talk(id) => s.(visits := s.visits[id := s.visits[id].(turns := s.visits[id].turns + 1)])
    case Leave(id, reached, now) =>
      System(Server.Next(rules, s.world, Departure(env, s, id, reached, now)), s.visits - {id},
             s.told + [Went(s.world.live[id].peer, Whole(env, s, id)[..reached])])
  }

  predicate Possible(rules: Server.Config, env: Env, moves: seq<Move>)
    decreases |moves|, 0
  {
    moves == [] || (Possible(rules, env, Init(moves)) && Legal(env, Outcome(rules, env, Init(moves)), Last(moves)))
  }

  function Outcome(rules: Server.Config, env: Env, moves: seq<Move>): System
    requires Possible(rules, env, moves)
    decreases |moves|, 1
  {
    if moves == [] then EMPTY else After(rules, env, Outcome(rules, env, Init(moves)), Last(moves))
  }

  // ----- accounts -----

  // Unproductive conversations of a peer since its record was created.
  ghost function Unproductive(env: Env, cfg: ProxyConfig, told: seq<Told>, peer: IpAddr): nat
  {
    if told == [] then 0
    else
      var before := Unproductive(env, cfg, Init(told), peer);
      match Last(told)
      case Came(p, created) => if p == peer && created then 0 else before
      case Went(p, t) => before + (if p == peer && !WasProductive(env, cfg, t) then 1 else 0)
  }

  // The mails the handlers of all finished sessions forwarded, and those the conversations deserved.
  function Forwarded(env: Env, told: seq<Told>): seq<Forward>
  {
    if told == [] then []
    else
      var before := Forwarded(env, Init(told));
      match Last(told)
      case Came(_, _) => before
      case Went(_, t) => before + Replay(env.handler, FRESH, t).forwarded
  }

  ghost function DeservedByAll(env: Env, cfg: ProxyConfig, told: seq<Told>): seq<Forward>
  {
    if told == [] then []
    else
      var before := DeservedByAll(env, cfg, Init(told));
      match Last(told)
      case Came(_, _) => before
      case Went(_, t) => before + Deserved(env, cfg, t)
  }

  // ----- every run -----

  // Exactly the admitted connections have a session, each started with a fresh handler; and the
  // accounts agree.
  ghost predicate Agrees(env: Env, cfg: ProxyConfig, s: System)
  {
    && (forall id :: id in s.visits ==> s.visits[id].origin.handler == FRESH)
    && (forall id :: id in s.visits <==> id in s.world.live && s.world.live[id].admitted)
    && (forall peer :: Server.Strikes(s.world.history, peer) == Unproductive(env, cfg, s.told, peer))
    && Forwarded(env, s.told) == DeservedByAll(env, cfg, s.told)
  }

  lemma ToldGrows(told: seq<Told>, e: Told)
    ensures Init(told + [e]) == told && Last(told + [e]) == e
  {
  }

  lemma ArriveAgrees(rules: Server.Config, env: Env, cfg: ProxyConfig, s: System, m: Move)
    requires Agrees(env, cfg, s) && Legal(env, s, m) && m.Arrive?
    ensures Agrees(env, cfg, After(rules, env, s, m))
  {
    var s' := After(rules, env, s, m);
    var created := m.peer !in s.world.peers;
    var h, f := Server.Connected(m.peer, m.pushed, created), Last(s'.world.history);
    assert s'.world.history == s.world.history + [h] + [f];
    Server.HistoryGrows(s.world.history, h);
    Server.HistoryGrows(s.world.history + [h], f);
    ToldGrows(s.told, Came(m.peer, created));
    forall peer
      ensures Server.Strikes(s'.world.history, peer) == Unproductive(env, cfg, s'.told, peer)
    {
      assert Server.Strikes(s'.world.history, peer) == Server.Strikes(s.world.history + [h], peer);
      assert Server.Strikes(s.world.history, peer) == Unproductive(env, cfg, s.told, peer);
    }
  }

  // What the records are told of a session is what its conversation deserves.
  lemma ConversationAgrees(env: Env, cfg: ProxyConfig, s: System, id: nat, reached: nat)
    requires Agrees(env, cfg, s) && env.handler == Callbacks(cfg)
    requires id in s.world.live && reached <= |Whole(env, s, id)|
    ensures var t := Whole(env, s, id)[..reached];
            && (s.world.live[id].admitted && Replay(env.handler, FRESH, t).productive <==> WasProductive(env, cfg, t))
            && Replay(env.handler, FRESH, t).forwarded == Deserved(env, cfg, t)
  {
    if id in s.visits {
      ForwardedAtEveryEvent(env, cfg, s.visits[id].origin, s.visits[id].turns, reached);
    }
  }

  lemma LeaveAgrees(rules: Server.Config, env: Env, cfg: ProxyConfig, s: System, m: Move)
    requires Agrees(env, cfg, s) && env.handler == Callbacks(cfg) && Legal(env, s, m) && m.Leave?
    ensures Agrees(env, cfg, After(rules, env, s, m))
  {
    hide At, Replay, WasProductive, Deserved;
    var s' := After(rules, env, s, m);
    var peer := s.world.live[m.id].peer;
    var t := Whole(env, s, m.id)[..m.reached];
    ConversationAgrees(env, cfg, s, m.id, m.reached);
    Server.HistoryGrows(s.world.history, Last(s'.world.history));
    ToldGrows(s.told, Went(peer, t));
    forall p
      ensures Server.Strikes(s'.world.history, p) == Unproductive(env, cfg, s'.told, p)
    {
      assert Server.Strikes(s.world.history, p) == Unproductive(env, cfg, s.told, p);
    }
  }

  lemma {:induction false} AlwaysAgrees(rules: Server.Config, env: Env, cfg: ProxyConfig, moves: seq<Move>)
    requires env.handler == Callbacks(cfg) && Possible(rules, env, moves)
    ensures Agrees(env, cfg, Outcome(rules, env, moves))
    decreases |moves|
  {
    hide At;
    if moves != [] {
      AlwaysAgrees(rules, env, cfg, Init(moves));
      var s := Outcome(rules, env, Init(moves));
      match Last(moves) {
        case Arrive(_, _, _, _, _, _) => ArriveAgrees(rules, env, cfg, s, Last(moves));
        case Talk(_) =>
        case Leave(_, _, _) => LeaveAgrees(rules, env, cfg, s, Last(moves));
      }
    }
  }

  // Leaving out the turns of the sessions, every run is one of the records' transition system, so
  // that what holds of all its runs holds here.
  lemma {:induction false} RecordsRunAlong(rules: Server.Config, env: Env, moves: seq<Move>)
    returns (actions: seq<Server.Action>)
    requires Possible(rules, env, moves)
    ensures Server.Possible(rules, Server.INITIAL, actions)
    ensures Server.Outcome(rules, Server.INITIAL, actions) == Outcome(rules, env, moves).world
    decreases |moves|
  {
    hide At, Server.Next;
    if moves == [] {
      actions := [];
    } else {
      actions := RecordsRunAlong(rules, env, Init(moves));
      var s := Outcome(rules, env, Init(moves));
      match Last(moves) {
        case Arrive(id, peer, pushed, swept, _, _) =>
          var a := Server.Connect(id, peer, pushed, swept);
          Server.RunExtends(rules, Server.INITIAL, actions, a);
          actions := actions + [a];
        case Talk(_) =>
        case Leave(id, reached, now) =>
          var a := Departure(env, s, id, reached, now);
          Server.RunExtends(rules, Server.INITIAL, actions, a);
          actions := actions + [a];
      }
    }
  }

  // In every interleaving of whole sessions, cut off anywhere: a peer's record counts exactly its
  // unproductive conversations since the record was created, and the mails forwarded by all finished
  // sessions are exactly those their conversations deserved.
  lemma RecordsCountConversations(rules: Server.Config, env: Env, cfg: ProxyConfig, moves: seq<Move>)
    requires env.handler == Callbacks(cfg) && Possible(rules, env, moves)
    ensures var s := Outcome(rules, env, moves);
            && (forall peer :: peer in s.world.peers ==>
                  s.world.peers[peer].fails == Unproductive(env, cfg, s.told, peer))
            && Forwarded(env, s.told) == DeservedByAll(env, cfg, s.told)
  {
    hide At;
    AlwaysAgrees(rules, env, cfg, moves);
    var actions := RecordsRunAlong(rules, env, moves);
    Server.FailsAreExplained(rules, actions);
  }
}
