/** The server's concurrent sessions over the shared peer records: every interleaving of connecting
    and disconnecting tasks, each of which holds the records' lock while it updates them. */
module Server {
  import opened Basics
  import opened PeerFilters
  import opened Fail2Bans

  datatype Config = Config(limits: Limits, rules: seq<Rule>)

  // A task between its on_connect and its on_disconnect.
  datatype Task = Task(peer: IpAddr, start: Instant, admitted: bool)

  // What happened to the records, oldest first.
  datatype Happening =
    | Connected(peer: IpAddr, time: Instant, created: bool)
    | Disconnected(peer: IpAddr, time: Instant, productive: bool)
    | Forgotten(peers: set<IpAddr>)

  datatype World = World(peers: Peers, live: map<nat, Task>, clock: Instant, history: seq<Happening>)

  // A connecting task reads the clock when it records the connection and again when old records
  // are swept; a disconnecting task knows whether its session was productive.
  datatype Action =
    | Connect(id: nat, peer: IpAddr, pushed: Instant, swept: Instant)
    | Disconnect(id: nat, productive: bool, now: Instant)

  // ----- the handler's two locked sections -----

  // The records after on_connect, and whether the connection is accepted.
  function OnConnect(cfg: Config, peers: Peers, peer: IpAddr, pushed: Instant, swept: Instant): (Peers, bool)
  {
    var kept := Swept(cfg.limits, Pushed(peers, peer, pushed), swept);
    (kept, VerdictOn(cfg.limits, kept, peer) == Verdict.Ok && PeerFilters.Verdict(cfg.rules, peer) == Allow)
  }

  function OnDisconnect(peers: Peers, peer: IpAddr, productive: bool, now: Instant): Peers
  {
    Popped(if productive then peers else Failed(peers, peer, now), peer)
  }

  // ----- the transition system -----

  // A rejected task never runs a session, so it is never productive.
  predicate Enabled(w: World, a: Action)
  {
    match a
    case Connect(id, _, pushed, swept) => id !in w.live && w.clock <= pushed <= swept
    case Disconnect(id, productive, now) => id in w.live && w.clock <= now && (productive ==> w.live[id].admitted)
  }

  function Next(cfg: Config, w: World, a: Action): World
    requires Enabled(w, a)
  {
    match a
    case Connect(id, peer, pushed, swept) =>
      var (kept, admitted) := OnConnect(cfg, w.peers, peer, pushed, swept);
      World(kept, w.live[id := Task(peer, pushed, admitted)], swept,
            w.history + [Connected(peer, pushed, peer !in w.peers),
                         Forgotten(Pushed(w.peers, peer, pushed).Keys - kept.Keys)])
    case Disconnect(id, productive, now) =>
      var peer := w.live[id].peer;
      World(OnDisconnect(w.peers, peer, productive, now), w.live - {id}, now,
            w.history + [Disconnected(peer, now, productive)])
  }

  const INITIAL := World(map[], map[], 0, [])

  // The actions can happen one after the other from w.
  predicate Possible(cfg: Config, w: World, actions: seq<Action>)
    decreases |actions|, 0
  {
    actions == [] ||
    (Possible(cfg, w, Init(actions)) && Enabled(Outcome(cfg, w, Init(actions)), Last(actions)))
  }

  function Outcome(cfg: Config, w: World, actions: seq<Action>): World
    requires Possible(cfg, w, actions)
    decreases |actions|, 1
  {
    if actions == [] then w else Next(cfg, Outcome(cfg, w, Init(actions)), Last(actions))
  }

  // ----- counting tasks -----

  function TasksOf(live: map<nat, Task>, peer: IpAddr): set<nat>
  {
    set id | id in live && live[id].peer == peer
  }

  function AdmittedOf(live: map<nat, Task>, peer: IpAddr): set<nat>
  {
    set id | id in live && live[id].peer == peer && live[id].admitted
  }

  function RecordedConnections(peers: Peers, peer: IpAddr): nat
  {
    if peer in peers then peers[peer].connections else 0
  }

  // The records count the live tasks of every peer.
  ghost predicate Conserved(w: World)
  {
    forall peer :: RecordedConnections(w.peers, peer) == |TasksOf(w.live, peer)|
  }

  // A live task's peer has a record at least as recent as its start.
  ghost predicate Recorded(w: World)
  {
    forall id :: id in w.live ==> w.live[id].peer in w.peers && w.peers[w.live[id].peer].time >= w.live[id].start
  }

  ghost predicate WithinLimits(cfg: Config, w: World)
  {
    forall peer :: |AdmittedOf(w.live, peer)| <= cfg.limits.maxConnections
  }

  ghost predicate ClockBehind(w: World)
  {
    forall id :: id in w.live ==> w.live[id].start <= w.clock
  }

  // No live task, the connecting one included, is older than max_age when records are swept.
  ghost predicate Timely(cfg: Config, w: World, a: Action)
  {
    a.Connect? ==>
      && a.swept - a.pushed <= cfg.limits.maxAge
      && forall id :: id in w.live ==> a.swept - w.live[id].start <= cfg.limits.maxAge
  }

  ghost predicate AlwaysTimely(cfg: Config, w: World, actions: seq<Action>)
    requires Possible(cfg, w, actions)
    decreases |actions|
  {
    actions == [] ||
    (AlwaysTimely(cfg, w, Init(actions)) && Timely(cfg, Outcome(cfg, w, Init(actions)), Last(actions)))
  }

  ghost predicate Sound(cfg: Config, w: World)
  {
    Conserved(w) && Recorded(w) && WithinLimits(cfg, w) && ClockBehind(w)
  }

  // ----- one connection -----

  lemma TasksAfterConnect(live: map<nat, Task>, id: nat, task: Task, peer: IpAddr)
    requires id !in live
    ensures |TasksOf(live[id := task], peer)| == |TasksOf(live, peer)| + (if task.peer == peer then 1 else 0)
  {
    var more := if task.peer == peer then {id} else {};
    assert TasksOf(live[id := task], peer) == TasksOf(live, peer) + more;
    assert TasksOf(live, peer) !! more;
  }

  lemma AdmittedAfterConnect(live: map<nat, Task>, id: nat, task: Task, peer: IpAddr)
    requires id !in live
    ensures |AdmittedOf(live[id := task], peer)| ==
            |AdmittedOf(live, peer)| + (if task.peer == peer && task.admitted then 1 else 0)
  {
    var more := if task.peer == peer && task.admitted then {id} else {};
    assert AdmittedOf(live[id := task], peer) == AdmittedOf(live, peer) + more;
    assert AdmittedOf(live, peer) !! more;
  }

  lemma TasksAfterDisconnect(live: map<nat, Task>, id: nat, peer: IpAddr)
    requires id in live
    ensures |TasksOf(live - {id}, peer)| == |TasksOf(live, peer)| - (if live[id].peer == peer then 1 else 0)
    ensures |AdmittedOf(live - {id}, peer)| <= |AdmittedOf(live, peer)|
  {
    assert TasksOf(live - {id}, peer) == TasksOf(live, peer) - {id};
    assert id in TasksOf(live, peer) <==> live[id].peer == peer;
    assert AdmittedOf(live - {id}, peer) == AdmittedOf(live, peer) - {id};
  }

  // No record of a peer with a live task is dropped by the sweep.
  ghost predicate SparesLive(cfg: Config, w: World, a: Action)
    requires Enabled(w, a) && a.Connect?
  {
    var pushed := Pushed(w.peers, a.peer, a.pushed);
    var live := Next(cfg, w, a).live;
    forall id :: id in live && live[id].peer in pushed ==> a.swept - pushed[live[id].peer].time <= cfg.limits.maxAge
  }

  // A connection keeps the count right exactly if the sweep spares the records of live tasks.
  lemma ConnectConservesIff(cfg: Config, w: World, a: Action)
    requires Enabled(w, a) && a.Connect? && Conserved(w)
    ensures Conserved(Next(cfg, w, a)) <==> SparesLive(cfg, w, a)
  {
    var w' := Next(cfg, w, a);
    var pushed := Pushed(w.peers, a.peer, a.pushed);
    var task := w'.live[a.id];
    forall peer
      ensures RecordedConnections(pushed, peer) == |TasksOf(w'.live, peer)|
    {
      TasksAfterConnect(w.live, a.id, task, peer);
      assert RecordedConnections(w.peers, peer) == |TasksOf(w.live, peer)|;
    }
    if Conserved(w') {
      forall id | id in w'.live && w'.live[id].peer in pushed
        ensures a.swept - pushed[w'.live[id].peer].time <= cfg.limits.maxAge
      {
        var peer := w'.live[id].peer;
        assert id in TasksOf(w'.live, peer);
        assert RecordedConnections(w'.peers, peer) == |TasksOf(w'.live, peer)| > 0;
      }
    }
    if SparesLive(cfg, w, a) {
      forall peer
        ensures RecordedConnections(w'.peers, peer) == |TasksOf(w'.live, peer)|
      {
        if peer in pushed && peer !in w'.peers {
          assert TasksOf(w'.live, peer) == {};
        }
      }
    }
  }

  lemma ConnectKeepsSound(cfg: Config, w: World, a: Action)
    requires Sound(cfg, w) && Enabled(w, a) && a.Connect? && Timely(cfg, w, a)
    ensures Sound(cfg, Next(cfg, w, a))
  {
    var w' := Next(cfg, w, a);
    var pushed := Pushed(w.peers, a.peer, a.pushed);
    forall id | id in w'.live
      ensures w'.live[id].peer in pushed && pushed[w'.live[id].peer].time >= w'.live[id].start
    {
      if id != a.id {
        assert id in w.live && w'.live[id] == w.live[id];
      }
    }
    ConnectConservesIff(cfg, w, a);
    assert Recorded(w');
    forall peer
      ensures |AdmittedOf(w'.live, peer)| <= cfg.limits.maxConnections
    {
      AdmittedAfterConnect(w.live, a.id, w'.live[a.id], peer);
      if peer == a.peer && w'.live[a.id].admitted {
        assert w'.peers[peer].connections == |TasksOf(w'.live, peer)|;
        assert AdmittedOf(w'.live, peer) <= TasksOf(w'.live, peer);
        SubsetSize(AdmittedOf(w'.live, peer), TasksOf(w'.live, peer));
      }
    }
  }

  lemma SubsetSize(a: set<nat>, b: set<nat>)
    requires a <= b
    ensures |a| <= |b|
  {
    assert b == a + (b - a);
  }

  // The counter a disconnecting task decrements is never zero.
  lemma PopIsSafe(cfg: Config, w: World, id: nat)
    requires Sound(cfg, w) && id in w.live
    ensures w.live[id].peer in w.peers && w.peers[w.live[id].peer].connections > 0
  {
    assert id in TasksOf(w.live, w.live[id].peer);
    assert RecordedConnections(w.peers, w.live[id].peer) == |TasksOf(w.live, w.live[id].peer)|;
  }

  lemma DisconnectKeepsSound(cfg: Config, w: World, a: Action)
    requires Sound(cfg, w) && Enabled(w, a) && a.Disconnect?
    ensures Sound(cfg, Next(cfg, w, a))
  {
    var w' := Next(cfg, w, a);
    var peer := w.live[a.id].peer;
    PopIsSafe(cfg, w, a.id);
    forall p
      ensures RecordedConnections(w'.peers, p) == |TasksOf(w'.live, p)|
      ensures |AdmittedOf(w'.live, p)| <= cfg.limits.maxConnections
    {
      TasksAfterDisconnect(w.live, a.id, p);
      assert RecordedConnections(w.peers, p) == |TasksOf(w.live, p)|;
    }
    forall id | id in w'.live
      ensures w'.live[id].peer in w'.peers && w'.peers[w'.live[id].peer].time >= w'.live[id].start
    {
      assert id in w.live && w'.live[id] == w.live[id];
    }
  }

  // ----- every run -----

  // If no session outlives max_age, then whatever the interleaving the recorded connections of every
  // peer are its live tasks, none of their records is ever evicted, and no peer has more than
  // max_connections admitted sessions at once.
  lemma {:induction false} ConnectionsAreConserved(cfg: Config, actions: seq<Action>)
    requires Possible(cfg, INITIAL, actions) && AlwaysTimely(cfg, INITIAL, actions)
    ensures Sound(cfg, Outcome(cfg, INITIAL, actions))
    decreases |actions|
  {
    if actions == [] {
      assert forall peer :: TasksOf(INITIAL.live, peer) == {} && AdmittedOf(INITIAL.live, peer) == {};
    } else {
      ConnectionsAreConserved(cfg, Init(actions));
      var w := Outcome(cfg, INITIAL, Init(actions));
      if Last(actions).Connect? {
        ConnectKeepsSound(cfg, w, Last(actions));
      } else {
        DisconnectKeepsSound(cfg, w, Last(actions));
      }
    }
  }

  lemma DisconnectConserves(cfg: Config, w: World, a: Action)
    requires Enabled(w, a) && a.Disconnect? && Conserved(w)
    ensures Conserved(Next(cfg, w, a))
  {
    var w' := Next(cfg, w, a);
    var peer := w.live[a.id].peer;
    assert a.id in TasksOf(w.live, peer);
    assert RecordedConnections(w.peers, peer) == |TasksOf(w.live, peer)|;
    forall p
      ensures RecordedConnections(w'.peers, p) == |TasksOf(w'.live, p)|
    {
      TasksAfterDisconnect(w.live, a.id, p);
      assert RecordedConnections(w.peers, p) == |TasksOf(w.live, p)|;
    }
  }

  // The counts are right in every state the run passes through.
  ghost predicate AlwaysConserved(cfg: Config, w: World, actions: seq<Action>)
    requires Possible(cfg, w, actions)
    decreases |actions|
  {
    Conserved(Outcome(cfg, w, actions)) && (actions == [] || AlwaysConserved(cfg, w, Init(actions)))
  }

  ghost predicate AlwaysSparesLive(cfg: Config, w: World, actions: seq<Action>)
    requires Possible(cfg, w, actions)
    decreases |actions|
  {
    actions == [] ||
    (&& AlwaysSparesLive(cfg, w, Init(actions))
     && (Last(actions).Connect? ==> SparesLive(cfg, Outcome(cfg, w, Init(actions)), Last(actions))))
  }

  // Over a whole run the counts stay right exactly if no sweep of the run drops a live task's record.
  lemma {:induction false} RunConservesIff(cfg: Config, actions: seq<Action>)
    requires Possible(cfg, INITIAL, actions)
    ensures AlwaysConserved(cfg, INITIAL, actions) <==> AlwaysSparesLive(cfg, INITIAL, actions)
    decreases |actions|
  {
    hide Conserved, SparesLive, Next;
    if actions == [] {
      NothingToCount();
    } else {
      RunConservesIff(cfg, Init(actions));
      var before := Outcome(cfg, INITIAL, Init(actions));
      if AlwaysConserved(cfg, INITIAL, Init(actions)) {
        assert Conserved(before);
        if Last(actions).Connect? {
          ConnectConservesIff(cfg, before, Last(actions));
        } else {
          DisconnectConserves(cfg, before, Last(actions));
        }
      }
    }
  }

  lemma NothingToCount()
    ensures Conserved(INITIAL)
  {
    assert forall peer :: TasksOf(INITIAL.live, peer) == {};
  }

  // A second session of peer a, recorded as its only one although the first is still live.
  ghost predicate Miscounted(w: World, a: IpAddr)
  {
    && a in w.peers && w.peers[a].connections == 1 && w.clock <= 21
    && 1 in w.live && 3 in w.live && w.live[1].peer == a && w.live[3].peer == a
  }

  lemma SessionForgotten(cfg: Config, a: IpAddr, b: IpAddr) returns (w: World)
    requires a != b && cfg.limits.maxAge == 10
    ensures var actions := [Connect(1, a, 0, 0), Connect(2, b, 20, 20), Connect(3, a, 21, 21)];
            Possible(cfg, INITIAL, actions) && w == Outcome(cfg, INITIAL, actions) && Miscounted(w, a)
  {
    var w1 := Next(cfg, INITIAL, Connect(1, a, 0, 0));
    assert w1.live[1].peer == a && w1.peers[a].time == 0;
    var w2 := Next(cfg, w1, Connect(2, b, 20, 20));
    assert a !in w2.peers && w2.live[1].peer == a;
    w := Next(cfg, w2, Connect(3, a, 21, 21));
    assert w.peers[a] == PeerInfo(1, 0, 21) && w.live[1].peer == a && w.live[3].peer == a;
    hide Next, Miscounted, OnConnect;
    var none: seq<Action> := [];
    var one, two, three := Connect(1, a, 0, 0), Connect(2, b, 20, 20), Connect(3, a, 21, 21);
    RunExtends(cfg, INITIAL, none, one);
    assert none + [one] == [one] && [one] + [two] == [one, two] && [one, two] + [three] == [one, two, three];
    RunExtends(cfg, INITIAL, [one], two);
    RunExtends(cfg, INITIAL, [one, two], three);
  }

  lemma SecondPopWraps(cfg: Config, w: World, a: IpAddr) returns (w': World)
    requires Miscounted(w, a)
    ensures Enabled(w, Disconnect(1, false, 22))
    ensures Enabled(Next(cfg, w, Disconnect(1, false, 22)), Disconnect(3, false, 23))
    ensures w' == Next(cfg, Next(cfg, w, Disconnect(1, false, 22)), Disconnect(3, false, 23))
    ensures a in w'.peers && w'.peers[a].connections == U32_MAX
  {
    var w1 := Next(cfg, w, Disconnect(1, false, 22));
    assert w1.peers[a].connections == 0 && w1.live[3].peer == a;
    w' := Next(cfg, w1, Disconnect(3, false, 23));
  }

  // Without that bound the counting breaks: a session of peer A that outlives max_age is forgotten when
  // B connects, A's next session is counted alone, and the second disconnection wraps the counter.
  lemma CounterWraps(cfg: Config, a: IpAddr, b: IpAddr)
    requires a != b && cfg.limits.maxAge == 10
    ensures var actions := [Connect(1, a, 0, 0), Connect(2, b, 20, 20), Connect(3, a, 21, 21),
                            Disconnect(1, false, 22), Disconnect(3, false, 23)];
            && Possible(cfg, INITIAL, actions)
            && a in Outcome(cfg, INITIAL, actions).peers
            && Outcome(cfg, INITIAL, actions).peers[a].connections == U32_MAX
  {
    hide Next, Possible, Outcome, Miscounted, Enabled;
    var w := SessionForgotten(cfg, a, b);
    var w' := SecondPopWraps(cfg, w, a);
    var opening := [Connect(1, a, 0, 0), Connect(2, b, 20, 20), Connect(3, a, 21, 21)];
    RunExtends(cfg, INITIAL, opening, Disconnect(1, false, 22));
    RunExtends(cfg, INITIAL, opening + [Disconnect(1, false, 22)], Disconnect(3, false, 23));
    assert opening + [Disconnect(1, false, 22)] + [Disconnect(3, false, 23)] ==
           [Connect(1, a, 0, 0), Connect(2, b, 20, 20), Connect(3, a, 21, 21),
            Disconnect(1, false, 22), Disconnect(3, false, 23)];
  }

  lemma RunExtends(cfg: Config, w: World, actions: seq<Action>, a: Action)
    requires Possible(cfg, w, actions) && Enabled(Outcome(cfg, w, actions), a)
    ensures Possible(cfg, w, actions + [a]) && Outcome(cfg, w, actions + [a]) == Next(cfg, Outcome(cfg, w, actions), a)
  {
    InitOfSnoc(actions, a);
  }

  // ----- failures and bans -----

  // Unproductive disconnections of a peer since its record was created.
  function Strikes(history: seq<Happening>, peer: IpAddr): nat
  {
    if history == [] then 0
    else match Last(history)
      case Connected(p, _, created) => if p == peer && created then 0 else Strikes(Init(history), peer)
      case Disconnected(p, _, productive) =>
        Strikes(Init(history), peer) + (if p == peer && !productive then 1 else 0)
      case Forgotten(_) => Strikes(Init(history), peer)
  }

  // The last time a peer connected or disconnected unproductively.
  function LastActivity(history: seq<Happening>, peer: IpAddr): Instant
  {
    if history == [] then 0
    else match Last(history)
      case Connected(p, time, _) => if p == peer then time else LastActivity(Init(history), peer)
      case Disconnected(p, time, productive) =>
        if p == peer && !productive then time else LastActivity(Init(history), peer)
      case Forgotten(_) => LastActivity(Init(history), peer)
  }

  // What the records say about failures is what happened.
  ghost predicate FailsExplained(w: World)
  {
    forall peer :: peer in w.peers ==>
      w.peers[peer].fails == Strikes(w.history, peer) && w.peers[peer].time == LastActivity(w.history, peer)
  }

  lemma HistoryGrows(history: seq<Happening>, h: Happening)
    ensures Init(history + [h]) == history && Last(history + [h]) == h
  {
  }

  lemma ConnectExplainsFails(cfg: Config, w: World, a: Action, p: IpAddr)
    requires FailsExplained(w) && Enabled(w, a) && a.Connect?
    ensures var w' := Next(cfg, w, a);
            p in w'.peers ==>
              w'.peers[p].fails == Strikes(w'.history, p) && w'.peers[p].time == LastActivity(w'.history, p)
  {
    var w' := Next(cfg, w, a);
    var h := Connected(a.peer, a.pushed, a.peer !in w.peers);
    var f := Forgotten(Pushed(w.peers, a.peer, a.pushed).Keys - w'.peers.Keys);
    assert w'.history == w.history + [h] + [f];
    HistoryGrows(w.history, h);
    HistoryGrows(w.history + [h], f);
    assert Strikes(w'.history, p) == Strikes(w.history + [h], p);
    assert LastActivity(w'.history, p) == LastActivity(w.history + [h], p);
    assert p in w'.peers ==> p == a.peer || p in w.peers;
  }

  lemma StepExplainsFails(cfg: Config, w: World, a: Action)
    requires FailsExplained(w) && Enabled(w, a)
    ensures FailsExplained(Next(cfg, w, a))
  {
    match a {
      case Connect(_, _, _, _) =>
        forall p
          ensures var w' := Next(cfg, w, a);
                  p in w'.peers ==>
                    w'.peers[p].fails == Strikes(w'.history, p) && w'.peers[p].time == LastActivity(w'.history, p)
        {
          ConnectExplainsFails(cfg, w, a, p);
        }
      case Disconnect(id, productive, now) =>
        HistoryGrows(w.history, Disconnected(w.live[id].peer, now, productive));
    }
  }

  lemma {:induction false} FailsStayExplained(cfg: Config, w: World, actions: seq<Action>)
    requires FailsExplained(w) && Possible(cfg, w, actions)
    ensures FailsExplained(Outcome(cfg, w, actions))
    decreases |actions|
  {
    if actions != [] {
      FailsStayExplained(cfg, w, Init(actions));
      StepExplainsFails(cfg, Outcome(cfg, w, Init(actions)), Last(actions));
    }
  }

  // In every run, timely or not: a record's fails are the unproductive disconnections of its peer
  // since the record was created, and its time is that of the peer's last activity.
  lemma FailsAreExplained(cfg: Config, actions: seq<Action>)
    requires Possible(cfg, INITIAL, actions)
    ensures FailsExplained(Outcome(cfg, INITIAL, actions))
  {
    FailsStayExplained(cfg, INITIAL, actions);
  }

  // ----- admission -----

  // In a sound world, if no live task has outlived max_age, a connection is admitted exactly if its peer
  // has not failed too often since its record was created, has a connection to spare, and passes the
  // filter.
  lemma AdmittedIff(cfg: Config, w: World, a: Action)
    requires Sound(cfg, w) && FailsExplained(w) && Enabled(w, a) && a.Connect? && Timely(cfg, w, a)
    ensures var w' := Next(cfg, w, a);
            w'.live[a.id].admitted <==>
            && Strikes(w'.history, a.peer) <= cfg.limits.maxFails
            && |TasksOf(w.live, a.peer)| + 1 <= cfg.limits.maxConnections
            && Allows(cfg.rules, a.peer)
  {
    hide Allows, Strikes, LastActivity;
    var w' := Next(cfg, w, a);
    StepExplainsFails(cfg, w, a);
    VerdictIsLongestPrefix(cfg.rules, a.peer);
    assert RecordedConnections(w.peers, a.peer) == |TasksOf(w.live, a.peer)|;
    assert a.peer in w'.peers && w'.peers[a.peer].fails == Strikes(w'.history, a.peer);
  }

  // So it is for the next connection after any timely run.
  lemma AdmissionAfterRun(cfg: Config, actions: seq<Action>, a: Action)
    requires Possible(cfg, INITIAL, actions) && AlwaysTimely(cfg, INITIAL, actions)
    requires var w := Outcome(cfg, INITIAL, actions); Enabled(w, a) && a.Connect? && Timely(cfg, w, a)
    ensures var w := Outcome(cfg, INITIAL, actions);
            var w' := Next(cfg, w, a);
            w'.live[a.id].admitted <==>
            && Strikes(w'.history, a.peer) <= cfg.limits.maxFails
            && |TasksOf(w.live, a.peer)| + 1 <= cfg.limits.maxConnections
            && Allows(cfg.rules, a.peer)
  {
    hide Allows, Strikes, TasksOf, Next;
    ConnectionsAreConserved(cfg, actions);
    FailsAreExplained(cfg, actions);
    AdmittedIff(cfg, Outcome(cfg, INITIAL, actions), a);
  }

  lemma ConnectKeepsLimits(cfg: Config, w: World, a: Action)
    requires Enabled(w, a) && a.Connect? && WithinLimits(cfg, w) && Conserved(Next(cfg, w, a))
    ensures WithinLimits(cfg, Next(cfg, w, a))
  {
    var w' := Next(cfg, w, a);
    forall peer
      ensures |AdmittedOf(w'.live, peer)| <= cfg.limits.maxConnections
    {
      AdmittedAfterConnect(w.live, a.id, w'.live[a.id], peer);
      if peer == a.peer && w'.live[a.id].admitted {
        assert RecordedConnections(w'.peers, peer) == |TasksOf(w'.live, peer)|;
        SubsetSize(AdmittedOf(w'.live, peer), TasksOf(w'.live, peer));
      }
    }
  }

  lemma DisconnectKeepsLimits(cfg: Config, w: World, a: Action)
    requires Enabled(w, a) && a.Disconnect? && WithinLimits(cfg, w)
    ensures WithinLimits(cfg, Next(cfg, w, a))
  {
    forall peer
      ensures |AdmittedOf(Next(cfg, w, a).live, peer)| <= cfg.limits.maxConnections
    {
      TasksAfterDisconnect(w.live, a.id, peer);
    }
  }

  // The admission bound needs no more than that no sweep drops a live task's record.
  lemma {:induction false} AdmissionIsBounded(cfg: Config, actions: seq<Action>)
    requires Possible(cfg, INITIAL, actions) && AlwaysSparesLive(cfg, INITIAL, actions)
    ensures WithinLimits(cfg, Outcome(cfg, INITIAL, actions))
    decreases |actions|
  {
    hide Conserved, SparesLive, Next, WithinLimits;
    if actions == [] {
      NobodyAdmitted(cfg);
    } else {
      AdmissionIsBounded(cfg, Init(actions));
      RunConservesIff(cfg, actions);
      var before := Outcome(cfg, INITIAL, Init(actions));
      if Last(actions).Connect? {
        ConnectKeepsLimits(cfg, before, Last(actions));
      } else {
        DisconnectKeepsLimits(cfg, before, Last(actions));
      }
    }
  }

  lemma NobodyAdmitted(cfg: Config)
    ensures WithinLimits(cfg, INITIAL)
  {
    assert forall peer :: AdmittedOf(INITIAL.live, peer) == {};
  }

  // ----- bans -----

  ghost predicate Banned(cfg: Config, w: World, peer: IpAddr)
  {
    peer in w.peers && w.peers[peer].fails > cfg.limits.maxFails
  }

  // The action leaves no more than max_age between an activity of the peer and a sweep.
  ghost predicate Remembers(cfg: Config, w: World, a: Action, peer: IpAddr)
  {
    a.Connect? ==>
      a.swept - (if a.peer == peer then a.pushed else LastActivity(w.history, peer)) <= cfg.limits.maxAge
  }

  // A ban outlasts one action exactly if the sweep finds the peer's last activity recent enough.
  lemma BanOutlastsIff(cfg: Config, w: World, a: Action, peer: IpAddr)
    requires FailsExplained(w) && Enabled(w, a) && Banned(cfg, w, peer)
    ensures Banned(cfg, Next(cfg, w, a), peer) <==> Remembers(cfg, w, a, peer)
  {
  }

  // A banned peer's connection is rejected for its failures.
  lemma BannedIsRejected(cfg: Config, w: World, a: Action)
    requires Enabled(w, a) && a.Connect? && Banned(cfg, w, a.peer)
    requires a.swept - a.pushed <= cfg.limits.maxAge
    ensures VerdictOn(cfg.limits, Next(cfg, w, a).peers, a.peer) == TooManyFails
    ensures !Next(cfg, w, a).live[a.id].admitted
  {
  }

  // After recording its own connection a peer has no record exactly if the sweep came too late.
  lemma NoRecordIff(cfg: Config, w: World, a: Action)
    requires Enabled(w, a) && a.Connect?
    ensures VerdictOn(cfg.limits, Next(cfg, w, a).peers, a.peer) == NoRecord <==> a.swept - a.pushed > cfg.limits.maxAge
  {
    assert a.peer in Pushed(w.peers, a.peer, a.pushed);
  }

  ghost predicate AlwaysRemembers(cfg: Config, w: World, actions: seq<Action>, peer: IpAddr)
    requires Possible(cfg, w, actions)
    decreases |actions|
  {
    actions == [] ||
    (&& AlwaysRemembers(cfg, w, Init(actions), peer)
     && Remembers(cfg, Outcome(cfg, w, Init(actions)), Last(actions), peer))
  }

  // The peer is banned in every state the run passes through.
  ghost predicate AlwaysBanned(cfg: Config, w: World, actions: seq<Action>, peer: IpAddr)
    requires Possible(cfg, w, actions)
    decreases |actions|
  {
    Banned(cfg, Outcome(cfg, w, actions), peer) && (actions == [] || AlwaysBanned(cfg, w, Init(actions), peer))
  }

  // Once banned, a peer is banned in every state of a run, whatever the tasks do, exactly if no sweep
  // of the run comes more than max_age after its last activity.
  lemma {:induction false} BanPersistsIff(cfg: Config, w: World, actions: seq<Action>, peer: IpAddr)
    requires FailsExplained(w) && Banned(cfg, w, peer) && Possible(cfg, w, actions)
    ensures AlwaysBanned(cfg, w, actions, peer) <==> AlwaysRemembers(cfg, w, actions, peer)
    decreases |actions|
  {
    hide FailsExplained, Banned, Remembers, Next;
    if actions != [] {
      BanPersistsIff(cfg, w, Init(actions), peer);
      FailsStayExplained(cfg, w, Init(actions));
      var before := Outcome(cfg, w, Init(actions));
      if Banned(cfg, before, peer) {
        BanOutlastsIff(cfg, before, Last(actions), peer);
      }
      if AlwaysBanned(cfg, w, Init(actions), peer) {
        assert Banned(cfg, before, peer);
      }
    }
  }

  // Once banned, a peer stays banned through any further actions of any tasks as long as no sweep
  // comes more than max_age after its last activity; its own return never lifts the ban.
  lemma BanPersists(cfg: Config, w: World, actions: seq<Action>, peer: IpAddr)
    requires FailsExplained(w) && Banned(cfg, w, peer)
    requires Possible(cfg, w, actions) && AlwaysRemembers(cfg, w, actions, peer)
    ensures FailsExplained(Outcome(cfg, w, actions)) && Banned(cfg, Outcome(cfg, w, actions), peer)
  {
    hide FailsExplained, Banned;
    FailsStayExplained(cfg, w, actions);
    BanPersistsIff(cfg, w, actions, peer);
  }

  // However long a banned peer stays away, it is rejected if nobody else connected meanwhile; and its
  // own return ends the ban only if it recorded itself more than max_age before its own sweep.
  lemma ReturnDoesNotLiftBan(cfg: Config, w: World, id: nat, peer: IpAddr, pushed: Instant, swept: Instant)
    requires FailsExplained(w) && Banned(cfg, w, peer) && id !in w.live && w.clock <= pushed <= swept
    ensures !Next(cfg, w, Connect(id, peer, pushed, swept)).live[id].admitted
    ensures Banned(cfg, Next(cfg, w, Connect(id, peer, pushed, swept)), peer) <==> swept - pushed <= cfg.limits.maxAge
  {
    var a := Connect(id, peer, pushed, swept);
    BanOutlastsIff(cfg, w, a, peer);
    if swept - pushed <= cfg.limits.maxAge {
      BannedIsRejected(cfg, w, a);
    } else {
      NoRecordIff(cfg, w, a);
    }
  }
}
