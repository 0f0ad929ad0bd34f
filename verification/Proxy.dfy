/** The proxy's event handler: who logged in, what was forwarded, and the shared peer records. */
module Proxy {
  import opened Basics
  import opened Mails
  import opened PeerFilters
  import opened Fail2Bans
  import opened Users
  import P = Protocol
  import Server

  // A mail handed to the outgoing mail client, with the user it is sent for.
  datatype Forward = Forward(username: Option<string>, sender: string, data: Bytes)

  datatype ProxyState = ProxyState(username: Option<string>, productive: bool, forwarded: seq<Forward>)

  const FRESH := ProxyState(None, false, [])

  // What sending a mail results in, given what was sent before: an error text, or success.
  type Sender = (seq<Forward>, string, Bytes) -> Option<string>

  datatype ProxyConfig = ProxyConfig(users: UserMap, lower: Lower, verify: Verify, send: Sender)

  const SENDER_NOT_ALLOWED := "Sender is not allowed for this user"

  function AfterLogin(cfg: ProxyConfig, h: ProxyState, username: string, password: string): (ProxyState, P.Answer)
  {
    if Accepts(cfg.lower, cfg.verify, cfg.users, username, password) then (h.(username := Some(username)), P.Accept)
    else (h.(username := None, productive := false), P.Refuse)
  }

  ghost function AfterMail(cfg: ProxyConfig, h: ProxyState, mail: Mail): (ProxyState, Option<string>)
  {
    if h.username.Some? && !CanSendAs(cfg.lower, cfg.users, h.username.value, mail.sender) then
      (h, Some(SENDER_NOT_ALLOWED))
    else
      (h.(productive := true, forwarded := h.forwarded + [Forward(h.username, mail.sender, mail.data)]),
       cfg.send(h.forwarded, mail.sender, mail.data))
  }

  function AfterReset(h: ProxyState): ProxyState
  {
    h.(username := None)
  }

  // The handler as a session calls it; greetings are always accepted.
  ghost function Callbacks(cfg: ProxyConfig): P.Handler<ProxyState>
  {
    P.Handler((h, domain, extended) => (h, P.Accept),
              (h, username, password) => AfterLogin(cfg, h, username, password),
              (h, mail) => AfterMail(cfg, h, mail),
              h => AfterReset(h))
  }

  class ProxyHandler {
    const users: UserList
    const filter: PeerFilter
    const fail2ban: Fail2Ban
    const send: Sender
    var username: Option<string>
    var productive: bool
    var forwarded: seq<Forward>

    function State(): ProxyState
      reads this
    {
      ProxyState(username, productive, forwarded)
    }

    function Config(): ProxyConfig
      reads users
    {
      ProxyConfig(users.users, users.lower, users.verify, send)
    }

    constructor (users: UserList, filter: PeerFilter, fail2ban: Fail2Ban, send: Sender)
      ensures State() == FRESH
      ensures this.users == users && this.filter == filter && this.fail2ban == fail2ban && this.send == send
    {
      this.users, this.filter, this.fail2ban, this.send := users, filter, fail2ban, send;
      username, productive, forwarded := None, false, [];
    }

    // Takes over the state in which a session left the callbacks.
    method Resume(state: ProxyState)
      modifies this
      ensures State() == state
    {
      username, productive, forwarded := state.username, state.productive, state.forwarded;
    }

    method OnConnect(peer: IpAddr, pushed: Instant, swept: Instant) returns (accepted: bool)
      modifies this`productive, fail2ban
      ensures !productive
      ensures var cfg := Server.Config(fail2ban.limits, filter.rules);
              (fail2ban.peers, accepted) == Server.OnConnect(cfg, old(fail2ban.peers), peer, pushed, swept)
      ensures accepted ==> Allows(filter.rules, peer)
    {
      productive := false;
      fail2ban.PushConnection(peer, pushed);
      var verdict := fail2ban.GetVerdict(peer, swept);
      if verdict != Verdict.Ok {
        return false;
      }
      var action := filter.EvaluateAddress(peer);
      accepted := action == Allow;
    }

    method OnDisconnect(peer: IpAddr, now: Instant)
      modifies fail2ban
      ensures fail2ban.peers == Server.OnDisconnect(old(fail2ban.peers), peer, productive, now)
    {
      if !productive {
        fail2ban.PushFail(peer, now);
      }
      fail2ban.PopConnection(peer);
    }

    method OnLogin(user: string, password: string) returns (answer: P.Answer)
      modifies this`username, this`productive
      ensures (State(), answer) == AfterLogin(Config(), old(State()), user, password)
    {
      var ok := users.VerifyUserPassword(user, password);
      if ok {
        username := Some(user);
        answer := P.Accept;
      } else {
        username := None;
        productive := false;
        answer := P.Refuse;
      }
    }

    method OnMail(mail: Mail) returns (failure: Option<string>)
      modifies this`productive, this`forwarded
      ensures (State(), failure) == AfterMail(Config(), old(State()), mail)
    {
      if username.Some? {
        var ok := users.VerifyUserCanSendAs(username.value, mail.sender);
        if !ok {
          return Some(SENDER_NOT_ALLOWED);
        }
      }
      productive := true;
      failure := send(forwarded, mail.sender, mail.data);
      forwarded := forwarded + [Forward(username, mail.sender, mail.data)];
    }

    method OnReset()
      modifies this`username
      ensures State() == AfterReset(old(State()))
    {
      username := None;
    }
  }
}
