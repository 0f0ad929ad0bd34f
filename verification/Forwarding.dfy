/** The session and the proxy handler together: exactly the permitted mails of authenticated users
    are forwarded. */
module Forwarding {
  import opened Basics
  import opened Mails
  import opened Responses
  import opened Users
  import opened Proxy
  import opened Protocol
  import opened Transcripts
  import opened Invariants
  import opened Expectations
  import opened SessionTheorems
  import opened Connections
  import Cmd = Commands

  // The mails of a transcript that the user logged in at the time may send.
  ghost function Permitted(cfg: ProxyConfig, t: Log): seq<Forward>
  {
    if t == [] then []
    else
      var before := Permitted(cfg, Init(t));
      var user := LastLogin(Init(t));
      match Last(t)
      case MailCalled(mail, _) =>
        if user.Some? && CanSendAs(cfg.lower, cfg.users, user.value, mail.sender) then
          before + [Forward(user, mail.sender, mail.data)]
        else before
      case _ => before
  }

  // A mail was permitted, and no login was refused since.
  ghost predicate Productive(cfg: ProxyConfig, t: Log)
  {
    t != [] &&
    match Last(t)
    case MailCalled(mail, _) =>
      var user := LastLogin(Init(t));
      (user.Some? && CanSendAs(cfg.lower, cfg.users, user.value, mail.sender)) || Productive(cfg, Init(t))
    case LoginCalled(_, _, accepted) => accepted && Productive(cfg, Init(t))
    case _ => Productive(cfg, Init(t))
  }

  lemma LoginBeforeDelivery<H>(env: Env<H>, t: Log, mail: Mail)
    requires MailExplained(env, t, mail) && env.HasAuth()
    ensures LastLogin(t).Some?
  {
  }

  // The handler knows the logged-in user although STARTTLS does not tell it that a login lapsed.
  lemma {:induction false} HandlerAgrees(env: Env<ProxyState>, cfg: ProxyConfig, t: Log)
    requires env.handler == Callbacks(cfg) && env.HasAuth()
    requires AllCaused(env, t) && AnswersRecorded(env.handler, FRESH, t)
    ensures var h := Replay(env.handler, FRESH, t);
            && (LastLogin(t).Some? ==> h.username == LastLogin(t))
            && h.forwarded == Permitted(cfg, t)
            && h.productive == Productive(cfg, t)
            && (t != [] && Last(t).ResetCalled? ==> h.username == None)
  {
    hide MailExplained, Exchanged, CanSendAs, Accepts;
    if t != [] {
      HandlerAgrees(env, cfg, Init(t));
      if Last(t).MailCalled? {
        LoginBeforeDelivery(env, Init(t), Last(t).mail);
      }
    }
  }

  // The login in force: accepted for its password, and neither undone by a call nor replaced since.
  lemma {:induction false} LastLoginCalled(env: Env<ProxyState>, cfg: ProxyConfig, t: Log)
    returns (i: nat, password: string)
    requires env.handler == Callbacks(cfg) && AnswersRecorded(env.handler, FRESH, t) && LastLogin(t).Some?
    ensures i < |t| && t[i] == LoginCalled(LastLogin(t).value, password, true)
    ensures Accepts(cfg.lower, cfg.verify, cfg.users, LastLogin(t).value, password)
    ensures forall j :: i < j < |t| ==> !t[j].ResetCalled? && !t[j].TlsStarted? && !t[j].LoginCalled?
  {
    hide Accepts;
    if Last(t).LoginCalled? {
      i, password := |t| - 1, Last(t).password;
    } else {
      i, password := LastLoginCalled(env, cfg, Init(t));
    }
  }

  // The login in force: accepted for its password, with no further login, no RSET and no STARTTLS that
  // was taken up since.
  lemma LastLoginMeaning(env: Env<ProxyState>, cfg: ProxyConfig, tls: Option<Acceptor>, t: Log)
    returns (i: nat, password: string)
    requires env.handler == Callbacks(cfg) && AnswersRecorded(env.handler, FRESH, t) && LastLogin(t).Some?
    requires Follows(env, tls, t) && !Undoing(env.lib.lossy, t)
    ensures i < |t| && t[i] == LoginCalled(LastLogin(t).value, password, true)
    ensures Accepts(cfg.lower, cfg.verify, cfg.users, LastLogin(t).value, password)
    ensures forall j :: i < j < |t| ==> !Undoes(env.lib.lossy, t, j) && !t[j].LoginCalled?
    ensures forall j :: i < j < |t| ==> !t[j].ResetCalled? && !t[j].TlsStarted?
  {
    hide Accepts, Follows, Undoes, Undoing;
    i, password := LastLoginCalled(env, cfg, t);
    forall j | i < j < |t|
      ensures !Undoes(env.lib.lossy, t, j)
    {
      NothingUndone(env, tls, t, i + 1, j);
    }
  }

  // With authentication configured, after any number of turns, the mails forwarded are exactly those
  // permitted: each for the user whose login was in force when the mail was complete, and whose list
  // allows the sender; and the session counts as productive exactly if one was forwarded and no
  // login refused since.
  lemma ForwardedArePermitted(env: Env<ProxyState>, cfg: ProxyConfig, o: Origin<ProxyState>, n: nat)
    requires env.handler == Callbacks(cfg) && env.HasAuth() && o.handler == FRESH
    ensures var c := At(env, o, n);
            c.handler.forwarded == Permitted(cfg, c.log) && c.handler.productive == Productive(cfg, c.log)
  {
    hide Step;
    InvAlways(env, o, n);
    HandlerAgrees(env, cfg, At(env, o, n).log);
  }

  // Where a forwarded mail comes from: a login at position i, a delivery at position j, and between
  // them no further login, no RSET and no STARTTLS that was taken up.
  ghost predicate Sourced(lossy: Cmd.Lossy, cfg: ProxyConfig, t: Log, f: Forward, i: nat, j: nat)
  {
    && i < j < |t| && t[i].LoginCalled? && t[j].MailCalled?
    && t[i].accepted && f == Forward(Some(t[i].username), t[j].mail.sender, t[j].mail.data)
    && Accepts(cfg.lower, cfg.verify, cfg.users, t[i].username, t[i].password)
    && CanSendAs(cfg.lower, cfg.users, t[i].username, t[j].mail.sender)
    && (forall k :: i < k < j ==> !Undoes(lossy, t, k) && !t[k].LoginCalled?)
    && (forall k :: i < k < j ==> !t[k].ResetCalled? && !t[k].TlsStarted?)
  }

  lemma SourcedSoFar(lossy: Cmd.Lossy, cfg: ProxyConfig, t: Log, f: Forward, i: nat, j: nat)
    requires t != [] && Sourced(lossy, cfg, Init(t), f, i, j)
    ensures Sourced(lossy, cfg, t, f, i, j)
  {
    hide Accepts, CanSendAs, Undoes;
    forall k | i < k < j
      ensures !Undoes(lossy, t, k)
    {
      UndoesInPrefix(lossy, t, |t| - 1, k);
    }
  }

  lemma DeliveryIsSourced(env: Env<ProxyState>, cfg: ProxyConfig, tls: Option<Acceptor>, t: Log) returns (i: nat)
    requires env.handler == Callbacks(cfg) && AnswersRecorded(env.handler, FRESH, t) && Follows(env, tls, t)
    requires t != [] && Last(t).MailCalled?
    requires var user := LastLogin(Init(t));
             user.Some? && CanSendAs(cfg.lower, cfg.users, user.value, Last(t).mail.sender)
    ensures var f := Forward(LastLogin(Init(t)), Last(t).mail.sender, Last(t).mail.data);
            Sourced(env.lib.lossy, cfg, t, f, i, |t| - 1)
  {
    hide Accepts, CanSendAs, Undoes, Undoing, Follows;
    var j := |t| - 1;
    assert Follows(env, tls, Init(t)) by {
      FollowsSoFar(env, tls, t, j);
    }
    DeliveredFromContent(env, tls, t);
    var password;
    i, password := LastLoginMeaning(env, cfg, tls, Init(t));
    forall k | i < k < j
      ensures !Undoes(env.lib.lossy, t, k)
    {
      if k + 1 < j {
        UndoesInPrefix(env.lib.lossy, t, j, k);
      } else {
        assert t[..k] == Init(Init(t));
        TerminatorUndoesNothing(env.lib.lossy, t, k);
      }
    }
  }

  lemma {:induction false} PermittedIsSourced(env: Env<ProxyState>, cfg: ProxyConfig, tls: Option<Acceptor>,
                                              t: Log, m: nat)
    returns (i: nat, j: nat)
    requires env.handler == Callbacks(cfg) && AnswersRecorded(env.handler, FRESH, t) && Follows(env, tls, t)
    requires m < |Permitted(cfg, t)|
    ensures Sourced(env.lib.lossy, cfg, t, Permitted(cfg, t)[m], i, j)
  {
    hide Accepts, CanSendAs, Sourced;
    if m < |Permitted(cfg, Init(t))| {
      i, j := PermittedIsSourced(env, cfg, tls, Init(t), m);
      SourcedSoFar(env.lib.lossy, cfg, t, Permitted(cfg, t)[m], i, j);
    } else {
      i := DeliveryIsSourced(env, cfg, tls, t);
      j := |t| - 1;
    }
  }

  // Every mail forwarded was delivered after a login with the right password, with no RSET, no STARTTLS
  // that was taken up and no further login in between, by a user who may send as its sender.
  lemma ForwardedOnlyAuthenticated(env: Env<ProxyState>, cfg: ProxyConfig, o: Origin<ProxyState>, n: nat, m: nat)
    returns (i: nat, j: nat)
    requires env.handler == Callbacks(cfg) && env.HasAuth() && o.handler == FRESH
    requires m < |At(env, o, n).handler.forwarded|
    ensures Sourced(env.lib.lossy, cfg, At(env, o, n).log, At(env, o, n).handler.forwarded[m], i, j)
    ensures MailExplained(env, At(env, o, n).log[..j], At(env, o, n).log[j].mail)
  {
    hide Step, MailExplained, Exchanged, Expected, Undoes;
    ForwardedArePermitted(env, cfg, o, n);
    InvAlways(env, o, n);
    AlwaysExpected(env, o, n);
    i, j := PermittedIsSourced(env, cfg, o.acceptor, At(env, o, n).log, m);
    CallsAreCaused(env, o, n, j);
  }

  // ----- without authentication -----

  function AllMails(t: Log): seq<Forward>
  {
    if t == [] then []
    else match Last(t)
      case MailCalled(mail, _) => AllMails(Init(t)) + [Forward(None, mail.sender, mail.data)]
      case _ => AllMails(Init(t))
  }

  lemma {:induction false} HandlerAgreesWithoutAuth(env: Env<ProxyState>, cfg: ProxyConfig, t: Log)
    requires env.handler == Callbacks(cfg) && !env.HasAuth() && AllCaused(env, t)
    ensures var h := Replay(env.handler, FRESH, t);
            h.username == None && h.forwarded == AllMails(t) && h.productive == (AllMails(t) != [])
  {
    hide MailExplained, Exchanged, CommandAt, CanSendAs, Accepts;
    if t != [] {
      HandlerAgreesWithoutAuth(env, cfg, Init(t));
    }
  }

  // Without authentication nobody logs in and every mail is forwarded, whatever its sender.
  lemma ForwardedWithoutAuth(env: Env<ProxyState>, cfg: ProxyConfig, o: Origin<ProxyState>, n: nat)
    requires env.handler == Callbacks(cfg) && !env.HasAuth() && o.handler == FRESH
    ensures var c := At(env, o, n);
            c.handler.forwarded == AllMails(c.log) && c.handler.productive == (AllMails(c.log) != [])
  {
    hide Step;
    InvAlways(env, o, n);
    HandlerAgreesWithoutAuth(env, cfg, At(env, o, n).log);
  }

  // ----- either way -----

  ghost function Deserved(env: Env<ProxyState>, cfg: ProxyConfig, t: Log): seq<Forward>
  {
    if env.HasAuth() then Permitted(cfg, t) else AllMails(t)
  }

  ghost predicate WasProductive(env: Env<ProxyState>, cfg: ProxyConfig, t: Log)
  {
    if env.HasAuth() then Productive(cfg, t) else AllMails(t) != []
  }

  lemma OutcomeIsDeserved(env: Env<ProxyState>, cfg: ProxyConfig, o: Origin<ProxyState>, n: nat)
    requires env.handler == Callbacks(cfg) && o.handler == FRESH
    ensures var c := At(env, o, n);
            c.handler.forwarded == Deserved(env, cfg, c.log) && c.handler.productive == WasProductive(env, cfg, c.log)
  {
    hide Step;
    if env.HasAuth() {
      ForwardedArePermitted(env, cfg, o, n);
    } else {
      ForwardedWithoutAuth(env, cfg, o, n);
    }
  }

  // The same at every single event of a session, so also for one that is cut off within a turn.
  lemma ForwardedAtEveryEvent(env: Env<ProxyState>, cfg: ProxyConfig, o: Origin<ProxyState>, n: nat, i: nat)
    requires env.handler == Callbacks(cfg) && o.handler == FRESH && i <= |At(env, o, n).log|
    ensures var t := At(env, o, n).log[..i];
            var h := Replay(env.handler, FRESH, t);
            && AllCaused(env, t)
            && h.forwarded == Deserved(env, cfg, t) && h.productive == WasProductive(env, cfg, t)
  {
    hide Step;
    InvAlways(env, o, n);
    var t := At(env, o, n).log;
    CausedSoFar(env, t, i);
    RecordedSoFar(env.handler, FRESH, t, i);
    if env.HasAuth() {
      HandlerAgrees(env, cfg, t[..i]);
    } else {
      HandlerAgreesWithoutAuth(env, cfg, t[..i]);
    }
  }

  // ----- what the client is told -----

  // The user logged in at the time may send as this sender, or nobody has to log in.
  ghost predicate MaySend(env: Env<ProxyState>, cfg: ProxyConfig, t: Log, sender: string)
  {
    env.HasAuth() ==>
      var user := LastLogin(t);
      user.Some? && CanSendAs(cfg.lower, cfg.users, user.value, sender)
  }

  // How the handler answers a call: greetings are accepted; a login exactly if the user exists and the
  // password matches; a mail is refused where the user may not send as its sender, and is otherwise
  // answered with what sending it, after those before, resulted in.
  ghost predicate Answers(env: Env<ProxyState>, cfg: ProxyConfig, t: Log, e: Event)
  {
    && (e.HelloCalled? ==> e.accepted)
    && (e.LoginCalled? ==>
          (e.accepted <==> Accepts(cfg.lower, cfg.verify, cfg.users, e.username, e.password)))
    && (e.MailCalled? && MaySend(env, cfg, t, e.mail.sender) ==>
          e.failure == cfg.send(Deserved(env, cfg, t), e.mail.sender, e.mail.data))
    && (e.MailCalled? && !MaySend(env, cfg, t, e.mail.sender) ==> e.failure == Some(SENDER_NOT_ALLOWED))
  }

  // So it answers in every session.
  lemma HandlerAnswers(env: Env<ProxyState>, cfg: ProxyConfig, o: Origin<ProxyState>, n: nat, i: nat)
    requires env.handler == Callbacks(cfg) && o.handler == FRESH && i < |At(env, o, n).log|
    ensures Answers(env, cfg, At(env, o, n).log[..i], At(env, o, n).log[i])
  {
    hide Step, CanSendAs, MailExplained, Exchanged;
    InvAlways(env, o, n);
    var all := At(env, o, n).log;
    var t := all[..i];
    RecordedSoFar(env.handler, FRESH, all, i + 1);
    assert all[..i + 1] == t + [all[i]];
    CausedSoFar(env, all, i);
    EveryEventCaused(env, all, i);
    AnswerOf(env, cfg, t, all[i]);
  }

  lemma AnswerOf(env: Env<ProxyState>, cfg: ProxyConfig, t: Log, e: Event)
    requires env.handler == Callbacks(cfg) && AllCaused(env, t) && Caused(env, t, e)
    requires AnswersRecorded(env.handler, FRESH, t + [e])
    ensures Answers(env, cfg, t, e)
  {
    hide CanSendAs, Exchanged, Permitted, AllMails;
    InitOfSnoc(t, e);
    if env.HasAuth() {
      HandlerAgrees(env, cfg, t);
      if e.MailCalled? {
        LoginBeforeDelivery(env, t, e.mail);
      }
    } else {
      HandlerAgreesWithoutAuth(env, cfg, t);
    }
  }

  // The client is told 250 exactly if its user may send as the sender and sending the mail succeeded,
  // and 451 otherwise; it is always told.
  lemma MailAnswered(env: Env<ProxyState>, cfg: ProxyConfig, o: Origin<ProxyState>, n: nat, i: nat)
    requires env.handler == Callbacks(cfg) && o.handler == FRESH
    requires i < |At(env, o, n).log| && At(env, o, n).log[i].MailCalled?
    ensures var t := At(env, o, n).log;
            var mail := t[i].mail;
            var sent := MaySend(env, cfg, t[..i], mail.sender) &&
                        cfg.send(Deserved(env, cfg, t[..i]), mail.sender, mail.data) == None;
            i + 1 < |t| && t[i + 1].Sent? && t[i + 1].reply.code == (if sent then 250 else 451)
  {
    hide Step, CanSendAs, Deserved;
    HandlerAnswers(env, cfg, o, n, i);
    MailReplied(env, o, n, i);
  }

  lemma MailReplied<H>(env: Env<H>, o: Origin<H>, n: nat, i: nat)
    requires i < |At(env, o, n).log| && At(env, o, n).log[i].MailCalled?
    ensures var t := At(env, o, n).log;
            && i + 1 < |t| && t[i + 1].Sent?
            && (t[i].failure.Some? ==> t[i + 1].reply == MAIL_HANDLER_ERROR.Extend(t[i].failure.value))
            && t[i + 1].reply.code == (if t[i].failure.None? then 250 else 451)
  {
    hide Step, OnLine, AfterReplies, HelloReplies, Follows;
    AlwaysExpected(env, o, n);
    var t := At(env, o, n).log;
    assert i + 1 < |t|;
    EveryEventExpected(env, o.acceptor, t, i + 1);
    assert Last(t[..i + 1]) == t[i];
  }
}
