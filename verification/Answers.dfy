/** When each command is granted, and what RSET and QUIT do: exact answers, in every session. */
module Answers {
  import opened Basics
  import opened Responses
  import opened Mails
  import opened Lines
  import opened Connections
  import opened Protocol
  import opened Transcripts
  import opened Invariants
  import opened Expectations
  import opened SessionTheorems
  import opened Deliveries
  import opened Framing
  import Cmd = Commands

  // What a session did at any event is what its transcript up to there demanded.
  lemma EventsAreExpected<H>(env: Env<H>, o: Origin<H>, n: nat, i: nat)
    requires i < |At(env, o, n).log|
    ensures Meets(At(env, o, n).log[i], Expected(env, o.acceptor, At(env, o, n).log[..i]))
  {
    hide Step, Expected, Meets;
    AlwaysExpected(env, o, n);
    EveryEventExpected(env, o.acceptor, At(env, o, n).log, i);
  }

  lemma CommandExpected<H>(env: Env<H>, o: Origin<H>, n: nat, i: nat)
    requires i + 1 < |At(env, o, n).log| && CommandLine(env.lib.lossy, At(env, o, n).log, i)
    ensures var t := At(env, o, n).log;
            match Cmd.Parse(env.lib.lossy, t[i].line)
            case Err(err) => t[i + 1] == Sent(SyntaxError(Some(err)))
            case Ok(command) => Meets(t[i + 1], OnCommand(env, o.acceptor, t[..i], command))
  {
    hide Step, Expected, OnCommand, Cmd.Parse, InContent, Challenged;
    var t := At(env, o, n).log;
    EventsAreExpected(env, o, n, i + 1);
    assert t[..i + 1] == t[..i] + [t[i]];
    AfterRecv(env, o.acceptor, t[..i], t[i].line);
  }

  // Every command line and what follows it: MAIL is granted exactly if the client was greeted, has no
  // transaction open and is logged in where it must be; RCPT and DATA exactly if a transaction is open;
  // STARTTLS is taken up exactly if it is offered and no transaction is open; the handler is asked about
  // a greeting exactly if there was none; an AUTH exchange starts exactly if no transaction is open and
  // AUTH is configured, and over TLS where that is required; RSET and QUIT are never refused.
  lemma CommandsAnswered<H>(env: Env<H>, o: Origin<H>, n: nat, i: nat)
    requires i + 1 < |At(env, o, n).log| && CommandLine(env.lib.lossy, At(env, o, n).log, i)
    ensures var t := At(env, o, n).log;
            var before := t[..i];
            var granted := Transcripts.Envelope(env.lib.lossy, before);
            match Cmd.Parse(env.lib.lossy, t[i].line)
            case Err(err) => t[i + 1] == Sent(SyntaxError(Some(err)))
            case Ok(Mail(_)) =>
              t[i + 1] == Sent(OK) <==>
              Greeting(before) && granted.None? && (env.HasAuth() ==> LastLogin(before).Some?)
            case Ok(Recipient(_)) => t[i + 1] == Sent(OK) <==> granted.Some?
            case Ok(Data) => t[i + 1] == Sent(DATA_START) <==> granted.Some?
            case Ok(StartTls) =>
              t[i + 1] == Sent(START_TLS) <==>
              o.acceptor.Some? && TlsUpgrades(before) == 0 && Greeting(before) && granted.None?
            case Ok(Hello(_, _)) => t[i + 1].HelloCalled? <==> !Greeting(before)
            case Ok(Reset) => t[i + 1] == Sent(RESET)
            case Ok(NoOp) => t[i + 1] == Sent(OK)
            case Ok(Quit) => t[i + 1] == Sent(GOODBYE)
            case Ok(Authenticate(_, _)) =>
              t[i + 1] == Sent(BAD_SEQUENCE) || t[i + 1] == Sent(SyntaxError(None)) <==>
              !(Greeting(before) && granted.None? && env.authMode != NoAuth &&
                (env.authMode == RequireTls ==> TlsUpgrades(before) > 0))
            case Ok(Help) => t[i + 1].Sent? && t[i + 1].reply.code == 250
  {
    hide Step, Cmd.Parse, InContent, Challenged, Greeting, LastLogin, Transcripts.Envelope, TlsUpgrades, OnExchange;
    CommandExpected(env, o, n, i);
    DistinctReplies();
    var command := Cmd.Parse(env.lib.lossy, At(env, o, n).log[i].line);
    if command.Ok? && command.value.Authenticate? {
      ExchangeIsNoRefusal(env.lib, command.value.mechanism, command.value.initial);
    }
  }

  lemma ExchangeIsNoRefusal(lib: Library, mechanism: Cmd.AuthMethod, initial: Option<Bytes>)
    ensures OnExchange(lib, mechanism, initial) != Reply(BAD_SEQUENCE)
    ensures OnExchange(lib, mechanism, initial) != Reply(SyntaxError(None))
  {
    hide PlainCredentials, DecodeBase64;
    assert BAD_SEQUENCE.code == 503;
    if mechanism.Plain? && initial.Some? && PlainCredentials(lib, initial.value).BadAuth? {
      SyntaxErrorTexts(PlainCredentials(lib, initial.value).err);
    }
  }

  lemma DistinctReplies()
    ensures OK.code == 250 && BAD_SEQUENCE.code == 503 && AUTH_REQUIRED.code == 530 && DATA_START.code == 354
    ensures START_TLS.code == 220 && SyntaxError(Some("TLS not supported")).code == 500
  {
  }

  // ----- in numbers -----

  lemma EventExpectedAfter<H>(env: Env<H>, o: Origin<H>, n: nat, i: nat)
    requires i + 1 < |At(env, o, n).log|
    ensures var t := At(env, o, n).log;
            && t[..i + 1] != [] && Last(t[..i + 1]) == t[i] && Init(t[..i + 1]) == t[..i]
            && Meets(t[i + 1], Expected(env, o.acceptor, t[..i + 1]))
  {
    hide Step, Expected, Meets;
    EventsAreExpected(env, o, n, i + 1);
    assert Init(At(env, o, n).log[..i + 1]) == At(env, o, n).log[..i];
  }

  // The codes of the replies as the client sees them: 235 or 535 to a login, 250 or 451 to a mail, with
  // the handler's error text at its end.
  lemma CallsInNumbers<H>(env: Env<H>, o: Origin<H>, n: nat, i: nat)
    requires i + 1 < |At(env, o, n).log|
    ensures var t := At(env, o, n).log;
            && (t[i].LoginCalled? ==> t[i + 1].Sent? && t[i + 1].reply.code == (if t[i].accepted then 235 else 535))
            && (t[i].MailCalled? ==> t[i + 1].Sent? && t[i + 1].reply.code == (if t[i].failure.None? then 250 else 451))
            && (t[i].MailCalled? && t[i].failure.Some? ==> EndsWith(t[i + 1].reply.message, ": " + t[i].failure.value))
  {
    hide Step, OnLine, AfterReplies, HelloReplies;
    EventExpectedAfter(env, o, n, i);
  }

  // 500 to what is no command, with the reason; 221 to QUIT; 250, 503 or 530 to MAIL; 250 or 503 to
  // RCPT; 354 or 503 to DATA; 220, 500 or 503 to STARTTLS; 250 to RSET and NOOP.
  lemma CommandsInNumbers<H>(env: Env<H>, o: Origin<H>, n: nat, i: nat)
    requires i + 1 < |At(env, o, n).log| && CommandLine(env.lib.lossy, At(env, o, n).log, i)
    ensures var t := At(env, o, n).log;
            var before := t[..i];
            var open := Transcripts.Envelope(env.lib.lossy, before).Some?;
            var ready := Greeting(before) && !open;
            match Cmd.Parse(env.lib.lossy, t[i].line)
            case Err(err) =>
              t[i + 1].Sent? && t[i + 1].reply.code == 500 && EndsWith(t[i + 1].reply.message, ": " + err)
            case Ok(Mail(_)) =>
              t[i + 1].Sent? && t[i + 1].reply.code ==
                (if !ready then 503 else if env.HasAuth() && LastLogin(before).None? then 530 else 250)
            case Ok(Recipient(_)) => t[i + 1].Sent? && t[i + 1].reply.code == (if open then 250 else 503)
            case Ok(Data) => t[i + 1].Sent? && t[i + 1].reply.code == (if open then 354 else 503)
            case Ok(StartTls) =>
              t[i + 1].Sent? && t[i + 1].reply.code ==
                (if o.acceptor.None? || TlsUpgrades(before) > 0 then 500 else if ready then 220 else 503)
            case Ok(Hello(_, _)) => Greeting(before) ==> t[i + 1].Sent? && t[i + 1].reply.code == 503
            case Ok(Reset) => t[i + 1].Sent? && t[i + 1].reply.code == 250
            case Ok(NoOp) => t[i + 1].Sent? && t[i + 1].reply.code == 250
            case Ok(Quit) => t[i + 1].Sent? && t[i + 1].reply.code == 221
            case Ok(_) => true
  {
    hide Step, Cmd.Parse, InContent, Challenged, Greeting, LastLogin, Transcripts.Envelope, TlsUpgrades, OnExchange;
    CommandExpected(env, o, n, i);
    var command := Cmd.Parse(env.lib.lossy, At(env, o, n).log[i].line);
    if command.Err? {
      SyntaxErrorEnds(command.error);
    }
    DistinctReplies();
  }

  lemma SyntaxErrorEnds(err: string)
    ensures SyntaxError(Some(err)).code == 500 && EndsWith(SyntaxError(Some(err)).message, ": " + err)
  {
    var message := SyntaxError(Some(err)).message;
    assert message == "5.5.2 Syntax error: " + err;
    var lead := |"5.5.2 Syntax error: "|;
    assert message[lead - 2..] == ": " + err;
  }

  // A content line that exceeds the size limit is answered 552, and ends the session.
  lemma ContentInNumbers<H>(env: Env<H>, o: Origin<H>, n: nat, i: nat)
    requires i + 1 < |At(env, o, n).log| && At(env, o, n).log[i].Recv?
    requires InContent(env.lib.lossy, At(env, o, n).log[..i]) && At(env, o, n).log[i + 1].Sent?
    ensures var t := At(env, o, n).log;
            && t[i + 1].reply.code == 552
            && |Content(t[..i])| + |Unstuff(t[i].line)| > env.maxMessageSize
  {
    hide Step, InContent, Content, Unstuff, IsTerminator, OnCommand, OnAnswer;
    EventExpectedAfter(env, o, n, i);
  }

  // The banner: 220 with the server's name.
  lemma BannerFirst<H>(env: Env<H>, o: Origin<H>, n: nat)
    ensures var t := At(env, o, n).log;
            && t != [] && t[0].Sent? && t[0].reply.code == 220 && !t[0].reply.hasNext
            && t[0].reply.message == "2.2.0 " + env.serverName + " ESMTP ready"
  {
    hide Step, OnLine, AfterReplies;
    AlwaysExpected(env, o, n);
    EventsAreExpected(env, o, n, 0);
  }

  // ----- the answer to a greeting -----

  // What EHLO lists: 8BITMIME, STARTTLS and AUTH where they apply, and the size limit, in decimal.
  lemma FeaturesAre<H>(env: Env<H>, link: Link, f: string)
    ensures f in Features(env, link) <==>
            || f == "8BITMIME" || (f == "STARTTLS" && SupportsTls(link)) || (f == "AUTH PLAIN LOGIN" && env.HasAuth())
            || f == "SIZE " + Decimal(env.maxMessageSize)
    ensures DecimalValue(Decimal(env.maxMessageSize)) == env.maxMessageSize
  {
    hide Decimal, DecimalValue;
    DecimalRoundTrip(env.maxMessageSize);
  }

  // An accepted greeting is answered with the server's name and, if extended, one line per feature.
  lemma GreetingAnswered<H>(env: Env<H>, link: Link, extended: bool)
    ensures var replies := HelloReplies(env, link, extended);
            && |replies| == 1 + (if extended then |Features(env, link)| else 0)
            && replies[0].message == env.serverName && replies[0].code == 250
            && forall i :: 1 <= i < |replies| ==>
                 replies[i].message == Features(env, link)[i - 1] && replies[i].code == 250
  {
    hide Features;
    if extended {
      var replies := HelloReplies(env, link, extended);
      forall i | 1 <= i < |replies|
        ensures replies[i].message == Features(env, link)[i - 1] && replies[i].code == 250
      {
        assert replies[i] == FeatureReply(Features(env, link), i - 1);
      }
    }
  }

  // ----- RSET -----

  // RSET outside message content, in every session: the state is that of a new session and the handler
  // is told. Greeting and login outlast it exactly if there was neither.
  lemma ResetUndoesAll<H>(env: Env<H>, o: Origin<H>, n: nat, line: Bytes, rest: Bytes)
    requires At(env, o, n).status.Running? && !At(env, o, n).state.phase.Data?
    requires NextLine(At(env, o, n).link.rest) == Line(line, rest) && Cmd.Parse(env.lib.lossy, line) == Ok(Cmd.Reset)
    ensures var c := At(env, o, n);
            var r := Step(env, c);
            && r.status.Running? && r.state == NEW_SESSION && r.handler == env.handler.onReset(c.handler)
            && r.log == c.log + [Recv(line), Sent(RESET), ResetCalled]
            && !Greeting(r.log) && LastLogin(r.log) == None && Transcripts.Envelope(env.lib.lossy, r.log) == None
            && (Greeting(r.log) == Greeting(c.log) && LastLogin(r.log) == LastLogin(c.log) <==>
                !Greeting(c.log) && LastLogin(c.log) == None)
  {
    hide Cmd.Parse, At;
    var c := At(env, o, n);
    var t := c.log + [Recv(line)] + [Sent(RESET)];
    assert c.log + [Recv(line), Sent(RESET), ResetCalled] == t + [ResetCalled];
    InitOfSnoc(t, ResetCalled);
  }

  // HELO, RSET, MAIL: the client is not greeted any more, and MAIL is refused.
  lemma ResetForgetsGreeting<H>(env: Env<H>, o: Origin<H>, rest: Bytes)
    requires env.handler.onHello(o.handler, Cmd.Text(env.lib.lossy, X), false).1.Accept?
    requires o.input == HELO_X + CRLF + (Cmd.RSET + CRLF + (MAIL_FROM_X + CRLF + rest))
    ensures At(env, o, 1).state.phase.Greeted?
    ensures At(env, o, 3).log == At(env, o, 2).log + [Recv(MAIL_FROM_X + CRLF), Sent(BAD_SEQUENCE)]
  {
    hide Step, Cmd.Parse, Cmd.Text, NormalizeAddress;
    var lossy := env.lib.lossy;
    GreetingsParse(lossy);
    MailParses(lossy);
    Cmd.CommandRoundTrip(lossy, Cmd.Reset);
    assert Cmd.Print(Cmd.Reset) == Cmd.RSET + [] == Cmd.RSET;
    var c0 := At(env, o, 0);
    CommandTurn(env, c0, HELO_X, Cmd.RSET + CRLF + (MAIL_FROM_X + CRLF + rest), Cmd.Hello(Cmd.Text(lossy, X), false));
    var c1 := At(env, o, 1);
    assert c1 == Step(env, c0);
    assert HelloReplies(env, c1.link, false) == [Final(250, env.serverName)];
    CommandTurn(env, c1, Cmd.RSET, MAIL_FROM_X + CRLF + rest, Cmd.Reset);
    var c2 := At(env, o, 2);
    assert c2 == Step(env, c1);
    CommandTurn(env, c2, MAIL_FROM_X, rest, Cmd.Mail(Cmd.Text(lossy, X)));
    assert At(env, o, 3) == Step(env, c2);
  }

  // ----- QUIT -----

  // QUIT outside message content always closes the session.
  lemma QuitCloses<H>(env: Env<H>, o: Origin<H>, n: nat, line: Bytes, rest: Bytes)
    requires At(env, o, n).status.Running? && !At(env, o, n).state.phase.Data?
    requires NextLine(At(env, o, n).link.rest) == Line(line, rest) && Cmd.Parse(env.lib.lossy, line) == Ok(Cmd.Quit)
    ensures var r := Step(env, At(env, o, n));
            r.status.Closed? && r.log == At(env, o, n).log + [Recv(line), Sent(GOODBYE)]
  {
    hide Cmd.Parse, At;
  }
}
