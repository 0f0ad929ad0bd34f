/** What every session guarantees: for all client bytes, all handler answers, all behaviours of the
    decoding libraries, and after every number of turns of the session's loop. */
module SessionTheorems {
  import opened Basics
  import opened Responses
  import opened Mails
  import opened Connections
  import opened Protocol
  import opened Lines
  import opened Transcripts
  import opened Invariants
  import opened Expectations
  import Cmd = Commands

  function At<H>(env: Env<H>, o: Origin<H>, n: nat): Conf<H>
  {
    After(env, Start(env, o.handler, Plain(o.input, o.acceptor)), n)
  }

  // ----- delivered mail -----

  // The command in line i of a transcript was answered with OK.
  predicate Granted(lossy: Cmd.Lossy, t: Log, i: nat, command: Cmd.Command)
  {
    i + 1 < |t| && t[i].Recv? && t[i + 1] == Sent(OK) && Cmd.Parse(lossy, t[i].line) == Ok(command)
  }

  // The addresses of the RCPT commands answered with OK from position k on, in order.
  function GrantedRecipients(lossy: Cmd.Lossy, t: Log, k: nat): seq<string>
    decreases |t| - k
  {
    if k + 1 >= |t| then []
    else
      var rest := GrantedRecipients(lossy, t, k + 1);
      if t[k].Recv? && t[k + 1] == Sent(OK) then
        match Cmd.Parse(lossy, t[k].line)
        case Ok(Recipient(to)) => [NormalizeAddress(to)] + rest
        case _ => rest
      else rest
  }

  // Position j has no call that ends a transaction and no MAIL granted.
  predicate GoesOn(lossy: Cmd.Lossy, t: Log, j: nat)
    requires j < |t|
  {
    && !t[j].MailCalled? && !t[j].ResetCalled? && !t[j].TlsStarted?
    && !(j + 1 < |t| && t[j].Recv? && t[j + 1] == Sent(OK) &&
         var p := Cmd.Parse(lossy, t[j].line); p.Ok? && p.value.Mail?)
  }

  predicate GoesOnFrom(lossy: Cmd.Lossy, t: Log, k: nat)
  {
    forall j :: k <= j < |t| ==> GoesOn(lossy, t, j)
  }

  // From position k on, the client sent no RSET, no STARTTLS that was taken up and no MAIL that was
  // granted, and no mail was delivered.
  predicate Uninterrupted(lossy: Cmd.Lossy, t: Log, k: nat)
  {
    GoesOnFrom(lossy, t, k) && forall j :: k <= j < |t| ==> !Undoes(lossy, t, j)
  }

  lemma GoesOnFurther(lossy: Cmd.Lossy, t: Log, k: nat)
    requires t != [] && GoesOnFrom(lossy, Init(t), k)
    requires !Last(t).MailCalled? && !Last(t).ResetCalled? && !Last(t).TlsStarted?
    requires |t| >= 2 ==> GoesOn(lossy, t, |t| - 2)
    ensures GoesOnFrom(lossy, t, k)
  {
    hide Cmd.Parse;
    forall j | k <= j < |t|
      ensures GoesOn(lossy, t, j)
    {
      if j < |t| - 2 {
        assert GoesOn(lossy, Init(t), j);
      }
    }
  }

  lemma {:induction false} RecipientsGrow(lossy: Cmd.Lossy, t: Log, k: nat)
    requires t != [] && k < |t|
    ensures GrantedRecipients(lossy, t, k) ==
            GrantedRecipients(lossy, Init(t), k) +
            (if |t| >= 2 && k <= |t| - 2 && t[|t| - 2].Recv? && Last(t) == Sent(OK) then
               match Cmd.Parse(lossy, t[|t| - 2].line)
               case Ok(Recipient(to)) => [NormalizeAddress(to)]
               case _ => []
             else [])
    decreases |t| - k
  {
    hide Cmd.Parse;
    if k + 2 < |t| {
      RecipientsGrow(lossy, t, k + 1);
    } else if k + 2 == |t| {
      assert GrantedRecipients(lossy, t, k + 1) == [];
    }
  }

  // The envelope is that of the last MAIL granted, with the RCPTs granted since, in order, and no
  // call that ends the transaction in between.
  lemma {:induction false} EnvelopeGranted(lossy: Cmd.Lossy, t: Log) returns (i: nat, from: string)
    requires Transcripts.Envelope(lossy, t).Some?
    ensures Granted(lossy, t, i, Cmd.Mail(from))
    ensures Transcripts.Envelope(lossy, t).value ==
            Mail(NormalizeAddress(from), GrantedRecipients(lossy, t, i + 1), [])
    ensures GoesOnFrom(lossy, t, i + 1)
  {
    hide Cmd.Parse, GoesOnFrom, GrantedRecipients, NormalizeAddress;
    var b := Init(t);
    if Last(t) == Sent(OK) && Last(b).Recv? {
      var p := Cmd.Parse(lossy, Last(b).line);
      if p.Ok? && p.value.Mail? {
        i, from := |t| - 2, p.value.from;
        LastIsGoesOnFrom(lossy, t);
        return;
      }
    }
    i, from := EnvelopeGranted(lossy, b);
    RecipientsGrow(lossy, t, i + 1);
    GoesOnFurther(lossy, t, i + 1);
  }

  lemma LastIsGoesOnFrom(lossy: Cmd.Lossy, t: Log)
    requires t != [] && Last(t).Sent?
    ensures GoesOnFrom(lossy, t, |t| - 1) && GrantedRecipients(lossy, t, |t| - 1) == []
  {
    hide Cmd.Parse, NormalizeAddress;
    assert GoesOn(lossy, t, |t| - 1);
  }

  // The envelope is that of the last MAIL granted, with the RCPTs granted since, in order; and since
  // then the client sent no RSET, no STARTTLS that was taken up, and no mail was delivered.
  lemma EnvelopeMeaning<H>(env: Env<H>, tls: Option<Acceptor>, t: Log) returns (i: nat, from: string)
    requires Follows(env, tls, t) && !Undoing(env.lib.lossy, t)
    requires Transcripts.Envelope(env.lib.lossy, t).Some?
    ensures Granted(env.lib.lossy, t, i, Cmd.Mail(from))
    ensures Transcripts.Envelope(env.lib.lossy, t).value ==
            Mail(NormalizeAddress(from), GrantedRecipients(env.lib.lossy, t, i + 1), [])
    ensures Uninterrupted(env.lib.lossy, t, i + 1)
  {
    hide Follows, Granted, GrantedRecipients, Undoes, Undoing, Cmd.Parse;
    i, from := EnvelopeGranted(env.lib.lossy, t);
    forall q | i + 1 <= q < |t|
      ensures !t[q].ResetCalled? && !t[q].TlsStarted?
    {
      assert GoesOn(env.lib.lossy, t, q);
    }
    forall j | i + 1 <= j < |t|
      ensures !Undoes(env.lib.lossy, t, j)
    {
      NothingUndone(env, tls, t, i + 1, j);
    }
  }

  // So it is with the transaction open in any session at any time between turns.
  lemma OpenTransaction<H>(env: Env<H>, o: Origin<H>, n: nat) returns (i: nat, from: string)
    requires At(env, o, n).status.Running? && Transcripts.Envelope(env.lib.lossy, At(env, o, n).log).Some?
    ensures var t := At(env, o, n).log;
            && Granted(env.lib.lossy, t, i, Cmd.Mail(from)) && Uninterrupted(env.lib.lossy, t, i + 1)
            && Transcripts.Envelope(env.lib.lossy, t).value ==
               Mail(NormalizeAddress(from), GrantedRecipients(env.lib.lossy, t, i + 1), [])
  {
    hide Step, Granted, GrantedRecipients, Uninterrupted, Undoing, Expected;
    AlwaysExpected(env, o, n);
    InputUndoesNothing(env, o.acceptor, At(env, o, n).log);
    i, from := EnvelopeMeaning(env, o.acceptor, At(env, o, n).log);
  }

  // Every handler call has its cause in the transcript. A mail's envelope was granted command by
  // command, DATA was granted, its data are the unstuffed lines since, and where authentication is
  // configured a login was in force; a login's credentials are those of the AUTH exchange just
  // completed; greetings, resets and the start of TLS answer their commands.
  lemma CallsAreCaused<H>(env: Env<H>, o: Origin<H>, n: nat, i: nat)
    requires i < |At(env, o, n).log|
    ensures Caused(env, At(env, o, n).log[..i], At(env, o, n).log[i])
  {
    hide Step;
    InvAlways(env, o, n);
    EveryEventCaused(env, At(env, o, n).log, i);
  }

  // ----- authentication and TLS -----

  lemma TransactionsAreAuthenticated<H>(env: Env<H>, o: Origin<H>, n: nat)
    ensures var c := At(env, o, n);
            c.status.Running? ==>
              && (c.state.phase.Envelope? || c.state.phase.Data? ==> IsAuthenticated(env, c.state))
              && (c.state.authenticated <==> LastLogin(c.log).Some?)
              && (env.authMode == RequireTls && c.state.authenticated ==> c.link.Secure?)
  {
    hide Step;
    InvAlways(env, o, n);
  }

  lemma TlsStartsAtMostOnce<H>(env: Env<H>, o: Origin<H>, n: nat)
    ensures var c := At(env, o, n);
            TlsUpgrades(c.log) == (if c.link.Secure? then 1 else 0)
  {
    hide Step;
    InvAlways(env, o, n);
  }

  // ----- replies -----

  // A client that pipelines its commands never loses step: each line that is not message content
  // has had exactly one final reply, and lines are message content exactly in the data phase.
  lemma ReplyLaw<H>(env: Env<H>, o: Origin<H>, n: nat)
    ensures var c := At(env, o, n);
            c.status.Running? ==>
              && FinalReplies(c.log) == 1 + LinesRead(c.log) + EofsSeen(c.log) - ContentLines(env.lib.lossy, c.log)
              && (c.state.phase.Data? <==> InContent(env.lib.lossy, c.log))
  {
    hide Step;
    InvAlways(env, o, n);
  }

  // ----- bytes -----

  // Lines read and bytes unread make up the client's bytes; TLS is given all that was unread when
  // it started, and lines read since and bytes unread make up what it decrypted.
  lemma ByteLaw<H>(env: Env<H>, o: Origin<H>, n: nat)
    ensures var c := At(env, o, n);
            match c.link
            case Plain(rest, _) => ReadSinceTls(c.log) + rest == o.input
            case Secure(rest) =>
              && o.acceptor.Some? && StartsWith(o.input, ReadBeforeTls(c.log))
              && o.acceptor.value(o.input[|ReadBeforeTls(c.log)|..]) == Some(ReadSinceTls(c.log) + rest)
  {
    hide Step;
    InvAlways(env, o, n);
  }

  // ----- the event handler -----

  // The handler's state is that after exactly the calls in the transcript, in their order.
  lemma HandlerLaw<H>(env: Env<H>, o: Origin<H>, n: nat)
    ensures var c := At(env, o, n);
            c.handler == Replay(env.handler, o.handler, c.log) && AnswersRecorded(env.handler, o.handler, c.log)
  {
    hide Step;
    InvAlways(env, o, n);
  }

  // ----- the end of a session -----

  lemma StepClosesByQuit<H>(env: Env<H>, c: Conf<H>)
    requires c.status.Running? && Step(env, c).status.Closed?
    ensures var t := Step(env, c).log;
            && !c.state.phase.Data? && |t| == |c.log| + 2 && t[..|c.log|] == c.log && t[|c.log|].Recv?
            && Cmd.Parse(env.lib.lossy, t[|c.log|].line) == Ok(Cmd.Quit) && Last(t) == Sent(GOODBYE)
  {
    hide Cmd.Parse;
    var (c1, got) := ReadLine(c);
    if got.Some? && !c.state.phase.Data? {
      var p := Cmd.Parse(env.lib.lossy, got.value);
      if p.Ok? && !p.value.Quit? {
        OnlyQuitCloses(env, c1, p.value);
      }
    }
  }

  lemma OnlyQuitCloses<H>(env: Env<H>, c: Conf<H>, command: Cmd.Command)
    requires c.status.Running? && !command.Quit?
    ensures !Execute(env, c, command).status.Closed?
  {
    hide HelloReplies, HelpReplies, HandleAuth, IsAuthenticated;
    if command.Authenticate? {
      AuthNeverCloses(env, c, command.mechanism, command.initial);
    }
  }

  lemma AuthNeverCloses<H>(env: Env<H>, c: Conf<H>, mechanism: Cmd.AuthMethod, initial: Option<Bytes>)
    requires c.status.Running?
    ensures !HandleAuth(env, c, mechanism, initial).0.status.Closed?
  {
    hide NextLine, DecodeBase64, PlainCredentials;
  }

  // A session ends well only by a QUIT outside message content, and it always ends.
  lemma ClosedOnlyByQuit<H>(env: Env<H>, o: Origin<H>) returns (n: nat)
    ensures var start := Start(env, o.handler, Plain(o.input, o.acceptor));
            var end := Run(env, start);
            && !end.status.Running?
            && (end.status.Closed? ==>
                  && At(env, o, n).status.Running? && !At(env, o, n).state.phase.Data?
                  && end == Step(env, At(env, o, n))
                  && |end.log| == |At(env, o, n).log| + 2 && end.log[|end.log| - 2].Recv?
                  && Cmd.Parse(env.lib.lossy, end.log[|end.log| - 2].line) == Ok(Cmd.Quit)
                  && Last(end.log) == Sent(GOODBYE))
  {
    hide Step;
    var start := Start(env, o.handler, Plain(o.input, o.acceptor));
    var end := Run(env, start);
    n := RunIsReached(env, start);
    if end.status.Closed? {
      while n > 0 && !At(env, o, n - 1).status.Running?
        invariant end == At(env, o, n)
      {
        n := n - 1;
      }
      n := n - 1;
      StepClosesByQuit(env, At(env, o, n));
    }
  }

  // ----- refusals -----

  predicate IsRefusal(reply: Response)
  {
    reply.code == 500 || reply.code == 503 || reply.code == 530
  }

  lemma AuthLeavesState<H>(env: Env<H>, c: Conf<H>, mechanism: Cmd.AuthMethod, initial: Option<Bytes>)
    ensures var (c1, _) := HandleAuth(env, c, mechanism, initial);
            c1.state == c.state && c1.handler == c.handler
  {
    hide NextLine, DecodeBase64, PlainCredentials;
  }

  lemma {:induction false} SayAllEndsWith<H>(c: Conf<H>, replies: seq<Response>)
    requires replies != []
    ensures var r := SayAll(c, replies); r.log != [] && Last(r.log) == Sent(Last(replies))
    decreases |replies|
  {
    if |replies| > 1 {
      SayAllEndsWith(Say(c, replies[0]), replies[1..]);
    }
  }

  lemma HelloEndsWith250<H>(env: Env<H>, link: Link, extended: bool)
    ensures var replies := HelloReplies(env, link, extended); replies != [] && Last(replies).code == 250
  {
  }

  // r is no refusal, or differs from c in its transcript only.
  ghost predicate RefusedOrNot<H>(c: Conf<H>, r: Conf<H>)
  {
    r.status.Running? && r.log != [] && Last(r.log).Sent? && IsRefusal(Last(r.log).reply) ==>
      r.state == c.state && r.handler == c.handler
  }

  lemma HelloRefuses<H>(env: Env<H>, c: Conf<H>, domain: string, extended: bool)
    ensures RefusedOrNot(c, OnHello(env, c, domain, extended))
  {
    hide HelloReplies, SayAll;
    var (h, answer) := env.handler.onHello(c.handler, domain, extended);
    var c1 := Note(c.(handler := h), HelloCalled(domain, extended, answer.Accept?));
    HelloEndsWith250(env, c1.link, extended);
    SayAllEndsWith(c1, HelloReplies(env, c1.link, extended));
  }

  lemma AuthRefuses<H>(env: Env<H>, c: Conf<H>, mechanism: Cmd.AuthMethod, initial: Option<Bytes>)
    ensures RefusedOrNot(c, OnAuth(env, c, mechanism, initial))
  {
    hide HandleAuth;
    AuthLeavesState(env, c, mechanism, initial);
  }

  lemma ExecuteRefuses<H>(env: Env<H>, c: Conf<H>, command: Cmd.Command)
    ensures RefusedOrNot(c, Execute(env, c, command))
  {
    hide OnHello, OnAuth, SayAll, HelpReplies;
    match command {
      case Hello(domain, extended) => HelloRefuses(env, c, domain, extended);
      case Authenticate(mechanism, initial) => AuthRefuses(env, c, mechanism, initial);
      case _ =>
    }
  }

  // A command answered with a syntax error, a wrong sequence or missing authentication leaves the
  // session and the handler as they were.
  lemma RefusalsChangeNothing<H>(env: Env<H>, c: Conf<H>)
    requires c.status.Running? && !c.state.phase.Data?
    ensures RefusedOrNot(c, Step(env, c))
  {
    hide Cmd.Parse, Execute, NextLine;
    var (c1, got) := ReadLine(c);
    if got.Some? {
      var p := Cmd.Parse(env.lib.lossy, got.value);
      if p.Ok? {
        ExecuteRefuses(env, c1, p.value);
      }
    }
  }

  // Only MAIL is ever answered with 530, and only to a greeted client that must log in and has not:
  // RCPT and DATA never find an unauthenticated transaction.
  lemma AuthRequiredOnlyForMail<H>(env: Env<H>, o: Origin<H>, n: nat)
    ensures var c := At(env, o, n);
            var r := Step(env, c);
            c.status.Running? && r.log != [] && r.log != c.log && Last(r.log) == Sent(AUTH_REQUIRED) ==>
              && c.state.phase.Greeted? && env.HasAuth() && LastLogin(c.log) == None
              && |r.log| == |c.log| + 2 && r.log[|c.log|].Recv?
              && var p := Cmd.Parse(env.lib.lossy, r.log[|c.log|].line); p.Ok? && p.value.Mail?
  {
    hide Step, Cmd.Parse;
    var c := At(env, o, n);
    TransactionsAreAuthenticated(env, o, n);
    if c.status.Running? {
      OnlyMailRequiresAuth(env, c);
    }
  }

  lemma OnlyMailRequiresAuth<H>(env: Env<H>, c: Conf<H>)
    requires c.status.Running? && (c.state.phase.Envelope? || c.state.phase.Data? ==> IsAuthenticated(env, c.state))
    ensures var r := Step(env, c);
            r.log != [] && r.log != c.log && Last(r.log) == Sent(AUTH_REQUIRED) ==>
              && c.state.phase.Greeted? && !IsAuthenticated(env, c.state)
              && |r.log| == |c.log| + 2 && r.log[|c.log|].Recv?
              && var p := Cmd.Parse(env.lib.lossy, r.log[|c.log|].line); p.Ok? && p.value.Mail?
  {
    hide Cmd.Parse, Execute, NextLine;
    var (c1, got) := ReadLine(c);
    if got.Some? && !c.state.phase.Data? {
      var p := Cmd.Parse(env.lib.lossy, got.value);
      if p.Ok? {
        ExecuteRequiresAuth(env, c1, p.value);
      }
    }
  }

  lemma ExecuteRequiresAuth<H>(env: Env<H>, c: Conf<H>, command: Cmd.Command)
    requires c.status.Running? && (c.state.phase.Envelope? ==> IsAuthenticated(env, c.state))
    requires c.log != [] && Last(c.log).Recv?
    ensures var r := Execute(env, c, command);
            r.log != [] && Last(r.log) == Sent(AUTH_REQUIRED) ==>
              && c.state.phase.Greeted? && !IsAuthenticated(env, c.state) && command.Mail?
              && r.log == c.log + [Sent(AUTH_REQUIRED)]
  {
    hide OnHello, OnAuth, HelpReplies, SayAll;
    match command {
      case Hello(domain, extended) => HelloNeverRequiresAuth(env, c, domain, extended);
      case Help =>
        HelpEndsWith214(env, c.link);
        SayAllEndsWith(c, HelpReplies(env, c.link));
      case Authenticate(mechanism, initial) => AuthNeverRequiresAuth(env, c, mechanism, initial);
      case _ =>
    }
  }

  lemma HelloNeverRequiresAuth<H>(env: Env<H>, c: Conf<H>, domain: string, extended: bool)
    ensures var r := OnHello(env, c, domain, extended); r.log != [] && Last(r.log) != Sent(AUTH_REQUIRED)
  {
    hide HelloReplies, SayAll;
    var (h, answer) := env.handler.onHello(c.handler, domain, extended);
    var c1 := Note(c.(handler := h), HelloCalled(domain, extended, answer.Accept?));
    HelloEndsWith250(env, c1.link, extended);
    SayAllEndsWith(c1, HelloReplies(env, c1.link, extended));
  }

  lemma HelpEndsWith214<H>(env: Env<H>, link: Link)
    ensures HelpReplies(env, link) != [] && Last(HelpReplies(env, link)).code == 214
  {
  }

  lemma AskOnlyChallenges<H>(c: Conf<H>, challenge: Response, reply: Response)
    requires challenge.code == 334 && reply.code != 334
    ensures var c1 := Ask(c, challenge).0; c1.log != [] && Last(c1.log) != Sent(reply)
  {
    hide NextLine;
  }

  lemma PasswordOnlyChallenges<H>(env: Env<H>, c: Conf<H>, user: Bytes, reply: Response)
    requires c.log != [] && Last(c.log) != Sent(reply) && reply.code != 334
    ensures var c1 := AuthLoginPassword(env, c, user).0; c1.log != [] && Last(c1.log) != Sent(reply)
  {
    hide Ask, DecodeBase64;
    AskOnlyChallenges(c, AUTH_CHALLENGE_LOGIN_PASSWORD, reply);
  }

  // During the AUTH exchange itself only challenges are sent.
  lemma HandshakeOnlyChallenges<H>(env: Env<H>, c: Conf<H>, mechanism: Cmd.AuthMethod, initial: Option<Bytes>,
                                   reply: Response)
    requires c.log != [] && Last(c.log).Recv? && reply.code != 334
    ensures var c1 := HandleAuth(env, c, mechanism, initial).0; c1.log != [] && Last(c1.log) != Sent(reply)
  {
    hide Ask, AuthLoginPassword, PlainCredentials;
    AskOnlyChallenges(c, AUTH_CHALLENGE_PLAIN, reply);
    AskOnlyChallenges(c, AUTH_CHALLENGE_LOGIN_USERNAME, reply);
    if initial.Some? {
      PasswordOnlyChallenges(env, c, initial.value, reply);
    } else {
      var (c1, answer) := Ask(c, AUTH_CHALLENGE_LOGIN_USERNAME);
      if answer.Some? {
        PasswordOnlyChallenges(env, c1, answer.value, reply);
      }
    }
  }

  lemma AuthNeverRequiresAuth<H>(env: Env<H>, c: Conf<H>, mechanism: Cmd.AuthMethod, initial: Option<Bytes>)
    requires c.log != [] && Last(c.log).Recv?
    ensures var r := OnAuth(env, c, mechanism, initial); r.log != [] && Last(r.log) != Sent(AUTH_REQUIRED)
  {
    hide HandleAuth;
    HandshakeOnlyChallenges(env, c, mechanism, initial, AUTH_REQUIRED);
  }

  // ----- what EHLO advertises -----

  lemma FeatureTexts(size: string)
    ensures "STARTTLS" != "8BITMIME" && "STARTTLS" != "AUTH PLAIN LOGIN" && "STARTTLS" != "SIZE " + size
    ensures "AUTH PLAIN LOGIN" != "8BITMIME" && "AUTH PLAIN LOGIN" != "SIZE " + size
  {
    assert "STARTTLS"[0] == 'S' && "8BITMIME"[0] == '8' && "AUTH PLAIN LOGIN"[0] == 'A';
    assert "STARTTLS"[1] == 'T' && ("SIZE " + size)[1] == 'I' && ("SIZE " + size)[0] == 'S';
  }

  // STARTTLS is advertised to a greeted client exactly where the command would be taken up.
  lemma StartTlsAdvertisedIff<H>(env: Env<H>, c: Conf<H>)
    requires c.state.phase.Greeted?
    ensures "STARTTLS" in Features(env, c.link) <==> OnStartTls(c) != Say(c, SyntaxError(Some("TLS not supported")))
  {
    hide Decimal;
    FeatureTexts(Decimal(env.maxMessageSize));
    if SupportsTls(c.link) {
      assert OnStartTls(c).log[|c.log|] == Sent(START_TLS);
      assert SyntaxError(Some("TLS not supported")).code == 500;
      assert Say(c, SyntaxError(Some("TLS not supported"))).log[|c.log|].reply.code == 500;
    }
  }

  lemma SyntaxErrorTexts(err: string)
    ensures SyntaxError(None) != SyntaxError(Some(err))
  {
  }

  lemma AuthFeature<H>(env: Env<H>, link: Link)
    ensures "AUTH PLAIN LOGIN" in Features(env, link) <==> env.HasAuth()
  {
    hide Decimal;
    FeatureTexts(Decimal(env.maxMessageSize));
  }

  // AUTH is advertised to a greeted client exactly where the command is not rejected as unknown.
  lemma AuthAdvertisedIff<H>(env: Env<H>, c: Conf<H>, mechanism: Cmd.AuthMethod, initial: Option<Bytes>)
    requires c.state.phase.Greeted? && c.log != [] && Last(c.log).Recv?
    ensures var r := OnAuth(env, c, mechanism, initial);
            "AUTH PLAIN LOGIN" !in Features(env, c.link) <==> r.log != [] && Last(r.log) == Sent(SyntaxError(None))
  {
    hide HandleAuth, Features;
    AuthFeature(env, c.link);
    HandshakeOnlyChallenges(env, c, mechanism, initial, SyntaxError(None));
    var (c1, outcome) := HandleAuth(env, c, mechanism, initial);
    if outcome.BadAuth? {
      SyntaxErrorTexts(outcome.err);
    }
  }
}
