/** The inductive invariant of the session: what holds before every turn of its main loop, whatever
    the client sends, the handler answers and the libraries return. */
module Invariants {
  import opened Basics
  import opened Responses
  import opened Mails
  import opened Lines
  import opened Connections
  import opened Protocol
  import opened Transcripts
  import Cmd = Commands

  // Where a session starts: its handler and the client's bytes.
  datatype Origin<H> = Origin(handler: H, input: Bytes, acceptor: Option<Acceptor>)

  // ----- facts that hold in every configuration, running or not -----

  // No byte of the client is lost, repeated or reordered, before or after STARTTLS.
  ghost predicate BytesExplained<H>(o: Origin<H>, c: Conf<H>)
  {
    match c.link
    case Plain(rest, acceptor) =>
      acceptor == o.acceptor && TlsUpgrades(c.log) == 0 && ReadSinceTls(c.log) + rest == o.input
    case Secure(rest) =>
      && TlsUpgrades(c.log) == 1
      && StartsWith(o.input, ReadBeforeTls(c.log))
      && o.acceptor.Some?
      && o.acceptor.value(o.input[|ReadBeforeTls(c.log)|..]) == Some(ReadSinceTls(c.log) + rest)
  }

  ghost predicate HandlerExplained<H>(env: Env<H>, o: Origin<H>, c: Conf<H>)
  {
    c.handler == Replay(env.handler, o.handler, c.log) && AnswersRecorded(env.handler, o.handler, c.log)
  }

  ghost predicate Background<H>(env: Env<H>, o: Origin<H>, c: Conf<H>)
  {
    BytesExplained(o, c) && HandlerExplained(env, o, c) && AllCaused(env, c.log)
  }

  // ----- facts that hold while the session runs -----

  // Being authenticated is having a login that nothing undid; it takes TLS where TLS is required.
  ghost predicate LoginExplained<H>(env: Env<H>, c: Conf<H>)
  {
    && (c.state.authenticated <==> LastLogin(c.log).Some?)
    && (env.authMode == NoAuth ==> !c.state.authenticated)
    && (env.authMode == RequireTls && c.state.authenticated ==> c.link.Secure?)
  }

  // The mail object is what the transcript says it is, and no transaction is open unauthenticated.
  ghost predicate StateExplained<H>(env: Env<H>, c: Conf<H>)
  {
    && LoginExplained(env, c)
    && Transcripts.Envelope(env.lib.lossy, c.log) ==
       (if c.state.phase.Envelope? || c.state.phase.Data? then Some(c.state.mail.(data := [])) else None)
    && (c.state.phase.Connected? <==> !Greeting(c.log))
    && (c.state.phase.Connected? || c.state.phase.Greeted? ==> c.state.mail == EMPTY_MAIL)
    && (c.state.phase.Envelope? ==> c.state.mail.data == [])
    && (c.state.phase.Envelope? || c.state.phase.Data? ==> IsAuthenticated(env, c.state))
    && |c.state.mail.data| <= env.maxMessageSize
  }

  // The data phase is the one DATA was granted for, and the captured data are its lines.
  ghost predicate ContentExplained<H>(env: Env<H>, c: Conf<H>)
  {
    && (c.state.phase.Data? <==> InContent(env.lib.lossy, c.log))
    && (c.state.phase.Data? ==> c.state.mail.data == Content(c.log))
  }

  // One final reply for the connection and one for each line that was not message content.
  ghost predicate RepliesBalanced<H>(env: Env<H>, c: Conf<H>)
  {
    Due(env.lib.lossy, c.log) == 0
  }

  ghost predicate Inv<H>(env: Env<H>, o: Origin<H>, c: Conf<H>)
  {
    && Background(env, o, c)
    && (c.status.Running? ==> StateExplained(env, c) && ContentExplained(env, c) && RepliesBalanced(env, c))
  }

  // A command line, or an answer to a challenge, was read and is due its reply.
  ghost predicate Asked<H>(env: Env<H>, o: Origin<H>, c: Conf<H>)
  {
    && Background(env, o, c) && StateExplained(env, c) && c.status.Running? && !c.state.phase.Data?
    && !InContent(env.lib.lossy, c.log) && Due(env.lib.lossy, c.log) == 1
  }

  // The session waits for a line, with nothing owed.
  ghost predicate Waiting<H>(env: Env<H>, o: Origin<H>, c: Conf<H>)
  {
    && Background(env, o, c) && StateExplained(env, c) && c.status.Running? && !c.state.phase.Data?
    && !InContent(env.lib.lossy, c.log) && Due(env.lib.lossy, c.log) == 0
  }

  // ----- single events -----

  // Events that neither call the handler nor start TLS.
  predicate Quiet(e: Event)
  {
    e.Sent? || e.Eof? || e.Recv?
  }

  lemma QuietEvent<H>(env: Env<H>, o: Origin<H>, c: Conf<H>, c1: Conf<H>, e: Event)
    requires HandlerExplained(env, o, c) && AllCaused(env, c.log) && Quiet(e)
    requires c1.log == c.log + [e] && c1.handler == c.handler
    ensures HandlerExplained(env, o, c1) && AllCaused(env, c1.log)
    ensures LastLogin(c1.log) == LastLogin(c.log) && Greeting(c1.log) == Greeting(c.log)
  {
    hide MailExplained, Exchanged, CommandAt;
    InitOfSnoc(c.log, e);
  }

  lemma BytesUnread<H>(o: Origin<H>, c: Conf<H>, e: Event)
    requires BytesExplained(o, c) && !e.Recv? && !e.TlsStarted?
    ensures BytesExplained(o, Note(c, e))
  {
    Grow(c.log, e);
  }

  lemma BytesRead<H>(o: Origin<H>, c: Conf<H>, line: Bytes, rest: Bytes)
    requires BytesExplained(o, c) && c.link.rest == line + rest
    ensures BytesExplained(o, Note(c.(link := c.link.(rest := rest)), Recv(line)))
  {
    Grow(c.log, Recv(line));
    assert ReadSinceTls(c.log) + c.link.rest == (ReadSinceTls(c.log) + line) + rest;
  }

  lemma NoteKeepsBackground<H>(env: Env<H>, o: Origin<H>, c: Conf<H>, e: Event)
    requires Background(env, o, c) && (e.Sent? || e.Eof?)
    ensures Background(env, o, Note(c, e)) && LastLogin(c.log + [e]) == LastLogin(c.log)
    ensures Greeting(c.log + [e]) == Greeting(c.log)
  {
    hide BytesExplained, HandlerExplained, AllCaused;
    QuietEvent(env, o, c, Note(c, e), e);
    BytesUnread(o, c, e);
  }

  lemma SameBackground<H>(env: Env<H>, o: Origin<H>, c: Conf<H>, c1: Conf<H>)
    requires Background(env, o, c) && c1.link == c.link && c1.handler == c.handler && c1.log == c.log
    ensures Background(env, o, c1)
  {
  }

  lemma FailKeepsBackground<H>(env: Env<H>, o: Origin<H>, c: Conf<H>, why: Failure)
    requires Background(env, o, c)
    ensures Background(env, o, Fail(c, why)) && Inv(env, o, Fail(c, why))
  {
  }

  lemma EnvelopeUnmoved(lossy: Cmd.Lossy, t: Log, e: Event)
    requires !e.MailCalled? && !e.ResetCalled? && !e.TlsStarted?
    requires e != Sent(OK) || t == [] || !Last(t).Recv?
    ensures Transcripts.Envelope(lossy, t + [e]) == Transcripts.Envelope(lossy, t)
  {
    Grow(t, e);
  }

  lemma EnvelopeAfterOk(lossy: Cmd.Lossy, t: Log, line: Bytes)
    requires t != [] && Last(t) == Recv(line)
    ensures Transcripts.Envelope(lossy, t + [Sent(OK)]) ==
            match Cmd.Parse(lossy, line)
            case Ok(Mail(from)) => Some(EMPTY_MAIL.SetSender(from))
            case Ok(Recipient(to)) =>
              var before := Transcripts.Envelope(lossy, t);
              if before.Some? then Some(before.value.AddRecipient(to)) else None
            case _ => Transcripts.Envelope(lossy, t)
  {
    Grow(t, Sent(OK));
  }

  // ----- replies -----

  // A single final reply settles what is due.
  lemma AnswerKeeps<H>(env: Env<H>, o: Origin<H>, c: Conf<H>, reply: Response)
    requires Asked(env, o, c) && reply != OK && reply != DATA_START && !reply.hasNext
    ensures Inv(env, o, Say(c, reply)) && Waiting(env, o, Say(c, reply))
  {
    hide Background, CommandAt, Due, InContent;
    NoteKeepsBackground(env, o, c, Sent(reply));
    EnvelopeUnmoved(env.lib.lossy, c.log, Sent(reply));
    InitOfSnoc(c.log, Sent(reply));
    GrowDue(env.lib.lossy, c.log, Sent(reply));
  }

  predicate GoodGroup(replies: seq<Response>)
  {
    && replies != [] && !Last(replies).hasNext && (forall i :: 0 <= i < |replies| - 1 ==> replies[i].hasNext)
    && forall i :: 0 <= i < |replies| ==> replies[i].code != DATA_START.code
  }

  // A multi-line reply changes nothing but the count of final replies, by one.
  lemma {:induction false} SayAllEffect<H>(env: Env<H>, o: Origin<H>, c: Conf<H>, replies: seq<Response>)
    requires Background(env, o, c) && GoodGroup(replies)
    requires replies[0] != OK || c.log == [] || !Last(c.log).Recv?
    ensures var r := SayAll(c, replies);
            && Background(env, o, r)
            && Due(env.lib.lossy, r.log) == Due(env.lib.lossy, c.log) - 1 && !InContent(env.lib.lossy, r.log)
            && LastLogin(r.log) == LastLogin(c.log) && Greeting(r.log) == Greeting(c.log)
            && r.log != [] && Last(r.log).Sent?
            && Transcripts.Envelope(env.lib.lossy, r.log) == Transcripts.Envelope(env.lib.lossy, c.log)
    decreases |replies|
  {
    hide Background, Transcripts.Envelope, InContent, Due, CommandAt;
    var c1 := Say(c, replies[0]);
    NoteKeepsBackground(env, o, c, Sent(replies[0]));
    EnvelopeUnmoved(env.lib.lossy, c.log, Sent(replies[0]));
    InitOfSnoc(c.log, Sent(replies[0]));
    GrowDue(env.lib.lossy, c.log, Sent(replies[0]));
    if |replies| == 1 {
      assert SayAll(c1, replies[1..]) == c1;
    } else {
      SayAllEffect(env, o, c1, replies[1..]);
    }
  }

  lemma HelloRepliesGood<H>(env: Env<H>, link: Link, extended: bool)
    ensures GoodGroup(HelloReplies(env, link, extended))
  {
    if extended {
      var features := Features(env, link);
      var replies := HelloReplies(env, link, extended);
      assert |replies| == |features| + 1;
      forall i | 0 <= i < |replies|
        ensures (replies[i].hasNext <==> i < |replies| - 1) && replies[i].code == 250
      {
        if i > 0 {
          assert replies[i] == FeatureReply(features, i - 1);
        }
      }
    }
  }

  // ----- AUTH -----

  lemma RecvKeeps<H>(env: Env<H>, o: Origin<H>, c: Conf<H>, line: Bytes, rest: Bytes)
    requires Background(env, o, c) && c.link.rest == line + rest
    ensures var c1 := Note(c.(link := c.link.(rest := rest)), Recv(line));
            && Background(env, o, c1)
            && LastLogin(c1.log) == LastLogin(c.log) && Greeting(c1.log) == Greeting(c.log)
  {
    hide BytesExplained, HandlerExplained, AllCaused;
    QuietEvent(env, o, c, Note(c.(link := c.link.(rest := rest)), Recv(line)), Recv(line));
    BytesRead(o, c, line, rest);
  }

  // Reading a line changes neither the session's state nor what it knows.
  lemma ReadKeeps<H>(env: Env<H>, o: Origin<H>, c: Conf<H>)
    requires Background(env, o, c)
    ensures var (c1, line) := ReadLine(c);
            && Background(env, o, c1) && c1.state == c.state && c1.handler == c.handler
            && LastLogin(c1.log) == LastLogin(c.log) && Greeting(c1.log) == Greeting(c.log)
  {
    hide MailExplained, Exchanged, CommandAt, AllCaused;
    match NextLine(c.link.rest) {
      case Line(line, rest) => RecvKeeps(env, o, c, line, rest);
      case AtEof => NoteKeepsBackground(env, o, c, Eof);
      case TooLong =>
      case EofInLine =>
    }
  }

  lemma StateUnmoved<H>(env: Env<H>, c: Conf<H>, c1: Conf<H>, e: Event)
    requires StateExplained(env, c) && c1.log == c.log + [e] && c1.state == c.state
    requires c1.link.Secure? == c.link.Secure?
    requires e.Recv? || e.Eof?
    ensures StateExplained(env, c1)
  {
    hide Cmd.Parse;
    EnvelopeUnmoved(env.lib.lossy, c.log, e);
    InitOfSnoc(c.log, e);
  }

  // The line read, or the end of the stream, is due a reply.
  lemma ReadIsDue<H>(env: Env<H>, o: Origin<H>, c: Conf<H>)
    requires Waiting(env, o, c)
    ensures var (c1, line) := ReadLine(c);
            && Background(env, o, c1) && c1.state == c.state && c1.link.Secure? == c.link.Secure?
            && (c1.status.Running? ==> Asked(env, o, c1))
            && (line.Some? ==> c1.status.Running? && c1.log != [] && Last(c1.log) == Recv(line.value))
  {
    hide Background, StateExplained, Due, InContent;
    ReadKeeps(env, o, c);
    var (c1, _) := ReadLine(c);
    match NextLine(c.link.rest) {
      case Line(line, rest) =>
        StateUnmoved(env, c, c1, Recv(line));
        InitOfSnoc(c.log, Recv(line));
        GrowDue(env.lib.lossy, c.log, Recv(line));
      case AtEof =>
        StateUnmoved(env, c, c1, Eof);
        GrowDue(env.lib.lossy, c.log, Eof);
      case _ =>
    }
  }

  // After a challenge the client's answer, or its silence, is due a reply again.
  lemma AskKeeps<H>(env: Env<H>, o: Origin<H>, c: Conf<H>, challenge: Response)
    requires Asked(env, o, c) && challenge.code == 334 && !challenge.hasNext
    ensures var (c1, answer) := Ask(c, challenge);
            && Background(env, o, c1) && c1.state == c.state && c1.link.Secure? == c.link.Secure?
            && (c1.status.Running? ==> Asked(env, o, c1))
  {
    hide Background, StateExplained, ReadLine, Due, InContent, Waiting, Inv;
    AnswerKeeps(env, o, c, challenge);
    ReadIsDue(env, o, Say(c, challenge));
  }

  lemma AskedIsGood<H>(env: Env<H>, o: Origin<H>, c: Conf<H>)
    requires Asked(env, o, c)
    ensures Background(env, o, c) && c.status.Running?
  {
  }

  lemma PasswordKeeps<H>(env: Env<H>, o: Origin<H>, c: Conf<H>, user: Bytes)
    requires Asked(env, o, c)
    ensures var (c1, outcome) := AuthLoginPassword(env, c, user);
            && Background(env, o, c1) && c1.state == c.state && c1.link.Secure? == c.link.Secure?
            && (outcome.Aborted? <==> !c1.status.Running?) && (c1.status.Running? ==> Asked(env, o, c1))
  {
    hide Background, Asked, Ask, DecodeBase64;
    AskKeeps(env, o, c, AUTH_CHALLENGE_LOGIN_PASSWORD);
    AskedIsGood(env, o, c);
    FailKeepsBackground(env, o, c, InvalidBase64);
    FailKeepsBackground(env, o, Ask(c, AUTH_CHALLENGE_LOGIN_PASSWORD).0, InvalidBase64);
  }

  lemma HandshakeKeeps<H>(env: Env<H>, o: Origin<H>, c: Conf<H>, mechanism: Cmd.AuthMethod, initial: Option<Bytes>)
    requires Asked(env, o, c)
    ensures var (c1, outcome) := HandleAuth(env, c, mechanism, initial);
            && Background(env, o, c1) && c1.state == c.state && c1.link.Secure? == c.link.Secure?
            && (outcome.Aborted? <==> !c1.status.Running?) && (c1.status.Running? ==> Asked(env, o, c1))
  {
    hide MailExplained, Exchanged, CommandAt;
    if mechanism.Plain? {
      AskKeeps(env, o, c, AUTH_CHALLENGE_PLAIN);
    } else if initial.Some? {
      PasswordKeeps(env, o, c, initial.value);
    } else {
      AskKeeps(env, o, c, AUTH_CHALLENGE_LOGIN_USERNAME);
      var (c1, answer) := Ask(c, AUTH_CHALLENGE_LOGIN_USERNAME);
      if answer.Some? {
        PasswordKeeps(env, o, c1, answer.value);
      }
    }
  }

  lemma LoginKeeps<H>(env: Env<H>, o: Origin<H>, c: Conf<H>, username: string, password: string)
    requires Asked(env, o, c) && c.state.phase.Greeted?
    requires env.authMode != NoAuth && (env.authMode == RequireTls ==> c.link.Secure?)
    requires Exchanged(env.lib, c.log, Credentials(username, password))
    ensures var (h, answer) := env.handler.onLogin(c.handler, username, password);
            var c1 := Note(c.(handler := h), LoginCalled(username, password, answer.Accept?));
            Background(env, o, c1) && (answer.Accept? ==> Asked(env, o, c1.(state := c1.state.(authenticated := true))))
  {
    hide MailExplained, CommandAt, InContent, Due;
    var (h, answer) := env.handler.onLogin(c.handler, username, password);
    var e := LoginCalled(username, password, answer.Accept?);
    Grow(c.log, e);
    GrowDue(env.lib.lossy, c.log, e);
    EnvelopeUnmoved(env.lib.lossy, c.log, e);
  }

  // A login counts as such exactly if the handler accepts it, and only where AUTH is allowed.
  lemma FinishAuthKeeps<H>(env: Env<H>, o: Origin<H>, c: Conf<H>, outcome: AuthOutcome)
    requires Asked(env, o, c) && c.state.phase.Greeted? && !outcome.Aborted?
    requires env.authMode != NoAuth && (env.authMode == RequireTls ==> c.link.Secure?)
    requires outcome.Credentials? ==> Exchanged(env.lib, c.log, outcome)
    ensures Inv(env, o, FinishAuth(env, c, outcome))
  {
    hide MailExplained, CommandAt;
    match outcome {
      case BadAuth(err) =>
        AnswerKeeps(env, o, c, SyntaxError(Some(err)));
      case Credentials(username, password) =>
        LoginKeeps(env, o, c, username, password);
        var (h, answer) := env.handler.onLogin(c.handler, username, password);
        var c1 := Note(c.(handler := h), LoginCalled(username, password, answer.Accept?));
        if answer.Accept? {
          AnswerKeeps(env, o, c1.(state := c1.state.(authenticated := true)), AUTH_OK);
        } else {
          NoteKeepsBackground(env, o, c1, Sent(AUTH_FAIL));
        }
    }
  }

  // Credentials come from the exchange the transcript shows.
  lemma HandshakeExchanges<H>(env: Env<H>, c: Conf<H>, line: Bytes, mechanism: Cmd.AuthMethod, initial: Option<Bytes>)
    requires c.log != [] && Last(c.log) == Recv(line)
    requires Cmd.Parse(env.lib.lossy, line) == Ok(Cmd.Authenticate(mechanism, initial))
    ensures var (c1, outcome) := HandleAuth(env, c, mechanism, initial);
            outcome.Credentials? ==> Exchanged(env.lib, c1.log, outcome)
  {
    hide Cmd.Parse, NextLine, DecodeBase64, PlainCredentials;
  }

  lemma AuthKeeps<H>(env: Env<H>, o: Origin<H>, c: Conf<H>, line: Bytes,
                     mechanism: Cmd.AuthMethod, initial: Option<Bytes>)
    requires Asked(env, o, c) && c.log != [] && Last(c.log) == Recv(line)
    requires Cmd.Parse(env.lib.lossy, line) == Ok(Cmd.Authenticate(mechanism, initial))
    ensures Inv(env, o, OnAuth(env, c, mechanism, initial))
  {
    hide MailExplained, Exchanged, CommandAt;
    if c.state.phase != Greeted || env.authMode == NoAuth || (env.authMode == RequireTls && !c.link.Secure?) {
      var reply := if c.state.phase != Greeted || env.authMode != NoAuth then BAD_SEQUENCE else SyntaxError(None);
      AnswerKeeps(env, o, c, reply);
    } else {
      HandshakeKeeps(env, o, c, mechanism, initial);
      HandshakeExchanges(env, c, line, mechanism, initial);
      var (c1, outcome) := HandleAuth(env, c, mechanism, initial);
      if !outcome.Aborted? {
        FinishAuthKeeps(env, o, c1, outcome);
      }
    }
  }

  // ----- commands -----

  lemma HelloNoted<H>(env: Env<H>, o: Origin<H>, c: Conf<H>, line: Bytes, domain: string, extended: bool)
    requires Background(env, o, c) && !Greeting(c.log) && c.log != [] && Last(c.log) == Recv(line)
    requires Cmd.Parse(env.lib.lossy, line) == Ok(Cmd.Hello(domain, extended))
    ensures var (h, answer) := env.handler.onHello(c.handler, domain, extended);
            var c1 := Note(c.(handler := h), HelloCalled(domain, extended, answer.Accept?));
            && Background(env, o, c1) && LastLogin(c1.log) == LastLogin(c.log) && Greeting(c1.log) == answer.Accept?
  {
    hide MailExplained, Exchanged, Cmd.Parse;
    var (h, answer) := env.handler.onHello(c.handler, domain, extended);
    Grow(c.log, HelloCalled(domain, extended, answer.Accept?));
  }

  lemma HelloKeeps<H>(env: Env<H>, o: Origin<H>, c: Conf<H>, line: Bytes, domain: string, extended: bool)
    requires Asked(env, o, c) && c.log != [] && Last(c.log) == Recv(line)
    requires Cmd.Parse(env.lib.lossy, line) == Ok(Cmd.Hello(domain, extended))
    ensures Inv(env, o, OnHello(env, c, domain, extended))
  {
    hide Background, Cmd.Parse, Transcripts.Envelope, HelloReplies, SayAll, GoodGroup;
    hide Greeting, LastLogin, InContent, Due;
    if c.state.phase != Connected {
      AnswerKeeps(env, o, c, BAD_SEQUENCE);
    } else {
      var (h, answer) := env.handler.onHello(c.handler, domain, extended);
      var e := HelloCalled(domain, extended, answer.Accept?);
      var c1 := Note(c.(handler := h), e);
      HelloNoted(env, o, c, line, domain, extended);
      GrowDue(env.lib.lossy, c.log, e);
      EnvelopeUnmoved(env.lib.lossy, c.log, e);
      if answer.Accept? {
        HelloRepliesGood(env, c1.link, extended);
        GoodIsNonEmpty(HelloReplies(env, c1.link, extended));
        SayAllEffect(env, o, c1, HelloReplies(env, c1.link, extended));
        var r := SayAll(c1, HelloReplies(env, c1.link, extended));
        SameBackground(env, o, r, r.(state := c1.state.(phase := Greeted)));
      } else {
        FailKeepsBackground(env, o, c1, HelloRejected);
      }
    }
  }

  lemma GoodIsNonEmpty(replies: seq<Response>)
    requires GoodGroup(replies)
    ensures replies != []
  {
  }

  lemma HelpKeeps<H>(env: Env<H>, o: Origin<H>, c: Conf<H>)
    requires Asked(env, o, c)
    ensures Inv(env, o, SayAll(c, HelpReplies(env, c.link)))
  {
    hide Background, CommandAt, InContent, Due;
    var replies := HelpReplies(env, c.link);
    assert replies[0].hasNext && !replies[1].hasNext;
    SayAllEffect(env, o, c, replies);
  }

  // TLS is handed exactly the unread bytes, and the login does not survive it.
  lemma UpgradeKeeps<H>(env: Env<H>, o: Origin<H>, c: Conf<H>, data: Bytes)
    requires Background(env, o, c) && c.link.Plain? && c.link.acceptor.Some?
    requires c.link.acceptor.value(c.link.rest) == Some(data)
    requires Due(env.lib.lossy, c.log) == 0 && c.status.Running? && Caused(env, c.log, TlsStarted)
    ensures Inv(env, o, Note(c.(link := Secure(data), state := NEW_SESSION), TlsStarted))
  {
    hide MailExplained, Exchanged, Cmd.Parse, InContent, Due;
    Grow(c.log, TlsStarted);
    GrowDue(env.lib.lossy, c.log, TlsStarted);
    var read := ReadSinceTls(c.log);
    assert o.input[..|read|] == read && o.input[|read|..] == c.link.rest;
    assert [] + data == data;
  }

  lemma StartTlsKeeps<H>(env: Env<H>, o: Origin<H>, c: Conf<H>, line: Bytes)
    requires Asked(env, o, c) && c.log != [] && Last(c.log) == Recv(line)
    requires Cmd.Parse(env.lib.lossy, line) == Ok(Cmd.StartTls)
    ensures Inv(env, o, OnStartTls(c))
  {
    hide MailExplained, Exchanged, Cmd.Parse;
    if !SupportsTls(c.link) {
      AnswerKeeps(env, o, c, SyntaxError(Some("TLS not supported")));
    } else if c.state.phase != Greeted {
      AnswerKeeps(env, o, c, BAD_SEQUENCE);
    } else {
      AnswerKeeps(env, o, c, START_TLS);
      var c1 := Say(c, START_TLS);
      assert CommandAt(env.lib.lossy, c1.log, |c1.log| - 2) == Some(Cmd.StartTls);
      match c1.link.acceptor.value(c1.link.rest) {
        case None =>
        case Some(data) => UpgradeKeeps(env, o, c1, data);
      }
    }
  }

  // OK answers a MAIL, RCPT or NOOP line.
  lemma OkKeeps<H>(env: Env<H>, o: Origin<H>, c: Conf<H>, line: Bytes, state: SessionState)
    requires Asked(env, o, c) && c.log != [] && Last(c.log) == Recv(line)
    requires state.authenticated == c.state.authenticated && !state.phase.Data?
    requires var c1 := c.(state := state, log := c.log + [Sent(OK)]); StateExplained(env, c1)
    ensures Inv(env, o, Say(c.(state := state), OK))
  {
    hide Background, StateExplained, CommandAt, InContent, Due, Content;
    SameBackground(env, o, c, c.(state := state));
    NoteKeepsBackground(env, o, c.(state := state), Sent(OK));
    GrowDue(env.lib.lossy, c.log, Sent(OK));
  }

  lemma MailFromKeeps<H>(env: Env<H>, o: Origin<H>, c: Conf<H>, line: Bytes, from: string)
    requires Asked(env, o, c) && c.log != [] && Last(c.log) == Recv(line)
    requires Cmd.Parse(env.lib.lossy, line) == Ok(Cmd.Mail(from))
    ensures Inv(env, o, OnMailFrom(env, c, from))
  {
    hide MailExplained, Exchanged, CommandAt;
    if c.state.phase != Greeted {
      AnswerKeeps(env, o, c, BAD_SEQUENCE);
    } else if !IsAuthenticated(env, c.state) {
      AnswerKeeps(env, o, c, AUTH_REQUIRED);
    } else {
      EnvelopeAfterOk(env.lib.lossy, c.log, line);
      NoteKeepsBackground(env, o, c, Sent(OK));
      OkKeeps(env, o, c, line, c.state.(phase := Phase.Envelope, mail := EMPTY_MAIL.SetSender(from)));
    }
  }

  lemma RecipientKeeps<H>(env: Env<H>, o: Origin<H>, c: Conf<H>, line: Bytes, to: string)
    requires Asked(env, o, c) && c.log != [] && Last(c.log) == Recv(line)
    requires Cmd.Parse(env.lib.lossy, line) == Ok(Cmd.Recipient(to))
    ensures Inv(env, o, OnRecipient(env, c, to))
  {
    hide MailExplained, Exchanged, CommandAt;
    if c.state.phase != Phase.Envelope {
      AnswerKeeps(env, o, c, BAD_SEQUENCE);
    } else {
      EnvelopeAfterOk(env.lib.lossy, c.log, line);
      NoteKeepsBackground(env, o, c, Sent(OK));
      OkKeeps(env, o, c, line, c.state.(mail := c.state.mail.AddRecipient(to)));
    }
  }

  lemma DataKeeps<H>(env: Env<H>, o: Origin<H>, c: Conf<H>, line: Bytes)
    requires Asked(env, o, c) && c.log != [] && Last(c.log) == Recv(line)
    requires Cmd.Parse(env.lib.lossy, line) == Ok(Cmd.Data)
    ensures Inv(env, o, OnData(env, c))
  {
    hide Background, Cmd.Parse, InContent, Due;
    if c.state.phase != Phase.Envelope {
      AnswerKeeps(env, o, c, BAD_SEQUENCE);
    } else {
      var c1 := c.(state := c.state.(phase := Data));
      SameBackground(env, o, c, c1);
      NoteKeepsBackground(env, o, c1, Sent(DATA_START));
      EnvelopeUnmoved(env.lib.lossy, c.log, Sent(DATA_START));
      InitOfSnoc(c.log, Sent(DATA_START));
      GrowDue(env.lib.lossy, c.log, Sent(DATA_START));
    }
  }

  lemma ResetNoted<H>(env: Env<H>, o: Origin<H>, c: Conf<H>)
    requires Background(env, o, c) && Caused(env, c.log, ResetCalled)
    ensures Background(env, o, Note(c.(handler := env.handler.onReset(c.handler)), ResetCalled))
  {
    hide MailExplained, Exchanged, Cmd.Parse;
    Grow(c.log, ResetCalled);
  }

  lemma ResetKeeps<H>(env: Env<H>, o: Origin<H>, c: Conf<H>, line: Bytes)
    requires Asked(env, o, c) && c.log != [] && Last(c.log) == Recv(line)
    requires Cmd.Parse(env.lib.lossy, line) == Ok(Cmd.Reset)
    ensures Inv(env, o, OnReset(env, c))
  {
    hide Background, Cmd.Parse, InContent, Due;
    var c1 := Say(c.(state := NEW_SESSION), RESET);
    SameBackground(env, o, c, c.(state := NEW_SESSION));
    NoteKeepsBackground(env, o, c.(state := NEW_SESSION), Sent(RESET));
    GrowDue(env.lib.lossy, c.log, Sent(RESET));
    assert CommandAt(env.lib.lossy, c1.log, |c.log| - 1) == Some(Cmd.Reset);
    ResetNoted(env, o, c1);
    Grow(c1.log, ResetCalled);
    GrowDue(env.lib.lossy, c1.log, ResetCalled);
  }

  lemma NoOpKeeps<H>(env: Env<H>, o: Origin<H>, c: Conf<H>, line: Bytes)
    requires Asked(env, o, c) && c.log != [] && Last(c.log) == Recv(line)
    requires Cmd.Parse(env.lib.lossy, line) == Ok(Cmd.NoOp)
    ensures Inv(env, o, Say(c, OK))
  {
    hide MailExplained, Exchanged, CommandAt;
    EnvelopeAfterOk(env.lib.lossy, c.log, line);
    NoteKeepsBackground(env, o, c, Sent(OK));
    OkKeeps(env, o, c, line, c.state);
  }

  lemma QuitKeeps<H>(env: Env<H>, o: Origin<H>, c: Conf<H>)
    requires Asked(env, o, c)
    ensures Inv(env, o, Say(c, GOODBYE).(status := Closed))
  {
    hide MailExplained, Exchanged, CommandAt;
    NoteKeepsBackground(env, o, c, Sent(GOODBYE));
  }

  lemma ExecuteKeeps<H>(env: Env<H>, o: Origin<H>, c: Conf<H>, line: Bytes, command: Cmd.Command)
    requires Asked(env, o, c) && c.log != [] && Last(c.log) == Recv(line)
    requires Cmd.Parse(env.lib.lossy, line) == Ok(command)
    ensures Inv(env, o, Execute(env, c, command))
  {
    hide OnHello, OnStartTls, OnAuth, OnMailFrom, OnRecipient, OnData, OnReset, SayAll, Say, Asked, Inv, Cmd.Parse;
    match command {
      case Hello(domain, extended) => HelloKeeps(env, o, c, line, domain, extended);
      case Help => HelpKeeps(env, o, c);
      case StartTls => StartTlsKeeps(env, o, c, line);
      case Authenticate(mechanism, initial) => AuthKeeps(env, o, c, line, mechanism, initial);
      case Mail(from) => MailFromKeeps(env, o, c, line, from);
      case Recipient(to) => RecipientKeeps(env, o, c, line, to);
      case Data => DataKeeps(env, o, c, line);
      case Reset => ResetKeeps(env, o, c, line);
      case NoOp => NoOpKeeps(env, o, c, line);
      case Quit => QuitKeeps(env, o, c);
    }
  }

  lemma CommandLineKeeps<H>(env: Env<H>, o: Origin<H>, c: Conf<H>, line: Bytes)
    requires Asked(env, o, c) && c.log != [] && Last(c.log) == Recv(line)
    ensures Inv(env, o, OnCommandLine(env, c, line))
  {
    hide Execute;
    var command := Cmd.Parse(env.lib.lossy, line);
    if command.Err? {
      AnswerKeeps(env, o, c, SyntaxError(Some(command.error)));
    } else {
      ExecuteKeeps(env, o, c, line, command.value);
    }
  }

  // ----- message content -----

  // The terminator line delivers the message the transcript accounts for.
  lemma DeliveryKeeps<H>(env: Env<H>, o: Origin<H>, c: Conf<H>, before: Log, line: Bytes)
    requires Background(env, o, c) && StateExplained(env, c) && c.state.phase.Data? && c.status.Running?
    requires c.log == before + [Recv(line)] && IsTerminator(line)
    requires Transcripts.Envelope(env.lib.lossy, before) == Transcripts.Envelope(env.lib.lossy, c.log)
    requires LastLogin(before) == LastLogin(c.log) && Greeting(before) == Greeting(c.log)
    requires Content(before) == c.state.mail.data && InContent(env.lib.lossy, before) && Due(env.lib.lossy, c.log) == 1
    ensures Inv(env, o, DeliverMail(env, c))
  {
    hide Exchanged, CommandAt, InContent, Due;
    Grow(before, Recv(line));
    var (h, failure) := env.handler.onMail(c.handler, c.state.mail);
    var e := MailCalled(c.state.mail, failure);
    Grow(c.log, e);
    GrowDue(env.lib.lossy, c.log, e);
    assert MailExplained(env, c.log, c.state.mail);
    var c1 := Note(c.(handler := h, state := c.state.(mail := EMPTY_MAIL, phase := Greeted)), e);
    assert Asked(env, o, c1);
    AnswerKeeps(env, o, c1, match failure case Some(err) => MAIL_HANDLER_ERROR.Extend(err) case None => MAIL_ACCEPTED);
  }

  lemma ContentKeeps<H>(env: Env<H>, o: Origin<H>, c: Conf<H>, before: Log, line: Bytes)
    requires Background(env, o, c) && StateExplained(env, c) && c.state.phase.Data? && c.status.Running?
    requires c.log == before + [Recv(line)] && !IsTerminator(line)
    requires Content(before) == c.state.mail.data && InContent(env.lib.lossy, c.log) && RepliesBalanced(env, c)
    ensures Inv(env, o, OnDataLine(env, c, line))
  {
    hide Background, CommandAt, InContent, Due, LastLogin, Greeting, Transcripts.Envelope;
    Grow(before, Recv(line));
    if |c.state.mail.data| + |Unstuff(line)| > env.maxMessageSize {
      NoteKeepsBackground(env, o, c, Sent(DATA_TOO_LONG));
      FailKeepsBackground(env, o, Say(c, DATA_TOO_LONG), DataTooLong);
    } else {
      SameBackground(env, o, c, OnDataLine(env, c, line));
    }
  }

  lemma DataLineKeeps<H>(env: Env<H>, o: Origin<H>, c: Conf<H>)
    requires Inv(env, o, c) && c.status.Running? && c.state.phase.Data?
    ensures Inv(env, o, Step(env, c))
  {
    hide Background, DeliverMail, InContent, Due;
    ReadKeeps(env, o, c);
    var (c1, got) := ReadLine(c);
    FailKeepsBackground(env, o, c1, UnexpectedEof);
    if got.Some? {
      var line := got.value;
      InitOfSnoc(c.log, Recv(line));
      GrowDue(env.lib.lossy, c.log, Recv(line));
      EnvelopeUnmoved(env.lib.lossy, c.log, Recv(line));
      if IsTerminator(line) {
        DeliveryKeeps(env, o, c1, c.log, line);
      } else {
        ContentKeeps(env, o, c1, c.log, line);
      }
    }
  }

  // ----- every turn -----

  lemma RunningIsWaiting<H>(env: Env<H>, o: Origin<H>, c: Conf<H>)
    requires Inv(env, o, c) && c.status.Running? && !c.state.phase.Data?
    ensures Waiting(env, o, c)
  {
    hide Background, StateExplained, InContent, Due;
  }

  lemma CommandTurnKeeps<H>(env: Env<H>, o: Origin<H>, c: Conf<H>)
    requires Waiting(env, o, c)
    ensures Inv(env, o, Step(env, c))
  {
    hide Inv, Background, Asked, ReadLine, OnCommandLine, OnDataLine;
    ReadIsDue(env, o, c);
    var (c1, got) := ReadLine(c);
    EndKeeps(env, o, c1);
    FailKeepsBackground(env, o, c1, UnexpectedEof);
    if got.Some? {
      CommandLineKeeps(env, o, c1, got.value);
    }
  }

  lemma EndKeeps<H>(env: Env<H>, o: Origin<H>, c: Conf<H>)
    requires Background(env, o, c)
    ensures !c.status.Running? ==> Inv(env, o, c)
  {
  }

  // Every turn keeps the invariant.
  lemma StepKeeps<H>(env: Env<H>, o: Origin<H>, c: Conf<H>)
    requires Inv(env, o, c) && c.status.Running?
    ensures Inv(env, o, Step(env, c))
  {
    hide Inv, Step, Waiting;
    if c.state.phase.Data? {
      DataLineKeeps(env, o, c);
    } else {
      RunningIsWaiting(env, o, c);
      CommandTurnKeeps(env, o, c);
    }
  }

  lemma StartIsGood<H>(env: Env<H>, o: Origin<H>)
    ensures Inv(env, o, Start(env, o.handler, Plain(o.input, o.acceptor)))
  {
    Grow([], Sent(Banner(env.serverName)));
    GrowDue(env.lib.lossy, [], Sent(Banner(env.serverName)));
    assert [] + o.input == o.input;
  }

  // The invariant holds after any number of turns of any session.
  lemma {:induction false} InvAlways<H>(env: Env<H>, o: Origin<H>, n: nat)
    ensures Inv(env, o, After(env, Start(env, o.handler, Plain(o.input, o.acceptor)), n))
  {
    hide Step, Inv;
    if n == 0 {
      StartIsGood(env, o);
    } else {
      InvAlways(env, o, n - 1);
      var before := After(env, Start(env, o.handler, Plain(o.input, o.acceptor)), n - 1);
      if before.status.Running? {
        StepKeeps(env, o, before);
      }
    }
  }
}
