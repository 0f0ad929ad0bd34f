/** The session object: reads lines from a connection in whatever pieces the bytes arrive, replies,
    and calls the event handler. Every method is tied to the pure session of module Protocol. */
module Sessions {
  import opened Basics
  import opened Responses
  import opened Mails
  import opened Lines
  import opened Connections
  import Cmd = Commands
  import P = Protocol
  import opened Transcripts

  // A failed session drops its connection: what that still held no longer matters.
  function Observed<H>(c: P.Conf<H>): P.Conf<H>
  {
    if c.status.Failed? then c.(link := Plain([], None)) else c
  }

  lemma SameRun<H>(env: P.Env<H>, a: P.Conf<H>, b: P.Conf<H>)
    requires Observed(a) == Observed(b)
    ensures Observed(P.Run(env, a)) == Observed(P.Run(env, b)) && (a.status.Running? ==> a == b)
  {
    hide P.Run;
    if a.status.Failed? {
      P.RunEnds(env, a);
      P.RunEnds(env, b);
    }
  }

  class Session<H> {
    const env: P.Env<H>
    var connection: Connection
    var state: P.SessionState
    var handler: H
    ghost var log: P.Log

    ghost predicate Valid()
      reads this, connection
    {
      connection.Valid() && connection.output == Wire(log)
    }

    ghost function Now(status: P.Status): P.Conf<H>
      reads this, connection
    {
      P.Conf(state, handler, connection.View(), log, status)
    }

    constructor (connection: Connection, env: P.Env<H>, handler: H)
      requires connection.Valid() && connection.output == ""
      ensures Valid() && this.connection == connection && this.env == env
      ensures Now(P.Running) == P.Conf(P.NEW_SESSION, handler, connection.View(), [], P.Running)
    {
      this.env, this.connection, this.handler := env, connection, handler;
      state, log := P.NEW_SESSION, [];
    }

    ghost method Record(e: P.Event)
      requires Valid() && !e.Sent?
      modifies this`log
      ensures Valid() && log == old(log) + [e]
    {
      InitOfSnoc(log, e);
      log := log + [e];
    }

    method Reply(reply: Response)
      requires Valid()
      modifies this`log, connection`output
      ensures Valid() && Now(P.Running) == P.Say(old(Now(P.Running)), reply)
    {
      var line := reply.Line();
      connection.WriteAll(line + "\r\n");
      InitOfSnoc(log, P.Sent(reply));
      log := log + [P.Sent(reply)];
      assert connection.output == Wire(old(log)) + (line + "\r\n") == Wire(old(log)) + line + "\r\n";
    }

    method ReplyAll(replies: seq<Response>)
      requires Valid()
      modifies this`log, connection`output
      ensures Valid() && Now(P.Running) == P.SayAll(old(Now(P.Running)), replies)
    {
      for i := 0 to |replies|
        invariant Valid()
        invariant P.SayAll(Now(P.Running), replies[i..]) == P.SayAll(old(Now(P.Running)), replies)
        invariant Now(P.Running) == old(Now(P.Running)).(log := log)
      {
        assert replies[i..][0] == replies[i] && replies[i..][1..] == replies[i + 1..];
        Reply(replies[i]);
      }
    }

    // Collects buffered bytes until a line is complete: the line, or why there is none.
    method CollectLine() returns (line: Read)
      requires connection.Valid()
      modifies connection`buffer, connection`incoming
      ensures connection.Valid() && line == NextLine(old(connection.Rest()))
      ensures line.Line? ==> connection.Rest() == line.rest
      ensures line.AtEof? ==> connection.Rest() == []
    {
      var got: Bytes := [];
      ghost var all := connection.Rest();
      while true
        invariant connection.Valid()
        invariant got + connection.Rest() == all && LF !in got && |got| <= MAX_LINE_LENGTH
        decreases |connection.Rest()|
      {
        var available := connection.FillBuf();
        ghost var later := Concat(connection.incoming);
        if available == [] {
          if got == [] {
            assert all == [];
            return AtEof;
          }
          assert all == got;
          NoNewline(all, got);
          return EofInLine;
        }
        var newline := IndexOf(available, LF);
        var n := if newline < |available| then newline + 1 else |available|;
        assert got + available + later == all;
        if |got| + n > MAX_LINE_LENGTH {
          LineOverflow(all, got, available, later);
          return TooLong;
        }
        connection.Consume(n);
        if newline < |available| {
          LineFound(all, got, available, later);
          line := Line(got + available[..n], connection.Rest());
          return;
        }
        LineGrows(all, got, available, later);
        got := got + available;
      }
      assert false;
      line := AtEof;
    }

    // A line up to and including its LF; None at end of stream.
    method ReadLine() returns (line: Option<Bytes>, status: P.Status)
      requires Valid()
      modifies this`log, connection`buffer, connection`incoming
      ensures Valid()
      ensures var spec := P.ReadLine(old(Now(P.Running)));
              Observed(Now(status)) == Observed(spec.0) && line == spec.1
    {
      var read := CollectLine();
      match read {
        case Line(l, _) =>
          Record(P.Recv(l));
          return Some(l), P.Running;
        case AtEof =>
          Record(P.Eof);
          return None, P.Running;
        case TooLong =>
          return None, P.Failed(P.LineTooLong);
        case EofInLine =>
          return None, P.Failed(P.EofWithinLine);
      }
    }

    method Ask(challenge: Response) returns (answer: Option<Bytes>, status: P.Status)
      requires Valid()
      modifies this`log, connection`buffer, connection`incoming, connection`output
      ensures Valid()
      ensures var spec := P.Ask(old(Now(P.Running)), challenge);
              Observed(Now(status)) == Observed(spec.0) && answer == spec.1
    {
      Reply(challenge);
      answer, status := ReadLine();
    }

    // ----- AUTH -----

    method AuthPlain(initial: Option<Bytes>) returns (outcome: P.AuthOutcome, status: P.Status)
      requires Valid()
      modifies this`log, connection`buffer, connection`incoming, connection`output
      ensures Valid() && (outcome.Aborted? <==> !status.Running?)
      ensures var spec := P.AuthPlain(env, old(Now(P.Running)), initial);
              Observed(Now(status)) == Observed(spec.0) && outcome == spec.1
    {
      var credentials := initial;
      status := P.Running;
      if initial.None? {
        credentials, status := Ask(AUTH_CHALLENGE_PLAIN);
        if !status.Running? {
          return P.Aborted, status;
        }
        if credentials.None? {
          return P.BadAuth(EOF_IN_PLAIN), status;
        }
      }
      outcome := P.PlainCredentials(env.lib, credentials.value);
    }

    method AuthLoginPassword(user: Bytes) returns (outcome: P.AuthOutcome, status: P.Status)
      requires Valid()
      modifies this`log, connection`buffer, connection`incoming, connection`output
      ensures Valid() && (outcome.Aborted? <==> !status.Running?)
      ensures var spec := P.AuthLoginPassword(env, old(Now(P.Running)), user);
              Observed(Now(status)) == Observed(spec.0) && outcome == spec.1
    {
      var username := P.DecodeBase64(env.lib, user);
      if username.None? {
        return P.Aborted, P.Failed(P.InvalidBase64);
      }
      var answer;
      answer, status := Ask(AUTH_CHALLENGE_LOGIN_PASSWORD);
      if !status.Running? {
        return P.Aborted, status;
      }
      if answer.None? {
        return P.BadAuth(EOF_IN_LOGIN), status;
      }
      var password := P.DecodeBase64(env.lib, answer.value);
      if password.None? {
        return P.Aborted, P.Failed(P.InvalidBase64);
      }
      outcome := P.Credentials(env.lib.lossy(username.value), env.lib.lossy(password.value));
    }

    method AuthLogin(initial: Option<Bytes>) returns (outcome: P.AuthOutcome, status: P.Status)
      requires Valid()
      modifies this`log, connection`buffer, connection`incoming, connection`output
      ensures Valid() && (outcome.Aborted? <==> !status.Running?)
      ensures var spec := P.AuthLogin(env, old(Now(P.Running)), initial);
              Observed(Now(status)) == Observed(spec.0) && outcome == spec.1
    {
      var user := initial;
      if initial.None? {
        user, status := Ask(AUTH_CHALLENGE_LOGIN_USERNAME);
        if !status.Running? {
          return P.Aborted, status;
        }
        if user.None? {
          return P.BadAuth(EOF_IN_LOGIN), status;
        }
      }
      outcome, status := AuthLoginPassword(user.value);
    }

    method FinishAuth(outcome: P.AuthOutcome) returns (status: P.Status)
      requires Valid() && !outcome.Aborted?
      modifies this`log, this`state, this`handler, connection`output
      ensures Valid() && Now(status) == P.FinishAuth(env, old(Now(P.Running)), outcome)
    {
      if outcome.BadAuth? {
        Reply(SyntaxError(Some(outcome.err)));
        return P.Running;
      }
      var (h, answer) := env.handler.onLogin(handler, outcome.username, outcome.password);
      handler := h;
      Record(P.LoginCalled(outcome.username, outcome.password, answer.Accept?));
      if answer.Accept? {
        Reply(AUTH_OK);
        state := state.(authenticated := true);
        return P.Running;
      }
      Reply(AUTH_FAIL);
      status := P.Failed(P.LoginRejected);
    }

    method HandleAuth(mechanism: Cmd.AuthMethod, initial: Option<Bytes>)
      returns (outcome: P.AuthOutcome, status: P.Status)
      requires Valid()
      modifies this`log, connection`buffer, connection`incoming, connection`output
      ensures Valid() && (outcome.Aborted? <==> !status.Running?)
      ensures var spec := P.HandleAuth(env, old(Now(P.Running)), mechanism, initial);
              Observed(Now(status)) == Observed(spec.0) && outcome == spec.1
    {
      if mechanism.Plain? {
        outcome, status := AuthPlain(initial);
      } else {
        outcome, status := AuthLogin(initial);
      }
    }

    method HandleAuthenticate(mechanism: Cmd.AuthMethod, initial: Option<Bytes>) returns (status: P.Status)
      requires Valid()
      modifies this`log, this`state, this`handler, connection`buffer, connection`incoming, connection`output
      ensures Valid() && Observed(Now(status)) == Observed(P.OnAuth(env, old(Now(P.Running)), mechanism, initial))
    {
      status := P.Running;
      if state.phase != P.Greeted {
        Reply(BAD_SEQUENCE);
        return;
      }
      if env.authMode == NoAuth {
        Reply(SyntaxError(None));
        return;
      }
      if env.authMode == RequireTls && !connection.secure {
        Reply(BAD_SEQUENCE);
        return;
      }
      var outcome;
      outcome, status := HandleAuth(mechanism, initial);
      if !outcome.Aborted? {
        status := FinishAuth(outcome);
      }
    }

    // ----- commands -----

    method HandleHello(domain: string, extended: bool) returns (status: P.Status)
      requires Valid()
      modifies this`log, this`state, this`handler, connection`output
      ensures Valid() && Now(status) == P.OnHello(env, old(Now(P.Running)), domain, extended)
    {
      status := P.Running;
      if state.phase != P.Connected {
        Reply(BAD_SEQUENCE);
        return;
      }
      var (h, answer) := env.handler.onHello(handler, domain, extended);
      handler := h;
      Record(P.HelloCalled(domain, extended, answer.Accept?));
      if !answer.Accept? {
        return P.Failed(P.HelloRejected);
      }
      ReplyAll(P.HelloReplies(env, connection.View(), extended));
      state := state.(phase := P.Greeted);
    }

    method HandleStartTls() returns (status: P.Status)
      requires Valid()
      modifies this, connection`output
      ensures Valid() && Now(status) == P.OnStartTls(old(Now(P.Running)))
      ensures connection == old(connection) || fresh(connection)
    {
      status := P.Running;
      if !connection.SupportsTls() {
        Reply(SyntaxError(Some("TLS not supported")));
        return;
      }
      if state.phase != P.Greeted {
        Reply(BAD_SEQUENCE);
        return;
      }
      Reply(START_TLS);
      var upgraded := connection.StartTls();
      if upgraded == null {
        return P.Failed(P.TlsFailed);
      }
      connection := upgraded;
      state := P.NEW_SESSION;
      Record(P.TlsStarted);
    }

    method HandleMailFrom(from: string)
      requires Valid()
      modifies this`log, this`state, connection`output
      ensures Valid() && Now(P.Running) == P.OnMailFrom(env, old(Now(P.Running)), from)
    {
      if state.phase != P.Greeted {
        Reply(BAD_SEQUENCE);
      } else if !P.IsAuthenticated(env, state) {
        Reply(AUTH_REQUIRED);
      } else {
        state := state.(mail := EMPTY_MAIL.SetSender(from));
        state := state.(phase := P.Envelope);
        Reply(OK);
      }
    }

    method HandleRecipient(to: string)
      requires Valid()
      modifies this`log, this`state, connection`output
      ensures Valid() && Now(P.Running) == P.OnRecipient(env, old(Now(P.Running)), to)
    {
      if state.phase != P.Envelope {
        Reply(BAD_SEQUENCE);
      } else if !P.IsAuthenticated(env, state) {
        Reply(AUTH_REQUIRED);
      } else {
        state := state.(mail := state.mail.AddRecipient(to));
        Reply(OK);
      }
    }

    method HandleDataCommand()
      requires Valid()
      modifies this`log, this`state, connection`output
      ensures Valid() && Now(P.Running) == P.OnData(env, old(Now(P.Running)))
    {
      if state.phase != P.Envelope {
        Reply(BAD_SEQUENCE);
      } else if !P.IsAuthenticated(env, state) {
        Reply(AUTH_REQUIRED);
      } else {
        state := state.(phase := P.Data);
        Reply(DATA_START);
      }
    }

    method HandleReset()
      requires Valid()
      modifies this`log, this`state, this`handler, connection`output
      ensures Valid() && Now(P.Running) == P.OnReset(env, old(Now(P.Running)))
    {
      state := P.NEW_SESSION;
      Reply(RESET);
      handler := env.handler.onReset(handler);
      Record(P.ResetCalled);
    }

    method Execute(command: Cmd.Command) returns (status: P.Status)
      requires Valid()
      modifies this, connection
      ensures Valid() && (connection == old(connection) || fresh(connection))
      ensures Observed(Now(status)) == Observed(P.Execute(env, old(Now(P.Running)), command))
    {
      hide P.OnHello, P.OnStartTls, P.OnAuth, P.OnMailFrom, P.OnRecipient, P.OnData, P.OnReset, P.SayAll, Wire;
      status := P.Running;
      match command {
        case Hello(domain, extended) => status := HandleHello(domain, extended);
        case Help => ReplyAll(P.HelpReplies(env, connection.View()));
        case StartTls => status := HandleStartTls();
        case Authenticate(mechanism, initial) => status := HandleAuthenticate(mechanism, initial);
        case Mail(from) => HandleMailFrom(from);
        case Recipient(to) => HandleRecipient(to);
        case Data => HandleDataCommand();
        case Reset => HandleReset();
        case NoOp => Reply(OK);
        case Quit =>
          Reply(GOODBYE);
          status := P.Closed;
      }
    }

    // ----- message content -----

    method DeliverMail()
      requires Valid()
      modifies this`log, this`state, this`handler, connection`output
      ensures Valid() && Now(P.Running) == P.DeliverMail(env, old(Now(P.Running)))
    {
      var (h, failure) := env.handler.onMail(handler, state.mail);
      handler := h;
      Record(P.MailCalled(state.mail, failure));
      if failure.Some? {
        Reply(MAIL_HANDLER_ERROR.Extend(failure.value));
      } else {
        Reply(MAIL_ACCEPTED);
      }
      state := state.(mail := EMPTY_MAIL);
      state := state.(phase := P.Greeted);
    }

    method HandleData(line: Bytes) returns (status: P.Status)
      requires Valid()
      modifies this`log, this`state, this`handler, connection`output
      ensures Valid() && Now(status) == P.OnDataLine(env, old(Now(P.Running)), line)
    {
      status := P.Running;
      if P.IsTerminator(line) {
        DeliverMail();
        return;
      }
      var content := P.Unstuff(line);
      if |state.mail.data| + |content| > env.maxMessageSize {
        Reply(DATA_TOO_LONG);
        return P.Failed(P.DataTooLong);
      }
      state := state.(mail := state.mail.AppendData(content));
    }

    // ----- the main loop -----

    method Turn() returns (status: P.Status)
      requires Valid()
      modifies this, connection
      ensures Valid() && (connection == old(connection) || fresh(connection))
      ensures Observed(Now(status)) == Observed(P.Step(env, old(Now(P.Running))))
    {
      var line;
      line, status := ReadLine();
      if !status.Running? {
        return;
      }
      if line.None? {
        return P.Failed(P.UnexpectedEof);
      }
      if state.phase == P.Data {
        status := HandleData(line.value);
        return;
      }
      var command := Cmd.Parse(env.lib.lossy, line.value);
      if command.Err? {
        Reply(SyntaxError(Some(command.error)));
        return;
      }
      status := Execute(command.value);
    }

    // The whole session: its transcript, its replies as written, the handler's final state and the
    // result are those of the pure session on the concatenation of the client's bytes.
    method Handle() returns (status: P.Status)
      requires Valid() && state == P.NEW_SESSION && log == []
      modifies this, connection
      ensures Valid() && !status.Running?
      ensures var end := P.Run(env, P.Start(env, old(handler), old(connection.View())));
              && status == end.status && log == end.log && handler == end.handler && state == end.state
              && connection.output == Wire(end.log)
    {
      hide P.Step, P.Run, Wire;
      Reply(Banner(env.serverName));
      status := P.Running;
      ghost var start := P.Start(env, old(handler), old(connection.View()));
      while status.Running?
        invariant Valid() && (connection == old(connection) || fresh(connection))
        invariant Observed(P.Run(env, Now(status))) == Observed(P.Run(env, start))
        decreases status.Running?, connection.View().Plain?, |connection.View().rest|
      {
        ghost var before := Now(status);
        status := Turn();
        P.RunAfterStep(env, before);
        SameRun(env, Now(status), P.Step(env, before));
      }
      P.RunEnds(env, Now(status));
    }

    // The session cut off after a number of turns: what a server sees that bounds its duration.
    method HandleFor(turns: nat) returns (status: P.Status)
      requires Valid() && state == P.NEW_SESSION && log == []
      modifies this, connection
      ensures Valid() && (connection == old(connection) || fresh(connection))
      ensures var end := P.After(env, P.Start(env, old(handler), old(connection.View())), turns);
              && status == end.status && log == end.log && handler == end.handler && state == end.state
              && connection.output == Wire(end.log)
    {
      hide P.Step;
      Reply(Banner(env.serverName));
      status := P.Running;
      ghost var start := P.Start(env, old(handler), old(connection.View()));
      for i := 0 to turns
        invariant Valid() && (connection == old(connection) || fresh(connection))
        invariant Observed(Now(status)) == Observed(P.After(env, start, i))
      {
        if status.Running? {
          status := Turn();
        }
      }
    }
  }

  // A session over a client's bytes arriving in any pieces: what it answers, how it ends and what
  // the handler has been through depend on the concatenation of the pieces only.
  method RunOverPieces<H>(env: P.Env<H>, handler: H, pieces: seq<Bytes>, tls: Option<Acceptor>,
                          arrival: Bytes -> seq<Bytes>)
    returns (status: P.Status, output: string, final: H)
    requires NonEmpty(pieces) && Faithful(arrival)
    ensures var end := P.Run(env, P.Start(env, handler, Plain(Concat(pieces), tls)));
            status == end.status && output == Wire(end.log) && final == end.handler
  {
    var connection := new Connection.NewPlain(pieces, tls, arrival);
    var session := new Session(connection, env, handler);
    status := session.Handle();
    output, final := session.connection.output, session.handler;
  }

  lemma NoNewline(all: Bytes, got: Bytes)
    requires all == got && got != [] && LF !in got && |got| <= MAX_LINE_LENGTH
    ensures NextLine(all) == EofInLine
  {
  }

  lemma LineGrows(all: Bytes, got: Bytes, available: Bytes, later: Bytes)
    requires all == got + available + later && LF !in got && IndexOf(available, LF) == |available|
    ensures all == (got + available) + ([] + later) && LF !in got + available
    ensures available[..|available|] == available && available[|available|..] == []
  {
  }

  lemma LineFound(all: Bytes, got: Bytes, available: Bytes, later: Bytes)
    requires all == got + available + later && LF !in got && LF in available
    requires |got| + IndexOf(available, LF) < MAX_LINE_LENGTH
    ensures var n := IndexOf(available, LF) + 1;
            NextLine(all) == Line(got + available[..n], available[n..] + later)
  {
    var n := IndexOf(available, LF);
    assert all[..|got| + n] == got + available[..n];
    assert all[|got| + n] == LF;
    IndexOfUnique(all, LF, |got| + n);
    assert all[..|got| + n + 1] == got + available[..n + 1];
    assert all[|got| + n + 1..] == available[n + 1..] + later;
  }

  lemma LineOverflow(all: Bytes, got: Bytes, available: Bytes, later: Bytes)
    requires all == got + available + later && LF !in got && available != []
    requires var newline := IndexOf(available, LF);
             |got| + (if newline < |available| then newline + 1 else newline) > MAX_LINE_LENGTH
    ensures NextLine(all) == TooLong
  {
    var n := IndexOf(available, LF);
    assert all[..|got| + n] == got + available[..n];
    IndexOfAtLeast(all, LF, |got| + n);
  }
}
