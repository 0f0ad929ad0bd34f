/** The SMTP session as a pure function of the client's bytes: one step per turn of the session's
    main loop, with the transcript of everything read, sent and reported to the event handler. */
module Protocol {
  import opened Basics
  import opened Responses
  import opened Mails
  import opened Lines
  import Cmd = Commands
  import opened Connections

  // ----- configuration and surroundings -----

  // Ok, Reject, or an error, which the session treats as Reject.
  datatype Answer = Accept | Refuse | HandlerError

  // The event handler: each callback maps the handler's state to its next state and an answer.
  datatype Handler<!H> = Handler(
    onHello: (H, string, bool) -> (H, Answer),
    onLogin: (H, string, string) -> (H, Answer),
    onMail: (H, Mail) -> (H, Option<string>),
    onReset: H -> H)

  // Library functions the session calls: UTF-8 decoding and base64 decoding.
  datatype Library = Library(lossy: Cmd.Lossy, decode64: Bytes -> Option<Bytes>)

  datatype Env<!H> = Env(
    serverName: string,
    authMode: AuthMode,
    maxMessageSize: nat,
    handler: Handler<H>,
    lib: Library)
  {
    predicate HasAuth()
    {
      authMode != NoAuth
    }
  }

  // ----- session state and transcript -----

  datatype Phase = Connected | Greeted | Envelope | Data

  datatype SessionState = SessionState(phase: Phase, authenticated: bool, mail: Mail)

  const NEW_SESSION := SessionState(Connected, false, EMPTY_MAIL)

  datatype Event =
    | Recv(line: Bytes)
    | Eof
    | Sent(reply: Response)
    | HelloCalled(domain: string, extended: bool, accepted: bool)
    | LoginCalled(username: string, password: string, accepted: bool)
    | MailCalled(mail: Mail, failure: Option<string>)
    | ResetCalled
    | TlsStarted

  type Log = seq<Event>

  datatype Failure =
    | UnexpectedEof | LineTooLong | EofWithinLine | HelloRejected | LoginRejected
    | DataTooLong | TlsFailed | InvalidBase64

  // Closed is the session's Ok result, Failed its Err result.
  datatype Status = Running | Closed | Failed(why: Failure)

  datatype Conf<H> = Conf(state: SessionState, handler: H, link: Link, log: Log, status: Status)

  // ----- primitives -----

  function Note<H>(c: Conf<H>, e: Event): Conf<H>
  {
    c.(log := c.log + [e])
  }

  function Say<H>(c: Conf<H>, reply: Response): Conf<H>
  {
    Note(c, Sent(reply))
  }

  function SayAll<H>(c: Conf<H>, replies: seq<Response>): (r: Conf<H>)
    ensures r == c.(log := r.log)
    decreases |replies|
  {
    if replies == [] then c else SayAll(Say(c, replies[0]), replies[1..])
  }

  function Fail<H>(c: Conf<H>, why: Failure): Conf<H>
  {
    c.(status := Failed(why))
  }

  function ReadLine<H>(c: Conf<H>): (Conf<H>, Option<Bytes>)
  {
    match NextLine(c.link.rest)
    case Line(line, rest) => (Note(c.(link := c.link.(rest := rest)), Recv(line)), Some(line))
    case AtEof => (Note(c, Eof), None)
    case TooLong => (Fail(c, LineTooLong), None)
    case EofInLine => (Fail(c, EofWithinLine), None)
  }

  predicate SupportsTls(link: Link)
  {
    link.Plain? && link.acceptor.Some?
  }

  predicate IsAuthenticated<H>(env: Env<H>, state: SessionState)
  {
    if env.HasAuth() then state.authenticated else true
  }

  // ----- EHLO and HELP -----

  function Features<H>(env: Env<H>, link: Link): (f: seq<string>)
    ensures f != []
  {
    ["8BITMIME"] + (if SupportsTls(link) then ["STARTTLS"] else []) +
    (if env.HasAuth() then ["AUTH PLAIN LOGIN"] else []) + ["SIZE " + Decimal(env.maxMessageSize)]
  }

  function FeatureReply(features: seq<string>, i: nat): Response
    requires i < |features|
  {
    if i == |features| - 1 then Final(250, features[i]) else Continued(250, features[i])
  }

  function HelloReplies<H>(env: Env<H>, link: Link, extended: bool): seq<Response>
  {
    if extended then
      var features := Features(env, link);
      [Continued(250, env.serverName)] +
      seq(|features|, i requires 0 <= i < |features| => FeatureReply(features, i))
    else
      [Final(250, env.serverName)]
  }

  function HelpReplies<H>(env: Env<H>, link: Link): seq<Response>
  {
    [Continued(250, "Commands supported"),
     Final(214, "HELO EHLO HELP MAIL RCPT DATA RSET NOOP QUIT" +
                (if env.HasAuth() then " AUTH" else "") + (if SupportsTls(link) then " STARTTLS" else ""))]
  }

  // ----- AUTH -----

  datatype AuthOutcome =
    | Credentials(username: string, password: string)
    | BadAuth(err: string)
    | Aborted

  function DecodeBase64(lib: Library, input: Bytes): Option<Bytes>
  {
    lib.decode64(TrimAscii(StripNewline(input)))
  }

  // The parts of s between delimiters, first to last.
  function SplitAll(s: Bytes, delimiter: byte): (parts: seq<Bytes>)
    ensures parts != []
  {
    var n := IndexOf(s, delimiter);
    if n < |s| then [s[..n]] + SplitAll(s[n + 1..], delimiter) else [s]
  }

  function PlainCredentials(lib: Library, payload: Bytes): AuthOutcome
  {
    match DecodeBase64(lib, payload)
    case None => BadAuth("invalid base64 data")
    case Some(data) =>
      var parts := SplitAll(data, NUL);
      if |parts| == 3 then Credentials(lib.lossy(parts[1]), lib.lossy(parts[2]))
      else BadAuth(WRONG_PARTS)
  }

  function Ask<H>(c: Conf<H>, challenge: Response): (Conf<H>, Option<Bytes>)
  {
    ReadLine(Say(c, challenge))
  }

  function AuthPlain<H>(env: Env<H>, c: Conf<H>, initial: Option<Bytes>): (Conf<H>, AuthOutcome)
  {
    match initial
    case Some(payload) => (c, PlainCredentials(env.lib, payload))
    case None =>
      var (c1, answer) := Ask(c, AUTH_CHALLENGE_PLAIN);
      if !c1.status.Running? then (c1, Aborted)
      else match answer
        case None => (c1, BadAuth(EOF_IN_PLAIN))
        case Some(payload) => (c1, PlainCredentials(env.lib, payload))
  }

  function AuthLoginPassword<H>(env: Env<H>, c: Conf<H>, user: Bytes): (Conf<H>, AuthOutcome)
  {
    match DecodeBase64(env.lib, user)
    case None => (Fail(c, InvalidBase64), Aborted)
    case Some(username) =>
      var (c1, answer) := Ask(c, AUTH_CHALLENGE_LOGIN_PASSWORD);
      if !c1.status.Running? then (c1, Aborted)
      else match answer
        case None => (c1, BadAuth(EOF_IN_LOGIN))
        case Some(secret) =>
          match DecodeBase64(env.lib, secret)
          case None => (Fail(c1, InvalidBase64), Aborted)
          case Some(password) => (c1, Credentials(env.lib.lossy(username), env.lib.lossy(password)))
  }

  function AuthLogin<H>(env: Env<H>, c: Conf<H>, initial: Option<Bytes>): (Conf<H>, AuthOutcome)
  {
    match initial
    case Some(user) => AuthLoginPassword(env, c, user)
    case None =>
      var (c1, answer) := Ask(c, AUTH_CHALLENGE_LOGIN_USERNAME);
      if !c1.status.Running? then (c1, Aborted)
      else match answer
        case None => (c1, BadAuth(EOF_IN_LOGIN))
        case Some(user) => AuthLoginPassword(env, c1, user)
  }

  function HandleAuth<H>(env: Env<H>, c: Conf<H>, mechanism: Cmd.AuthMethod, initial: Option<Bytes>)
    : (Conf<H>, AuthOutcome)
  {
    match mechanism
    case Plain => AuthPlain(env, c, initial)
    case Login => AuthLogin(env, c, initial)
  }

  function FinishAuth<H>(env: Env<H>, c: Conf<H>, outcome: AuthOutcome): Conf<H>
  {
    match outcome
    case Aborted => c
    case BadAuth(err) => Say(c, SyntaxError(Some(err)))
    case Credentials(username, password) =>
      var (h, answer) := env.handler.onLogin(c.handler, username, password);
      var c1 := Note(c.(handler := h), LoginCalled(username, password, answer.Accept?));
      if answer.Accept? then Say(c1, AUTH_OK).(state := c1.state.(authenticated := true))
      else Fail(Say(c1, AUTH_FAIL), LoginRejected)
  }

  // ----- commands -----

  function OnHello<H>(env: Env<H>, c: Conf<H>, domain: string, extended: bool): Conf<H>
  {
    if c.state.phase != Connected then Say(c, BAD_SEQUENCE)
    else
      var (h, answer) := env.handler.onHello(c.handler, domain, extended);
      var c1 := Note(c.(handler := h), HelloCalled(domain, extended, answer.Accept?));
      if !answer.Accept? then Fail(c1, HelloRejected)
      else SayAll(c1, HelloReplies(env, c1.link, extended)).(state := c1.state.(phase := Greeted))
  }

  function OnStartTls<H>(c: Conf<H>): Conf<H>
  {
    if !SupportsTls(c.link) then Say(c, SyntaxError(Some("TLS not supported")))
    else if c.state.phase != Greeted then Say(c, BAD_SEQUENCE)
    else
      var c1 := Say(c, START_TLS);
      match c1.link.acceptor.value(c1.link.rest)
      case None => Fail(c1, TlsFailed)
      case Some(data) => Note(c1.(link := Secure(data), state := NEW_SESSION), TlsStarted)
  }

  function OnAuth<H>(env: Env<H>, c: Conf<H>, mechanism: Cmd.AuthMethod, initial: Option<Bytes>): Conf<H>
  {
    if c.state.phase != Greeted then Say(c, BAD_SEQUENCE)
    else if env.authMode == NoAuth then Say(c, SyntaxError(None))
    else if env.authMode == RequireTls && !c.link.Secure? then Say(c, BAD_SEQUENCE)
    else
      var (c1, outcome) := HandleAuth(env, c, mechanism, initial);
      FinishAuth(env, c1, outcome)
  }

  function OnMailFrom<H>(env: Env<H>, c: Conf<H>, from: string): Conf<H>
  {
    if c.state.phase != Greeted then Say(c, BAD_SEQUENCE)
    else if !IsAuthenticated(env, c.state) then Say(c, AUTH_REQUIRED)
    else Say(c.(state := c.state.(phase := Envelope, mail := EMPTY_MAIL.SetSender(from))), OK)
  }

  function OnRecipient<H>(env: Env<H>, c: Conf<H>, to: string): Conf<H>
  {
    if c.state.phase != Envelope then Say(c, BAD_SEQUENCE)
    else if !IsAuthenticated(env, c.state) then Say(c, AUTH_REQUIRED)
    else Say(c.(state := c.state.(mail := c.state.mail.AddRecipient(to))), OK)
  }

  function OnData<H>(env: Env<H>, c: Conf<H>): Conf<H>
  {
    if c.state.phase != Envelope then Say(c, BAD_SEQUENCE)
    else if !IsAuthenticated(env, c.state) then Say(c, AUTH_REQUIRED)
    else Say(c.(state := c.state.(phase := Data)), DATA_START)
  }

  function OnReset<H>(env: Env<H>, c: Conf<H>): Conf<H>
  {
    var c1 := Say(c.(state := NEW_SESSION), RESET);
    Note(c1.(handler := env.handler.onReset(c1.handler)), ResetCalled)
  }

  function Execute<H>(env: Env<H>, c: Conf<H>, command: Cmd.Command): Conf<H>
  {
    match command
    case Hello(domain, extended) => OnHello(env, c, domain, extended)
    case Help => SayAll(c, HelpReplies(env, c.link))
    case StartTls => OnStartTls(c)
    case Authenticate(mechanism, initial) => OnAuth(env, c, mechanism, initial)
    case Mail(from) => OnMailFrom(env, c, from)
    case Recipient(to) => OnRecipient(env, c, to)
    case Data => OnData(env, c)
    case Reset => OnReset(env, c)
    case NoOp => Say(c, OK)
    case Quit => Say(c, GOODBYE).(status := Closed)
  }

  function OnCommandLine<H>(env: Env<H>, c: Conf<H>, line: Bytes): Conf<H>
  {
    match Cmd.Parse(env.lib.lossy, line)
    case Err(err) => Say(c, SyntaxError(Some(err)))
    case Ok(command) => Execute(env, c, command)
  }

  // ----- message content -----

  predicate IsTerminator(line: Bytes)
  {
    line == [DOT, CR, LF] || line == [DOT, LF]
  }

  // The content a line of the data phase stands for.
  function Unstuff(line: Bytes): Bytes
  {
    if StartsWith(line, [DOT, DOT]) then line[1..] else line
  }

  function DeliverMail<H>(env: Env<H>, c: Conf<H>): Conf<H>
  {
    var (h, failure) := env.handler.onMail(c.handler, c.state.mail);
    var c1 := Note(c.(handler := h), MailCalled(c.state.mail, failure));
    var reply := match failure case Some(err) => MAIL_HANDLER_ERROR.Extend(err) case None => MAIL_ACCEPTED;
    Say(c1, reply).(state := c1.state.(mail := EMPTY_MAIL, phase := Greeted))
  }

  function OnDataLine<H>(env: Env<H>, c: Conf<H>, line: Bytes): Conf<H>
  {
    if IsTerminator(line) then DeliverMail(env, c)
    else if |c.state.mail.data| + |Unstuff(line)| > env.maxMessageSize then Fail(Say(c, DATA_TOO_LONG), DataTooLong)
    else c.(state := c.state.(mail := c.state.mail.AppendData(Unstuff(line))))
  }

  // ----- the main loop -----

  function Step<H>(env: Env<H>, c: Conf<H>): Conf<H>
  {
    var (c1, line) := ReadLine(c);
    if !c1.status.Running? then c1
    else match line
      case None => Fail(c1, UnexpectedEof)
      case Some(ln) => if c1.state.phase == Data then OnDataLine(env, c1, ln) else OnCommandLine(env, c1, ln)
  }

  // Reading moves towards the end of the stream, and STARTTLS happens at most once.
  predicate NotLonger(after: Link, before: Link)
  {
    (before.Plain? && after.Secure?) || (before.Plain? == after.Plain? && |after.rest| <= |before.rest|)
  }

  predicate Shorter(after: Link, before: Link)
  {
    (before.Plain? && after.Secure?) || (before.Plain? == after.Plain? && |after.rest| < |before.rest|)
  }

  lemma AskNotLonger<H>(c: Conf<H>, challenge: Response)
    ensures NotLonger(Ask(c, challenge).0.link, c.link)
  {
  }

  lemma PasswordNotLonger<H>(env: Env<H>, c: Conf<H>, user: Bytes)
    ensures NotLonger(AuthLoginPassword(env, c, user).0.link, c.link)
  {
    AskNotLonger(c, AUTH_CHALLENGE_LOGIN_PASSWORD);
  }

  lemma AuthNotLonger<H>(env: Env<H>, c: Conf<H>, mechanism: Cmd.AuthMethod, initial: Option<Bytes>)
    ensures NotLonger(HandleAuth(env, c, mechanism, initial).0.link, c.link)
  {
    if mechanism.Plain? {
      AskNotLonger(c, AUTH_CHALLENGE_PLAIN);
    } else if initial.Some? {
      PasswordNotLonger(env, c, initial.value);
    } else {
      AskNotLonger(c, AUTH_CHALLENGE_LOGIN_USERNAME);
      var (c1, answer) := Ask(c, AUTH_CHALLENGE_LOGIN_USERNAME);
      if answer.Some? {
        PasswordNotLonger(env, c1, answer.value);
      }
    }
  }

  lemma ExecuteNotLonger<H>(env: Env<H>, c: Conf<H>, command: Cmd.Command)
    ensures NotLonger(Execute(env, c, command).link, c.link)
  {
    hide HandleAuth, HelloReplies, HelpReplies, Features, IsAuthenticated;
    if command.Authenticate? {
      AuthNotLonger(env, c, command.mechanism, command.initial);
    }
  }

  lemma StepShortens<H>(env: Env<H>, c: Conf<H>)
    requires c.status.Running? && Step(env, c).status.Running?
    ensures Shorter(Step(env, c).link, c.link)
  {
    var (c1, line) := ReadLine(c);
    assert Shorter(c1.link, c.link);
    if c1.state.phase != Data {
      var p := Cmd.Parse(env.lib.lossy, line.value);
      if p.Ok? {
        ExecuteNotLonger(env, c1, p.value);
      }
    }
  }

  // The whole session from c on.
  function Run<H>(env: Env<H>, c: Conf<H>): (r: Conf<H>)
    ensures !r.status.Running?
    decreases c.link.Plain?, |c.link.rest|
  {
    if !c.status.Running? then c
    else
      var c1 := Step(env, c);
      if !c1.status.Running? then c1
      else
        StepShortens(env, c);
        Run(env, c1)
  }

  // A turn leaves the rest of the session as it was.
  lemma RunAfterStep<H>(env: Env<H>, c: Conf<H>)
    requires c.status.Running?
    ensures Run(env, Step(env, c)) == Run(env, c)
    ensures Step(env, c).status.Running? ==> Shorter(Step(env, c).link, c.link)
  {
    hide Step;
    if Step(env, c).status.Running? {
      StepShortens(env, c);
    }
  }

  lemma RunEnds<H>(env: Env<H>, c: Conf<H>)
    requires !c.status.Running?
    ensures Run(env, c) == c
  {
  }

  function Start<H>(env: Env<H>, handler: H, link: Link): Conf<H>
  {
    Say(Conf(NEW_SESSION, handler, link, [], Running), Banner(env.serverName))
  }

  // The session after n turns of its loop.
  function After<H>(env: Env<H>, c: Conf<H>, n: nat): Conf<H>
  {
    if n == 0 then c
    else
      var before := After(env, c, n - 1);
      if before.status.Running? then Step(env, before) else before
  }

  lemma {:induction false} AfterThen<H>(env: Env<H>, c: Conf<H>, m: nat, n: nat)
    ensures After(env, After(env, c, m), n) == After(env, c, m + n)
  {
    hide Step;
    if n > 0 {
      AfterThen(env, c, m, n - 1);
    }
  }

  lemma AfterFirst<H>(env: Env<H>, c: Conf<H>, n: nat)
    requires c.status.Running?
    ensures After(env, c, n + 1) == After(env, Step(env, c), n)
  {
    hide Step;
    assert After(env, c, 0) == c;
    assert After(env, c, 1) == Step(env, c);
    AfterThen(env, c, 1, n);
  }

  // The result of the whole session is reached after finitely many turns.
  lemma {:induction false} RunIsReached<H>(env: Env<H>, c: Conf<H>) returns (n: nat)
    ensures Run(env, c) == After(env, c, n)
    decreases c.link.Plain?, |c.link.rest|
  {
    hide Step;
    if !c.status.Running? {
      n := 0;
    } else {
      var c1 := Step(env, c);
      assert After(env, c, 0) == c && After(env, c, 1) == c1;
      if !c1.status.Running? {
        n := 1;
      } else {
        StepShortens(env, c);
        var m := RunIsReached(env, c1);
        AfterThen(env, c, 1, m);
        n := 1 + m;
      }
    }
  }

  // Stopping to look at a session does not change its result.
  lemma {:induction false} RunFromAnyTurn<H>(env: Env<H>, c: Conf<H>, n: nat)
    ensures Run(env, After(env, c, n)) == Run(env, c)
  {
    hide Step;
    if n > 0 {
      RunFromAnyTurn(env, c, n - 1);
    }
  }

  // ----- the transcript only grows -----

  lemma {:induction false} SayAllExtends<H>(c: Conf<H>, replies: seq<Response>)
    ensures c.log <= SayAll(c, replies).log
    decreases |replies|
  {
    if replies != [] {
      SayAllExtends(Say(c, replies[0]), replies[1..]);
    }
  }

  lemma AuthExtends<H>(env: Env<H>, c: Conf<H>, mechanism: Cmd.AuthMethod, initial: Option<Bytes>)
    ensures c.log <= OnAuth(env, c, mechanism, initial).log
  {
    hide FinishAuth, HandleAuth;
    HandshakeExtends(env, c, mechanism, initial);
    var (c1, outcome) := HandleAuth(env, c, mechanism, initial);
    FinishExtends(env, c1, outcome);
  }

  lemma HandshakeExtends<H>(env: Env<H>, c: Conf<H>, mechanism: Cmd.AuthMethod, initial: Option<Bytes>)
    ensures c.log <= HandleAuth(env, c, mechanism, initial).0.log
  {
    hide NextLine, DecodeBase64, PlainCredentials;
  }

  lemma FinishExtends<H>(env: Env<H>, c: Conf<H>, outcome: AuthOutcome)
    ensures c.log <= FinishAuth(env, c, outcome).log
  {
  }

  lemma HelloExtends<H>(env: Env<H>, c: Conf<H>, domain: string, extended: bool)
    ensures c.log <= OnHello(env, c, domain, extended).log
  {
    hide HelloReplies, SayAll;
    var (h, answer) := env.handler.onHello(c.handler, domain, extended);
    var c1 := Note(c.(handler := h), HelloCalled(domain, extended, answer.Accept?));
    SayAllExtends(c1, HelloReplies(env, c1.link, extended));
  }

  lemma ExecuteExtends<H>(env: Env<H>, c: Conf<H>, command: Cmd.Command)
    ensures c.log <= Execute(env, c, command).log
  {
    hide OnHello, OnAuth, HelpReplies, SayAll, IsAuthenticated;
    match command {
      case Hello(domain, extended) => HelloExtends(env, c, domain, extended);
      case Help => SayAllExtends(c, HelpReplies(env, c.link));
      case Authenticate(mechanism, initial) => AuthExtends(env, c, mechanism, initial);
      case _ =>
    }
  }

  // A turn takes nothing back: what a session is cut off within is a turn's transcript up to a point.
  lemma StepExtends<H>(env: Env<H>, c: Conf<H>)
    ensures c.log <= Step(env, c).log
  {
    hide Execute, Cmd.Parse, NextLine;
    var (c1, line) := ReadLine(c);
    if line.Some? {
      var p := Cmd.Parse(env.lib.lossy, line.value);
      if p.Ok? {
        ExecuteExtends(env, c1, p.value);
      }
    }
  }
}
