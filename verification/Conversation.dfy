/** Whole conversations: what a client posts, letter by letter, is what the event handler is given. */
module Conversations {
  import opened Basics
  import opened Responses
  import opened Mails
  import opened Lines
  import opened Connections
  import opened Protocol
  import opened SessionTheorems
  import opened Invariants
  import opened Deliveries
  import opened Transparency
  import AuthForms
  import Cmd = Commands

  // A mail as a client has it: body lines without dot-stuffing.
  datatype Letter = Letter(from: string, to: seq<string>, lines: seq<Bytes>)

  // What a client logs in with, as PLAIN credentials in base64.
  datatype Login = Login(payload: Bytes, authzid: Bytes, user: Bytes, password: Bytes)

  // ----- the client's side -----

  // A command that fits on a line.
  predicate Typed(c: Cmd.Command)
  {
    Cmd.Printable(c) && LF !in Cmd.Print(c) && |Cmd.Print(c)| + 2 <= MAX_LINE_LENGTH
  }

  predicate Postable<H>(env: Env<H>, letter: Letter)
  {
    && Typed(Cmd.Mail(letter.from)) && (forall to <- letter.to :: Typed(Cmd.Recipient(to)))
    && Sendable(letter.lines) && |Concat(letter.lines)| <= env.maxMessageSize
  }

  function CommandLine(c: Cmd.Command): Bytes
    requires Cmd.Printable(c)
  {
    Cmd.Print(c) + CRLF
  }

  function RecipientLines(to: seq<string>): Bytes
    requires forall r <- to :: Typed(Cmd.Recipient(r))
  {
    if to == [] then []
    else
      assert to[0] in to && Typed(Cmd.Recipient(to[0]));
      CommandLine(Cmd.Recipient(to[0])) + RecipientLines(to[1..])
  }

  // MAIL, RCPTs, DATA, the stuffed body and the terminator.
  function Post<H>(env: Env<H>, letter: Letter): Bytes
    requires Postable(env, letter)
  {
    CommandLine(Cmd.Mail(letter.from)) +
    (RecipientLines(letter.to) + (CommandLine(Cmd.Data) + (Stuffed(letter.lines) + [DOT, CR, LF])))
  }

  function PostAll<H>(env: Env<H>, letters: seq<Letter>): Bytes
    requires forall letter <- letters :: Postable(env, letter)
  {
    if letters == [] then [] else Post(env, letters[0]) + PostAll(env, letters[1..])
  }

  function LoginLine(login: Option<Login>): Bytes
  {
    match login
    case None => []
    case Some(l) => CommandLine(Cmd.Authenticate(Cmd.Plain, Some(l.payload)))
  }

  // ----- the handler's side -----

  function NormalizeAll(to: seq<string>): seq<string>
  {
    if to == [] then [] else [NormalizeAddress(to[0])] + NormalizeAll(to[1..])
  }

  function Received(letter: Letter): Mail
  {
    Mail(NormalizeAddress(letter.from), NormalizeAll(letter.to), Concat(letter.lines))
  }

  function ReceivedAll(letters: seq<Letter>): seq<Mail>
  {
    if letters == [] then [] else [Received(letters[0])] + ReceivedAll(letters[1..])
  }

  // The mails the handler was given, in order.
  function MailsIn(t: Log): seq<Mail>
  {
    if t == [] then [] else MailsIn(Init(t)) + (if Last(t).MailCalled? then [Last(t).mail] else [])
  }

  lemma {:induction false} MailsInJoined(a: Log, b: Log)
    ensures MailsIn(a + b) == MailsIn(a) + MailsIn(b)
    decreases |b|
  {
    if b == [] {
      assert a + b == a;
    } else {
      assert Init(a + b) == a + Init(b) && Last(a + b) == Last(b);
      MailsInJoined(a, Init(b));
    }
  }

  lemma {:induction false} NoMails(t: Log)
    requires forall i :: 0 <= i < |t| ==> !t[i].MailCalled?
    ensures MailsIn(t) == []
  {
    if t != [] {
      NoMails(Init(t));
    }
  }

  lemma NoMailsAdded(a: Log, b: Log)
    requires forall i :: 0 <= i < |b| ==> !b[i].MailCalled?
    ensures MailsIn(a + b) == MailsIn(a)
  {
    MailsInJoined(a, b);
    NoMails(b);
  }

  lemma {:induction false} SayAllMails<H>(c: Conf<H>, replies: seq<Response>)
    ensures MailsIn(SayAll(c, replies).log) == MailsIn(c.log)
    decreases |replies|
  {
    hide MailsIn;
    if replies != [] {
      NoMailsAdded(c.log, [Sent(replies[0])]);
      SayAllMails(Say(c, replies[0]), replies[1..]);
    }
  }

  // ----- one command -----

  // A typed command is read and executed, and the rest of the session is as before.
  lemma TypedTurn<H>(env: Env<H>, c: Conf<H>, command: Cmd.Command, rest: Bytes)
    requires c.status.Running? && !c.state.phase.Data? && Typed(command)
    requires Cmd.HasText(command) ==> Cmd.DecodesAscii(env.lib.lossy)
    requires c.link.rest == CommandLine(command) + rest
    ensures var c1 := c.(link := c.link.(rest := rest), log := c.log + [Recv(CommandLine(command))]);
            Step(env, c) == Execute(env, c1, command) && MailsIn(c1.log) == MailsIn(c.log)
    ensures Run(env, Step(env, c)) == Run(env, c)
  {
    hide Step, Execute, Run, MailsIn, Cmd.Print, Cmd.DecodesAscii, Cmd.Parse;
    Cmd.CommandRoundTrip(env.lib.lossy, command);
    CommandTurn(env, c, Cmd.Print(command), rest, command);
    NoMailsAdded(c.log, [Recv(CommandLine(command))]);
    RunAfterStep(env, c);
  }

  // ----- one letter -----

  // d is where the session c gets to: rest is unread, and the handler was given the mails.
  ghost predicate Reaches<H>(env: Env<H>, c: Conf<H>, d: Conf<H>, rest: Bytes, mails: seq<Mail>)
  {
    && d.status.Running? && Run(env, d) == Run(env, c) && d.link == c.link.(rest := rest)
    && MailsIn(d.log) == MailsIn(c.log) + mails
  }

  lemma ReachesOn<H>(env: Env<H>, c: Conf<H>, d: Conf<H>, e: Conf<H>, rest: Bytes, more: Bytes,
                     a: seq<Mail>, b: seq<Mail>)
    requires Reaches(env, c, d, rest, a) && Reaches(env, d, e, more, b)
    ensures Reaches(env, c, e, more, a + b)
  {
    hide Run, MailsIn;
  }

  lemma MailFromTaken<H>(env: Env<H>, c: Conf<H>, from: string, rest: Bytes) returns (d: Conf<H>)
    requires c.status.Running? && c.state.phase.Greeted? && IsAuthenticated(env, c.state)
    requires Cmd.DecodesAscii(env.lib.lossy) && Typed(Cmd.Mail(from))
    requires c.link.rest == CommandLine(Cmd.Mail(from)) + rest
    ensures Reaches(env, c, d, rest, [])
    ensures d.state == SessionState(Phase.Envelope, c.state.authenticated, Mail(NormalizeAddress(from), [], []))
  {
    hide Step, Run, MailsIn, NormalizeAddress, Cmd.DecodesAscii, Cmd.Print;
    TypedTurn(env, c, Cmd.Mail(from), rest);
    d := Step(env, c);
    NoMailsAdded(c.log + [Recv(CommandLine(Cmd.Mail(from)))], [Sent(OK)]);
  }

  lemma RecipientTaken<H>(env: Env<H>, c: Conf<H>, to: string, rest: Bytes) returns (d: Conf<H>)
    requires c.status.Running? && c.state.phase.Envelope? && IsAuthenticated(env, c.state)
    requires Cmd.DecodesAscii(env.lib.lossy) && Typed(Cmd.Recipient(to))
    requires c.link.rest == CommandLine(Cmd.Recipient(to)) + rest
    ensures Reaches(env, c, d, rest, [])
    ensures d.state == c.state.(mail := c.state.mail.AddRecipient(to))
  {
    hide Step, Run, MailsIn, NormalizeAddress, Cmd.DecodesAscii, Cmd.Print;
    TypedTurn(env, c, Cmd.Recipient(to), rest);
    d := Step(env, c);
    NoMailsAdded(c.log + [Recv(CommandLine(Cmd.Recipient(to)))], [Sent(OK)]);
  }

  lemma {:induction false} RecipientsTaken<H>(env: Env<H>, c: Conf<H>, to: seq<string>, rest: Bytes)
    returns (d: Conf<H>)
    requires c.status.Running? && c.state.phase.Envelope? && IsAuthenticated(env, c.state)
    requires Cmd.DecodesAscii(env.lib.lossy) && forall r <- to :: Typed(Cmd.Recipient(r))
    requires c.link.rest == RecipientLines(to) + rest
    ensures Reaches(env, c, d, rest, [])
    ensures d.state == c.state.(mail := c.state.mail.(recipients := c.state.mail.recipients + NormalizeAll(to)))
    decreases |to|
  {
    hide Run, MailsIn, NormalizeAddress, Cmd.DecodesAscii, Cmd.Printable, Cmd.Print, Reaches, IsAuthenticated;
    if to == [] {
      d := c;
      assert c.link.rest == rest && c.state.mail.recipients + [] == c.state.mail.recipients;
      StaysThere(env, c);
    } else {
      var more := RecipientLines(to[1..]) + rest;
      FirstRecipient(to, rest);
      var c1 := RecipientTaken(env, c, to[0], more);
      ReachesRunning(env, c, c1, more, []);
      SameAuthentication(env, c.state, c1.state);
      d := RecipientsTaken(env, c1, to[1..], rest);
      ReachesOn(env, c, c1, d, more, rest, [], []);
      var none: seq<Mail> := [];
      assert none + none == none;
      assert c.state.mail.recipients + NormalizeAll(to) ==
             c.state.mail.recipients + [NormalizeAddress(to[0])] + NormalizeAll(to[1..]);
    }
  }

  lemma FirstRecipient(to: seq<string>, rest: Bytes)
    requires to != [] && forall r <- to :: Typed(Cmd.Recipient(r))
    ensures Typed(Cmd.Recipient(to[0])) && forall r <- to[1..] :: Typed(Cmd.Recipient(r))
    ensures RecipientLines(to) + rest == CommandLine(Cmd.Recipient(to[0])) + (RecipientLines(to[1..]) + rest)
  {
    hide Cmd.Print;
    assert to[0] in to;
  }

  lemma SameAuthentication<H>(env: Env<H>, a: SessionState, b: SessionState)
    requires a.authenticated == b.authenticated
    ensures IsAuthenticated(env, a) == IsAuthenticated(env, b)
  {
  }

  lemma StaysThere<H>(env: Env<H>, c: Conf<H>)
    requires c.status.Running?
    ensures Reaches(env, c, c, c.link.rest, [])
  {
    hide Run, MailsIn;
    assert MailsIn(c.log) + [] == MailsIn(c.log);
  }

  lemma ReachesRunning<H>(env: Env<H>, c: Conf<H>, d: Conf<H>, rest: Bytes, mails: seq<Mail>)
    requires Reaches(env, c, d, rest, mails)
    ensures d.status.Running? && d.link.rest == rest
  {
    hide Run, MailsIn;
  }

  lemma DataTaken<H>(env: Env<H>, c: Conf<H>, rest: Bytes) returns (d: Conf<H>)
    requires c.status.Running? && c.state.phase.Envelope? && IsAuthenticated(env, c.state)
    requires c.link.rest == CommandLine(Cmd.Data) + rest
    ensures Reaches(env, c, d, rest, []) && d.state == c.state.(phase := Data)
  {
    hide Step, Run, MailsIn;
    assert Typed(Cmd.Data);
    TypedTurn(env, c, Cmd.Data, rest);
    d := Step(env, c);
    NoMailsAdded(c.log + [Recv(CommandLine(Cmd.Data))], [Sent(DATA_START)]);
  }

  lemma BodyTaken<H>(env: Env<H>, c: Conf<H>, lines: seq<Bytes>, rest: Bytes) returns (d: Conf<H>)
    requires c.status.Running? && c.state.phase.Data? && c.state.mail.data == []
    requires Sendable(lines) && |Concat(lines)| <= env.maxMessageSize
    requires c.link.rest == Stuffed(lines) + [DOT, CR, LF] + rest
    ensures Reaches(env, c, d, rest, [c.state.mail.(data := Concat(lines))])
    ensures d.state == SessionState(Greeted, c.state.authenticated, EMPTY_MAIL)
  {
    hide Step, Run, MailsIn, After, Stuffed, Sendable, Concat;
    EndToEnd(env, c, lines, [DOT, CR, LF], rest);
    d := After(env, c, |lines| + 1);
    RunFromAnyTurn(env, c, |lines| + 1);
    var mail := c.state.mail.(data := Concat(lines));
    var failure := env.handler.onMail(c.handler, mail).1;
    var last := [Recv([DOT, CR, LF]), MailCalled(mail, failure),
                 Sent(if failure.Some? then MAIL_HANDLER_ERROR.Extend(failure.value) else MAIL_ACCEPTED)];
    assert d.log == c.log + Transparency.Received(lines) + last;
    NoMailsAdded(c.log, Transparency.Received(lines));
    MailsInJoined(c.log + Transparency.Received(lines), last);
    OneMail(last, mail);
  }

  lemma OneMail(last: Log, mail: Mail)
    requires |last| == 3 && !last[0].MailCalled? && last[1].MailCalled? && last[1].mail == mail && !last[2].MailCalled?
    ensures MailsIn(last) == [mail]
  {
    assert last == [last[0]] + [last[1]] + [last[2]];
    NoMailsAdded([last[0]] + [last[1]], [last[2]]);
    MailsInJoined([last[0]], [last[1]]);
    NoMails([last[0]]);
    assert Init([last[1]]) == [];
  }

  // A letter posted is a mail received, and the session is ready for the next one.
  lemma LetterReceived<H>(env: Env<H>, c: Conf<H>, letter: Letter, rest: Bytes) returns (d: Conf<H>)
    requires c.status.Running? && c.state.phase.Greeted? && IsAuthenticated(env, c.state)
    requires Cmd.DecodesAscii(env.lib.lossy) && Postable(env, letter)
    requires c.link.rest == Post(env, letter) + rest
    ensures Reaches(env, c, d, rest, [Received(letter)])
    ensures d.state == SessionState(Greeted, c.state.authenticated, EMPTY_MAIL)
  {
    hide Run, MailsIn, Cmd.DecodesAscii, Cmd.Print, RecipientLines, Stuffed, Sendable, Concat, NormalizeAddress;
    hide NormalizeAll;
    var content := Stuffed(letter.lines) + [DOT, CR, LF] + rest;
    var data := CommandLine(Cmd.Data) + content;
    var recipients := RecipientLines(letter.to) + data;
    assert c.link.rest == CommandLine(Cmd.Mail(letter.from)) + recipients;
    var c1 := MailFromTaken(env, c, letter.from, recipients);
    var c2 := RecipientsTaken(env, c1, letter.to, data);
    var c3 := DataTaken(env, c2, content);
    d := BodyTaken(env, c3, letter.lines, rest);
    assert [] + NormalizeAll(letter.to) == NormalizeAll(letter.to);
    assert c3.state.mail.(data := Concat(letter.lines)) == Received(letter);
  }

  // ----- all letters -----

  lemma {:induction false} LettersReceived<H>(env: Env<H>, c: Conf<H>, letters: seq<Letter>, rest: Bytes)
    returns (d: Conf<H>)
    requires c.status.Running? && c.state.phase.Greeted? && IsAuthenticated(env, c.state)
    requires Cmd.DecodesAscii(env.lib.lossy) && forall letter <- letters :: Postable(env, letter)
    requires c.link.rest == PostAll(env, letters) + rest
    ensures Reaches(env, c, d, rest, ReceivedAll(letters)) && d.state.phase.Greeted?
    decreases |letters|
  {
    hide Run, MailsIn, Postable, Cmd.DecodesAscii, Post, Received;
    if letters == [] {
      d := c;
      assert c.link.rest == rest && MailsIn(c.log) + [] == MailsIn(c.log);
    } else {
      var more := PostAll(env, letters[1..]) + rest;
      assert c.link.rest == Post(env, letters[0]) + more;
      var c1 := LetterReceived(env, c, letters[0], more);
      d := LettersReceived(env, c1, letters[1..], rest);
      ReachesOn(env, c, c1, d, more, rest, [Received(letters[0])], ReceivedAll(letters[1..]));
    }
  }

  // ----- greeting, login, QUIT -----

  // The handler accepts every greeting and these credentials.
  ghost predicate Welcoming<H(!new)>(env: Env<H>, login: Option<Login>)
  {
    && (forall h, domain, extended :: env.handler.onHello(h, domain, extended).1.Accept?)
    && (login.Some? ==>
          && Typed(Cmd.Authenticate(Cmd.Plain, Some(login.value.payload)))
          && NUL !in login.value.authzid && NUL !in login.value.user && NUL !in login.value.password
          && Clean(login.value.payload) && env.lib.decode64(login.value.payload) ==
             Some(AuthForms.Join([login.value.authzid, login.value.user, login.value.password], NUL))
          && var user, password := env.lib.lossy(login.value.user), env.lib.lossy(login.value.password);
             forall h :: env.handler.onLogin(h, user, password).1.Accept?)
  }

  lemma GreetingTaken<H(!new)>(env: Env<H>, c: Conf<H>, domain: string, rest: Bytes) returns (d: Conf<H>)
    requires c.status.Running? && c.state == NEW_SESSION && Welcoming(env, None)
    requires Cmd.DecodesAscii(env.lib.lossy) && Typed(Cmd.Hello(domain, true))
    requires c.link.rest == CommandLine(Cmd.Hello(domain, true)) + rest
    ensures Reaches(env, c, d, rest, []) && d.state == NEW_SESSION.(phase := Phase.Greeted)
  {
    hide Step, Run, MailsIn, SayAll, HelloReplies, Cmd.DecodesAscii, Cmd.Print;
    TypedTurn(env, c, Cmd.Hello(domain, true), rest);
    d := Step(env, c);
    var c1 := c.(link := c.link.(rest := rest), log := c.log + [Recv(CommandLine(Cmd.Hello(domain, true)))]);
    var (h, answer) := env.handler.onHello(c1.handler, domain, true);
    var e := HelloCalled(domain, true, answer.Accept?);
    var c2 := Note(c1.(handler := h), e);
    NoMailsAdded(c1.log, [e]);
    SayAllMails(c2, HelloReplies(env, c2.link, true));
    assert MailsIn(c.log) + [] == MailsIn(c.log);
  }

  lemma LoginTaken<H(!new)>(env: Env<H>, c: Conf<H>, login: Login, rest: Bytes) returns (d: Conf<H>)
    requires c.status.Running? && c.state.phase.Greeted? && Welcoming(env, Some(login))
    requires env.HasAuth() && (env.authMode == RequireTls ==> c.link.Secure?)
    requires c.link.rest == LoginLine(Some(login)) + rest
    ensures Reaches(env, c, d, rest, []) && d.state == c.state.(authenticated := true)
  {
    hide Step, Run, MailsIn, Cmd.Print, DecodeBase64, SplitAll, AuthForms.Join;
    var command := Cmd.Authenticate(Cmd.Plain, Some(login.payload));
    TypedTurn(env, c, command, rest);
    assert [] + login.payload + [] == login.payload;
    AuthForms.PlainAcceptedIff(env.lib, [], login.payload, []);
    d := Step(env, c);
    var c1 := c.(link := c.link.(rest := rest), log := c.log + [Recv(CommandLine(command))]);
    var user, password := env.lib.lossy(login.user), env.lib.lossy(login.password);
    assert HandleAuth(env, c1, Cmd.Plain, Some(login.payload)) == (c1, Credentials(user, password));
    NoMailsAdded(c1.log, [LoginCalled(user, password, true)]);
    NoMailsAdded(c1.log + [LoginCalled(user, password, true)], [Sent(AUTH_OK)]);
    assert MailsIn(c.log) + [] == MailsIn(c.log);
  }

  lemma SaidGoodbye<H>(env: Env<H>, c: Conf<H>)
    requires c.status.Running? && !c.state.phase.Data? && c.link.rest == CommandLine(Cmd.Quit)
    ensures Run(env, c).status.Closed? && MailsIn(Run(env, c).log) == MailsIn(c.log)
  {
    hide Step, Run, MailsIn;
    assert Typed(Cmd.Quit) && CommandLine(Cmd.Quit) + [] == CommandLine(Cmd.Quit);
    TypedTurn(env, c, Cmd.Quit, []);
    var d := Step(env, c);
    RunEnds(env, d);
    NoMailsAdded(c.log + [Recv(CommandLine(Cmd.Quit))], [Sent(GOODBYE)]);
  }

  // ----- whole conversations -----

  // EHLO, a login where one is needed, the letters, QUIT.
  function Conversation<H>(env: Env<H>, domain: string, login: Option<Login>, letters: seq<Letter>): Bytes
    requires Typed(Cmd.Hello(domain, true)) && forall letter <- letters :: Postable(env, letter)
  {
    CommandLine(Cmd.Hello(domain, true)) + (LoginLine(login) + (PostAll(env, letters) + CommandLine(Cmd.Quit)))
  }

  lemma ConversationHeard<H(!new)>(env: Env<H>, c: Conf<H>, domain: string, login: Option<Login>, letters: seq<Letter>)
    requires c.status.Running? && c.state == NEW_SESSION && Welcoming(env, login)
    requires env.HasAuth() <==> login.Some?
    requires env.authMode == RequireTls ==> c.link.Secure?
    requires Cmd.DecodesAscii(env.lib.lossy) && Typed(Cmd.Hello(domain, true))
    requires forall letter <- letters :: Postable(env, letter)
    requires c.link.rest == Conversation(env, domain, login, letters)
    ensures Run(env, c).status.Closed? && MailsIn(Run(env, c).log) == MailsIn(c.log) + ReceivedAll(letters)
  {
    hide Run, MailsIn, Postable, Cmd.DecodesAscii, PostAll, LoginLine, ReceivedAll, Cmd.Print;
    hide CommandLine, DecodeBase64;
    var posted := PostAll(env, letters) + CommandLine(Cmd.Quit);
    var c1 := GreetingTaken(env, c, domain, LoginLine(login) + posted);
    var c2 := c1;
    if login.Some? {
      c2 := LoginTaken(env, c1, login.value, posted);
      ReachesOn(env, c, c1, c2, LoginLine(login) + posted, posted, [], []);
    } else {
      NoLoginLine(login, posted);
    }
    var d := LettersReceived(env, c2, letters, CommandLine(Cmd.Quit));
    ReachesOn(env, c, c2, d, posted, CommandLine(Cmd.Quit), [], ReceivedAll(letters));
    SaidGoodbye(env, d);
  }

  lemma NoLoginLine(login: Option<Login>, rest: Bytes)
    requires login.None?
    ensures LoginLine(login) + rest == rest
  {
  }

  // A client that greets, logs in where it must, posts any letters and quits: the session closes well,
  // and the handler was given exactly those letters, in order and byte for byte.
  lemma ConversationRoundTrip<H(!new)>(env: Env<H>, o: Origin<H>, domain: string,
                                       login: Option<Login>, letters: seq<Letter>)
    requires Welcoming(env, login) && Cmd.DecodesAscii(env.lib.lossy) && env.authMode != RequireTls
    requires env.HasAuth() <==> login.Some?
    requires Typed(Cmd.Hello(domain, true)) && forall letter <- letters :: Postable(env, letter)
    requires o.input == Conversation(env, domain, login, letters)
    ensures var end := Run(env, Start(env, o.handler, Plain(o.input, o.acceptor)));
            end.status.Closed? && MailsIn(end.log) == ReceivedAll(letters)
  {
    hide Run, MailsIn, Postable, Cmd.DecodesAscii, Conversation, ReceivedAll;
    var c := Start(env, o.handler, Plain(o.input, o.acceptor));
    NoMails(c.log);
    ConversationHeard(env, c, domain, login, letters);
  }

  // The same through STARTTLS, whatever the authentication mode: the letters go through the encrypted
  // connection.
  lemma SecureRoundTrip<H(!new)>(env: Env<H>, o: Origin<H>, domain: string, cipher: Bytes,
                                 login: Option<Login>, letters: seq<Letter>)
    requires Welcoming(env, login) && Cmd.DecodesAscii(env.lib.lossy) && (env.HasAuth() <==> login.Some?)
    requires Typed(Cmd.Hello(domain, true)) && forall letter <- letters :: Postable(env, letter)
    requires o.input == CommandLine(Cmd.Hello(domain, true)) + (CommandLine(Cmd.StartTls) + cipher)
    requires o.acceptor.Some? && o.acceptor.value(cipher) == Some(Conversation(env, domain, login, letters))
    ensures var end := Run(env, Start(env, o.handler, Plain(o.input, o.acceptor)));
            end.status.Closed? && MailsIn(end.log) == ReceivedAll(letters)
  {
    hide Step, Run, MailsIn, Postable, Cmd.DecodesAscii, Conversation, ReceivedAll, Cmd.Print;
    var c := Start(env, o.handler, Plain(o.input, o.acceptor));
    NoMails(c.log);
    var c1 := GreetingTaken(env, c, domain, CommandLine(Cmd.StartTls) + cipher);
    StartTlsTyped();
    TypedTurn(env, c1, Cmd.StartTls, cipher);
    var c2 := Step(env, c1);
    var read := c1.log + [Recv(CommandLine(Cmd.StartTls))];
    NoMailsAdded(read, [Sent(START_TLS)]);
    NoMailsAdded(read + [Sent(START_TLS)], [TlsStarted]);
    ConversationHeard(env, c2, domain, login, letters);
  }

  lemma StartTlsTyped()
    ensures Typed(Cmd.StartTls)
  {
  }

  // ----- addresses in brackets -----

  // Addresses without brackets and without whitespace at their ends.
  predicate BareLetter(letter: Letter)
  {
    Bare(letter.from) && forall to <- letter.to :: Bare(to)
  }

  function Bracket(addresses: seq<string>): (r: seq<string>)
    ensures |r| == |addresses|
  {
    if addresses == [] then [] else ["<" + addresses[0] + ">"] + Bracket(addresses[1..])
  }

  // The letter as clients post it: every address in brackets.
  function Bracketed(letter: Letter): Letter
  {
    Letter("<" + letter.from + ">", Bracket(letter.to), letter.lines)
  }

  function BracketedAll(letters: seq<Letter>): seq<Letter>
  {
    if letters == [] then [] else [Bracketed(letters[0])] + BracketedAll(letters[1..])
  }

  // The letters as they were written.
  function Written(letters: seq<Letter>): seq<Mail>
  {
    if letters == [] then []
    else [Mail(letters[0].from, letters[0].to, Concat(letters[0].lines))] + Written(letters[1..])
  }

  lemma BracketsComeOff(a: string)
    requires Bare(a)
    ensures NormalizeAddress("<" + a + ">") == a
  {
    hide NormalizeAddress;
    NormalizeBracketed(a, "", "", "", "");
    assert "" + "<" + "" + a + "" + ">" + "" == "<" + a + ">";
  }

  lemma {:induction false} AllBracketsComeOff(to: seq<string>)
    requires forall a <- to :: Bare(a)
    ensures NormalizeAll(Bracket(to)) == to
    decreases |to|
  {
    hide NormalizeAddress, Bare;
    if to != [] {
      assert to[0] in to;
      BracketsComeOff(to[0]);
      assert Bracket(to)[1..] == Bracket(to[1..]);
      AllBracketsComeOff(to[1..]);
    }
  }

  lemma {:induction false} ReceivedAsWritten(letters: seq<Letter>)
    requires forall letter <- letters :: BareLetter(letter)
    ensures ReceivedAll(BracketedAll(letters)) == Written(letters)
    decreases |letters|
  {
    hide NormalizeAddress, Bare, NormalizeAll, Bracket;
    if letters != [] {
      var letter := letters[0];
      assert letter in letters;
      BracketsComeOff(letter.from);
      AllBracketsComeOff(letter.to);
      assert Received(Bracketed(letter)) == Mail(letter.from, letter.to, Concat(letter.lines));
      assert BracketedAll(letters)[1..] == BracketedAll(letters[1..]);
      ReceivedAsWritten(letters[1..]);
    }
  }

  // Letters posted with their addresses in brackets are received with the addresses as they were
  // written, without brackets.
  lemma BracketedRoundTrip<H(!new)>(env: Env<H>, o: Origin<H>, domain: string,
                                    login: Option<Login>, letters: seq<Letter>)
    requires Welcoming(env, login) && Cmd.DecodesAscii(env.lib.lossy) && env.authMode != RequireTls
    requires env.HasAuth() <==> login.Some?
    requires Typed(Cmd.Hello(domain, true)) && forall letter <- letters :: BareLetter(letter)
    requires forall letter <- BracketedAll(letters) :: Postable(env, letter)
    requires o.input == Conversation(env, domain, login, BracketedAll(letters))
    ensures var end := Run(env, Start(env, o.handler, Plain(o.input, o.acceptor)));
            end.status.Closed? && MailsIn(end.log) == Written(letters)
  {
    hide Run, MailsIn, Postable, Cmd.DecodesAscii, Conversation, Typed, Welcoming, BareLetter;
    ConversationRoundTrip(env, o, domain, login, BracketedAll(letters));
    ReceivedAsWritten(letters);
  }
}
