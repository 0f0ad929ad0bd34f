/** What a session does next, from its transcript alone: no phase, no flag and no mail object is kept.
    Every session does exactly that. */
module Expectations {
  import opened Basics
  import opened Responses
  import opened Mails
  import opened Lines
  import opened Connections
  import opened Protocol
  import opened Transcripts
  import opened Invariants
  import Cmd = Commands

  // What is to come: a line or the end of the stream, a reply, a call of the handler with its
  // arguments, the start of TLS, or nothing any more.
  datatype Expectation =
    | Input
    | Reply(reply: Response)
    | CallHello(domain: string, extended: bool)
    | CallLogin(username: string, password: string)
    | CallMail(mail: Mail)
    | CallReset
    | Upgrade
    | Nothing

  predicate Meets(e: Event, x: Expectation)
  {
    match x
    case Input => e.Recv? || e.Eof?
    case Reply(reply) => e == Sent(reply)
    case CallHello(domain, extended) => e.HelloCalled? && e.domain == domain && e.extended == extended
    case CallLogin(username, password) => e.LoginCalled? && e.username == username && e.password == password
    case CallMail(mail) => e.MailCalled? && e.mail == mail
    case CallReset => e == ResetCalled
    case Upgrade => e == TlsStarted
    case Nothing => false
  }

  // ----- what a transcript shows -----

  // The client may open a transaction, log in or start TLS: greeted, and no transaction is open.
  predicate Ready(lossy: Cmd.Lossy, t: Log)
  {
    Greeting(t) && Transcripts.Envelope(lossy, t).None?
  }

  predicate Offered(tls: Option<Acceptor>, t: Log)
  {
    tls.Some? && TlsUpgrades(t) == 0
  }

  // A connection of the kind the session has after t.
  function LinkAfter(tls: Option<Acceptor>, t: Log): Link
  {
    if TlsUpgrades(t) == 0 then Plain([], tls) else Secure([])
  }

  // The last event is a challenge of an AUTH exchange.
  predicate Challenged(t: Log)
  {
    t != [] && Last(t).Sent? && Last(t).reply.code == 334
  }

  // t without the replies at its end.
  function Unanswered(t: Log): (g: Log)
    ensures g <= t && (g == [] || !Last(g).Sent?)
  {
    if t != [] && Last(t).Sent? then Unanswered(Init(t)) else t
  }

  // ----- what comes next -----

  function OnPayload(lib: Library, payload: Bytes): Expectation
  {
    match PlainCredentials(lib, payload)
    case Credentials(username, password) => CallLogin(username, password)
    case BadAuth(err) => Reply(SyntaxError(Some(err)))
    case Aborted => Nothing
  }

  function OnUser(lib: Library, user: Bytes): Expectation
  {
    if DecodeBase64(lib, user).Some? then Reply(AUTH_CHALLENGE_LOGIN_PASSWORD) else Nothing
  }

  function OnPassword(lib: Library, user: Bytes, password: Bytes): Expectation
  {
    match LoginCredentials(lib, user, password)
    case Credentials(u, p) => CallLogin(u, p)
    case _ => Nothing
  }

  function OnExchange(lib: Library, mechanism: Cmd.AuthMethod, initial: Option<Bytes>): Expectation
  {
    match (mechanism, initial)
    case (Plain, Some(payload)) => OnPayload(lib, payload)
    case (Plain, None) => Reply(AUTH_CHALLENGE_PLAIN)
    case (Login, Some(user)) => OnUser(lib, user)
    case (Login, None) => Reply(AUTH_CHALLENGE_LOGIN_USERNAME)
  }

  // After t, a command is read.
  function OnCommand<H>(env: Env<H>, tls: Option<Acceptor>, t: Log, command: Cmd.Command): Expectation
  {
    var lossy := env.lib.lossy;
    match command
    case Hello(domain, extended) => if Greeting(t) then Reply(BAD_SEQUENCE) else CallHello(domain, extended)
    case Help => Reply(HelpReplies(env, LinkAfter(tls, t))[0])
    case StartTls =>
      if !Offered(tls, t) then Reply(SyntaxError(Some("TLS not supported")))
      else Reply(if Ready(lossy, t) then START_TLS else BAD_SEQUENCE)
    case Authenticate(mechanism, initial) =>
      if !Ready(lossy, t) then Reply(BAD_SEQUENCE)
      else if env.authMode == NoAuth then Reply(SyntaxError(None))
      else if env.authMode == RequireTls && TlsUpgrades(t) == 0 then Reply(BAD_SEQUENCE)
      else OnExchange(env.lib, mechanism, initial)
    case Mail(_) =>
      Reply(if !Ready(lossy, t) then BAD_SEQUENCE
            else if env.HasAuth() && LastLogin(t).None? then AUTH_REQUIRED
            else OK)
    case Recipient(_) => Reply(if Transcripts.Envelope(lossy, t).Some? then OK else BAD_SEQUENCE)
    case Data => Reply(if Transcripts.Envelope(lossy, t).Some? then DATA_START else BAD_SEQUENCE)
    case Reset => Reply(RESET)
    case NoOp => Reply(OK)
    case Quit => Reply(GOODBYE)
  }

  // The user's part of a LOGIN exchange, t ending with the challenge for the password.
  function UserGiven(lossy: Cmd.Lossy, t: Log): Bytes
  {
    if |t| < 2 || !t[|t| - 2].Recv? then []
    else if Challenged(t[..|t| - 2]) then t[|t| - 2].line
    else match CommandAt(lossy, t, |t| - 2)
      case Some(Authenticate(_, Some(user))) => user
      case _ => []
  }

  // After t, which ends with a challenge, its answer is read.
  function OnAnswer(lib: Library, t: Log, line: Bytes): Expectation
    requires Challenged(t)
  {
    var challenge := Last(t).reply;
    if challenge == AUTH_CHALLENGE_PLAIN then OnPayload(lib, line)
    else if challenge == AUTH_CHALLENGE_LOGIN_USERNAME then OnUser(lib, line)
    else OnPassword(lib, UserGiven(lib.lossy, t), line)
  }

  // After t, a line of message content, or the terminator, is read.
  function OnContent<H>(env: Env<H>, t: Log, line: Bytes): Expectation
  {
    if IsTerminator(line) then
      match Transcripts.Envelope(env.lib.lossy, t)
      case Some(envelope) => CallMail(envelope.(data := Content(t)))
      case None => Nothing
    else if |Content(t)| + |Unstuff(line)| > env.maxMessageSize then Reply(DATA_TOO_LONG)
    else Input
  }

  function OnLine<H>(env: Env<H>, tls: Option<Acceptor>, t: Log, line: Bytes): Expectation
  {
    if InContent(env.lib.lossy, t) then OnContent(env, t, line)
    else if Challenged(t) then OnAnswer(env.lib, t, line)
    else match Cmd.Parse(env.lib.lossy, line)
      case Err(err) => Reply(SyntaxError(Some(err)))
      case Ok(command) => OnCommand(env, tls, t, command)
  }

  function NextOf(replies: seq<Response>, n: nat): Expectation
  {
    if n < |replies| then Reply(replies[n]) else Input
  }

  // After a line read in t, and n replies to it of which the last is given.
  function AfterAnswer<H>(env: Env<H>, tls: Option<Acceptor>, t: Log, line: Bytes, n: nat, reply: Response): Expectation
  {
    if InContent(env.lib.lossy, t) then Nothing
    else if Challenged(t) then Input
    else match Cmd.Parse(env.lib.lossy, line)
      case Ok(Help) => NextOf(HelpReplies(env, LinkAfter(tls, t)), n)
      case Ok(Reset) => CallReset
      case Ok(StartTls) => if reply == START_TLS then Upgrade else Input
      case Ok(Quit) => Nothing
      case _ => Input
  }

  // After the replies at the end of a transcript: g is what came before them, n their number.
  function AfterReplies<H>(env: Env<H>, tls: Option<Acceptor>, g: Log, n: nat, reply: Response): Expectation
  {
    if g == [] then Input
    else match Last(g)
      case HelloCalled(_, extended, _) => NextOf(HelloReplies(env, LinkAfter(tls, Init(g)), extended), n)
      case LoginCalled(_, _, accepted) => if accepted then Input else Nothing
      case Recv(line) => AfterAnswer(env, tls, Init(g), line, n, reply)
      case _ => Input
  }

  // What a session does after the transcript t.
  function Expected<H>(env: Env<H>, tls: Option<Acceptor>, t: Log): Expectation
  {
    if t == [] then Reply(Banner(env.serverName))
    else match Last(t)
      case Recv(line) => OnLine(env, tls, Init(t), line)
      case Eof =>
        if !Challenged(Init(t)) then Nothing
        else
          var plain := Last(Init(t)).reply == AUTH_CHALLENGE_PLAIN;
          Reply(SyntaxError(Some(if plain then EOF_IN_PLAIN else EOF_IN_LOGIN)))
      case Sent(reply) => AfterReplies(env, tls, Unanswered(t), |t| - |Unanswered(t)|, reply)
      case HelloCalled(_, extended, accepted) =>
        if accepted then NextOf(HelloReplies(env, LinkAfter(tls, Init(t)), extended), 0) else Nothing
      case LoginCalled(_, _, accepted) => Reply(if accepted then AUTH_OK else AUTH_FAIL)
      case MailCalled(_, failure) =>
        Reply(match failure case Some(err) => MAIL_HANDLER_ERROR.Extend(err) case None => MAIL_ACCEPTED)
      case ResetCalled => Input
      case TlsStarted => Input
  }

  // Every event is what was expected after those before it.
  ghost predicate Follows<H>(env: Env<H>, tls: Option<Acceptor>, t: Log)
  {
    t == [] || (Follows(env, tls, Init(t)) && Meets(Last(t), Expected(env, tls, Init(t))))
  }

  lemma {:induction false} EveryEventExpected<H>(env: Env<H>, tls: Option<Acceptor>, t: Log, i: nat)
    requires Follows(env, tls, t) && i < |t|
    ensures Meets(t[i], Expected(env, tls, t[..i]))
  {
    hide Expected, Meets;
    if i < |t| - 1 {
      assert Init(t)[..i] == t[..i];
      EveryEventExpected(env, tls, Init(t), i);
    }
  }

  lemma {:induction false} FollowsSoFar<H>(env: Env<H>, tls: Option<Acceptor>, t: Log, i: nat)
    requires Follows(env, tls, t) && i <= |t|
    ensures Follows(env, tls, t[..i])
  {
    hide Expected, Meets;
    if i == |t| {
      assert t[..i] == t;
    } else {
      assert Init(t)[..i] == t[..i];
      FollowsSoFar(env, tls, Init(t), i);
    }
  }

  lemma FollowsOn<H>(env: Env<H>, tls: Option<Acceptor>, t: Log, e: Event)
    requires Follows(env, tls, t) && Meets(e, Expected(env, tls, t))
    ensures Follows(env, tls, t + [e])
  {
    hide Expected, Meets;
    InitOfSnoc(t, e);
  }

  // ----- single events -----

  lemma AfterRecv<H>(env: Env<H>, tls: Option<Acceptor>, t: Log, line: Bytes)
    ensures Expected(env, tls, t + [Recv(line)]) == OnLine(env, tls, t, line) && !Challenged(t + [Recv(line)])
  {
    hide OnLine;
    InitOfSnoc(t, Recv(line));
  }

  lemma UnansweredGrow(t: Log, reply: Response)
    ensures Unanswered(t + [Sent(reply)]) == Unanswered(t)
  {
    InitOfSnoc(t, Sent(reply));
  }

  lemma AfterSent<H>(env: Env<H>, tls: Option<Acceptor>, t: Log, reply: Response)
    ensures Unanswered(t + [Sent(reply)]) == Unanswered(t)
    ensures Expected(env, tls, t + [Sent(reply)]) ==
            AfterReplies(env, tls, Unanswered(t), |t| + 1 - |Unanswered(t)|, reply)
    ensures Challenged(t + [Sent(reply)]) <==> reply.code == 334
  {
    hide AfterReplies, OnLine, HelloReplies, NextOf, Unanswered;
    UnansweredGrow(t, reply);
  }

  // Running and waiting for a command, or having ended as it must.
  ghost predicate Kept<H>(env: Env<H>, tls: Option<Acceptor>, c: Conf<H>)
  {
    && Follows(env, tls, c.log)
    && match c.status
       case Running => Expected(env, tls, c.log) == Input && !Challenged(c.log)
       case Closed => Expected(env, tls, c.log) == Nothing
       case Failed(_) => Stopped(env, tls, c)
  }

  // A session fails where nothing more is expected, at a line that cannot be read, or where the TLS
  // handshake fails.
  ghost predicate Stopped<H>(env: Env<H>, tls: Option<Acceptor>, c: Conf<H>)
  {
    match Expected(env, tls, c.log)
    case Nothing => true
    case Input => NextLine(c.link.rest).TooLong? || NextLine(c.link.rest).EofInLine?
    case Upgrade => tls.Some? && tls.value(c.link.rest) == None
    case _ => false
  }

  // The session's state is what the transcript shows.
  lemma StateShows<H>(env: Env<H>, o: Origin<H>, c: Conf<H>)
    requires Inv(env, o, c) && c.status.Running? && !c.state.phase.Data?
    ensures !InContent(env.lib.lossy, c.log)
    ensures c.state.phase.Connected? <==> !Greeting(c.log)
    ensures c.state.phase.Greeted? <==> Ready(env.lib.lossy, c.log)
    ensures c.state.phase.Envelope? <==> Transcripts.Envelope(env.lib.lossy, c.log).Some?
    ensures IsAuthenticated(env, c.state) <==> !(env.HasAuth() && LastLogin(c.log).None?)
    ensures c.link.Secure? <==> TlsUpgrades(c.log) != 0
    ensures SupportsTls(c.link) <==> Offered(o.acceptor, c.log)
    ensures c.link.Plain? ==> c.link.acceptor == o.acceptor
  {
    hide Transcripts.Envelope, InContent, Greeting, LastLogin, TlsUpgrades, HandlerExplained, AllCaused, Due, Content;
  }

  lemma SameReplies<H>(env: Env<H>, a: Link, b: Link, extended: bool)
    requires SupportsTls(a) == SupportsTls(b)
    ensures HelloReplies(env, a, extended) == HelloReplies(env, b, extended)
    ensures HelpReplies(env, a) == HelpReplies(env, b)
  {
    hide Decimal;
    assert Features(env, a) == Features(env, b);
    var ra, rb := HelloReplies(env, a, extended), HelloReplies(env, b, extended);
    assert |ra| == |rb|;
    forall i | 0 <= i < |ra|
      ensures ra[i] == rb[i]
    {
      if i > 0 {
        assert ra[i] == FeatureReply(Features(env, a), i - 1);
      }
    }
  }

  // ----- replies -----

  // A command line, its reply and what the reply leads to.
  lemma Replied<H>(env: Env<H>, tls: Option<Acceptor>, t: Log, line: Bytes, reply: Response)
    requires Follows(env, tls, t) && Expected(env, tls, t) == Input
    requires OnLine(env, tls, t, line) == Reply(reply)
    ensures Follows(env, tls, t + [Recv(line)] + [Sent(reply)])
    ensures Expected(env, tls, t + [Recv(line)] + [Sent(reply)]) == AfterAnswer(env, tls, t, line, 1, reply)
    ensures Challenged(t + [Recv(line)] + [Sent(reply)]) <==> reply.code == 334
  {
    hide Expected, AfterAnswer, OnLine;
    FollowsOn(env, tls, t, Recv(line));
    AfterRecv(env, tls, t, line);
    FollowsOn(env, tls, t + [Recv(line)], Sent(reply));
    AfterSent(env, tls, t + [Recv(line)], reply);
    InitOfSnoc(t, Recv(line));
  }

  // After g, the replies of the group are expected one after the other.
  ghost predicate LeadsThrough<H>(env: Env<H>, tls: Option<Acceptor>, g: Log, group: seq<Response>)
  {
    forall n: nat, reply :: n >= 1 ==> AfterReplies(env, tls, g, n, reply) == NextOf(group, n)
  }

  lemma NextInGroup<H>(env: Env<H>, tls: Option<Acceptor>, t: Log, g: Log, group: seq<Response>, k: nat)
    requires Follows(env, tls, t) && Unanswered(t) == g && |t| == |g| + k && k < |group|
    requires Expected(env, tls, t) == NextOf(group, k) && LeadsThrough(env, tls, g, group)
    ensures var t1 := t + [Sent(group[k])];
            && Follows(env, tls, t1) && Unanswered(t1) == g && Expected(env, tls, t1) == NextOf(group, k + 1)
            && (Challenged(t1) <==> group[k].code == 334)
  {
    hide Expected, AfterReplies, Follows, Unanswered, Challenged;
    FollowsOn(env, tls, t, Sent(group[k]));
    AfterSent(env, tls, t, group[k]);
  }

  // The replies of one group follow each other.
  lemma {:induction false} SayAllFollows<H>(env: Env<H>, tls: Option<Acceptor>, c: Conf<H>,
                                            g: Log, group: seq<Response>, k: nat)
    requires Follows(env, tls, c.log) && Unanswered(c.log) == g && |c.log| == |g| + k && k <= |group|
    requires Expected(env, tls, c.log) == NextOf(group, k)
    requires LeadsThrough(env, tls, g, group)
    requires k == 0 ==> group != []
    requires forall r <- group :: r.code != 334
    requires k > 0 ==> !Challenged(c.log)
    ensures var t := SayAll(c, group[k..]).log;
            Follows(env, tls, t) && Expected(env, tls, t) == Input && !Challenged(t)
    decreases |group| - k
  {
    hide Expected, Follows, Unanswered, Challenged, LeadsThrough;
    if k < |group| {
      NextInGroup(env, tls, c.log, g, group, k);
      assert group[k..][0] == group[k] && group[k..][1..] == group[k + 1..];
      SayAllFollows(env, tls, Say(c, group[k]), g, group, k + 1);
    } else {
      assert SayAll(c, group[k..]) == c;
    }
  }

  // ----- commands -----

  // c waits for a command, and c1 is c with the line read.
  ghost predicate Reads<H>(env: Env<H>, o: Origin<H>, c: Conf<H>, c1: Conf<H>, line: Bytes)
  {
    && Inv(env, o, c) && c.status.Running? && !c.state.phase.Data? && Kept(env, o.acceptor, c)
    && c1 == c.(link := c.link.(rest := c1.link.rest), log := c.log + [Recv(line)])
  }

  ghost predicate ReadsCommand<H>(env: Env<H>, o: Origin<H>, c: Conf<H>, c1: Conf<H>, line: Bytes, command: Cmd.Command)
  {
    Reads(env, o, c, c1, line) && Cmd.Parse(env.lib.lossy, line) == Ok(command)
  }

  lemma LineExpected<H>(env: Env<H>, o: Origin<H>, c: Conf<H>, c1: Conf<H>, line: Bytes)
    requires Reads(env, o, c, c1, line)
    ensures Follows(env, o.acceptor, c1.log)
    ensures Expected(env, o.acceptor, c1.log) == OnLine(env, o.acceptor, c.log, line)
    ensures !Challenged(c1.log) && !Challenged(c.log) && !InContent(env.lib.lossy, c.log)
    ensures Unanswered(c1.log) == c1.log && Follows(env, o.acceptor, c.log) && Expected(env, o.acceptor, c.log) == Input
  {
    hide Expected, OnLine, Inv, Challenged, Stopped;
    StateShows(env, o, c);
    FollowsOn(env, o.acceptor, c.log, Recv(line));
    AfterRecv(env, o.acceptor, c.log, line);
    InitOfSnoc(c.log, Recv(line));
  }

  lemma OneReply<H>(env: Env<H>, o: Origin<H>, c: Conf<H>, c1: Conf<H>, line: Bytes, reply: Response)
    requires Reads(env, o, c, c1, line) && OnLine(env, o.acceptor, c.log, line) == Reply(reply)
    ensures Follows(env, o.acceptor, Say(c1, reply).log)
    ensures Expected(env, o.acceptor, Say(c1, reply).log) == AfterAnswer(env, o.acceptor, c.log, line, 1, reply)
    ensures Challenged(Say(c1, reply).log) <==> reply.code == 334
  {
    hide Expected, OnLine, AfterAnswer, Challenged;
    LineExpected(env, o, c, c1, line);
    Replied(env, o.acceptor, c.log, line, reply);
  }

  lemma MailFromKept<H>(env: Env<H>, o: Origin<H>, c: Conf<H>, c1: Conf<H>, line: Bytes, from: string)
    requires ReadsCommand(env, o, c, c1, line, Cmd.Mail(from))
    ensures Kept(env, o.acceptor, OnMailFrom(env, c1, from))
  {
    hide Expected, Follows, Challenged, Inv, Transcripts.Envelope, Greeting, InContent, Ready, LastLogin, Cmd.Parse;
    StateShows(env, o, c);
    LineExpected(env, o, c, c1, line);
    var reply := OnCommand(env, o.acceptor, c.log, Cmd.Mail(from)).reply;
    OneReply(env, o, c, c1, line, reply);
  }

  lemma RecipientKept<H>(env: Env<H>, o: Origin<H>, c: Conf<H>, c1: Conf<H>, line: Bytes, to: string)
    requires ReadsCommand(env, o, c, c1, line, Cmd.Recipient(to))
    ensures Kept(env, o.acceptor, OnRecipient(env, c1, to))
  {
    hide Expected, Follows, Challenged, Transcripts.Envelope, Greeting, InContent, Ready, LastLogin, Cmd.Parse;
    hide Background, ContentExplained, LoginExplained;
    StateShows(env, o, c);
    LineExpected(env, o, c, c1, line);
    var reply := OnCommand(env, o.acceptor, c.log, Cmd.Recipient(to)).reply;
    OneReply(env, o, c, c1, line, reply);
  }

  lemma DataKept<H>(env: Env<H>, o: Origin<H>, c: Conf<H>, c1: Conf<H>, line: Bytes)
    requires ReadsCommand(env, o, c, c1, line, Cmd.Data)
    ensures Kept(env, o.acceptor, OnData(env, c1))
  {
    hide Expected, Follows, Challenged, Transcripts.Envelope, Greeting, InContent, Ready, LastLogin, Cmd.Parse;
    hide Background, ContentExplained, LoginExplained;
    StateShows(env, o, c);
    LineExpected(env, o, c, c1, line);
    var reply := OnCommand(env, o.acceptor, c.log, Cmd.Data).reply;
    OneReply(env, o, c, c1, line, reply);
  }

  lemma ResetKept<H>(env: Env<H>, o: Origin<H>, c: Conf<H>, c1: Conf<H>, line: Bytes)
    requires ReadsCommand(env, o, c, c1, line, Cmd.Reset)
    ensures Kept(env, o.acceptor, OnReset(env, c1))
  {
    hide Follows, Inv, Transcripts.Envelope, Greeting, InContent, Ready, LastLogin, Cmd.Parse, OnLine, AfterReplies;
    LineExpected(env, o, c, c1, line);
    RepliesTo(env, o, c, c1, line, Cmd.Reset);
    OneReply(env, o, c, c1, line, RESET);
    var t := c1.log + [Sent(RESET)];
    assert Expected(env, o.acceptor, t) == CallReset;
    FollowsOn(env, o.acceptor, t, ResetCalled);
    InitOfSnoc(t, ResetCalled);
  }

  lemma RepliesTo<H>(env: Env<H>, o: Origin<H>, c: Conf<H>, c1: Conf<H>, line: Bytes, command: Cmd.Command)
    requires ReadsCommand(env, o, c, c1, line, command)
    ensures OnLine(env, o.acceptor, c.log, line) == OnCommand(env, o.acceptor, c.log, command)
  {
    hide Cmd.Parse, OnCommand, Inv, Follows, Expected;
    LineExpected(env, o, c, c1, line);
  }

  lemma PlainReplyKept<H>(env: Env<H>, o: Origin<H>, c: Conf<H>, c1: Conf<H>, line: Bytes,
                          command: Cmd.Command, reply: Response)
    requires ReadsCommand(env, o, c, c1, line, command)
    requires !command.Help? && !command.Reset? && !command.Quit? && !command.StartTls?
    requires OnCommand(env, o.acceptor, c.log, command) == Reply(reply) && reply.code != 334
    ensures Kept(env, o.acceptor, Say(c1, reply))
  {
    hide Expected, Follows, Challenged, Inv, InContent, Cmd.Parse, OnCommand, OnLine;
    LineExpected(env, o, c, c1, line);
    RepliesTo(env, o, c, c1, line, command);
    OneReply(env, o, c, c1, line, reply);
  }

  // ----- greetings and help -----

  lemma LinkShows<H>(env: Env<H>, o: Origin<H>, c: Conf<H>, t: Log, extended: bool)
    requires Inv(env, o, c) && c.status.Running? && !c.state.phase.Data? && TlsUpgrades(t) == TlsUpgrades(c.log)
    ensures HelloReplies(env, c.link, extended) == HelloReplies(env, LinkAfter(o.acceptor, t), extended)
    ensures HelpReplies(env, c.link) == HelpReplies(env, LinkAfter(o.acceptor, t))
  {
    hide Inv, HelloReplies, HelpReplies;
    StateShows(env, o, c);
    SameReplies(env, c.link, LinkAfter(o.acceptor, t), extended);
  }

  lemma SameLinkReplies<H>(env: Env<H>, link: Link, rest: Bytes, extended: bool)
    ensures HelloReplies(env, link.(rest := rest), extended) == HelloReplies(env, link, extended)
    ensures HelpReplies(env, link.(rest := rest)) == HelpReplies(env, link)
  {
    SameReplies(env, link.(rest := rest), link, extended);
  }

  lemma HelloKept<H>(env: Env<H>, o: Origin<H>, c: Conf<H>, c1: Conf<H>, line: Bytes, domain: string, extended: bool)
    requires ReadsCommand(env, o, c, c1, line, Cmd.Hello(domain, extended))
    ensures Kept(env, o.acceptor, OnHello(env, c1, domain, extended))
  {
    hide Follows, Inv, InContent, Cmd.Parse, OnLine, Greeting, HelloReplies, SayAll, Challenged, TlsUpgrades;
    StateShows(env, o, c);
    if c.state.phase != Connected {
      PlainReplyKept(env, o, c, c1, line, Cmd.Hello(domain, extended), BAD_SEQUENCE);
    } else {
      LineExpected(env, o, c, c1, line);
      RepliesTo(env, o, c, c1, line, Cmd.Hello(domain, extended));
      var (h, answer) := env.handler.onHello(c1.handler, domain, extended);
      var c2 := Note(c1.(handler := h), HelloCalled(domain, extended, answer.Accept?));
      HelloNotedFollows(env, o, c, c1, domain, extended, answer.Accept?);
      if answer.Accept? {
        SameLinkReplies(env, c.link, c1.link.rest, extended);
        HelloGroupFollows(env, o, c, c1, c2, domain, extended);
      }
    }
  }

  lemma HelloNotedFollows<H>(env: Env<H>, o: Origin<H>, c: Conf<H>, c1: Conf<H>,
                             domain: string, extended: bool, accepted: bool)
    requires Follows(env, o.acceptor, c1.log) && Expected(env, o.acceptor, c1.log) == CallHello(domain, extended)
    ensures var t := c1.log + [HelloCalled(domain, extended, accepted)];
            && Follows(env, o.acceptor, t) && !Challenged(t) && Unanswered(t) == t
            && Expected(env, o.acceptor, t) ==
               (if accepted then NextOf(HelloReplies(env, LinkAfter(o.acceptor, c1.log), extended), 0) else Nothing)
  {
    hide AfterReplies, OnLine, HelloReplies;
    FollowsOn(env, o.acceptor, c1.log, HelloCalled(domain, extended, accepted));
    InitOfSnoc(c1.log, HelloCalled(domain, extended, accepted));
  }

  lemma HelloGroupFollows<H>(env: Env<H>, o: Origin<H>, c: Conf<H>, c1: Conf<H>, c2: Conf<H>,
                             domain: string, extended: bool)
    requires Inv(env, o, c) && c.status.Running? && !c.state.phase.Data?
    requires c1.log != [] && Last(c1.log).Recv? && Init(c1.log) == c.log
    requires c2.log == c1.log + [HelloCalled(domain, extended, true)] && Unanswered(c2.log) == c2.log
    requires Follows(env, o.acceptor, c2.log)
    requires Expected(env, o.acceptor, c2.log) == NextOf(HelloReplies(env, LinkAfter(o.acceptor, c1.log), extended), 0)
    ensures var t := SayAll(c2, HelloReplies(env, c.link, extended)).log;
            Follows(env, o.acceptor, t) && Expected(env, o.acceptor, t) == Input && !Challenged(t)
  {
    hide Follows, Inv, OnLine, AfterAnswer, Expected, HelloReplies, Challenged, SayAll;
    var replies := HelloReplies(env, c.link, extended);
    assert TlsUpgrades(c1.log) == TlsUpgrades(c.log);
    LinkShows(env, o, c, c1.log, extended);
    Replies250(env, c.link, extended);
    InitOfSnoc(c1.log, HelloCalled(domain, extended, true));
    assert replies[0..] == replies;
    SayAllFollows(env, o.acceptor, c2, c2.log, replies, 0);
  }

  lemma Replies250<H>(env: Env<H>, link: Link, extended: bool)
    ensures var replies := HelloReplies(env, link, extended); replies != [] && forall r <- replies :: r.code == 250
  {
    HelloRepliesGood(env, link, extended);
    if extended {
      var replies := HelloReplies(env, link, extended);
      forall i | 0 <= i < |replies|
        ensures replies[i].code == 250
      {
        if i > 0 {
          assert replies[i] == FeatureReply(Features(env, link), i - 1);
        }
      }
    }
  }

  lemma HelpKept<H>(env: Env<H>, o: Origin<H>, c: Conf<H>, c1: Conf<H>, line: Bytes)
    requires ReadsCommand(env, o, c, c1, line, Cmd.Help)
    ensures Kept(env, o.acceptor, SayAll(c1, HelpReplies(env, c1.link)))
  {
    hide Follows, Inv, InContent, Cmd.Parse, OnLine, Expected, Challenged, SayAll;
    LineExpected(env, o, c, c1, line);
    RepliesTo(env, o, c, c1, line, Cmd.Help);
    SameLinkReplies(env, c.link, c1.link.rest, false);
    LinkShows(env, o, c, c.log, false);
    var replies := HelpReplies(env, c1.link);
    assert replies[0..] == replies && |replies| == 2;
    InitOfSnoc(c.log, Recv(line));
    SayAllFollows(env, o.acceptor, c1, c1.log, replies, 0);
    SayAllOnlySays(c1, replies);
  }

  lemma SayAllOnlySays<H>(c: Conf<H>, replies: seq<Response>)
    ensures SayAll(c, replies) == c.(log := SayAll(c, replies).log)
  {
  }

  // ----- STARTTLS, QUIT -----

  lemma StartTlsKept<H>(env: Env<H>, o: Origin<H>, c: Conf<H>, c1: Conf<H>, line: Bytes)
    requires ReadsCommand(env, o, c, c1, line, Cmd.StartTls)
    ensures Kept(env, o.acceptor, OnStartTls(c1))
  {
    hide Follows, Inv, InContent, Cmd.Parse, OnLine, Expected, Challenged, Ready;
    StateShows(env, o, c);
    LineExpected(env, o, c, c1, line);
    RepliesTo(env, o, c, c1, line, Cmd.StartTls);
    var reply := OnCommand(env, o.acceptor, c.log, Cmd.StartTls).reply;
    OneReply(env, o, c, c1, line, reply);
    assert START_TLS.code == 220 && BAD_SEQUENCE.code == 503 && SyntaxError(Some("TLS not supported")).code == 500;
    if reply == START_TLS {
      var t := Say(c1, START_TLS).log;
      FollowsOn(env, o.acceptor, t, TlsStarted);
      AfterUpgrade(env, o.acceptor, t);
    }
  }

  lemma AfterUpgrade<H>(env: Env<H>, tls: Option<Acceptor>, t: Log)
    ensures Expected(env, tls, t + [TlsStarted]) == Input && !Challenged(t + [TlsStarted])
  {
    hide OnLine, AfterReplies;
    InitOfSnoc(t, TlsStarted);
  }

  lemma QuitKept<H>(env: Env<H>, o: Origin<H>, c: Conf<H>, c1: Conf<H>, line: Bytes)
    requires ReadsCommand(env, o, c, c1, line, Cmd.Quit)
    ensures Kept(env, o.acceptor, Say(c1, GOODBYE).(status := Closed))
  {
    hide Follows, Inv, InContent, Cmd.Parse, OnLine, Expected, Challenged;
    LineExpected(env, o, c, c1, line);
    RepliesTo(env, o, c, c1, line, Cmd.Quit);
    OneReply(env, o, c, c1, line, GOODBYE);
  }

  // ----- AUTH -----

  // t ends with a line of an AUTH exchange: the command or an answer to a challenge.
  predicate Exchanging(lossy: Cmd.Lossy, t: Log)
  {
    && t != [] && Last(t).Recv? && !InContent(lossy, Init(t))
    && (Challenged(Init(t)) || var p := Cmd.Parse(lossy, Last(t).line); p.Ok? && p.value.Authenticate?)
  }

  lemma ReplyInExchange<H>(env: Env<H>, tls: Option<Acceptor>, t: Log, reply: Response)
    requires Exchanging(env.lib.lossy, t)
    ensures Expected(env, tls, t + [Sent(reply)]) == Input
    ensures Challenged(t + [Sent(reply)]) <==> reply.code == 334
  {
    hide Expected, Cmd.Parse, InContent, Challenged;
    AfterSent(env, tls, t, reply);
  }

  lemma AnswerExpected<H>(env: Env<H>, tls: Option<Acceptor>, t: Log, line: Bytes)
    requires Challenged(t)
    ensures Expected(env, tls, t + [Recv(line)]) == OnAnswer(env.lib, t, line) && !Challenged(t + [Recv(line)])
    ensures Exchanging(env.lib.lossy, t + [Recv(line)]) && !InContent(env.lib.lossy, t)
    ensures Expected(env, tls, t + [Eof]) ==
            Reply(SyntaxError(Some(if Last(t).reply == AUTH_CHALLENGE_PLAIN then EOF_IN_PLAIN else EOF_IN_LOGIN)))
    ensures !Challenged(t + [Eof])
  {
    hide OnAnswer, OnContent, OnCommand, AfterReplies, Cmd.Parse;
    assert DATA_START.code == 354;
    AfterRecv(env, tls, t, line);
    InitOfSnoc(t, Recv(line));
    InitOfSnoc(t, Eof);
  }

  // What a challenge leads to.
  ghost predicate Challenges<H>(env: Env<H>, tls: Option<Acceptor>, t: Log, challenge: Response,
                                c2: Conf<H>, answer: Option<Bytes>)
  {
    var asked := t + [Sent(challenge)];
    && Follows(env, tls, c2.log)
    && if !c2.status.Running? then c2.log == asked && answer.None? && Stopped(env, tls, c2) && c2.status.Failed?
       else match answer
         case Some(line) =>
           && c2.log == asked + [Recv(line)] && Challenged(asked)
           && Expected(env, tls, c2.log) == OnAnswer(env.lib, asked, line)
         case None =>
           && c2.log == asked + [Eof]
           && Expected(env, tls, c2.log) ==
              Reply(SyntaxError(Some(if challenge == AUTH_CHALLENGE_PLAIN then EOF_IN_PLAIN else EOF_IN_LOGIN)))
  }

  lemma InputTaken<H>(env: Env<H>, tls: Option<Acceptor>, t: Log, line: Bytes)
    requires Follows(env, tls, t) && Expected(env, tls, t) == Input
    ensures Follows(env, tls, t + [Recv(line)]) && Follows(env, tls, t + [Eof])
  {
    hide Expected, Follows;
    FollowsOn(env, tls, t, Recv(line));
    FollowsOn(env, tls, t, Eof);
  }

  lemma StoppedAtInput<H>(env: Env<H>, tls: Option<Acceptor>, c: Conf<H>)
    requires Expected(env, tls, c.log) == Input
    requires NextLine(c.link.rest).TooLong? || NextLine(c.link.rest).EofInLine?
    ensures Stopped(env, tls, c)
  {
    hide Expected;
  }

  lemma AskFollows<H>(env: Env<H>, tls: Option<Acceptor>, c: Conf<H>, challenge: Response)
    requires Follows(env, tls, c.log) && Expected(env, tls, c.log) == Reply(challenge) && c.status.Running?
    requires Exchanging(env.lib.lossy, c.log) && challenge.code == 334
    ensures var (c2, answer) := Ask(c, challenge); Challenges(env, tls, c.log, challenge, c2, answer)
  {
    hide Expected, Follows, Exchanging, Challenged, OnAnswer, Stopped, NextLine;
    var t := c.log + [Sent(challenge)];
    FollowsOn(env, tls, c.log, Sent(challenge));
    ReplyInExchange(env, tls, c.log, challenge);
    InitOfSnoc(c.log, Sent(challenge));
    match NextLine(c.link.rest) {
      case Line(line, _) =>
        InputTaken(env, tls, t, line);
        AnswerExpected(env, tls, t, line);
      case AtEof =>
        InputTaken(env, tls, t, []);
        AnswerExpected(env, tls, t, []);
      case _ => StoppedAtInput(env, tls, Ask(c, challenge).0);
    }
  }

  // An exchange ends with credentials for the handler, with an error for the client, or the session
  // stops.
  ghost predicate Concludes<H>(env: Env<H>, tls: Option<Acceptor>, c2: Conf<H>, outcome: AuthOutcome)
  {
    && Follows(env, tls, c2.log)
    && match outcome
       case Credentials(username, password) =>
         c2.status.Running? && Expected(env, tls, c2.log) == CallLogin(username, password)
       case BadAuth(err) =>
         && c2.status.Running? && Expected(env, tls, c2.log) == Reply(SyntaxError(Some(err)))
         && (Exchanging(env.lib.lossy, c2.log) || (c2.log != [] && Last(c2.log).Eof?))
       case Aborted => c2.status.Failed? && Stopped(env, tls, c2)
  }

  lemma PayloadConcludes<H>(env: Env<H>, tls: Option<Acceptor>, c: Conf<H>, payload: Bytes)
    requires Follows(env, tls, c.log) && c.status.Running? && Exchanging(env.lib.lossy, c.log)
    requires Expected(env, tls, c.log) == OnPayload(env.lib, payload)
    ensures Concludes(env, tls, c, PlainCredentials(env.lib, payload))
  {
    hide Expected, Follows, Exchanging, DecodeBase64, SplitAll;
  }

  lemma PasswordConcludes<H>(env: Env<H>, tls: Option<Acceptor>, c: Conf<H>, user: Bytes)
    requires Follows(env, tls, c.log) && c.status.Running? && Exchanging(env.lib.lossy, c.log)
    requires Expected(env, tls, c.log) == OnUser(env.lib, user)
    requires UserGiven(env.lib.lossy, c.log + [Sent(AUTH_CHALLENGE_LOGIN_PASSWORD)]) == user
    ensures var (c2, outcome) := AuthLoginPassword(env, c, user); Concludes(env, tls, c2, outcome)
  {
    hide Expected, Follows, Exchanging, Challenged, DecodeBase64, UserGiven, Ask;
    if DecodeBase64(env.lib, user).Some? {
      AskFollows(env, tls, c, AUTH_CHALLENGE_LOGIN_PASSWORD);
      var t := c.log + [Sent(AUTH_CHALLENGE_LOGIN_PASSWORD)];
      InitOfSnoc(c.log, Sent(AUTH_CHALLENGE_LOGIN_PASSWORD));
      DistinctChallenges();
      var (c2, answer) := Ask(c, AUTH_CHALLENGE_LOGIN_PASSWORD);
      if answer.None? && c2.status.Running? {
        InitOfSnoc(t, Eof);
      }
    }
  }

  lemma DistinctChallenges()
    ensures AUTH_CHALLENGE_PLAIN != AUTH_CHALLENGE_LOGIN_USERNAME
    ensures AUTH_CHALLENGE_PLAIN != AUTH_CHALLENGE_LOGIN_PASSWORD
    ensures AUTH_CHALLENGE_LOGIN_USERNAME != AUTH_CHALLENGE_LOGIN_PASSWORD
  {
    assert AUTH_CHALLENGE_LOGIN_USERNAME.message[0] != AUTH_CHALLENGE_LOGIN_PASSWORD.message[0];
  }

  lemma UserInAnswer(lossy: Cmd.Lossy, t: Log, line: Bytes)
    requires Challenged(t)
    ensures UserGiven(lossy, t + [Recv(line)] + [Sent(AUTH_CHALLENGE_LOGIN_PASSWORD)]) == line
  {
    var all := t + [Recv(line)] + [Sent(AUTH_CHALLENGE_LOGIN_PASSWORD)];
    assert all[..|all| - 2] == t && all[|all| - 2] == Recv(line);
  }

  lemma UserInCommand(lossy: Cmd.Lossy, t: Log, line: Bytes, user: Bytes)
    requires !Challenged(t) && Cmd.Parse(lossy, line) == Ok(Cmd.Authenticate(Cmd.Login, Some(user)))
    ensures UserGiven(lossy, t + [Recv(line)] + [Sent(AUTH_CHALLENGE_LOGIN_PASSWORD)]) == user
  {
    hide Cmd.Parse;
    var all := t + [Recv(line)] + [Sent(AUTH_CHALLENGE_LOGIN_PASSWORD)];
    assert all[..|all| - 2] == t && all[|all| - 2] == Recv(line);
  }

  lemma PlainConcludes<H>(env: Env<H>, tls: Option<Acceptor>, c: Conf<H>, initial: Option<Bytes>)
    requires Follows(env, tls, c.log) && c.status.Running? && Exchanging(env.lib.lossy, c.log)
    requires Expected(env, tls, c.log) == OnExchange(env.lib, Cmd.Plain, initial)
    ensures var (c2, outcome) := AuthPlain(env, c, initial); Concludes(env, tls, c2, outcome)
  {
    hide Expected, Follows, Exchanging, Challenged, PlainCredentials, Ask, OnPayload, OnPassword, OnUser;
    DistinctChallenges();
    if initial.Some? {
      PayloadConcludes(env, tls, c, initial.value);
    } else {
      AskFollows(env, tls, c, AUTH_CHALLENGE_PLAIN);
      var t := c.log + [Sent(AUTH_CHALLENGE_PLAIN)];
      InitOfSnoc(c.log, Sent(AUTH_CHALLENGE_PLAIN));
      var (c2, answer) := Ask(c, AUTH_CHALLENGE_PLAIN);
      if answer.Some? && c2.status.Running? {
        AnswerExpected(env, tls, t, answer.value);
        PayloadConcludes(env, tls, c2, answer.value);
      } else if c2.status.Running? {
        InitOfSnoc(t, Eof);
      }
    }
  }

  lemma LoginConcludes<H>(env: Env<H>, tls: Option<Acceptor>, c: Conf<H>, t: Log, line: Bytes, initial: Option<Bytes>)
    requires Follows(env, tls, c.log) && c.status.Running? && Exchanging(env.lib.lossy, c.log)
    requires c.log == t + [Recv(line)] && !Challenged(t)
    requires Cmd.Parse(env.lib.lossy, line) == Ok(Cmd.Authenticate(Cmd.Login, initial))
    requires Expected(env, tls, c.log) == OnExchange(env.lib, Cmd.Login, initial)
    ensures var (c2, outcome) := AuthLogin(env, c, initial); Concludes(env, tls, c2, outcome)
  {
    hide Expected, Follows, Exchanging, Challenged, Ask, OnPayload, OnPassword, OnUser, AuthLoginPassword, UserGiven;
    hide Cmd.Parse;
    DistinctChallenges();
    if initial.Some? {
      UserInCommand(env.lib.lossy, t, line, initial.value);
      PasswordConcludes(env, tls, c, initial.value);
    } else {
      AskFollows(env, tls, c, AUTH_CHALLENGE_LOGIN_USERNAME);
      var asked := c.log + [Sent(AUTH_CHALLENGE_LOGIN_USERNAME)];
      InitOfSnoc(c.log, Sent(AUTH_CHALLENGE_LOGIN_USERNAME));
      var (c2, answer) := Ask(c, AUTH_CHALLENGE_LOGIN_USERNAME);
      if answer.Some? && c2.status.Running? {
        AnswerExpected(env, tls, asked, answer.value);
        UserInAnswer(env.lib.lossy, asked, answer.value);
        PasswordConcludes(env, tls, c2, answer.value);
      } else if c2.status.Running? {
        InitOfSnoc(asked, Eof);
      }
    }
  }

  lemma ErrorEndsExchange<H>(env: Env<H>, tls: Option<Acceptor>, c: Conf<H>, err: string)
    requires Concludes(env, tls, c, BadAuth(err))
    ensures Kept(env, tls, Say(c, SyntaxError(Some(err))))
  {
    hide Expected, Exchanging, Challenged, Cmd.Parse, AfterAnswer;
    var reply := SyntaxError(Some(err));
    FollowsOn(env, tls, c.log, Sent(reply));
    if Exchanging(env.lib.lossy, c.log) {
      ReplyInExchange(env, tls, c.log, reply);
    } else {
      AfterSent(env, tls, c.log, reply);
    }
  }

  lemma FinishKept<H>(env: Env<H>, tls: Option<Acceptor>, c: Conf<H>, outcome: AuthOutcome)
    requires Concludes(env, tls, c, outcome)
    ensures Kept(env, tls, FinishAuth(env, c, outcome))
  {
    match outcome {
      case Aborted => AbortKept(env, tls, c);
      case BadAuth(err) => ErrorEndsExchange(env, tls, c, err);
      case Credentials(username, password) => LoginKept(env, tls, c, username, password);
    }
  }

  lemma AbortKept<H>(env: Env<H>, tls: Option<Acceptor>, c: Conf<H>)
    requires Concludes(env, tls, c, Aborted)
    ensures Kept(env, tls, c)
  {
    hide Expected, Stopped, Follows;
  }

  lemma LoginKept<H>(env: Env<H>, tls: Option<Acceptor>, c: Conf<H>, username: string, password: string)
    requires Concludes(env, tls, c, Credentials(username, password))
    ensures Kept(env, tls, FinishAuth(env, c, Credentials(username, password)))
  {
    hide OnLine, Follows, AfterAnswer;
    var (h, answer) := env.handler.onLogin(c.handler, username, password);
    var e := LoginCalled(username, password, answer.Accept?);
    var reply := if answer.Accept? then AUTH_OK else AUTH_FAIL;
    FollowsOn(env, tls, c.log, e);
    InitOfSnoc(c.log, e);
    FollowsOn(env, tls, c.log + [e], Sent(reply));
    AfterSent(env, tls, c.log + [e], reply);
  }

  lemma AuthKept<H>(env: Env<H>, o: Origin<H>, c: Conf<H>, c1: Conf<H>, line: Bytes,
                    mechanism: Cmd.AuthMethod, initial: Option<Bytes>)
    requires ReadsCommand(env, o, c, c1, line, Cmd.Authenticate(mechanism, initial))
    ensures Kept(env, o.acceptor, OnAuth(env, c1, mechanism, initial))
  {
    hide Follows, Inv, InContent, Cmd.Parse, OnLine, Expected, Challenged, Ready, OnExchange;
    hide Kept, FinishAuth, AuthPlain, AuthLogin;
    var command := Cmd.Authenticate(mechanism, initial);
    StateShows(env, o, c);
    if c.state.phase != Greeted || (env.authMode == RequireTls && !c.link.Secure?) {
      PlainReplyKept(env, o, c, c1, line, command, BAD_SEQUENCE);
    } else if env.authMode == NoAuth {
      PlainReplyKept(env, o, c, c1, line, command, SyntaxError(None));
    } else {
      LineExpected(env, o, c, c1, line);
      RepliesTo(env, o, c, c1, line, command);
      InitOfSnoc(c.log, Recv(line));
      if mechanism.Plain? {
        PlainConcludes(env, o.acceptor, c1, initial);
      } else {
        LoginConcludes(env, o.acceptor, c1, c.log, line, initial);
      }
      var (c2, outcome) := HandleAuth(env, c1, mechanism, initial);
      FinishKept(env, o.acceptor, c2, outcome);
    }
  }

  // ----- every command -----

  lemma ExecuteKept<H>(env: Env<H>, o: Origin<H>, c: Conf<H>, c1: Conf<H>, line: Bytes, command: Cmd.Command)
    requires ReadsCommand(env, o, c, c1, line, command)
    ensures Kept(env, o.acceptor, Execute(env, c1, command))
  {
    hide Kept, ReadsCommand, OnHello, OnStartTls, OnAuth, OnMailFrom, OnRecipient, OnData, OnReset, SayAll, HelpReplies;
    match command {
      case Hello(domain, extended) => HelloKept(env, o, c, c1, line, domain, extended);
      case Help => HelpKept(env, o, c, c1, line);
      case StartTls => StartTlsKept(env, o, c, c1, line);
      case Authenticate(mechanism, initial) => AuthKept(env, o, c, c1, line, mechanism, initial);
      case Mail(from) => MailFromKept(env, o, c, c1, line, from);
      case Recipient(to) => RecipientKept(env, o, c, c1, line, to);
      case Data => DataKept(env, o, c, c1, line);
      case Reset => ResetKept(env, o, c, c1, line);
      case NoOp => PlainReplyKept(env, o, c, c1, line, Cmd.NoOp, OK);
      case Quit => QuitKept(env, o, c, c1, line);
    }
  }

  lemma CommandLineKept<H>(env: Env<H>, o: Origin<H>, c: Conf<H>, c1: Conf<H>, line: Bytes)
    requires Reads(env, o, c, c1, line)
    ensures Kept(env, o.acceptor, OnCommandLine(env, c1, line))
  {
    hide Follows, Inv, InContent, Cmd.Parse, Expected, Challenged, Execute, OnContent, OnAnswer, OnCommand;
    var p := Cmd.Parse(env.lib.lossy, line);
    if p.Ok? {
      ExecuteKept(env, o, c, c1, line, p.value);
    } else {
      LineExpected(env, o, c, c1, line);
      OneReply(env, o, c, c1, line, SyntaxError(Some(p.error)));
    }
  }

  // ----- message content -----

  lemma ContentShows<H>(env: Env<H>, o: Origin<H>, c: Conf<H>)
    requires Inv(env, o, c) && c.status.Running? && c.state.phase.Data?
    ensures InContent(env.lib.lossy, c.log) && Content(c.log) == c.state.mail.data
    ensures Transcripts.Envelope(env.lib.lossy, c.log) == Some(c.state.mail.(data := []))
  {
    hide Background, LoginExplained, InContent, Due, Greeting;
  }

  lemma DeliveryKept<H>(env: Env<H>, tls: Option<Acceptor>, c: Conf<H>)
    requires Follows(env, tls, c.log) && Expected(env, tls, c.log) == CallMail(c.state.mail) && c.status.Running?
    ensures Kept(env, tls, DeliverMail(env, c))
  {
    hide OnLine, Follows, AfterAnswer;
    var (h, failure) := env.handler.onMail(c.handler, c.state.mail);
    var e := MailCalled(c.state.mail, failure);
    var reply := match failure case Some(err) => MAIL_HANDLER_ERROR.Extend(err) case None => MAIL_ACCEPTED;
    FollowsOn(env, tls, c.log, e);
    InitOfSnoc(c.log, e);
    FollowsOn(env, tls, c.log + [e], Sent(reply));
    AfterSent(env, tls, c.log + [e], reply);
  }

  lemma ContentLineKept<H>(env: Env<H>, o: Origin<H>, c: Conf<H>, c1: Conf<H>, line: Bytes)
    requires Inv(env, o, c) && c.status.Running? && c.state.phase.Data? && Kept(env, o.acceptor, c)
    requires c1 == c.(link := c.link.(rest := c1.link.rest), log := c.log + [Recv(line)])
    ensures Kept(env, o.acceptor, OnDataLine(env, c1, line))
  {
    hide Inv, Follows, Expected, Transcripts.Envelope, InContent, Content, Unstuff, IsTerminator;
    hide DeliverMail, Challenged;
    ContentShows(env, o, c);
    FollowsOn(env, o.acceptor, c.log, Recv(line));
    AfterRecv(env, o.acceptor, c.log, line);
    if IsTerminator(line) {
      assert c.state.mail.(data := []).(data := Content(c.log)) == c.state.mail;
      DeliveryKept(env, o.acceptor, c1);
    } else if |c.state.mail.data| + |Unstuff(line)| > env.maxMessageSize {
      assert DATA_TOO_LONG.code == 552;
      Replied(env, o.acceptor, c.log, line, DATA_TOO_LONG);
    }
  }

  // ----- every turn -----

  lemma EndOfStreamKept<H>(env: Env<H>, tls: Option<Acceptor>, c: Conf<H>)
    requires Follows(env, tls, c.log) && Expected(env, tls, c.log) == Input && !Challenged(c.log)
    ensures Kept(env, tls, Fail(Note(c, Eof), UnexpectedEof))
  {
    hide OnLine, AfterReplies, Follows;
    FollowsOn(env, tls, c.log, Eof);
    InitOfSnoc(c.log, Eof);
  }

  lemma StepKept<H>(env: Env<H>, o: Origin<H>, c: Conf<H>)
    requires Inv(env, o, c) && c.status.Running? && Kept(env, o.acceptor, c)
    ensures Kept(env, o.acceptor, Step(env, c))
  {
    hide Inv, Follows, Expected, Challenged, OnCommandLine, OnDataLine;
    match NextLine(c.link.rest) {
      case Line(line, rest) =>
        var c1 := c.(link := c.link.(rest := rest), log := c.log + [Recv(line)]);
        if c.state.phase.Data? {
          ContentLineKept(env, o, c, c1, line);
        } else {
          CommandLineKept(env, o, c, c1, line);
        }
      case AtEof => EndOfStreamKept(env, o.acceptor, c);
      case _ =>
    }
  }

  lemma StartKept<H>(env: Env<H>, o: Origin<H>)
    ensures Kept(env, o.acceptor, Start(env, o.handler, Plain(o.input, o.acceptor)))
  {
    hide HelloReplies, HelpReplies;
    var banner := Banner(env.serverName);
    assert [] + [Sent(banner)] == [Sent(banner)];
    FollowsOn(env, o.acceptor, [], Sent(banner));
    AfterSent(env, o.acceptor, [], banner);
  }

  // Every session does, event by event, what its transcript demands, and ends nowhere else than where
  // nothing more is expected, at a line that cannot be read, or at a failed TLS handshake.
  lemma {:induction false} AlwaysExpected<H>(env: Env<H>, o: Origin<H>, n: nat)
    ensures Kept(env, o.acceptor, After(env, Start(env, o.handler, Plain(o.input, o.acceptor)), n))
  {
    hide Step, Kept;
    if n == 0 {
      StartKept(env, o);
    } else {
      AlwaysExpected(env, o, n - 1);
      InvAlways(env, o, n - 1);
      var before := After(env, Start(env, o.handler, Plain(o.input, o.acceptor)), n - 1);
      if before.status.Running? {
        StepKept(env, o, before);
      }
    }
  }

  // ----- commands that undo -----

  // The line at position j was read as a command.
  predicate CommandLine(lossy: Cmd.Lossy, t: Log, j: nat)
  {
    j < |t| && t[j].Recv? && !InContent(lossy, t[..j]) && !Challenged(t[..j])
  }

  // The line at position j is a command that undoes greeting, login and transaction: a RSET, or a
  // STARTTLS answered with 220.
  predicate Undoes(lossy: Cmd.Lossy, t: Log, j: nat)
  {
    CommandLine(lossy, t, j) &&
    match Cmd.Parse(lossy, t[j].line)
    case Ok(Reset) => true
    case Ok(StartTls) => j + 1 < |t| && t[j + 1] == Sent(START_TLS)
    case _ => false
  }

  // What it undoes is not yet undone at the end of t.
  predicate Undoing(lossy: Cmd.Lossy, t: Log)
  {
    (|t| >= 1 && Undoes(lossy, t, |t| - 1)) || (|t| >= 2 && Undoes(lossy, t, |t| - 2))
  }

  lemma UndoneByNext<H>(env: Env<H>, tls: Option<Acceptor>, t: Log, j: nat)
    requires Follows(env, tls, t) && Undoes(env.lib.lossy, t, j) && j + 2 < |t|
    ensures t[j + 1].Sent? && (t[j + 2].ResetCalled? || t[j + 2].TlsStarted?)
    ensures Cmd.Parse(env.lib.lossy, t[j].line) == Ok(Cmd.Reset) ==> t[j + 1] == Sent(RESET) && t[j + 2] == ResetCalled
  {
    hide Cmd.Parse, InContent, Challenged, Follows, OnContent, OnAnswer, HelloReplies, HelpReplies;
    var b := t[..j];
    assert t[..j + 1] == b + [t[j]];
    assert t[..j + 2] == t[..j + 1] + [t[j + 1]];
    InitOfSnoc(b, t[j]);
    EveryEventExpected(env, tls, t, j + 1);
    EveryEventExpected(env, tls, t, j + 2);
    AfterRecv(env, tls, b, t[j].line);
    AfterSent(env, tls, t[..j + 1], t[j + 1].reply);
  }

  // Between undoing calls there is no undoing command: greetings, logins and transactions that were
  // not undone by a call were not undone by a command.
  lemma NothingUndone<H>(env: Env<H>, tls: Option<Acceptor>, t: Log, k: nat, j: nat)
    requires Follows(env, tls, t) && !Undoing(env.lib.lossy, t)
    requires forall i :: k <= i < |t| ==> !t[i].ResetCalled? && !t[i].TlsStarted?
    requires k <= j
    ensures !Undoes(env.lib.lossy, t, j)
  {
    hide Follows, Cmd.Parse;
    if Undoes(env.lib.lossy, t, j) {
      if j + 2 < |t| {
        UndoneByNext(env, tls, t, j);
      }
    }
  }

  // Nothing is being undone where a session waits for input.
  lemma InputUndoesNothing<H>(env: Env<H>, tls: Option<Acceptor>, t: Log)
    requires Follows(env, tls, t) && Expected(env, tls, t) == Input
    ensures !Undoing(env.lib.lossy, t)
  {
    hide Cmd.Parse, InContent, Challenged, Follows, OnContent, OnAnswer, HelloReplies, HelpReplies;
    assert t != [] ==> t[..|t| - 1] == Init(t);
    if |t| >= 2 && Undoes(env.lib.lossy, t, |t| - 2) {
      var j := |t| - 2;
      assert t == t[..j + 1] + [t[j + 1]] && t[..j + 1] == t[..j] + [t[j]];
      InitOfSnoc(t[..j], t[j]);
      EveryEventExpected(env, tls, t, j + 1);
      AfterRecv(env, tls, t[..j], t[j].line);
      AfterSent(env, tls, t[..j + 1], t[j + 1].reply);
    }
  }

  // Nor while message content is read.
  lemma ContentUndoesNothing(lossy: Cmd.Lossy, t: Log)
    requires InContent(lossy, t)
    ensures !Undoing(lossy, t)
  {
    hide Cmd.Parse;
    assert t[..|t| - 1] == Init(t);
    if |t| >= 2 {
      assert t[..|t| - 2] == Init(Init(t));
    }
  }

  // Whether a command undoes shows in the event after it.
  lemma UndoesInPrefix(lossy: Cmd.Lossy, t: Log, n: nat, j: nat)
    requires j + 1 < n <= |t|
    ensures Undoes(lossy, t[..n], j) <==> Undoes(lossy, t, j)
  {
    hide Cmd.Parse, InContent, Challenged;
    assert t[..n][..j] == t[..j];
  }

  // A mail is delivered at the end of its content.
  lemma DeliveredFromContent<H>(env: Env<H>, tls: Option<Acceptor>, t: Log)
    requires t != [] && Follows(env, tls, t) && Last(t).MailCalled?
    ensures |t| >= 2 && Last(Init(t)).Recv? && InContent(env.lib.lossy, Init(Init(t)))
    ensures IsTerminator(Last(Init(t)).line)
    ensures !Undoing(env.lib.lossy, Init(t))
  {
    hide Cmd.Parse, InContent, IsTerminator, Challenged, PlainCredentials, LoginCredentials, HelloReplies, HelpReplies;
    var b := Init(t);
    if b != [] && Last(b).Recv? {
      DeliveryExpected(env, tls, Init(b), Last(b).line);
      ContentUndoesNothing(env.lib.lossy, Init(b));
      assert b[..|b| - 1] == Init(b);
      if |b| >= 2 {
        assert !Undoes(env.lib.lossy, Init(b), |Init(b)| - 1);
        EndOfContent(env.lib.lossy, b);
      }
    }
  }

  lemma DeliveryExpected<H>(env: Env<H>, tls: Option<Acceptor>, t: Log, line: Bytes)
    requires OnLine(env, tls, t, line).CallMail?
    ensures InContent(env.lib.lossy, t) && IsTerminator(line)
  {
    hide Cmd.Parse, InContent, IsTerminator, PlainCredentials, LoginCredentials, HelpReplies;
  }

  lemma TerminatorUndoesNothing(lossy: Cmd.Lossy, t: Log, k: nat)
    requires k < |t| && InContent(lossy, t[..k])
    ensures !Undoes(lossy, t, k)
  {
    hide Cmd.Parse, InContent, Challenged;
  }

  lemma EndOfContent(lossy: Cmd.Lossy, b: Log)
    requires |b| >= 2 && Last(b).Recv? && InContent(lossy, Init(b))
    ensures !Undoing(lossy, b)
  {
    hide Cmd.Parse;
    assert b[..|b| - 1] == Init(b) && b[..|b| - 2] == Init(Init(b));
  }
}
