/** What a transcript alone says: replies owed, the message being assembled, who is logged in,
    which bytes were read, and what the event handler has been through. */
module Transcripts {
  import opened Basics
  import opened Responses
  import opened Mails
  import opened Connections
  import opened Protocol
  import Cmd = Commands

  // ----- counting -----

  function FinalReplies(t: Log): nat
  {
    if t == [] then 0 else FinalReplies(Init(t)) + (if Last(t).Sent? && !Last(t).reply.hasNext then 1 else 0)
  }

  function LinesRead(t: Log): nat
  {
    if t == [] then 0 else LinesRead(Init(t)) + (if Last(t).Recv? then 1 else 0)
  }

  function EofsSeen(t: Log): nat
  {
    if t == [] then 0 else EofsSeen(Init(t)) + (if Last(t).Eof? then 1 else 0)
  }

  function TlsUpgrades(t: Log): nat
  {
    if t == [] then 0 else TlsUpgrades(Init(t)) + (if Last(t).TlsStarted? then 1 else 0)
  }

  // Message content is being read: DATA was granted, and only lines of content came since.
  predicate InContent(lossy: Cmd.Lossy, t: Log)
  {
    t != [] &&
    match Last(t)
    case Sent(reply) => reply == DATA_START && CommandAt(lossy, t, |t| - 2) == Some(Cmd.Data)
    case Recv(line) => !IsTerminator(line) && InContent(lossy, Init(t))
    case _ => false
  }

  // Lines that are message content.
  function ContentLines(lossy: Cmd.Lossy, t: Log): nat
  {
    if t == [] then 0
    else ContentLines(lossy, Init(t)) + (if Last(t).Recv? && InContent(lossy, t) then 1 else 0)
  }

  // Final replies not yet sent: the connection is due one, and so is every line that is not message
  // content, and the end of the stream.
  function Due(lossy: Cmd.Lossy, t: Log): int
  {
    1 + LinesRead(t) + EofsSeen(t) - ContentLines(lossy, t) - FinalReplies(t)
  }

  // The text of the replies, as written to the client.
  function Wire(t: Log): string
  {
    if t == [] then ""
    else match Last(t)
      case Sent(reply) => Wire(Init(t)) + reply.Line() + "\r\n"
      case _ => Wire(Init(t))
  }

  // ----- the message being assembled -----

  // The envelope: the sender of the last MAIL answered with OK and the RCPTs answered with OK since,
  // unless the transaction ended by delivery, RSET or STARTTLS.
  function Envelope(lossy: Cmd.Lossy, t: Log): Option<Mail>
  {
    if |t| < 2 then None
    else
      var before := Envelope(lossy, Init(t));
      match Last(t)
      case MailCalled(_, _) => None
      case ResetCalled => None
      case TlsStarted => None
      case Sent(reply) =>
        if reply == OK && Last(Init(t)).Recv? then
          match Cmd.Parse(lossy, Last(Init(t)).line)
          case Ok(Mail(from)) => Some(EMPTY_MAIL.SetSender(from))
          case Ok(Recipient(to)) => if before.Some? then Some(before.value.AddRecipient(to)) else None
          case _ => before
        else before
      case _ => before
  }

  // The content lines at the end of the transcript, with dot-stuffing undone.
  function Content(t: Log): Bytes
  {
    if t == [] || !Last(t).Recv? then [] else Content(Init(t)) + Unstuff(Last(t).line)
  }

  // An accepted greeting not undone by RSET or STARTTLS.
  predicate Greeting(t: Log)
  {
    t != [] &&
    match Last(t)
    case HelloCalled(_, _, accepted) => accepted
    case ResetCalled => false
    case TlsStarted => false
    case _ => Greeting(Init(t))
  }

  // The user of the last login, unless it was refused or undone by RSET or STARTTLS.
  function LastLogin(t: Log): Option<string>
  {
    if t == [] then None
    else match Last(t)
      case LoginCalled(username, _, accepted) => if accepted then Some(username) else None
      case ResetCalled => None
      case TlsStarted => None
      case _ => LastLogin(Init(t))
  }

  // ----- the bytes read -----

  function ReadSinceTls(t: Log): Bytes
  {
    if t == [] || Last(t).TlsStarted? then []
    else ReadSinceTls(Init(t)) + (if Last(t).Recv? then Last(t).line else [])
  }

  function ReadBeforeTls(t: Log): Bytes
  {
    if t == [] then []
    else if Last(t).TlsStarted? then ReadSinceTls(Init(t))
    else ReadBeforeTls(Init(t))
  }

  // ----- the event handler -----

  // The handler's state after the calls in a transcript.
  function Replay<H>(handler: Handler<H>, h: H, t: Log): H
  {
    if t == [] then h
    else
      var before := Replay(handler, h, Init(t));
      match Last(t)
      case HelloCalled(domain, extended, _) => handler.onHello(before, domain, extended).0
      case LoginCalled(username, password, _) => handler.onLogin(before, username, password).0
      case MailCalled(mail, _) => handler.onMail(before, mail).0
      case ResetCalled => handler.onReset(before)
      case _ => before
  }

  // The transcript records the answers the handler gave.
  ghost predicate AnswersRecorded<H>(handler: Handler<H>, h: H, t: Log)
  {
    t == [] ||
    (AnswersRecorded(handler, h, Init(t)) &&
     var before := Replay(handler, h, Init(t));
     match Last(t)
     case HelloCalled(domain, extended, accepted) =>
       accepted == handler.onHello(before, domain, extended).1.Accept?
     case LoginCalled(username, password, accepted) =>
       accepted == handler.onLogin(before, username, password).1.Accept?
     case MailCalled(mail, failure) => failure == handler.onMail(before, mail).1
     case _ => true)
  }

  // ----- delivered mail -----

  // The transcript t up to a delivery accounts for the mail delivered.
  ghost predicate MailExplained<H>(env: Env<H>, t: Log, mail: Mail)
  {
    && t != [] && Last(t).Recv? && IsTerminator(Last(t).line)
    && var b := Init(t);
       var envelope := Envelope(env.lib.lossy, b);
       && InContent(env.lib.lossy, b) && envelope.Some?
       && mail == Mail(envelope.value.sender, envelope.value.recipients, Content(b))
       && |mail.data| <= env.maxMessageSize
       && (env.HasAuth() ==> LastLogin(b).Some?)
  }

  // ----- causes of handler calls -----

  // The command in the line at position i of a transcript.
  function CommandAt(lossy: Cmd.Lossy, t: Log, i: int): Option<Cmd.Command>
  {
    if 0 <= i < |t| && t[i].Recv? then
      match Cmd.Parse(lossy, t[i].line)
      case Ok(command) => Some(command)
      case Err(_) => None
    else None
  }

  function LoginCredentials(lib: Library, user: Bytes, password: Bytes): AuthOutcome
  {
    var u := DecodeBase64(lib, user);
    var p := DecodeBase64(lib, password);
    if u.Some? && p.Some? then Credentials(lib.lossy(u.value), lib.lossy(p.value)) else Aborted
  }

  // The transcript ends with an AUTH exchange (section 4 of RFC 4954) that yields the outcome: the
  // payload in the command or in the answer to a challenge, LOGIN always asking for the password.
  predicate Exchanged(lib: Library, t: Log, outcome: AuthOutcome)
  {
    var n := |t|;
    || (match CommandAt(lib.lossy, t, n - 1)
        case Some(Authenticate(Plain, Some(payload))) => outcome == PlainCredentials(lib, payload)
        case _ => false)
    || (&& CommandAt(lib.lossy, t, n - 3) == Some(Cmd.Authenticate(Cmd.Plain, None))
        && t[n - 2] == Sent(AUTH_CHALLENGE_PLAIN) && t[n - 1].Recv?
        && outcome == PlainCredentials(lib, t[n - 1].line))
    || (match CommandAt(lib.lossy, t, n - 3)
        case Some(Authenticate(Login, Some(user))) =>
          && t[n - 2] == Sent(AUTH_CHALLENGE_LOGIN_PASSWORD) && t[n - 1].Recv?
          && outcome == LoginCredentials(lib, user, t[n - 1].line)
        case _ => false)
    || (&& CommandAt(lib.lossy, t, n - 5) == Some(Cmd.Authenticate(Cmd.Login, None))
        && t[n - 4] == Sent(AUTH_CHALLENGE_LOGIN_USERNAME) && t[n - 3].Recv?
        && t[n - 2] == Sent(AUTH_CHALLENGE_LOGIN_PASSWORD) && t[n - 1].Recv?
        && outcome == LoginCredentials(lib, t[n - 3].line, t[n - 1].line))
  }

  // The transcript t accounts for the event that follows it.
  ghost predicate Caused<H>(env: Env<H>, t: Log, e: Event)
  {
    match e
    case MailCalled(mail, _) => MailExplained(env, t, mail)
    case LoginCalled(username, password, _) =>
      env.HasAuth() && Exchanged(env.lib, t, Credentials(username, password))
    case HelloCalled(domain, extended, _) =>
      CommandAt(env.lib.lossy, t, |t| - 1) == Some(Cmd.Hello(domain, extended)) && !Greeting(t)
    case ResetCalled =>
      CommandAt(env.lib.lossy, t, |t| - 2) == Some(Cmd.Reset) && Last(t) == Sent(RESET)
    case TlsStarted =>
      CommandAt(env.lib.lossy, t, |t| - 2) == Some(Cmd.StartTls) && Last(t) == Sent(START_TLS) && Greeting(t)
    case _ => true
  }

  ghost predicate AllCaused<H>(env: Env<H>, t: Log)
  {
    t == [] || (AllCaused(env, Init(t)) && Caused(env, Init(t), Last(t)))
  }

  lemma {:induction false} EveryEventCaused<H>(env: Env<H>, t: Log, i: nat)
    requires AllCaused(env, t) && i < |t|
    ensures Caused(env, t[..i], t[i])
  {
    hide Caused;
    if i < |t| - 1 {
      assert Init(t)[..i] == t[..i];
      EveryEventCaused(env, Init(t), i);
    }
  }

  // What holds of a transcript's events holds of those of every part of it: a session that is cut off
  // within a turn has been through such a part.
  lemma {:induction false} CausedSoFar<H>(env: Env<H>, t: Log, i: nat)
    requires AllCaused(env, t) && i <= |t|
    ensures AllCaused(env, t[..i])
  {
    hide Caused;
    if i == |t| {
      assert t[..i] == t;
    } else {
      assert Init(t)[..i] == t[..i];
      CausedSoFar(env, Init(t), i);
    }
  }

  lemma {:induction false} RecordedSoFar<H>(handler: Handler<H>, h: H, t: Log, i: nat)
    requires AnswersRecorded(handler, h, t) && i <= |t|
    ensures AnswersRecorded(handler, h, t[..i])
  {
    hide Replay;
    if i == |t| {
      assert t[..i] == t;
    } else {
      assert Init(t)[..i] == t[..i];
      RecordedSoFar(handler, h, Init(t), i);
    }
  }

  // ----- one more event -----

  lemma Grow(t: Log, e: Event)
    ensures Init(t + [e]) == t && Last(t + [e]) == e
    ensures FinalReplies(t + [e]) == FinalReplies(t) + (if e.Sent? && !e.reply.hasNext then 1 else 0)
    ensures LinesRead(t + [e]) == LinesRead(t) + (if e.Recv? then 1 else 0)
    ensures EofsSeen(t + [e]) == EofsSeen(t) + (if e.Eof? then 1 else 0)
    ensures TlsUpgrades(t + [e]) == TlsUpgrades(t) + (if e.TlsStarted? then 1 else 0)
    ensures ReadSinceTls(t + [e]) ==
            if e.TlsStarted? then [] else if e.Recv? then ReadSinceTls(t) + e.line else ReadSinceTls(t)
    ensures ReadBeforeTls(t + [e]) == if e.TlsStarted? then ReadSinceTls(t) else ReadBeforeTls(t)
  {
    InitOfSnoc(t, e);
  }

  // A line outside message content becomes due, and so does the end of the stream.
  lemma GrowDue(lossy: Cmd.Lossy, t: Log, e: Event)
    ensures Due(lossy, t + [e]) == Due(lossy, t) + (if e.Recv? then (if InContent(lossy, t + [e]) then 0 else 1)
                                                    else if e.Eof? then 1
                                                    else if e.Sent? && !e.reply.hasNext then -1 else 0)
    ensures InContent(lossy, t + [e]) ==
            match e
            case Sent(reply) => reply == DATA_START && CommandAt(lossy, t, |t| - 1) == Some(Cmd.Data)
            case Recv(line) => !IsTerminator(line) && InContent(lossy, t)
            case _ => false
  {
    hide InContent, CommandAt;
    Grow(t, e);
    GrowContent(lossy, t, e);
  }

  lemma GrowContent(lossy: Cmd.Lossy, t: Log, e: Event)
    ensures InContent(lossy, t + [e]) ==
            match e
            case Sent(reply) => reply == DATA_START && CommandAt(lossy, t, |t| - 1) == Some(Cmd.Data)
            case Recv(line) => !IsTerminator(line) && InContent(lossy, t)
            case _ => false
  {
    hide Cmd.Parse, IsTerminator;
    InitOfSnoc(t, e);
    assert t != [] ==> (t + [e])[|t| - 1] == t[|t| - 1];
  }
}
