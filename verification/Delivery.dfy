/** The history of a delivered mail: the MAIL, RCPT and DATA commands granted for it and the lines of
    its content; and a mail delivered to nobody. */
module Deliveries {
  import opened Basics
  import opened Responses
  import opened Mails
  import opened Lines
  import opened Connections
  import opened Protocol
  import opened Transcripts
  import opened Invariants
  import opened Expectations
  import opened SessionTheorems
  import Cmd = Commands
  import Transparency

  // ----- content -----

  // DATA was granted for the line at position k, and from there to the end of t every line is content.
  predicate DataGranted(lossy: Cmd.Lossy, t: Log, k: nat)
  {
    && k + 1 < |t| && t[k].Recv? && Cmd.Parse(lossy, t[k].line) == Ok(Cmd.Data) && t[k + 1] == Sent(DATA_START)
    && forall j :: k + 1 < j < |t| ==> t[j].Recv? && !IsTerminator(t[j].line)
  }

  // What the lines of t stand for, first to last.
  function Unstuffed(t: Log): Bytes
  {
    if t == [] then [] else (if t[0].Recv? then Unstuff(t[0].line) else []) + Unstuffed(t[1..])
  }

  lemma {:induction false} UnstuffedSnoc(t: Log, line: Bytes)
    ensures Unstuffed(t + [Recv(line)]) == Unstuffed(t) + Unstuff(line)
  {
    hide Unstuff;
    if t == [] {
      assert Unstuffed([Recv(line)]) == Unstuff(line) + Unstuffed([]);
    } else {
      assert (t + [Recv(line)])[1..] == t[1..] + [Recv(line)];
      UnstuffedSnoc(t[1..], line);
    }
  }

  // While content is read, DATA was granted, only content came since, and the captured data are what
  // those lines stand for.
  lemma {:induction false} ContentMeaning(lossy: Cmd.Lossy, t: Log) returns (k: nat)
    requires InContent(lossy, t)
    ensures DataGranted(lossy, t, k) && Content(t) == Unstuffed(t[k + 2..])
  {
    hide Cmd.Parse, Unstuff, IsTerminator;
    if Last(t).Sent? {
      k := |t| - 2;
    } else {
      k := ContentMeaning(lossy, Init(t));
      UnstuffedSnoc(Init(t)[k + 2..], Last(t).line);
      assert t[k + 2..] == Init(t)[k + 2..] + [Recv(Last(t).line)];
    }
  }

  // ----- recipients -----

  predicate RecipientGranted(lossy: Cmd.Lossy, t: Log, j: nat)
  {
    && j + 1 < |t| && t[j].Recv? && t[j + 1] == Sent(OK)
    && var p := Cmd.Parse(lossy, t[j].line); p.Ok? && p.value.Recipient?
  }

  lemma {:induction false} RecipientsIff(lossy: Cmd.Lossy, t: Log, k: nat)
    ensures GrantedRecipients(lossy, t, k) != [] <==> exists j :: k <= j && RecipientGranted(lossy, t, j)
    decreases |t| - k
  {
    hide Cmd.Parse, NormalizeAddress;
    if k + 1 < |t| {
      RecipientsIff(lossy, t, k + 1);
      assert GrantedRecipients(lossy, t, k) != [] <==>
             RecipientGranted(lossy, t, k) || GrantedRecipients(lossy, t, k + 1) != [];
    }
  }

  // ----- delivered mail -----

  // The mail's MAIL is at position m of b, its DATA at position k, and in between the client sent no
  // RSET, no STARTTLS that was taken up and no other MAIL that was granted; it has a recipient exactly
  // if a RCPT was granted since m.
  ghost predicate MailHistory(lossy: Cmd.Lossy, b: Log, mail: Mail, m: nat, from: string, k: nat)
  {
    && m < k && Granted(lossy, b, m, Cmd.Mail(from)) && Uninterrupted(lossy, b, m + 1) && DataGranted(lossy, b, k)
    && mail == Mail(NormalizeAddress(from), GrantedRecipients(lossy, b, m + 1), Unstuffed(b[k + 2..]))
    && (mail.recipients != [] <==> exists j :: m < j && RecipientGranted(lossy, b, j))
  }

  lemma GrantedInOrder(lossy: Cmd.Lossy, b: Log, m: nat, from: string, k: nat)
    requires Granted(lossy, b, m, Cmd.Mail(from)) && DataGranted(lossy, b, k)
    ensures m < k
  {
    hide Cmd.Parse;
    assert OK.code != DATA_START.code;
    assert b[m + 1].Sent?;
  }

  // Every mail handed to the handler, in every session, has such a history, closed by the terminator.
  lemma DeliveredMail<H>(env: Env<H>, o: Origin<H>, n: nat, i: nat) returns (m: nat, from: string, k: nat)
    requires i < |At(env, o, n).log| && At(env, o, n).log[i].MailCalled?
    ensures var t := At(env, o, n).log;
            && i >= 1 && t[i - 1].Recv? && IsTerminator(t[i - 1].line)
            && MailHistory(env.lib.lossy, t[..i - 1], t[i].mail, m, from, k)
            && |t[i].mail.data| <= env.maxMessageSize
            && (env.HasAuth() ==> LastLogin(t[..i - 1]).Some?)
  {
    hide Step, Cmd.Parse, Granted, DataGranted, Uninterrupted, GrantedRecipients, InContent, IsTerminator;
    hide Expected, Follows, Undoing;
    CallsAreCaused(env, o, n, i);
    var t := At(env, o, n).log;
    var b := Init(t[..i]);
    assert b == t[..i - 1];
    AlwaysExpected(env, o, n);
    FollowsSoFar(env, o.acceptor, t, i - 1);
    ContentUndoesNothing(env.lib.lossy, b);
    m, from := EnvelopeMeaning(env, o.acceptor, b);
    k := ContentMeaning(env.lib.lossy, b);
    GrantedInOrder(env.lib.lossy, b, m, from, k);
    RecipientsIff(env.lib.lossy, b, m + 1);
  }

  // ----- a mail to nobody -----

  // One turn for a command line.
  lemma CommandTurn<H>(env: Env<H>, c: Conf<H>, body: Bytes, rest: Bytes, command: Cmd.Command)
    requires c.status.Running? && !c.state.phase.Data?
    requires LF !in body && |body| + 2 <= MAX_LINE_LENGTH && c.link.rest == body + CRLF + rest
    requires Cmd.Parse(env.lib.lossy, body + CRLF) == Ok(command)
    ensures Step(env, c) ==
            Execute(env, c.(link := c.link.(rest := rest), log := c.log + [Recv(body + CRLF)]), command)
  {
    hide Cmd.Parse, Execute;
    assert Init(body + CRLF) == body + [CR];
    Transparency.ReadSent(c, body + CRLF, rest);
  }

  const X: Bytes := [120]
  const HELO_X: Bytes := Cmd.HELO + ([SPACE] + X)
  const EHLO_X: Bytes := Cmd.EHLO + ([SPACE] + X)
  const MAIL_FROM_X: Bytes := Cmd.MAIL + ([SPACE] + (Cmd.FROM + X))

  lemma GreetingsParse(lossy: Cmd.Lossy)
    ensures Cmd.Parse(lossy, HELO_X + CRLF) == Ok(Cmd.Hello(Cmd.Text(lossy, X), false))
    ensures Cmd.Parse(lossy, EHLO_X + CRLF) == Ok(Cmd.Hello(Cmd.Text(lossy, X), true))
  {
    hide Cmd.Parse, Cmd.Interpret;
    Cmd.UpperVerbs();
    Cmd.ParseOfWords(lossy, Cmd.HELO, Some(X));
    Cmd.ParseOfWords(lossy, Cmd.EHLO, Some(X));
    Cmd.InterpretOfArgument(lossy, X);
  }

  lemma MailParses(lossy: Cmd.Lossy)
    ensures Cmd.Parse(lossy, MAIL_FROM_X + CRLF) == Ok(Cmd.Mail(Cmd.Text(lossy, X)))
    ensures Cmd.Parse(lossy, Cmd.DATA + CRLF) == Ok(Cmd.Data)
  {
    hide Cmd.Parse, Cmd.Interpret, Cmd.StripPrefixIgnoreCase;
    Cmd.UpperVerbs();
    Cmd.UpperKeywords();
    Cmd.ParseOfWords(lossy, Cmd.MAIL, Some(Cmd.FROM + X));
    Cmd.InterpretOfArgument(lossy, Cmd.FROM + X);
    Cmd.OpensItself(Cmd.FROM, X);
    Cmd.StripSound(Cmd.FROM + X, Cmd.FROM);
    Cmd.CommandRoundTrip(lossy, Cmd.Data);
    assert Cmd.Print(Cmd.Data) == Cmd.DATA + [] == Cmd.DATA;
  }

  // HELO, MAIL, DATA and an empty content: the handler is given a mail without recipients.
  lemma DeliveredToNobody<H>(env: Env<H>, o: Origin<H>, rest: Bytes)
    requires env.authMode == NoAuth && env.handler.onHello(o.handler, Cmd.Text(env.lib.lossy, X), false).1.Accept?
    requires o.input == HELO_X + CRLF + (MAIL_FROM_X + CRLF + (Cmd.DATA + CRLF + ([DOT, CR, LF] + rest)))
    ensures var t := At(env, o, 4).log;
            && |t| >= 2 && t[|t| - 2].MailCalled?
            && t[|t| - 2].mail == Mail(NormalizeAddress(Cmd.Text(env.lib.lossy, X)), [], [])
            && var h := env.handler.onHello(o.handler, Cmd.Text(env.lib.lossy, X), false).0;
               t[|t| - 2].failure == env.handler.onMail(h, t[|t| - 2].mail).1
  {
    hide Step, Cmd.Parse, Cmd.Text, NormalizeAddress;
    var content := [DOT, CR, LF] + rest;
    var from := Cmd.Text(env.lib.lossy, X);
    GreetingsParse(env.lib.lossy);
    MailParses(env.lib.lossy);
    var c0 := At(env, o, 0);
    CommandTurn(env, c0, HELO_X, MAIL_FROM_X + CRLF + (Cmd.DATA + CRLF + content), Cmd.Hello(from, false));
    var c1 := At(env, o, 1);
    assert c1 == Step(env, c0);
    assert HelloReplies(env, c1.link, false) == [Final(250, env.serverName)];
    CommandTurn(env, c1, MAIL_FROM_X, Cmd.DATA + CRLF + content, Cmd.Mail(from));
    var c2 := At(env, o, 2);
    assert c2 == Step(env, c1);
    CommandTurn(env, c2, Cmd.DATA, content, Cmd.Data);
    var c3 := At(env, o, 3);
    assert c3 == Step(env, c2);
    Transparency.TerminatorStep(env, c3, [DOT, CR, LF], rest);
    assert At(env, o, 4) == Step(env, c3);
  }
}
