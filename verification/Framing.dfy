/** Reply framing (section 4.2.1 of RFC 5321): when a client that splits the text it receives into lines
    and reads on while the fourth character is a hyphen recovers exactly the replies sent, and when the
    lines of a reply carry one code. */
module Framing {
  import opened Basics
  import opened Responses
  import opened Texts
  import opened Mails
  import opened Lines
  import opened Connections
  import opened Protocol
  import opened Transcripts
  import opened Invariants
  import opened SessionTheorems
  import opened Deliveries
  import Cmd = Commands

  // ----- the client's side -----

  function DigitValue(c: char): nat
  {
    if '0' <= c <= '9' then c as nat - '0' as nat else 0
  }

  function DecimalValue(s: string): nat
  {
    if s == "" then 0 else 10 * DecimalValue(Init(s)) + DigitValue(Last(s))
  }

  // A received line, without CRLF, as a reply line.
  function ReadReply(line: string): Response
  {
    Response(DecimalValue(if |line| < 3 then line else line[..3]),
             if |line| <= 4 then "" else line[4..],
             |line| > 3 && line[3] == '-')
  }

  // The lines of a received text; an unfinished last line is still to come.
  function ReadReplies(text: string): seq<Response>
    decreases |text|
  {
    var n := IndexOf(text, '\n');
    if n < |text| then
      [ReadReply(if n > 0 && text[n - 1] == '\r' then text[..n - 1] else text[..n])] + ReadReplies(text[n + 1..])
    else []
  }

  // Replies a client takes as complete: lines that announce no further line.
  function CompleteReplies(replies: seq<Response>): nat
  {
    if replies == [] then 0 else CompleteReplies(Init(replies)) + (if Last(replies).hasNext then 0 else 1)
  }

  // ----- the server's side -----

  predicate Coded(r: Response)
  {
    100 <= r.code <= 999
  }

  // A reply that fits on its line and shows whether another line follows.
  predicate Framed(r: Response)
  {
    Coded(r) && LineFree(r.message) && (r.hasNext ==> r.message != "")
  }

  function SentReplies(t: Log): seq<Response>
  {
    if t == [] then [] else SentReplies(Init(t)) + (if Last(t).Sent? then [Last(t).reply] else [])
  }

  predicate AllCoded(t: Log)
  {
    forall i :: 0 <= i < |t| && t[i].Sent? ==> Coded(t[i].reply)
  }

  predicate AllFramed(t: Log)
  {
    forall i :: 0 <= i < |t| && t[i].Sent? ==> Framed(t[i].reply)
  }

  // ----- one line -----

  lemma {:induction false} DecimalRoundTrip(n: nat)
    ensures DecimalValue(Decimal(n)) == n
  {
    if n >= 10 {
      DecimalRoundTrip(n / 10);
      InitOfSnoc(Decimal(n / 10), Digit(n % 10));
    } else {
      assert Init([Digit(n)]) == "";
    }
  }

  lemma ReplyRoundTrip(r: Response)
    requires Coded(r)
    ensures ReadReply(r.Line()) == r <==> (r.hasNext ==> r.message != "")
  {
    DecimalRoundTrip(r.code);
    var d := Decimal(r.code);
    var line := r.Line();
    assert line[..3] == d;
    if r.message != "" {
      assert line[4..] == r.message;
    }
  }

  // The first line of a text that ends at a line end, without its LF, and the rest.
  lemma CutLine(text: string) returns (line: string, rest: string)
    requires text != "" && Last(text) == '\n'
    ensures LineFree(line) && text == line + "\n" + rest
    ensures rest == "" || Last(rest) == '\n'
  {
    var n := IndexOf(text, '\n');
    assert Last(text) in text;
    line, rest := text[..n], text[n + 1..];
  }

  lemma ReadFirst(line: string, rest: string)
    requires LineFree(line)
    ensures ReadReplies(line + "\n" + rest) ==
            [ReadReply(if line != "" && Last(line) == '\r' then Init(line) else line)] + ReadReplies(rest)
  {
    hide ReadReply;
    var text := line + "\n" + rest;
    assert text[..|line|] == line && text[|line| + 1..] == rest;
    IndexOfUnique(text, '\n', |line|);
    if line != "" {
      assert text[..|line| - 1] == Init(line);
    }
  }

  // Text that ends at a line end does not run into what follows.
  lemma {:induction false} ReadAppended(text: string, more: string)
    requires text == "" || Last(text) == '\n'
    ensures ReadReplies(text + more) == ReadReplies(text) + ReadReplies(more)
    decreases |text|
  {
    hide ReadReply, ReadReplies, LineFree;
    if text == "" {
      assert text + more == more;
      NothingToRead();
    } else {
      var line, rest := CutLine(text);
      assert text + more == line + "\n" + (rest + more);
      ReadFirst(line, rest);
      ReadFirst(line, rest + more);
      ReadAppended(rest, more);
    }
  }

  // ----- whole transcripts -----

  lemma {:induction false} WireEnds(t: Log)
    ensures Wire(t) == "" || Last(Wire(t)) == '\n'
  {
    if t != [] {
      WireEnds(Init(t));
    }
  }

  lemma NothingToRead()
    ensures ReadReplies("") == []
  {
  }

  function LineFeeds(s: string): nat
  {
    multiset(s)['\n']
  }

  lemma NoLineToRead(text: string)
    requires LineFree(text)
    ensures ReadReplies(text) == []
  {
    assert text[..|text|] == text;
    IndexOfUnique(text, '\n', |text|);
  }

  lemma LineFeedsAdd(line: string, rest: string)
    requires LineFree(line)
    ensures LineFeeds(line) == 0 && LineFeeds(line + "\n" + rest) == 1 + LineFeeds(rest)
  {
    assert '\n' !in multiset(line);
    assert line + "\n" + rest == line + ['\n'] + rest;
    assert multiset(line + ['\n'] + rest) == multiset(line) + multiset(['\n']) + multiset(rest);
  }

  // The client takes every line feed for the end of a reply line.
  lemma {:induction false} ReadCount(text: string)
    ensures |ReadReplies(text)| == LineFeeds(text)
    decreases |text|
  {
    hide ReadReply, ReadReplies, LineFeeds;
    if LineFree(text) {
      NoLineToRead(text);
      LineFeedsAdd(text, "");
    } else {
      var n := IndexOf(text, '\n');
      assert n < |text| by {
        assert text[..|text|] == text;
      }
      var line, rest := text[..n], text[n + 1..];
      assert text == line + "\n" + rest;
      ReadFirst(line, rest);
      LineFeedsAdd(line, rest);
      ReadCount(rest);
    }
  }

  // A line feed in a reply's text splits it, in the client's eyes, into one reply more.
  lemma EachLineFeedSplits(r: Response)
    ensures |ReadReplies(r.Line() + "\r\n")| == 1 + LineFeeds(r.message)
  {
    hide ReadReplies;
    var line := r.Line();
    var delimiter := if r.message == "" then "" else if r.hasNext then "-" else " ";
    ReadCount(line + "\r\n");
    assert line == Decimal(r.code) + delimiter + r.message;
    assert multiset(line + "\r\n") ==
           multiset(Decimal(r.code)) + multiset(delimiter) + multiset(r.message) + multiset("\r\n");
  }

  // A single reply is recovered exactly if it is framed.
  lemma SingleRoundTripIff(r: Response)
    requires Coded(r)
    ensures ReadReplies(r.Line() + "\r\n") == [r] <==> Framed(r)
  {
    hide ReadReply, ReadReplies;
    var line := r.Line();
    EachLineFeedSplits(r);
    if LineFree(r.message) {
      assert line + "\r\n" == (line + "\r") + "\n" + "";
      assert LineFree(line + "\r");
      InitOfSnoc(line, '\r');
      ReadFirst(line + "\r", "");
      NothingToRead();
      assert ReadReplies(line + "\r\n") == [ReadReply(line)];
      ReplyRoundTrip(r);
      assert [ReadReply(line)][0] == ReadReply(line) && [r][0] == r;
    } else {
      assert '\n' in multiset(r.message);
      assert |ReadReplies(line + "\r\n")| > 1 == |[r]|;
    }
  }

  lemma WireGrows(t: Log)
    requires t != [] && Last(t).Sent?
    ensures ReadReplies(Wire(t)) == ReadReplies(Wire(Init(t))) + ReadReplies(Last(t).reply.Line() + "\r\n")
  {
    hide ReadReplies;
    var line := Last(t).reply.Line();
    WireEnds(Init(t));
    ReadAppended(Wire(Init(t)), line + "\r\n");
    assert Wire(Init(t)) + line + "\r\n" == Wire(Init(t)) + (line + "\r\n");
  }

  // The client never sees fewer replies than were sent.
  lemma {:induction false} ReadsAtLeast(t: Log)
    ensures |ReadReplies(Wire(t))| >= |SentReplies(t)|
  {
    hide ReadReplies;
    if t != [] {
      ReadsAtLeast(Init(t));
      if Last(t).Sent? {
        WireGrows(t);
        EachLineFeedSplits(Last(t).reply);
      }
    } else {
      NothingToRead();
    }
  }

  lemma SplitAtEnd<T>(a: seq<T>, b: seq<T>, s: seq<T>, x: T)
    requires |a| >= |s| && |b| >= 1
    ensures a + b == s + [x] <==> a == s && b == [x]
  {
    if a + b == s + [x] {
      assert |a| == |s| && |b| == 1;
      assert a == (a + b)[..|a|] && s == (s + [x])[..|s|];
      assert b[0] == (a + b)[|a|] && x == (s + [x])[|s|];
    }
  }

  lemma AllFramedGrow(t: Log)
    requires t != []
    ensures AllFramed(t) <==> AllFramed(Init(t)) && (Last(t).Sent? ==> Framed(Last(t).reply))
    ensures AllCoded(t) <==> AllCoded(Init(t)) && (Last(t).Sent? ==> Coded(Last(t).reply))
  {
    hide Framed;
    assert forall i :: 0 <= i < |t| ==> t[i] == if i < |t| - 1 then Init(t)[i] else Last(t);
  }

  // The client recovers the replies sent, each with its code, text and continuation and in order,
  // exactly if every one of them is framed.
  lemma {:induction false} WireRoundTrip(t: Log)
    requires AllCoded(t)
    ensures ReadReplies(Wire(t)) == SentReplies(t) <==> AllFramed(t)
  {
    hide ReadReplies, AllFramed, AllCoded, Framed;
    if t == [] {
      NothingToRead();
      assert AllFramed([]) by { NothingFramed(); }
    } else {
      AllFramedGrow(t);
      WireRoundTrip(Init(t));
      if Last(t).Sent? {
        var r := Last(t).reply;
        WireGrows(t);
        ReadsAtLeast(Init(t));
        EachLineFeedSplits(r);
        SingleRoundTripIff(r);
        SplitAtEnd(ReadReplies(Wire(Init(t))), ReadReplies(r.Line() + "\r\n"), SentReplies(Init(t)), r);
      }
    }
  }

  lemma NothingFramed()
    ensures AllFramed([])
  {
  }

  lemma {:induction false} CompleteIsFinal(t: Log)
    ensures CompleteReplies(SentReplies(t)) == FinalReplies(t)
  {
    if t != [] {
      CompleteIsFinal(Init(t));
      if Last(t).Sent? {
        InitOfSnoc(SentReplies(Init(t)), Last(t).reply);
      } else {
        assert SentReplies(t) == SentReplies(Init(t));
      }
    }
  }

  // ----- what can go wrong with a reply -----

  // The transcript has no EHLO answered with an empty server name, and no error text of the handler
  // that breaks its line.
  predicate Neat<H>(env: Env<H>, t: Log)
  {
    t == [] ||
    (Neat(env, Init(t)) &&
     match Last(t)
     case HelloCalled(_, extended, accepted) => extended && accepted ==> env.serverName != ""
     case MailCalled(_, Some(err)) => LineFree(err)
     case _ => true)
  }

  // ----- multi-line replies -----

  // The transcript ends within a multi-line reply.
  predicate Unfinished(t: Log)
  {
    t != [] && Last(t).Sent? && Last(t).reply.hasNext
  }

  // The last line read.
  function LastLine(t: Log): Option<Bytes>
  {
    if t == [] then None else if Last(t).Recv? then Some(Last(t).line) else LastLine(Init(t))
  }

  predicate AnswersHelp(lossy: Cmd.Lossy, t: Log)
  {
    var line := LastLine(t);
    line.Some? && Cmd.Parse(lossy, line.value) == Ok(Cmd.Help)
  }

  // e carries on the multi-line reply that t ends within, in the same code unless that answers HELP.
  predicate CarriesOn(lossy: Cmd.Lossy, t: Log, e: Event)
  {
    Unfinished(t) ==> e.Sent? && (e.reply.code == Last(t).reply.code <==> !AnswersHelp(lossy, t))
  }

  predicate Grouped(lossy: Cmd.Lossy, t: Log)
  {
    t == [] || (Grouped(lossy, Init(t)) && CarriesOn(lossy, Init(t), Last(t)))
  }

  lemma {:induction false} GroupedAt(lossy: Cmd.Lossy, t: Log, i: nat)
    requires Grouped(lossy, t) && i < |t|
    ensures CarriesOn(lossy, t[..i], t[i])
  {
    hide CarriesOn;
    if i < |t| - 1 {
      assert Init(t)[..i] == t[..i];
      GroupedAt(lossy, Init(t), i);
    }
  }

  // ----- every reply of every session -----

  // What holds of a session's replies between turns: three-digit codes, complete groups with one code
  // each unless they answer HELP, and framing broken only by the server name or the handler's texts.
  ghost predicate Tidy<H>(env: Env<H>, t: Log)
  {
    && AllCoded(t) && (AllFramed(t) <==> LineFree(env.serverName) && Neat(env, t))
    && Grouped(env.lib.lossy, t) && !Unfinished(t)
  }

  lemma NoteTidy<H>(env: Env<H>, c: Conf<H>, e: Event)
    requires Tidy(env, c.log) && !e.HelloCalled? && !e.MailCalled?
    requires e.Sent? ==> Fits(e.reply) && !e.reply.hasNext
    ensures Tidy(env, Note(c, e).log)
    ensures LastLine(Note(c, e).log) == if e.Recv? then Some(e.line) else LastLine(c.log)
  {
    hide AllFramed, AllCoded, AnswersHelp;
    InitOfSnoc(c.log, e);
    AllFramedGrow(c.log + [e]);
  }

  lemma {:induction false} SayAllFramedIff<H>(c: Conf<H>, replies: seq<Response>)
    requires AllCoded(c.log) && forall r <- replies :: Coded(r)
    ensures var t := SayAll(c, replies).log;
            AllCoded(t) && (AllFramed(t) <==> AllFramed(c.log) && forall r <- replies :: Framed(r))
    decreases |replies|
  {
    hide AllFramed, AllCoded, Framed, Coded;
    if replies != [] {
      var c1 := Say(c, replies[0]);
      InitOfSnoc(c.log, Sent(replies[0]));
      AllFramedGrow(c1.log);
      assert replies == [replies[0]] + replies[1..];
      SayAllFramedIff(c1, replies[1..]);
    }
  }

  lemma {:induction false} SayAllNeat<H>(env: Env<H>, c: Conf<H>, replies: seq<Response>)
    ensures Neat(env, SayAll(c, replies).log) == Neat(env, c.log)
    decreases |replies|
  {
    if replies != [] {
      InitOfSnoc(c.log, Sent(replies[0]));
      SayAllNeat(env, Say(c, replies[0]), replies[1..]);
    }
  }

  // The lines of one reply, in the same code unless it answers HELP.
  predicate OneGroup(help: bool, replies: seq<Response>)
  {
    replies != [] &&
    if |replies| == 1 then !replies[0].hasNext
    else replies[0].hasNext && (replies[1].code == replies[0].code <==> !help) && OneGroup(help, replies[1..])
  }

  lemma {:induction false} SameCodeGroup(replies: seq<Response>, code: nat)
    requires replies != [] && forall r <- replies :: r.code == code
    requires !Last(replies).hasNext && forall i :: 0 <= i < |replies| - 1 ==> replies[i].hasNext
    ensures OneGroup(false, replies)
    decreases |replies|
  {
    if |replies| > 1 {
      assert replies[1] in replies;
      SameCodeGroup(replies[1..], code);
    }
  }

  lemma SentAnswersTheSame(lossy: Cmd.Lossy, t: Log, reply: Response)
    ensures AnswersHelp(lossy, t + [Sent(reply)]) == AnswersHelp(lossy, t)
  {
    hide Cmd.Parse;
    InitOfSnoc(t, Sent(reply));
  }

  lemma {:induction false} SayAllGrouped<H>(lossy: Cmd.Lossy, c: Conf<H>, replies: seq<Response>)
    requires Grouped(lossy, c.log) && OneGroup(AnswersHelp(lossy, c.log), replies)
    requires CarriesOn(lossy, c.log, Sent(replies[0]))
    ensures var t := SayAll(c, replies).log; Grouped(lossy, t) && !Unfinished(t)
    decreases |replies|
  {
    hide AnswersHelp;
    var c1 := Say(c, replies[0]);
    InitOfSnoc(c.log, Sent(replies[0]));
    SentAnswersTheSame(lossy, c.log, replies[0]);
    if |replies| == 1 {
      assert SayAll(c1, replies[1..]) == c1;
    } else {
      SayAllGrouped(lossy, c1, replies[1..]);
    }
  }

  lemma SyntaxErrorTidy<H>(env: Env<H>, c: Conf<H>, err: string)
    requires Tidy(env, c.log) && LineFree(err)
    ensures Tidy(env, Say(c, SyntaxError(Some(err))).log)
  {
    hide Tidy, Fits, LineFree;
    Explained(err);
    NoteTidy(env, c, Sent(SyntaxError(Some(err))));
  }

  lemma ParseErrorFits(lossy: Cmd.Lossy, line: Bytes)
    ensures var p := Cmd.Parse(lossy, line); p.Err? ==> LineFree(p.error)
  {
    hide Cmd.Text, Cmd.SplitOnce, Cmd.StripPrefixIgnoreCase, StripNewline, Upper, LineFree;
    MissingArgumentErrors();
    UnexpectedArgumentErrors();
    UnknownErrors();
  }

  // ----- EHLO and HELP -----

  lemma HelloGroup<H>(env: Env<H>, link: Link, extended: bool)
    ensures var replies := HelloReplies(env, link, extended);
            && replies != [] && !Last(replies).hasNext
            && (forall i :: 0 <= i < |replies| - 1 ==> replies[i].hasNext)
            && (forall r <- replies :: r.code == 250)
            && (LineFree(env.serverName) ==>
                  ((forall r <- replies :: Framed(r)) <==> (extended ==> env.serverName != "")))
  {
    if extended {
      var features := Features(env, link);
      var replies := HelloReplies(env, link, extended);
      FeaturesFit(env, link);
      assert |replies| == |features| + 1;
      forall i | 0 < i < |replies|
        ensures replies[i].code == 250 && Framed(replies[i]) && (replies[i].hasNext <==> i < |replies| - 1)
      {
        assert replies[i] == FeatureReply(features, i - 1);
        assert features[i - 1] in features;
      }
      assert replies[0] == Continued(250, env.serverName) && replies[0] in replies;
    }
  }

  lemma FeaturesFit<H>(env: Env<H>, link: Link)
    ensures forall f <- Features(env, link) :: f != "" && LineFree(f)
  {
  }

  lemma HelloNotHelp<H>(lossy: Cmd.Lossy, c: Conf<H>, e: Event, line: Bytes, domain: string, extended: bool)
    requires LastLine(c.log) == Some(line) && Cmd.Parse(lossy, line) == Ok(Cmd.Hello(domain, extended))
    requires e.HelloCalled?
    ensures !AnswersHelp(lossy, c.log + [e])
  {
    hide Cmd.Parse;
    InitOfSnoc(c.log, e);
  }

  lemma HelloTidy<H>(env: Env<H>, c: Conf<H>, line: Bytes, domain: string, extended: bool)
    requires Tidy(env, c.log) && LastLine(c.log) == Some(line)
    requires Cmd.Parse(env.lib.lossy, line) == Ok(Cmd.Hello(domain, extended))
    ensures Tidy(env, OnHello(env, c, domain, extended).log)
  {
    hide Cmd.Parse, HelloReplies, SayAll, Fits, LineFree, AllFramed, AllCoded, AnswersHelp, LastLine, Framed;
    if c.state.phase != Connected {
      FixedReplies();
      NoteTidy(env, c, Sent(BAD_SEQUENCE));
    } else {
      var (h, answer) := env.handler.onHello(c.handler, domain, extended);
      var e := HelloCalled(domain, extended, answer.Accept?);
      var c1 := Note(c.(handler := h), e);
      InitOfSnoc(c.log, e);
      AllFramedGrow(c1.log);
      if answer.Accept? {
        var replies := HelloReplies(env, c1.link, extended);
        HelloGroup(env, c1.link, extended);
        HelloNotHelp(env.lib.lossy, c, e, line, domain, extended);
        SayAllFramedIff(c1, replies);
        SayAllNeat(env, c1, replies);
        SameCodeGroup(replies, 250);
        SayAllGrouped(env.lib.lossy, c1, replies);
      }
    }
  }

  lemma HelpGroup<H>(env: Env<H>, link: Link)
    ensures var replies := HelpReplies(env, link);
            && |replies| == 2 && replies[0].hasNext && !replies[1].hasNext
            && replies[0].code == 250 && replies[1].code == 214
            && forall r <- replies :: Framed(r)
  {
    hide LineFree;
    HelpText();
    ShortTexts();
    var text := "HELO EHLO HELP MAIL RCPT DATA RSET NOOP QUIT";
    var auth := if env.HasAuth() then " AUTH" else "";
    var tls := if SupportsTls(link) then " STARTTLS" else "";
    Joined(text + auth, text, auth);
    Joined(text + auth + tls, text + auth, tls);
    var replies := HelpReplies(env, link);
    assert replies[1] == Final(214, text + auth + tls);
    assert "Commands supported" != "" && Framed(replies[0]) && Framed(replies[1]);
  }

  lemma HelpTidy<H>(env: Env<H>, c: Conf<H>, line: Bytes)
    requires Tidy(env, c.log) && LastLine(c.log) == Some(line)
    requires Cmd.Parse(env.lib.lossy, line) == Ok(Cmd.Help)
    ensures Tidy(env, SayAll(c, HelpReplies(env, c.link)).log)
  {
    hide Cmd.Parse, HelpReplies, SayAll, LineFree, AllFramed, AllCoded, LastLine;
    HelpGroup(env, c.link);
    SayAllFramedIff(c, HelpReplies(env, c.link));
    SayAllNeat(env, c, HelpReplies(env, c.link));
    SayAllGrouped(env.lib.lossy, c, HelpReplies(env, c.link));
  }

  // ----- AUTH -----

  lemma AskTidy<H>(env: Env<H>, c: Conf<H>, challenge: Response)
    requires Tidy(env, c.log) && Fits(challenge) && !challenge.hasNext
    ensures Tidy(env, Ask(c, challenge).0.log)
  {
    hide Tidy, NextLine, Fits, LastLine;
    NoteTidy(env, c, Sent(challenge));
    var c1 := Say(c, challenge);
    match NextLine(c1.link.rest) {
      case Line(line, rest) => NoteTidy(env, c1.(link := c1.link.(rest := rest)), Recv(line));
      case AtEof => NoteTidy(env, c1, Eof);
      case _ =>
    }
  }

  predicate OutcomeFits(outcome: AuthOutcome)
  {
    outcome.BadAuth? ==> LineFree(outcome.err)
  }

  lemma PasswordTidy<H>(env: Env<H>, c: Conf<H>, user: Bytes)
    requires Tidy(env, c.log)
    ensures var (c1, outcome) := AuthLoginPassword(env, c, user); Tidy(env, c1.log) && OutcomeFits(outcome)
  {
    hide Tidy, DecodeBase64, Ask, LineFree, Fits;
    FixedReplies();
    AuthErrors();
    AskTidy(env, c, AUTH_CHALLENGE_LOGIN_PASSWORD);
  }

  lemma HandshakeTidy<H>(env: Env<H>, c: Conf<H>, mechanism: Cmd.AuthMethod, initial: Option<Bytes>)
    requires Tidy(env, c.log)
    ensures var (c1, outcome) := HandleAuth(env, c, mechanism, initial); Tidy(env, c1.log) && OutcomeFits(outcome)
  {
    hide Tidy, DecodeBase64, Ask, AuthLoginPassword, SplitAll, LineFree, Fits;
    FixedReplies();
    AuthErrors();
    if mechanism.Plain? {
      AskTidy(env, c, AUTH_CHALLENGE_PLAIN);
    } else if initial.Some? {
      PasswordTidy(env, c, initial.value);
    } else {
      AskTidy(env, c, AUTH_CHALLENGE_LOGIN_USERNAME);
      var (c1, answer) := Ask(c, AUTH_CHALLENGE_LOGIN_USERNAME);
      if answer.Some? {
        PasswordTidy(env, c1, answer.value);
      }
    }
  }

  lemma FinishTidy<H>(env: Env<H>, c: Conf<H>, outcome: AuthOutcome)
    requires Tidy(env, c.log) && OutcomeFits(outcome)
    ensures Tidy(env, FinishAuth(env, c, outcome).log)
  {
    hide Tidy, LineFree, Fits, LastLine;
    FixedReplies();
    match outcome {
      case Aborted =>
      case BadAuth(err) => SyntaxErrorTidy(env, c, err);
      case Credentials(username, password) =>
        var (h, answer) := env.handler.onLogin(c.handler, username, password);
        var e := LoginCalled(username, password, answer.Accept?);
        NoteTidy(env, c.(handler := h), e);
        NoteTidy(env, Note(c.(handler := h), e), Sent(if answer.Accept? then AUTH_OK else AUTH_FAIL));
    }
  }

  lemma AuthTidy<H>(env: Env<H>, c: Conf<H>, mechanism: Cmd.AuthMethod, initial: Option<Bytes>)
    requires Tidy(env, c.log)
    ensures Tidy(env, OnAuth(env, c, mechanism, initial).log)
  {
    hide Tidy, HandleAuth, FinishAuth, Fits, LastLine;
    FixedReplies();
    NoteTidy(env, c, Sent(BAD_SEQUENCE));
    NoteTidy(env, c, Sent(SyntaxError(None)));
    HandshakeTidy(env, c, mechanism, initial);
    var (c1, outcome) := HandleAuth(env, c, mechanism, initial);
    FinishTidy(env, c1, outcome);
  }

  // ----- every turn -----

  lemma StartTlsTidy<H>(env: Env<H>, c: Conf<H>)
    requires Tidy(env, c.log)
    ensures Tidy(env, OnStartTls(c).log)
  {
    hide Tidy, Fits, LastLine, LineFree;
    FixedReplies();
    UnknownErrors();
    NoteTidy(env, c, Sent(BAD_SEQUENCE));
    SyntaxErrorTidy(env, c, "TLS not supported");
    NoteTidy(env, c, Sent(START_TLS));
    NoteTidy(env, Say(c, START_TLS), TlsStarted);
  }

  lemma ExecuteTidy<H>(env: Env<H>, c: Conf<H>, line: Bytes, command: Cmd.Command)
    requires Tidy(env, c.log) && LastLine(c.log) == Some(line) && Cmd.Parse(env.lib.lossy, line) == Ok(command)
    ensures Tidy(env, Execute(env, c, command).log)
  {
    hide Tidy, OnHello, OnAuth, OnStartTls, HelpReplies, SayAll, Fits, LastLine, Cmd.Parse;
    FixedReplies();
    NoteTidy(env, c, Sent(BAD_SEQUENCE));
    NoteTidy(env, c, Sent(AUTH_REQUIRED));
    NoteTidy(env, c, Sent(OK));
    match command {
      case Hello(domain, extended) => HelloTidy(env, c, line, domain, extended);
      case Help => HelpTidy(env, c, line);
      case StartTls => StartTlsTidy(env, c);
      case Authenticate(mechanism, initial) => AuthTidy(env, c, mechanism, initial);
      case Data => NoteTidy(env, c, Sent(DATA_START));
      case Reset =>
        NoteTidy(env, c, Sent(RESET));
        NoteTidy(env, Say(c, RESET), ResetCalled);
      case Quit => NoteTidy(env, c, Sent(GOODBYE));
      case _ =>
    }
  }

  // An error text of the handler breaks the framing exactly if it breaks its line.
  lemma DeliverTidy<H>(env: Env<H>, c: Conf<H>)
    requires Tidy(env, c.log)
    ensures Tidy(env, DeliverMail(env, c).log)
  {
    hide AllFramed, AllCoded, LineFree, Neat, AnswersHelp;
    FixedReplies();
    var (h, failure) := env.handler.onMail(c.handler, c.state.mail);
    var e := MailCalled(c.state.mail, failure);
    var reply := match failure case Some(err) => MAIL_HANDLER_ERROR.Extend(err) case None => MAIL_ACCEPTED;
    InitOfSnoc(c.log, e);
    InitOfSnoc(c.log + [e], Sent(reply));
    AllFramedGrow(c.log + [e]);
    AllFramedGrow(c.log + [e] + [Sent(reply)]);
    NeatAfterDelivery(env, c.log, c.state.mail, failure, reply);
    if failure.Some? {
      ExtendedLineFreeIff(failure.value);
    }
    assert Framed(reply) <==> (failure.Some? ==> LineFree(failure.value));
    assert Coded(reply);
    assert Grouped(env.lib.lossy, c.log + [e] + [Sent(reply)]);
  }

  lemma NeatAfterDelivery<H>(env: Env<H>, t: Log, mail: Mail, failure: Option<string>, reply: Response)
    ensures Neat(env, t + [MailCalled(mail, failure)] + [Sent(reply)]) <==>
            Neat(env, t) && (failure.Some? ==> LineFree(failure.value))
  {
    InitOfSnoc(t, MailCalled(mail, failure));
    InitOfSnoc(t + [MailCalled(mail, failure)], Sent(reply));
  }

  lemma ExtendedLineFreeIff(err: string)
    ensures LineFree(MAIL_HANDLER_ERROR.Extend(err).message) <==> LineFree(err)
  {
    FixedReplies();
    var message := MAIL_HANDLER_ERROR.Extend(err).message;
    assert message[|MAIL_HANDLER_ERROR.message| + 2..] == err;
    if LineFree(err) {
      assert LineFree(": ");
      Joined(MAIL_HANDLER_ERROR.message + ": ", MAIL_HANDLER_ERROR.message, ": ");
      Joined(message, MAIL_HANDLER_ERROR.message + ": ", err);
    }
  }

  lemma StepTidy<H>(env: Env<H>, c: Conf<H>)
    requires Tidy(env, c.log)
    ensures Tidy(env, Step(env, c).log)
  {
    hide Tidy, NextLine, Execute, DeliverMail, Cmd.Parse, Fits, LastLine;
    FixedReplies();
    match NextLine(c.link.rest) {
      case Line(line, rest) =>
        var c1 := Note(c.(link := c.link.(rest := rest)), Recv(line));
        NoteTidy(env, c.(link := c.link.(rest := rest)), Recv(line));
        var p := Cmd.Parse(env.lib.lossy, line);
        if p.Err? {
          ParseErrorFits(env.lib.lossy, line);
          SyntaxErrorTidy(env, c1, p.error);
        } else {
          ExecuteTidy(env, c1, line, p.value);
        }
        DeliverTidy(env, c1);
        NoteTidy(env, c1, Sent(DATA_TOO_LONG));
      case AtEof =>
        NoteTidy(env, c, Eof);
      case _ =>
    }
  }

  lemma StartTidy<H>(env: Env<H>, o: Origin<H>)
    ensures Tidy(env, At(env, o, 0).log)
  {
    var t: Log := [Sent(Banner(env.serverName))];
    assert t == [] + [Sent(Banner(env.serverName))];
    InitOfSnoc([], Sent(Banner(env.serverName)));
    AllFramedGrow(t);
    BannerLineFreeIff(env.serverName);
  }

  lemma BannerLineFreeIff(name: string)
    ensures LineFree(Banner(name).message) <==> LineFree(name)
  {
    var message := Banner(name).message;
    assert message[6..6 + |name|] == name;
    if LineFree(name) {
      assert LineFree("2.2.0 ") && LineFree(" ESMTP ready");
      Joined("2.2.0 " + name, "2.2.0 ", name);
      Joined(message, "2.2.0 " + name, " ESMTP ready");
    }
  }

  lemma {:induction false} SessionTidy<H>(env: Env<H>, o: Origin<H>, n: nat)
    ensures Tidy(env, At(env, o, n).log)
  {
    hide Step, Tidy;
    if n == 0 {
      StartTidy(env, o);
    } else {
      SessionTidy(env, o, n - 1);
      StepTidy(env, At(env, o, n - 1));
    }
  }

  // ----- what the client recovers -----

  // In every session the client recovers the replies sent exactly if the server name fits on a line,
  // is not empty where EHLO was answered, and no error text of the handler broke its line.
  lemma ReadsBackIff<H>(env: Env<H>, o: Origin<H>, n: nat)
    ensures var t := At(env, o, n).log;
            ReadReplies(Wire(t)) == SentReplies(t) <==> LineFree(env.serverName) && Neat(env, t)
  {
    hide Step;
    SessionTidy(env, o, n);
    WireRoundTrip(At(env, o, n).log);
  }

  // Neat, event by event.
  lemma {:induction false} NeatMeaning<H>(env: Env<H>, t: Log)
    ensures Neat(env, t) <==>
            forall i :: 0 <= i < |t| ==>
              && (t[i].HelloCalled? && t[i].extended && t[i].accepted ==> env.serverName != "")
              && (t[i].MailCalled? && t[i].failure.Some? ==> LineFree(t[i].failure.value))
  {
    hide LineFree;
    if t != [] {
      NeatMeaning(env, Init(t));
      assert forall i :: 0 <= i < |t| ==> t[i] == if i < |t| - 1 then Init(t)[i] else Last(t);
    }
  }

  // Where it does, it counts one complete reply for the banner and one for each line it sent that is
  // not message content.
  lemma ClientKeepsStep<H>(env: Env<H>, o: Origin<H>, n: nat)
    requires LineFree(env.serverName) && Neat(env, At(env, o, n).log)
    ensures var c := At(env, o, n);
            c.status.Running? ==>
              CompleteReplies(ReadReplies(Wire(c.log))) ==
              1 + LinesRead(c.log) + EofsSeen(c.log) - ContentLines(env.lib.lossy, c.log)
  {
    hide Step, ReadReplies, Wire;
    ReadsBackIff(env, o, n);
    CompleteIsFinal(At(env, o, n).log);
    ReplyLaw(env, o, n);
  }

  // An empty server name: the client mistakes the first line of the answer to EHLO for all of it.
  lemma EmptyNameMisreads<H>(env: Env<H>, o: Origin<H>, rest: Bytes)
    requires env.serverName == "" && o.input == EHLO_X + CRLF + rest
    requires env.handler.onHello(o.handler, Cmd.Text(env.lib.lossy, X), true).1.Accept?
    ensures var t := At(env, o, 1).log; ReadReplies(Wire(t)) != SentReplies(t)
  {
    hide Step, Cmd.Parse, Cmd.Text, ReadReplies, Wire, HelloReplies, SayAll, AllFramed, AllCoded, Framed, LineFree;
    var c0 := At(env, o, 0);
    GreetingsParse(env.lib.lossy);
    CommandTurn(env, c0, EHLO_X, rest, Cmd.Hello(Cmd.Text(env.lib.lossy, X), true));
    assert At(env, o, 1) == Step(env, c0);
    var read := c0.log + [Recv(EHLO_X + CRLF)];
    var e := HelloCalled(Cmd.Text(env.lib.lossy, X), true, true);
    var c1 := c0.(link := c0.link.(rest := rest), log := read + [e],
                  handler := env.handler.onHello(o.handler, Cmd.Text(env.lib.lossy, X), true).0);
    InitOfSnoc(read, e);
    SessionTidy(env, o, 1);
    EhloKeepsNeat(env, c1);
    ReadsBackIff(env, o, 1);
  }

  lemma EhloKeepsNeat<H>(env: Env<H>, c: Conf<H>)
    ensures Neat(env, SayAll(c, HelloReplies(env, c.link, true)).log) == Neat(env, c.log)
  {
    SayAllNeat(env, c, HelloReplies(env, c.link, true));
  }

  // An error text with line feeds: the 451 reads as as many replies as it has lines.
  lemma ErrorTextSplits(err: string)
    ensures |ReadReplies(MAIL_HANDLER_ERROR.Extend(err).Line() + "\r\n")| == 1 + LineFeeds(err)
  {
    hide ReadReplies;
    var message := MAIL_HANDLER_ERROR.Extend(err).message;
    EachLineFeedSplits(MAIL_HANDLER_ERROR.Extend(err));
    FailureTexts();
    assert '\n' !in multiset(MAIL_HANDLER_ERROR.message) && '\n' !in multiset(": ");
    assert multiset(message) == multiset(MAIL_HANDLER_ERROR.message) + multiset(": ") + multiset(err);
  }

  // A whole session whose replies the client misreads: the handler's error text has a line feed.
  lemma BrokenErrorMisreads<H>(env: Env<H>, o: Origin<H>, rest: Bytes, err: string)
    requires env.authMode == NoAuth && !LineFree(err)
    requires var (h, answer) := env.handler.onHello(o.handler, Cmd.Text(env.lib.lossy, X), false);
             && answer.Accept?
             && env.handler.onMail(h, Mail(NormalizeAddress(Cmd.Text(env.lib.lossy, X)), [], [])).1 == Some(err)
    requires o.input == HELO_X + CRLF + (MAIL_FROM_X + CRLF + (Cmd.DATA + CRLF + ([DOT, CR, LF] + rest)))
    ensures var t := At(env, o, 4).log; ReadReplies(Wire(t)) != SentReplies(t)
  {
    hide At, Cmd.Text, NormalizeAddress, ReadReplies, Wire, LineFree;
    DeliveredToNobody(env, o, rest);
    var t := At(env, o, 4).log;
    assert t[|t| - 2].MailCalled? && t[|t| - 2].failure == Some(err);
    NeatMeaning(env, t);
    ReadsBackIff(env, o, 4);
  }

  // ----- one code for all lines of a reply -----

  lemma LastLineBeforeReply(lossy: Cmd.Lossy, t: Log, i: nat)
    requires i < |t| && t[i].Sent?
    ensures AnswersHelp(lossy, t[..i + 1]) == AnswersHelp(lossy, t[..i])
  {
    assert t[..i + 1] == t[..i] + [t[i]];
    SentAnswersTheSame(lossy, t[..i], t[i].reply);
  }

  // A line that announces another is followed by it, in the same code exactly if the line answered
  // is not HELP.
  lemma MultiLineCodes<H>(env: Env<H>, o: Origin<H>, n: nat, i: nat)
    requires i < |At(env, o, n).log| && At(env, o, n).log[i].Sent? && At(env, o, n).log[i].reply.hasNext
    ensures var t := At(env, o, n).log;
            && i + 1 < |t| && t[i + 1].Sent?
            && (t[i + 1].reply.code == t[i].reply.code <==> !AnswersHelp(env.lib.lossy, t[..i]))
  {
    hide Step, AnswersHelp;
    SessionTidy(env, o, n);
    var t := At(env, o, n).log;
    assert i + 1 < |t|;
    GroupedAt(env.lib.lossy, t, i + 1);
    InitOfSnoc(t[..i], t[i]);
    assert t[..i + 1] == t[..i] + [t[i]];
    LastLineBeforeReply(env.lib.lossy, t, i);
  }

  // HELP is answered with a 250 line carried on by a 214 line.
  lemma HelpMixesCodes<H>(env: Env<H>, c: Conf<H>, rest: Bytes)
    requires c.status.Running? && !c.state.phase.Data? && c.link.rest == Cmd.HELP + CRLF + rest
    ensures var r := Step(env, c);
            && r.status.Running? && |r.log| == |c.log| + 3 && r.log[..|c.log| + 1] == c.log + [Recv(Cmd.HELP + CRLF)]
            && r.log[|c.log| + 1].Sent? && r.log[|c.log| + 1].reply.code == 250 && r.log[|c.log| + 1].reply.hasNext
            && r.log[|c.log| + 2].Sent? && r.log[|c.log| + 2].reply.code == 214 && !r.log[|c.log| + 2].reply.hasNext
  {
    hide Step, Cmd.Parse;
    Cmd.CommandRoundTrip(env.lib.lossy, Cmd.Help);
    assert Cmd.Print(Cmd.Help) == Cmd.HELP + [] == Cmd.HELP;
    CommandTurn(env, c, Cmd.HELP, rest, Cmd.Help);
    var c1 := c.(link := c.link.(rest := rest), log := c.log + [Recv(Cmd.HELP + CRLF)]);
    var replies := HelpReplies(env, c1.link);
    assert replies[1..][1..] == [];
    assert SayAll(c1, replies) == SayAll(Say(Say(c1, replies[0]), replies[1]), []);
  }
}
