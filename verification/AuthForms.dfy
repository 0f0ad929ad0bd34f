/** The two ways to give AUTH credentials, in the command or in answer to a challenge, and the
    structure of PLAIN credentials (section 2 of RFC 4616). */
module AuthForms {
  import opened Basics
  import opened Responses
  import opened Mails
  import opened Lines
  import opened Connections
  import opened Protocol
  import opened Transcripts
  import Cmd = Commands
  import Transparency

  // ----- PLAIN payloads -----

  function Join(parts: seq<Bytes>, delimiter: byte): Bytes
  {
    if parts == [] then [] else if |parts| == 1 then parts[0]
    else parts[0] + [delimiter] + Join(parts[1..], delimiter)
  }

  lemma SplitStep(head: Bytes, tail: Bytes, delimiter: byte)
    requires delimiter !in head
    ensures SplitAll(head, delimiter) == [head]
    ensures SplitAll(head + [delimiter] + tail, delimiter) == [head] + SplitAll(tail, delimiter)
  {
    var s := head + [delimiter] + tail;
    assert head[..|head|] == head;
    IndexOfUnique(head, delimiter, |head|);
    assert s[..|head|] == head && s[|head| + 1..] == tail;
    IndexOfUnique(s, delimiter, |head|);
  }

  lemma JoinStep(head: Bytes, tail: seq<Bytes>, delimiter: byte)
    requires tail != []
    ensures Join([head] + tail, delimiter) == head + [delimiter] + Join(tail, delimiter)
  {
    assert ([head] + tail)[1..] == tail;
  }

  lemma JoinOne(part: Bytes, delimiter: byte)
    ensures Join([part], delimiter) == part
  {
  }

  // The text before the first delimiter and, if there is one, the text after it.
  lemma Cut(s: Bytes, delimiter: byte) returns (head: Bytes, tail: Option<Bytes>)
    ensures delimiter !in head
    ensures s == head + (match tail case None => [] case Some(t) => [delimiter] + t)
    ensures tail.Some? ==> |tail.value| < |s|
  {
    var n := IndexOf(s, delimiter);
    head := s[..n];
    if n < |s| {
      tail := Some(s[n + 1..]);
    } else {
      tail := None;
    }
  }

  // Splitting and joining are inverse, and the parts are free of the delimiter.
  lemma {:induction false} JoinOfSplit(s: Bytes, delimiter: byte)
    ensures Join(SplitAll(s, delimiter), delimiter) == s
    ensures forall part :: part in SplitAll(s, delimiter) ==> delimiter !in part
    ensures |SplitAll(s, delimiter)| == 1 + multiset(s)[delimiter]
    decreases |s|
  {
    hide SplitAll, Join;
    var head, tail := Cut(s, delimiter);
    JoinOne(head, delimiter);
    match tail {
      case None =>
        assert s == head;
        SplitStep(head, [], delimiter);
      case Some(t) =>
        assert s == head + [delimiter] + t;
        SplitStep(head, t, delimiter);
        JoinOfSplit(t, delimiter);
        JoinStep(head, SplitAll(t, delimiter), delimiter);
        assert multiset(s) == multiset(head) + multiset([delimiter]) + multiset(t);
    }
  }

  lemma {:induction false} SplitOfJoin(parts: seq<Bytes>, delimiter: byte)
    requires parts != [] && forall i :: 0 <= i < |parts| ==> delimiter !in parts[i]
    ensures SplitAll(Join(parts, delimiter), delimiter) == parts
    decreases |parts|
  {
    hide SplitAll, Join;
    if |parts| == 1 {
      assert parts == [parts[0]];
      JoinOne(parts[0], delimiter);
      SplitStep(parts[0], [], delimiter);
    } else {
      assert parts == [parts[0]] + parts[1..];
      JoinStep(parts[0], parts[1..], delimiter);
      SplitOfJoin(parts[1..], delimiter);
      SplitStep(parts[0], Join(parts[1..], delimiter), delimiter);
    }
  }

  // ----- what is given to the base64 decoder -----

  // A line end is whitespace like any other: taking it off first makes no difference to trimming.
  lemma NewlineIsTrimmed(s: Bytes)
    ensures TrimAscii(StripNewline(s)) == TrimAscii(s)
  {
    hide TrimAscii;
    var t := StripNewline(s);
    var pre, core, post := CoreOf(t);
    var end := s[|t|..];
    assert s == t + end by {
      StripNewlineIsPrefix(s);
    }
    assert AllSpaces(end) by {
      StripNewlineIsPrefix(s);
    }
    assert s == pre + core + (post + end);
    TrimAsciiOf(pre, core, post + end);
  }

  lemma StripNewlineIsPrefix(s: Bytes)
    ensures var t := StripNewline(s); |t| <= |s| && t == s[..|t|] && AllSpaces(s[|t|..])
  {
  }

  // The decoder is given the payload as the client wrote it, without the whitespace around it, line
  // end included.
  lemma DecodesCore(lib: Library, pre: Bytes, payload: Bytes, post: Bytes)
    requires AllSpaces(pre) && AllSpaces(post) && Clean(payload)
    ensures DecodeBase64(lib, pre + payload + post) == lib.decode64(payload)
  {
    hide TrimAscii, StripNewline;
    NewlineIsTrimmed(pre + payload + post);
    TrimAsciiOf(pre, payload, post);
  }

  // A PLAIN payload is accepted exactly if it decodes to text with two NULs, and then yields the
  // second and third of the three parts they separate.
  lemma PlainAcceptedIff(lib: Library, pre: Bytes, payload: Bytes, post: Bytes)
    requires AllSpaces(pre) && AllSpaces(post) && Clean(payload)
    ensures var data := lib.decode64(payload);
            PlainCredentials(lib, pre + payload + post).Credentials? <==> data.Some? && multiset(data.value)[NUL] == 2
    ensures forall authzid, user, password ::
              NUL !in authzid && NUL !in user && NUL !in password &&
              lib.decode64(payload) == Some(Join([authzid, user, password], NUL)) ==>
                PlainCredentials(lib, pre + payload + post) == Credentials(lib.lossy(user), lib.lossy(password))
  {
    hide SplitAll, Join, DecodeBase64, AllSpaces, Clean;
    DecodesCore(lib, pre, payload, post);
    var data := lib.decode64(payload);
    if data.Some? {
      JoinOfSplit(data.value, NUL);
      forall authzid, user, password |
        NUL !in authzid && NUL !in user && NUL !in password && data == Some(Join([authzid, user, password], NUL))
        ensures PlainCredentials(lib, pre + payload + post) == Credentials(lib.lossy(user), lib.lossy(password))
      {
        SplitOfJoin([authzid, user, password], NUL);
      }
    }
  }

  // The two payloads of LOGIN, each with whitespace around it, are accepted exactly if both decode.
  lemma LoginAcceptedIff(lib: Library, user: Bytes, password: Bytes, pre: Bytes, post: Bytes, pre': Bytes, post': Bytes)
    requires AllSpaces(pre) && AllSpaces(post) && AllSpaces(pre') && AllSpaces(post') && Clean(user) && Clean(password)
    ensures var u, p := lib.decode64(user), lib.decode64(password);
            LoginCredentials(lib, pre + user + post, pre' + password + post') ==
            if u.Some? && p.Some? then Credentials(lib.lossy(u.value), lib.lossy(p.value)) else Aborted
  {
    hide DecodeBase64, AllSpaces, Clean;
    DecodesCore(lib, pre, user, post);
    DecodesCore(lib, pre', password, post');
  }

  // ----- inline and challenge forms -----

  // a after the events l, and b after the events m, differ in nothing else: from there on the
  // same replies were sent and the same handler calls made.
  ghost predicate SameSince<H>(a: Conf<H>, l: Log, b: Conf<H>, m: Log)
  {
    && a.(log := []) == b.(log := [])
    && |l| <= |a.log| && |m| <= |b.log| && a.log[..|l|] == l && b.log[..|m|] == m
    && a.log[|l|..] == b.log[|m|..]
  }

  lemma SameSinceNote<H>(a: Conf<H>, l: Log, b: Conf<H>, m: Log, e: Event)
    requires SameSince(a, l, b, m)
    ensures SameSince(Note(a, e), l, Note(b, e), m)
  {
    assert (a.log + [e])[..|l|] == l && (b.log + [e])[..|m|] == m;
    assert (a.log + [e])[|l|..] == a.log[|l|..] + [e] && (b.log + [e])[|m|..] == b.log[|m|..] + [e];
  }

  lemma FinishSame<H>(env: Env<H>, a: Conf<H>, l: Log, b: Conf<H>, m: Log, outcome: AuthOutcome)
    requires SameSince(a, l, b, m)
    ensures SameSince(FinishAuth(env, a, outcome), l, FinishAuth(env, b, outcome), m)
  {
    match outcome {
      case Aborted =>
      case BadAuth(err) =>
        SameSinceNote(a, l, b, m, Sent(SyntaxError(Some(err))));
      case Credentials(username, password) =>
        var (h, answer) := env.handler.onLogin(a.handler, username, password);
        var e := LoginCalled(username, password, answer.Accept?);
        var a1, b1 := a.(handler := h), b.(handler := h);
        assert a1.log == a.log && b1.log == b.log && SameSince(a1, l, b1, m);
        SameSinceNote(a1, l, b1, m, e);
        SameSinceNote(Note(a1, e), l, Note(b1, e), m, Sent(if answer.Accept? then AUTH_OK else AUTH_FAIL));
    }
  }

  lemma FailSame<H>(a: Conf<H>, l: Log, b: Conf<H>, m: Log, why: Failure)
    requires SameSince(a, l, b, m)
    ensures SameSince(Fail(a, why), l, Fail(b, why), m)
  {
  }

  lemma AskSame<H>(a: Conf<H>, l: Log, b: Conf<H>, m: Log, challenge: Response)
    requires SameSince(a, l, b, m)
    ensures var ra := Ask(a, challenge);
            var rb := Ask(b, challenge);
            SameSince(ra.0, l, rb.0, m) && ra.1 == rb.1 && ra.0.status == rb.0.status
  {
    hide NextLine;
    SameSinceNote(a, l, b, m, Sent(challenge));
    var a1, b1 := Say(a, challenge), Say(b, challenge);
    assert a1.link == b1.link;
    match NextLine(a1.link.rest) {
      case Line(line, rest) =>
        SameSinceNote(a1.(link := a1.link.(rest := rest)), l, b1.(link := b1.link.(rest := rest)), m, Recv(line));
      case AtEof =>
        SameSinceNote(a1, l, b1, m, Eof);
      case _ =>
    }
  }

  lemma PasswordSame<H>(env: Env<H>, a: Conf<H>, l: Log, b: Conf<H>, m: Log, user: Bytes, user': Bytes)
    requires SameSince(a, l, b, m) && DecodeBase64(env.lib, user) == DecodeBase64(env.lib, user')
    ensures var ra := AuthLoginPassword(env, a, user);
            var rb := AuthLoginPassword(env, b, user');
            SameSince(ra.0, l, rb.0, m) && ra.1 == rb.1
  {
    hide SameSince, Ask, DecodeBase64;
    AskSame(a, l, b, m, AUTH_CHALLENGE_LOGIN_PASSWORD);
    FailSame(a, l, b, m, InvalidBase64);
    FailSame(Ask(a, AUTH_CHALLENGE_LOGIN_PASSWORD).0, l, Ask(b, AUTH_CHALLENGE_LOGIN_PASSWORD).0, m, InvalidBase64);
  }

  lemma DecodeIgnoresNewline(lib: Library, payload: Bytes)
    requires LF !in payload
    ensures DecodeBase64(lib, payload + CRLF) == DecodeBase64(lib, payload)
  {
    Cmd.StripNewlineOf(payload);
    assert payload != [] ==> Last(payload) in payload;
  }

  // "AUTH <mechanism>" with and without a payload.
  function InlineLine(mechanism: Cmd.AuthMethod, payload: Bytes): Bytes
  {
    Cmd.Print(Cmd.Authenticate(mechanism, Some(payload))) + CRLF
  }

  function BareLine(mechanism: Cmd.AuthMethod): Bytes
  {
    Cmd.Print(Cmd.Authenticate(mechanism, None)) + CRLF
  }

  lemma IsLine(body: Bytes)
    requires LF !in body
    ensures var line := body + CRLF; line != [] && Last(line) == LF && LF !in Init(line)
  {
    assert Init(body + CRLF) == body + [CR];
  }

  // One turn of a session in which AUTH is allowed.
  lemma AuthTurn<H>(env: Env<H>, c: Conf<H>, line: Bytes, rest: Bytes,
                    mechanism: Cmd.AuthMethod, initial: Option<Bytes>)
    requires c.status.Running? && c.state.phase.Greeted? && env.authMode != NoAuth
    requires env.authMode == RequireTls ==> c.link.Secure?
    requires line != [] && Last(line) == LF && LF !in Init(line) && |line| <= MAX_LINE_LENGTH
    requires c.link.rest == line + rest
    requires Cmd.Parse(env.lib.lossy, line) == Ok(Cmd.Authenticate(mechanism, initial))
    ensures var c1 := Note(c.(link := c.link.(rest := rest)), Recv(line));
            var (c2, outcome) := HandleAuth(env, c1, mechanism, initial);
            Step(env, c) == FinishAuth(env, c2, outcome)
  {
    hide Cmd.Parse, HandleAuth, FinishAuth;
    Transparency.ReadSent(c, line, rest);
  }

  lemma Answered<H>(c: Conf<H>, challenge: Response, answer: Bytes, rest: Bytes)
    requires answer != [] && Last(answer) == LF && LF !in Init(answer) && |answer| <= MAX_LINE_LENGTH
    requires c.link.rest == answer + rest
    ensures var c1 := c.(link := c.link.(rest := rest), log := c.log + [Sent(challenge), Recv(answer)]);
            Ask(c, challenge) == (c1, Some(answer))
  {
    Transparency.ReadSent(Say(c, challenge), answer, rest);
    assert c.log + [Sent(challenge)] + [Recv(answer)] == c.log + [Sent(challenge), Recv(answer)];
  }

  lemma LinesPrinted(mechanism: Cmd.AuthMethod, payload: Bytes)
    ensures InlineLine(mechanism, payload) == Cmd.Print(Cmd.Authenticate(mechanism, Some(payload))) + CRLF
    ensures BareLine(mechanism) == Cmd.Print(Cmd.Authenticate(mechanism, None)) + CRLF
  {
  }

  // Both forms of AUTH fit the line limit if the longer one does.
  lemma LinesFit(mechanism: Cmd.AuthMethod, payload: Bytes)
    requires LF !in payload && |InlineLine(mechanism, payload)| <= MAX_LINE_LENGTH
    ensures var line := InlineLine(mechanism, payload); line != [] && Last(line) == LF && LF !in Init(line)
    ensures var line := BareLine(mechanism);
            line != [] && Last(line) == LF && LF !in Init(line) && |line| <= MAX_LINE_LENGTH
    ensures var line := payload + CRLF;
            line != [] && Last(line) == LF && LF !in Init(line) && |line| <= MAX_LINE_LENGTH
  {
    var word := Cmd.MechanismWord(mechanism);
    assert LF !in word && LF !in Cmd.AUTH;
    IsLine(Cmd.AUTH + ([SPACE] + (word + ([SPACE] + payload))));
    IsLine(Cmd.AUTH + ([SPACE] + (word + [])));
    IsLine(payload);
  }

  // Credentials given with the command or in answer to the first challenge lead to the same
  // login call, the same replies, the same unread bytes and the same state.
  lemma FormsAgree<H>(env: Env<H>, c: Conf<H>, mechanism: Cmd.AuthMethod, payload: Bytes, rest: Bytes)
    requires c.status.Running? && c.state.phase.Greeted? && env.authMode != NoAuth
    requires env.authMode == RequireTls ==> c.link.Secure?
    requires LF !in payload && |InlineLine(mechanism, payload)| <= MAX_LINE_LENGTH
    ensures var inlined := c.(link := c.link.(rest := InlineLine(mechanism, payload) + rest));
            var challenged := c.(link := c.link.(rest := BareLine(mechanism) + (payload + CRLF + rest)));
            var challenge := if mechanism.Plain? then AUTH_CHALLENGE_PLAIN else AUTH_CHALLENGE_LOGIN_USERNAME;
            SameSince(Step(env, inlined), c.log + [Recv(InlineLine(mechanism, payload))],
                      Step(env, challenged),
                      c.log + [Recv(BareLine(mechanism))] + [Sent(challenge), Recv(payload + CRLF)])
  {
    hide Cmd.Parse, Step, FinishAuth, HandleAuth, Ask, InlineLine, BareLine, SameSince;
    var inlineLine, bareLine := InlineLine(mechanism, payload), BareLine(mechanism);
    var inlined := c.(link := c.link.(rest := inlineLine + rest));
    var challenged := c.(link := c.link.(rest := bareLine + (payload + CRLF + rest)));
    var challenge := if mechanism.Plain? then AUTH_CHALLENGE_PLAIN else AUTH_CHALLENGE_LOGIN_USERNAME;
    ghost var given, asked := Cmd.Authenticate(mechanism, Some(payload)), Cmd.Authenticate(mechanism, None);
    Cmd.CommandRoundTrip(env.lib.lossy, given);
    Cmd.CommandRoundTrip(env.lib.lossy, asked);
    assert inlineLine == Cmd.Print(given) + CRLF && bareLine == Cmd.Print(asked) + CRLF by {
      LinesPrinted(mechanism, payload);
    }
    LinesFit(mechanism, payload);
    AuthTurn(env, inlined, inlineLine, rest, mechanism, Some(payload));
    AuthTurn(env, challenged, bareLine, payload + CRLF + rest, mechanism, None);
    var a := Note(c.(link := c.link.(rest := rest)), Recv(inlineLine));
    var b0 := Note(c.(link := c.link.(rest := payload + CRLF + rest)), Recv(bareLine));
    Answered(b0, challenge, payload + CRLF, rest);
    var b := Ask(b0, challenge).0;
    SameAtStart(a, b);
    HandshakesAgree(env, a, b0, b, b.log, mechanism, payload);
    var (a2, outcome) := HandleAuth(env, a, mechanism, Some(payload));
    var (b2, _) := HandleAuth(env, b0, mechanism, None);
    FinishSame(env, a2, a.log, b2, b.log, outcome);
  }

  lemma SameAtStart<H>(a: Conf<H>, b: Conf<H>)
    requires a.(log := []) == b.(log := [])
    ensures SameSince(a, a.log, b, b.log)
  {
  }

  lemma HandshakesAgree<H>(env: Env<H>, a: Conf<H>, b0: Conf<H>, b: Conf<H>, m: Log,
                           mechanism: Cmd.AuthMethod, payload: Bytes)
    requires SameSince(a, a.log, b, m) && LF !in payload && b.status.Running?
    requires Ask(b0, if mechanism.Plain? then AUTH_CHALLENGE_PLAIN else AUTH_CHALLENGE_LOGIN_USERNAME)
             == (b, Some(payload + CRLF))
    ensures var ra := HandleAuth(env, a, mechanism, Some(payload));
            var rb := HandleAuth(env, b0, mechanism, None);
            SameSince(ra.0, a.log, rb.0, m) && ra.1 == rb.1
  {
    hide Ask, AuthLoginPassword, DecodeBase64;
    DecodeIgnoresNewline(env.lib, payload);
    PasswordSame(env, a, a.log, b, m, payload, payload + CRLF);
  }

  // A whole LOGIN exchange: both payloads are asked for, and what they decode to is what the handler is
  // asked about.
  lemma LoginExchange<H>(env: Env<H>, c: Conf<H>, user: Bytes, password: Bytes, rest: Bytes)
    requires c.status.Running? && c.state.phase.Greeted? && env.authMode != NoAuth
    requires env.authMode == RequireTls ==> c.link.Secure?
    requires Clean(user) && LF !in user && |user| + 2 <= MAX_LINE_LENGTH && env.lib.decode64(user).Some?
    requires Clean(password) && LF !in password && |password| + 2 <= MAX_LINE_LENGTH
    requires env.lib.decode64(password).Some?
    requires c.link.rest == BareLine(Cmd.Login) + (user + CRLF + (password + CRLF + rest))
    ensures var u, p := env.lib.lossy(env.lib.decode64(user).value), env.lib.lossy(env.lib.decode64(password).value);
            var accepted := env.handler.onLogin(c.handler, u, p).1.Accept?;
            Step(env, c).log == c.log +
              [Recv(BareLine(Cmd.Login)), Sent(AUTH_CHALLENGE_LOGIN_USERNAME), Recv(user + CRLF),
               Sent(AUTH_CHALLENGE_LOGIN_PASSWORD), Recv(password + CRLF),
               LoginCalled(u, p, accepted), Sent(if accepted then AUTH_OK else AUTH_FAIL)]
  {
    hide Cmd.Parse, Step, Ask, BareLine, DecodeBase64, Clean;
    var line := BareLine(Cmd.Login);
    var passwordLine, userLine := password + CRLF, user + CRLF;
    LoginLineFits(env.lib.lossy);
    AuthTurn(env, c, line, userLine + (passwordLine + rest), Cmd.Login, None);
    var c1 := Note(c.(link := c.link.(rest := userLine + (passwordLine + rest))), Recv(line));
    IsLine(user);
    IsLine(password);
    Answered(c1, AUTH_CHALLENGE_LOGIN_USERNAME, userLine, passwordLine + rest);
    var c2 := Ask(c1, AUTH_CHALLENGE_LOGIN_USERNAME).0;
    Answered(c2, AUTH_CHALLENGE_LOGIN_PASSWORD, passwordLine, rest);
    LineDecodes(env.lib, user);
    LineDecodes(env.lib, password);
  }

  lemma LineDecodes(lib: Library, payload: Bytes)
    requires Clean(payload)
    ensures DecodeBase64(lib, payload + CRLF) == lib.decode64(payload)
  {
    hide DecodeBase64;
    assert [] + payload + CRLF == payload + CRLF;
    DecodesCore(lib, [], payload, CRLF);
  }

  lemma LoginLineFits(lossy: Cmd.Lossy)
    ensures var line := BareLine(Cmd.Login);
            line != [] && Last(line) == LF && LF !in Init(line) && |line| <= MAX_LINE_LENGTH
    ensures Cmd.Parse(lossy, BareLine(Cmd.Login)) == Ok(Cmd.Authenticate(Cmd.Login, None))
  {
    hide Cmd.Parse;
    Cmd.CommandRoundTrip(lossy, Cmd.Authenticate(Cmd.Login, None));
    LinesFit(Cmd.Login, []);
  }

  // ----- from there to the end of the session -----

  lemma SameSinceState<H>(a: Conf<H>, l: Log, b: Conf<H>, m: Log, a': Conf<H>, b': Conf<H>)
    requires SameSince(a, l, b, m) && a'.(log := []) == b'.(log := []) && a'.log == a.log && b'.log == b.log
    ensures SameSince(a', l, b', m)
  {
  }

  lemma {:induction false} SayAllSame<H>(a: Conf<H>, l: Log, b: Conf<H>, m: Log, replies: seq<Response>)
    requires SameSince(a, l, b, m)
    ensures SameSince(SayAll(a, replies), l, SayAll(b, replies), m)
    decreases |replies|
  {
    hide SameSince;
    if replies != [] {
      SameSinceNote(a, l, b, m, Sent(replies[0]));
      SayAllSame(Say(a, replies[0]), l, Say(b, replies[0]), m, replies[1..]);
    }
  }

  lemma HelloSame<H>(env: Env<H>, a: Conf<H>, l: Log, b: Conf<H>, m: Log, domain: string, extended: bool)
    requires SameSince(a, l, b, m)
    ensures SameSince(OnHello(env, a, domain, extended), l, OnHello(env, b, domain, extended), m)
  {
    hide SayAll, HelloReplies;
    SameSinceNote(a, l, b, m, Sent(BAD_SEQUENCE));
    var (h, answer) := env.handler.onHello(a.handler, domain, extended);
    var e := HelloCalled(domain, extended, answer.Accept?);
    var a1, b1 := a.(handler := h), b.(handler := h);
    SameSinceState(a, l, b, m, a1, b1);
    SameSinceNote(a1, l, b1, m, e);
    var a2, b2 := Note(a1, e), Note(b1, e);
    FailSame(a2, l, b2, m, HelloRejected);
    var replies := HelloReplies(env, a2.link, extended);
    SayAllSame(a2, l, b2, m, replies);
    var a3, b3 := SayAll(a2, replies), SayAll(b2, replies);
    SameSinceState(a3, l, b3, m, a3.(state := a3.state.(phase := Greeted)), b3.(state := b3.state.(phase := Greeted)));
  }

  lemma StartTlsSame<H>(a: Conf<H>, l: Log, b: Conf<H>, m: Log)
    requires SameSince(a, l, b, m)
    ensures SameSince(OnStartTls(a), l, OnStartTls(b), m)
  {
    SameSinceNote(a, l, b, m, Sent(SyntaxError(Some("TLS not supported"))));
    SameSinceNote(a, l, b, m, Sent(BAD_SEQUENCE));
    SameSinceNote(a, l, b, m, Sent(START_TLS));
    var a1, b1 := Say(a, START_TLS), Say(b, START_TLS);
    if SupportsTls(a.link) && a.link.acceptor.value(a.link.rest).Some? {
      var data := a.link.acceptor.value(a.link.rest).value;
      var a2, b2 := a1.(link := Secure(data), state := NEW_SESSION), b1.(link := Secure(data), state := NEW_SESSION);
      SameSinceState(a1, l, b1, m, a2, b2);
      SameSinceNote(a2, l, b2, m, TlsStarted);
    }
  }

  lemma HandshakeSame<H>(env: Env<H>, a: Conf<H>, l: Log, b: Conf<H>, m: Log,
                         mechanism: Cmd.AuthMethod, initial: Option<Bytes>)
    requires SameSince(a, l, b, m)
    ensures var ra := HandleAuth(env, a, mechanism, initial);
            var rb := HandleAuth(env, b, mechanism, initial);
            SameSince(ra.0, l, rb.0, m) && ra.1 == rb.1
  {
    hide SameSince, Ask, AuthLoginPassword, PlainCredentials;
    if mechanism.Plain? {
      AskSame(a, l, b, m, AUTH_CHALLENGE_PLAIN);
    } else if initial.Some? {
      PasswordSame(env, a, l, b, m, initial.value, initial.value);
    } else {
      AskSame(a, l, b, m, AUTH_CHALLENGE_LOGIN_USERNAME);
      var (a1, user) := Ask(a, AUTH_CHALLENGE_LOGIN_USERNAME);
      var (b1, _) := Ask(b, AUTH_CHALLENGE_LOGIN_USERNAME);
      if user.Some? {
        PasswordSame(env, a1, l, b1, m, user.value, user.value);
      }
    }
  }

  lemma AuthSame<H>(env: Env<H>, a: Conf<H>, l: Log, b: Conf<H>, m: Log,
                    mechanism: Cmd.AuthMethod, initial: Option<Bytes>)
    requires SameSince(a, l, b, m)
    ensures SameSince(OnAuth(env, a, mechanism, initial), l, OnAuth(env, b, mechanism, initial), m)
  {
    hide HandleAuth, FinishAuth;
    SameSinceNote(a, l, b, m, Sent(BAD_SEQUENCE));
    SameSinceNote(a, l, b, m, Sent(SyntaxError(None)));
    HandshakeSame(env, a, l, b, m, mechanism, initial);
    var (a1, outcome) := HandleAuth(env, a, mechanism, initial);
    var (b1, _) := HandleAuth(env, b, mechanism, initial);
    FinishSame(env, a1, l, b1, m, outcome);
  }

  // A command that only changes the state and says one thing.
  lemma StateAndReplySame<H>(a: Conf<H>, l: Log, b: Conf<H>, m: Log, state: SessionState, reply: Response)
    requires SameSince(a, l, b, m)
    ensures SameSince(Say(a.(state := state), reply), l, Say(b.(state := state), reply), m)
  {
    hide SayAll;
    SameSinceState(a, l, b, m, a.(state := state), b.(state := state));
    SameSinceNote(a.(state := state), l, b.(state := state), m, Sent(reply));
  }

  lemma ResetSame<H>(env: Env<H>, a: Conf<H>, l: Log, b: Conf<H>, m: Log)
    requires SameSince(a, l, b, m)
    ensures SameSince(OnReset(env, a), l, OnReset(env, b), m)
  {
    StateAndReplySame(a, l, b, m, NEW_SESSION, RESET);
    var a1, b1 := Say(a.(state := NEW_SESSION), RESET), Say(b.(state := NEW_SESSION), RESET);
    var h := env.handler.onReset(a.handler);
    SameSinceState(a1, l, b1, m, a1.(handler := h), b1.(handler := h));
    SameSinceNote(a1.(handler := h), l, b1.(handler := h), m, ResetCalled);
  }

  lemma TransactionSame<H>(env: Env<H>, a: Conf<H>, l: Log, b: Conf<H>, m: Log, command: Cmd.Command)
    requires SameSince(a, l, b, m)
    requires command.Mail? || command.Recipient? || command.Data? || command.NoOp? || command.Quit?
    ensures SameSince(Execute(env, a, command), l, Execute(env, b, command), m)
  {
    SameSinceNote(a, l, b, m, Sent(BAD_SEQUENCE));
    SameSinceNote(a, l, b, m, Sent(AUTH_REQUIRED));
    SameSinceNote(a, l, b, m, Sent(OK));
    SameSinceNote(a, l, b, m, Sent(GOODBYE));
    match command {
      case Mail(from) =>
        StateAndReplySame(a, l, b, m, a.state.(phase := Envelope, mail := EMPTY_MAIL.SetSender(from)), OK);
      case Recipient(to) =>
        StateAndReplySame(a, l, b, m, a.state.(mail := a.state.mail.AddRecipient(to)), OK);
      case Data => StateAndReplySame(a, l, b, m, a.state.(phase := Data), DATA_START);
      case Quit => SameSinceState(Say(a, GOODBYE), l, Say(b, GOODBYE), m,
                                  Say(a, GOODBYE).(status := Closed), Say(b, GOODBYE).(status := Closed));
      case _ =>
    }
  }

  lemma ExecuteSame<H>(env: Env<H>, a: Conf<H>, l: Log, b: Conf<H>, m: Log, command: Cmd.Command)
    requires SameSince(a, l, b, m)
    ensures SameSince(Execute(env, a, command), l, Execute(env, b, command), m)
  {
    hide OnHello, OnStartTls, OnAuth, OnReset, SayAll, HelpReplies, OnMailFrom, OnRecipient, OnData;
    match command {
      case Hello(domain, extended) => HelloSame(env, a, l, b, m, domain, extended);
      case Help => SayAllSame(a, l, b, m, HelpReplies(env, a.link));
      case StartTls => StartTlsSame(a, l, b, m);
      case Authenticate(mechanism, initial) => AuthSame(env, a, l, b, m, mechanism, initial);
      case Reset => ResetSame(env, a, l, b, m);
      case _ => TransactionSame(env, a, l, b, m, command);
    }
  }

  lemma DataLineSame<H>(env: Env<H>, a: Conf<H>, l: Log, b: Conf<H>, m: Log, line: Bytes)
    requires SameSince(a, l, b, m)
    ensures SameSince(OnDataLine(env, a, line), l, OnDataLine(env, b, line), m)
  {
    hide IsTerminator, Unstuff;
    var (h, failure) := env.handler.onMail(a.handler, a.state.mail);
    var e := MailCalled(a.state.mail, failure);
    var reply := match failure case Some(err) => MAIL_HANDLER_ERROR.Extend(err) case None => MAIL_ACCEPTED;
    var a1, b1 := a.(handler := h), b.(handler := h);
    SameSinceState(a, l, b, m, a1, b1);
    SameSinceNote(a1, l, b1, m, e);
    SameSinceNote(Note(a1, e), l, Note(b1, e), m, Sent(reply));
    var a2, b2 := Say(Note(a1, e), reply), Say(Note(b1, e), reply);
    var state := a.state.(mail := EMPTY_MAIL, phase := Greeted);
    SameSinceState(a2, l, b2, m, a2.(state := state), b2.(state := state));
    SameSinceNote(a, l, b, m, Sent(DATA_TOO_LONG));
    FailSame(Say(a, DATA_TOO_LONG), l, Say(b, DATA_TOO_LONG), m, DataTooLong);
    var more := a.state.(mail := a.state.mail.AppendData(Unstuff(line)));
    SameSinceState(a, l, b, m, a.(state := more), b.(state := more));
  }

  lemma StepSame<H>(env: Env<H>, a: Conf<H>, l: Log, b: Conf<H>, m: Log)
    requires SameSince(a, l, b, m)
    ensures SameSince(Step(env, a), l, Step(env, b), m)
  {
    hide Execute, OnDataLine, Cmd.Parse;
    match NextLine(a.link.rest) {
      case Line(line, rest) =>
        var a0, b0 := a.(link := a.link.(rest := rest)), b.(link := b.link.(rest := rest));
        SameSinceState(a, l, b, m, a0, b0);
        SameSinceNote(a0, l, b0, m, Recv(line));
        var a1, b1 := Note(a0, Recv(line)), Note(b0, Recv(line));
        DataLineSame(env, a1, l, b1, m, line);
        var p := Cmd.Parse(env.lib.lossy, line);
        if p.Err? {
          SameSinceNote(a1, l, b1, m, Sent(SyntaxError(Some(p.error))));
        } else {
          ExecuteSame(env, a1, l, b1, m, p.value);
        }
      case AtEof =>
        SameSinceNote(a, l, b, m, Eof);
        FailSame(Note(a, Eof), l, Note(b, Eof), m, UnexpectedEof);
      case _ =>
    }
  }

  // Two sessions that differ in their past only have the same future.
  lemma {:induction false} RunSame<H>(env: Env<H>, a: Conf<H>, l: Log, b: Conf<H>, m: Log)
    requires SameSince(a, l, b, m)
    ensures SameSince(Run(env, a), l, Run(env, b), m)
    decreases a.link.Plain?, |a.link.rest|
  {
    hide Step;
    StepSame(env, a, l, b, m);
    if a.status.Running? && Step(env, a).status.Running? {
      StepShortens(env, a);
      RunSame(env, Step(env, a), l, Step(env, b), m);
    }
  }

  // Whichever form of AUTH the client used, the rest of its session, to the end, is the same.
  lemma FormsAgreeToTheEnd<H>(env: Env<H>, c: Conf<H>, mechanism: Cmd.AuthMethod, payload: Bytes, rest: Bytes)
    requires c.status.Running? && c.state.phase.Greeted? && env.authMode != NoAuth
    requires env.authMode == RequireTls ==> c.link.Secure?
    requires LF !in payload && |InlineLine(mechanism, payload)| <= MAX_LINE_LENGTH
    ensures var inlined := c.(link := c.link.(rest := InlineLine(mechanism, payload) + rest));
            var challenged := c.(link := c.link.(rest := BareLine(mechanism) + (payload + CRLF + rest)));
            var challenge := if mechanism.Plain? then AUTH_CHALLENGE_PLAIN else AUTH_CHALLENGE_LOGIN_USERNAME;
            SameSince(Run(env, inlined), c.log + [Recv(InlineLine(mechanism, payload))],
                      Run(env, challenged),
                      c.log + [Recv(BareLine(mechanism))] + [Sent(challenge), Recv(payload + CRLF)])
  {
    hide Step, Run, SameSince, InlineLine, BareLine;
    var inlined := c.(link := c.link.(rest := InlineLine(mechanism, payload) + rest));
    var challenged := c.(link := c.link.(rest := BareLine(mechanism) + (payload + CRLF + rest)));
    var challenge := if mechanism.Plain? then AUTH_CHALLENGE_PLAIN else AUTH_CHALLENGE_LOGIN_USERNAME;
    FormsAgree(env, c, mechanism, payload, rest);
    RunSame(env, Step(env, inlined), c.log + [Recv(InlineLine(mechanism, payload))],
            Step(env, challenged), c.log + [Recv(BareLine(mechanism))] + [Sent(challenge), Recv(payload + CRLF)]);
    RunAfterStep(env, inlined);
    RunAfterStep(env, challenged);
  }
}
