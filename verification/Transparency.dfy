/** Dot-transparency of message content (section 4.5.2 of RFC 5321) from the client's bytes to the
    mail handed to the event handler. */
module Transparency {
  import opened Basics
  import opened Responses
  import opened Mails
  import opened Lines
  import opened Protocol

  predicate IsBodyLine(line: Bytes)
  {
    line != [] && Last(line) == LF && LF !in Init(line)
  }

  // What a client sends for a line of the body.
  function Stuff(line: Bytes): Bytes
  {
    if line != [] && line[0] == DOT then [DOT] + line else line
  }

  function Stuffed(lines: seq<Bytes>): Bytes
  {
    if lines == [] then [] else Stuff(lines[0]) + Stuffed(lines[1..])
  }

  // Lines a session can read: terminated, and stuffed no longer than the line limit.
  predicate Sendable(lines: seq<Bytes>)
  {
    forall i :: 0 <= i < |lines| ==> IsBodyLine(lines[i]) && |Stuff(lines[i])| <= MAX_LINE_LENGTH
  }

  function Received(lines: seq<Bytes>): Log
  {
    seq(|lines|, i requires 0 <= i < |lines| => Recv(Stuff(lines[i])))
  }

  lemma UnstuffInvertsStuff(line: Bytes)
    requires IsBodyLine(line)
    ensures Unstuff(Stuff(line)) == line && !IsTerminator(Stuff(line))
  {
  }

  // The standard has a receiver delete the first of several characters when it is a period.
  function StandardUnstuff(line: Bytes): Bytes
  {
    if |line| > 1 && line[0] == DOT then line[1..] else line
  }

  // The session agrees with the standard except on a lone leading period, which it keeps.
  lemma UnstuffIsStandardIff(line: Bytes)
    requires IsBodyLine(line) && !IsTerminator(line)
    ensures Unstuff(line) == StandardUnstuff(line) <==> !(|line| > 1 && line[0] == DOT && line[1] != DOT)
  {
    if |line| > 1 && line[0] == DOT && line[1] == DOT {
      assert line[..2] == [DOT, DOT];
    }
  }

  lemma LoneDotIsKept()
    ensures Unstuff([DOT, 102, LF]) == [DOT, 102, LF] && StandardUnstuff([DOT, 102, LF]) == [102, LF]
  {
    assert [DOT, 102, LF][..2] == [DOT, 102];
  }

  lemma ReadSent<H>(c: Conf<H>, line: Bytes, rest: Bytes)
    requires line != [] && Last(line) == LF && LF !in Init(line) && |line| <= MAX_LINE_LENGTH
    requires c.link.rest == line + rest
    ensures ReadLine(c) == (Note(c.(link := c.link.(rest := rest)), Recv(line)), Some(line))
  {
    assert line == Init(line) + [LF];
    NextLineOf(Init(line), rest);
  }

  // A configuration that took in part of a body.
  function Absorbing<H>(c: Conf<H>, lines: seq<Bytes>, rest: Bytes): Conf<H>
  {
    c.(link := c.link.(rest := rest), log := c.log + Received(lines),
       state := c.state.(mail := c.state.mail.AppendData(Concat(lines))))
  }

  lemma BodyLineStep<H>(env: Env<H>, c: Conf<H>, line: Bytes, rest: Bytes)
    requires c.status.Running? && c.state.phase.Data? && IsBodyLine(line) && |Stuff(line)| <= MAX_LINE_LENGTH
    requires c.link.rest == Stuff(line) + rest
    ensures |c.state.mail.data| + |line| <= env.maxMessageSize ==> Step(env, c) == Absorbing(c, [line], rest)
    ensures |c.state.mail.data| + |line| > env.maxMessageSize ==>
              && Step(env, c).status == Failed(DataTooLong)
              && Step(env, c).log == c.log + Received([line]) + [Sent(DATA_TOO_LONG)]
  {
    var sent := Stuff(line);
    if line[0] == DOT {
      assert Init(sent) == [DOT] + Init(line);
    }
    ReadSent(c, sent, rest);
    UnstuffInvertsStuff(line);
    assert Received([line]) == [Recv(sent)];
    assert Concat([line]) == line;
  }

  // Any line read as content, stuffed or not: the two terminators and no other line end the content;
  // of a line that starts with two periods one is taken off, and every other line is kept as it is.
  lemma ContentLineStep<H>(env: Env<H>, c: Conf<H>, line: Bytes, rest: Bytes)
    requires c.status.Running? && c.state.phase.Data? && IsBodyLine(line) && |line| <= MAX_LINE_LENGTH
    requires c.link.rest == line + rest
    ensures var r := Step(env, c);
            var content := if |line| >= 2 && line[0] == 46 && line[1] == 46 then line[1..] else line;
            if line in [[46, 13, 10], [46, 10]] then
              && r.state.phase.Greeted? && r.log[..|c.log| + 1] == c.log + [Recv(line)]
              && r.log[|c.log| + 1].MailCalled? && r.log[|c.log| + 1].mail == c.state.mail
            else if |c.state.mail.data| + |content| <= env.maxMessageSize then
              r == Note(c.(link := c.link.(rest := rest),
                           state := c.state.(mail := c.state.mail.(data := c.state.mail.data + content))), Recv(line))
            else
              r.status == Failed(DataTooLong) && r.log == c.log + [Recv(line), Sent(DATA_TOO_LONG)]
  {
    ReadSent(c, line, rest);
    UnstuffInBytes(line);
    assert c.log + [Recv(line)] + [Sent(DATA_TOO_LONG)] == c.log + [Recv(line), Sent(DATA_TOO_LONG)];
  }

  lemma UnstuffInBytes(line: Bytes)
    ensures Unstuff(line) == if |line| >= 2 && line[0] == 46 && line[1] == 46 then line[1..] else line
    ensures IsTerminator(line) <==> line in [[46, 13, 10], [46, 10]]
  {
    if |line| >= 2 {
      assert line[..2] == [line[0], line[1]];
    }
  }

  lemma AbsorbingMore<H>(c: Conf<H>, lines: seq<Bytes>, rest0: Bytes, rest: Bytes)
    requires lines != []
    ensures Absorbing(Absorbing(c, [lines[0]], rest0), lines[1..], rest) == Absorbing(c, lines, rest)
  {
    assert Received(lines) == Received([lines[0]]) + Received(lines[1..]);
    assert c.log + Received([lines[0]]) + Received(lines[1..]) == c.log + Received(lines);
    assert Concat([lines[0]]) == lines[0];
    assert c.state.mail.data + lines[0] + Concat(lines[1..]) == c.state.mail.data + Concat(lines);
  }

  lemma AbsorbingNothing<H>(c: Conf<H>, rest: Bytes)
    requires c.link.rest == Stuffed([]) + rest
    ensures Absorbing(c, [], rest) == c
  {
    assert c.log + Received([]) == c.log && c.state.mail.data + Concat([]) == c.state.mail.data;
    assert c.link.rest == rest;
  }

  // A body that fits is taken in line by line, byte for byte.
  lemma {:induction false} BodyFits<H>(env: Env<H>, c: Conf<H>, lines: seq<Bytes>, rest: Bytes)
    requires c.status.Running? && c.state.phase.Data? && Sendable(lines)
    requires c.link.rest == Stuffed(lines) + rest
    requires |c.state.mail.data| + |Concat(lines)| <= env.maxMessageSize
    ensures After(env, c, |lines|) == Absorbing(c, lines, rest)
    decreases |lines|
  {
    hide Step, Stuff, Received;
    if lines == [] {
      AbsorbingNothing(c, rest);
    } else {
      var rest0 := Stuffed(lines[1..]) + rest;
      assert c.link.rest == Stuff(lines[0]) + rest0;
      BodyLineStep(env, c, lines[0], rest0);
      var c1 := Absorbing(c, [lines[0]], rest0);
      assert Concat([lines[0]]) == lines[0];
      BodyFits(env, c1, lines[1..], rest);
      AfterFirst(env, c, |lines| - 1);
      AbsorbingMore(c, lines, rest0, rest);
    }
  }

  // A body that does not fit is refused at the first line that exceeds the limit.
  lemma {:induction false} BodyTooLong<H>(env: Env<H>, c: Conf<H>, lines: seq<Bytes>, rest: Bytes) returns (k: nat)
    requires c.status.Running? && c.state.phase.Data? && Sendable(lines)
    requires c.link.rest == Stuffed(lines) + rest
    requires |c.state.mail.data| <= env.maxMessageSize < |c.state.mail.data| + |Concat(lines)|
    ensures k < |lines|
    ensures After(env, c, k + 1).status == Failed(DataTooLong)
    ensures After(env, c, k + 1).log == c.log + Received(lines[..k + 1]) + [Sent(DATA_TOO_LONG)]
    decreases |lines|
  {
    hide Step, Stuff;
    var rest0 := Stuffed(lines[1..]) + rest;
    assert c.link.rest == Stuff(lines[0]) + rest0;
    BodyLineStep(env, c, lines[0], rest0);
    if |c.state.mail.data| + |lines[0]| > env.maxMessageSize {
      k := 0;
      AfterFirst(env, c, 0);
      assert lines[..1] == [lines[0]];
    } else {
      var c1 := Absorbing(c, [lines[0]], rest0);
      assert Concat([lines[0]]) == lines[0];
      var j := BodyTooLong(env, c1, lines[1..], rest);
      k := j + 1;
      AfterFirst(env, c, j + 1);
      assert Received(lines[..k + 1]) == Received([lines[0]]) + Received(lines[1..][..j + 1]);
      assert c.log + Received([lines[0]]) + Received(lines[1..][..j + 1]) == c.log + Received(lines[..k + 1]);
    }
  }

  // The session read k + 1 lines of the body and replied that it is too long.
  ghost predicate RefusedAfter<H>(c: Conf<H>, end: Conf<H>, lines: seq<Bytes>, k: nat)
  {
    k < |lines| && end.log == c.log + Received(lines[..k + 1]) + [Sent(DATA_TOO_LONG)]
  }

  // From the start of the data phase, a stuffed body with its terminator is delivered exactly once
  // and byte for byte, with what follows left unread, if it is within the size limit; if not, the
  // session replies 552 and ends, and nothing is delivered.
  lemma EndToEnd<H>(env: Env<H>, c: Conf<H>, lines: seq<Bytes>, terminator: Bytes, rest: Bytes)
    requires c.status.Running? && c.state.phase.Data? && c.state.mail.data == []
    requires Sendable(lines) && terminator in [[DOT, CR, LF], [DOT, LF]]
    requires c.link.rest == Stuffed(lines) + terminator + rest
    ensures var body := Concat(lines);
            var mail := c.state.mail.(data := body);
            var end := After(env, c, |lines| + 1);
            var failure := env.handler.onMail(c.handler, mail).1;
            |body| <= env.maxMessageSize ==>
              && end.status.Running? && end.link == c.link.(rest := rest)
              && end.handler == env.handler.onMail(c.handler, mail).0
              && end.state == SessionState(Greeted, c.state.authenticated, EMPTY_MAIL)
              && end.log == c.log + Received(lines) +
                            [Recv(terminator), MailCalled(mail, failure),
                             Sent(if failure.Some? then MAIL_HANDLER_ERROR.Extend(failure.value) else MAIL_ACCEPTED)]
    ensures var end := Run(env, c);
            |Concat(lines)| > env.maxMessageSize ==>
              && end.status == Failed(DataTooLong)
              && exists k :: RefusedAfter(c, end, lines, k)
  {
    hide Step, Stuffed, Sendable, Concat;
    var tail := terminator + rest;
    assert c.link.rest == Stuffed(lines) + tail;
    if |Concat(lines)| <= env.maxMessageSize {
      BodyFits(env, c, lines, tail);
      var c1 := Absorbing(c, lines, tail);
      assert c.state.mail.data + Concat(lines) == Concat(lines);
      TerminatorStep(env, c1, terminator, rest);
    } else {
      var k := BodyTooLong(env, c, lines, tail);
      RunFromAnyTurn(env, c, k + 1);
      assert RefusedAfter(c, Run(env, c), lines, k);
    }
  }

  lemma TerminatorStep<H>(env: Env<H>, c: Conf<H>, terminator: Bytes, rest: Bytes)
    requires c.status.Running? && c.state.phase.Data? && IsTerminator(terminator)
    requires c.link.rest == terminator + rest
    ensures var end := Step(env, c);
            var failure := env.handler.onMail(c.handler, c.state.mail).1;
            && end.status.Running? && end.link == c.link.(rest := rest)
            && end.handler == env.handler.onMail(c.handler, c.state.mail).0
            && end.state == SessionState(Greeted, c.state.authenticated, EMPTY_MAIL)
            && end.log == c.log +
                          [Recv(terminator), MailCalled(c.state.mail, failure),
                           Sent(if failure.Some? then MAIL_HANDLER_ERROR.Extend(failure.value) else MAIL_ACCEPTED)]
  {
    hide NextLine, Unstuff;
    ReadSent(c, terminator, rest);
  }
}
