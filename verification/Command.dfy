/** SMTP commands and their parser. */
module Commands {
  import opened Basics

  datatype AuthMethod = Plain | Login

  datatype Command =
    | Hello(domain: string, extended: bool)
    | Help
    | StartTls
    | Authenticate(mechanism: AuthMethod, initial: Option<Bytes>)
    | Mail(from: string)
    | Recipient(to: string)
    | Data
    | Reset
    | NoOp
    | Quit

  const HELO: Bytes := [72, 69, 76, 79]
  const EHLO: Bytes := [69, 72, 76, 79]
  const HELP: Bytes := [72, 69, 76, 80]
  const STARTTLS: Bytes := [83, 84, 65, 82, 84, 84, 76, 83]
  const AUTH: Bytes := [65, 85, 84, 72]
  const MAIL: Bytes := [77, 65, 73, 76]
  const RCPT: Bytes := [82, 67, 80, 84]
  const DATA: Bytes := [68, 65, 84, 65]
  const RSET: Bytes := [82, 83, 69, 84]
  const NOOP: Bytes := [78, 79, 79, 80]
  const QUIT: Bytes := [81, 85, 73, 84]
  const PLAIN: Bytes := [80, 76, 65, 73, 78]
  const LOGIN: Bytes := [76, 79, 71, 73, 78]
  const FROM: Bytes := [70, 82, 79, 77, 58]
  const TO: Bytes := [84, 79, 58]

  // UTF-8 decoding in which malformed input becomes replacement characters.
  type Lossy = Bytes -> string

  function SplitOnce(s: Bytes, delimiter: byte): (Bytes, Option<Bytes>)
  {
    var n := IndexOf(s, delimiter);
    if n < |s| then (s[..n], Some(s[n + 1..])) else (s, None)
  }

  function StripPrefixIgnoreCase(s: Bytes, prefix: Bytes): Option<Bytes>
  {
    if |s| < |prefix| then None
    else if Upper(s[..|prefix|]) == Upper(prefix) then Some(s[|prefix|..])
    else None
  }

  function Text(lossy: Lossy, s: Bytes): string
  {
    Trim(lossy(s))
  }

  function NoArgument(arg: Option<Bytes>, command: Command, error: string): Result<Command, string>
  {
    if arg.Some? then Err(error) else Ok(command)
  }

  function ParseAuth(arg: Bytes): Result<Command, string>
  {
    var (mechanism, initial) := SplitOnce(arg, SPACE);
    var m := Upper(mechanism);
    if m == PLAIN then Ok(Authenticate(Plain, initial))
    else if m == LOGIN then Ok(Authenticate(Login, initial))
    else Err("unsupported AUTH mechanism")
  }

  // The command a verb in upper case and its argument, if any, stand for.
  function Interpret(lossy: Lossy, verb: Bytes, arg: Option<Bytes>): Result<Command, string>
  {
    if verb == HELO || verb == EHLO then
      match arg
      case None => Err("HELO requires domain")
      case Some(domain) => Ok(Hello(Text(lossy, domain), verb == EHLO))
    else if verb == HELP then Ok(Help)
    else if verb == STARTTLS then NoArgument(arg, StartTls, "STARTTLS takes no arguments")
    else if verb == AUTH then
      match arg
      case None => Err("AUTH requires mechanism")
      case Some(a) => ParseAuth(a)
    else if verb == MAIL then
      match arg
      case None => Err("MAIL requires FROM")
      case Some(a) =>
        (match StripPrefixIgnoreCase(a, FROM)
         case None => Err("MAIL requires FROM")
         case Some(from) => Ok(Mail(Text(lossy, from))))
    else if verb == RCPT then
      match arg
      case None => Err("RCPT requires TO")
      case Some(a) =>
        (match StripPrefixIgnoreCase(a, TO)
         case None => Err("RCPT requires TO")
         case Some(to) => Ok(Recipient(Text(lossy, to))))
    else if verb == DATA then NoArgument(arg, Data, "DATA takes no arguments")
    else if verb == RSET then NoArgument(arg, Reset, "RSET takes no arguments")
    else if verb == NOOP then NoArgument(arg, NoOp, "NOOP takes no arguments")
    else if verb == QUIT then NoArgument(arg, Quit, "QUIT takes no arguments")
    else Err("unrecognized command")
  }

  function Parse(lossy: Lossy, line: Bytes): Result<Command, string>
  {
    var (verb, arg) := SplitOnce(StripNewline(line), SPACE);
    Interpret(lossy, Upper(verb), arg)
  }

  // ----- canonical printing -----

  // What follows a word: nothing, or a space and more.
  function Tail(arg: Option<Bytes>): Bytes
  {
    match arg case None => [] case Some(a) => [SPACE] + a
  }

  predicate IsAscii(s: string)
  {
    forall i :: 0 <= i < |s| ==> s[i] as int < 128
  }

  function Encode(s: string): Bytes
    requires IsAscii(s)
  {
    seq(|s|, i requires 0 <= i < |s| => s[i] as int)
  }

  // UTF-8 decoding leaves ASCII text as it is.
  ghost predicate DecodesAscii(lossy: Lossy)
  {
    forall s: string :: IsAscii(s) ==> lossy(Encode(s)) == s
  }

  // Text fields that a line can carry unchanged; the AUTH initial response is unrestricted.
  predicate Printable(c: Command)
  {
    match c
    case Hello(domain, _) => IsAscii(domain) && Trimmed(domain)
    case Mail(from) => IsAscii(from) && Trimmed(from)
    case Recipient(to) => IsAscii(to) && Trimmed(to)
    case _ => true
  }

  predicate HasText(c: Command)
  {
    c.Hello? || c.Mail? || c.Recipient?
  }

  function MechanismWord(mechanism: AuthMethod): Bytes
  {
    if mechanism.Plain? then PLAIN else LOGIN
  }

  // The verb and the argument to send for a command.
  function Words(c: Command): (Bytes, Option<Bytes>)
    requires Printable(c)
  {
    match c
    case Hello(domain, extended) => (if extended then EHLO else HELO, Some(Encode(domain)))
    case Help => (HELP, None)
    case StartTls => (STARTTLS, None)
    case Authenticate(mechanism, initial) => (AUTH, Some(MechanismWord(mechanism) + Tail(initial)))
    case Mail(from) => (MAIL, Some(FROM + Encode(from)))
    case Recipient(to) => (RCPT, Some(TO + Encode(to)))
    case Data => (DATA, None)
    case Reset => (RSET, None)
    case NoOp => (NOOP, None)
    case Quit => (QUIT, None)
  }

  function Print(c: Command): Bytes
    requires Printable(c)
  {
    var (verb, arg) := Words(c);
    verb + Tail(arg)
  }

  // ----- laws of the line syntax -----

  lemma StripNewlineOf(body: Bytes)
    ensures StripNewline(body + CRLF) == body
    ensures (body == [] || Last(body) != CR) ==> StripNewline(body + [LF]) == body
    ensures (body == [] || Last(body) != LF) ==> StripNewline(body) == body
  {
    assert (body + CRLF)[|body|..] == CRLF;
    assert (body + CRLF)[..|body|] == body;
    assert (body + [LF])[|body|..] == [LF];
    assert (body + [LF])[..|body|] == body;
    if body != [] {
      assert Last(body + [LF]) == LF && (body + [LF])[|body| - 1] == Last(body);
      if EndsWith(body + [LF], CRLF) {
        assert (body + [LF])[|body| - 1..] == CRLF;
        assert (body + [LF])[|body| - 1] == CR;
      }
      if EndsWith(body, CRLF) {
        assert Last(body) == body[|body| - 2..][1];
      }
      if EndsWith(body, [LF]) {
        assert Last(body) == body[|body| - 1..][0];
      }
    }
  }

  lemma SplitOnceOf(word: Bytes, rest: Bytes, delimiter: byte)
    requires delimiter !in word
    ensures SplitOnce(word, delimiter) == (word, None)
    ensures SplitOnce(word + [delimiter] + rest, delimiter) == (word, Some(rest))
  {
    assert word[..|word|] == word;
    IndexOfUnique(word, delimiter, |word|);
    var s := word + [delimiter] + rest;
    assert s[..|word|] == word && s[|word| + 1..] == rest;
    IndexOfUnique(s, delimiter, |word|);
  }

  // A line is understood by its verb, in any case, and what follows the first space.
  lemma ParseOfWords(lossy: Lossy, verb: Bytes, arg: Option<Bytes>)
    requires SPACE !in verb
    ensures var body := verb + Tail(arg);
            Parse(lossy, body + CRLF) == Interpret(lossy, Upper(verb), arg)
  {
    var body := verb + Tail(arg);
    StripNewlineOf(body);
    match arg {
      case None =>
        assert body == verb;
        SplitOnceOf(verb, [], SPACE);
      case Some(a) =>
        assert body == verb + [SPACE] + a;
        SplitOnceOf(verb, a, SPACE);
    }
  }

  lemma UpperVerbs()
    ensures Upper(HELO) == HELO && Upper(EHLO) == EHLO && Upper(HELP) == HELP && Upper(STARTTLS) == STARTTLS
    ensures Upper(AUTH) == AUTH && Upper(MAIL) == MAIL && Upper(RCPT) == RCPT && Upper(DATA) == DATA
    ensures Upper(RSET) == RSET && Upper(NOOP) == NOOP && Upper(QUIT) == QUIT
    ensures Upper(PLAIN) == PLAIN && Upper(LOGIN) == LOGIN
  {
  }

  lemma AuthRoundTrip(mechanism: AuthMethod, initial: Option<Bytes>)
    ensures var word := MechanismWord(mechanism);
            ParseAuth(word + Tail(initial))
            == Ok(Authenticate(mechanism, initial))
  {
    UpperVerbs();
    var word := MechanismWord(mechanism);
    assert PLAIN[0] != LOGIN[0];
    match initial {
      case None =>
        assert word + [] == word;
        SplitOnceOf(word, [], SPACE);
      case Some(r) =>
        assert word + ([SPACE] + r) == word + [SPACE] + r;
        SplitOnceOf(word, r, SPACE);
    }
  }

  const VERBS := [HELO, EHLO, HELP, STARTTLS, AUTH, MAIL, RCPT, DATA, RSET, NOOP, QUIT]

  lemma DistinctVerbs()
    ensures forall i, j :: 0 <= i < j < 11 ==> VERBS[i] != VERBS[j]
  {
    assert HELO[0] == 72 && EHLO[0] == 69 && AUTH[0] == 65 && MAIL[0] == 77;
    assert DATA[0] == 68 && NOOP[0] == 78 && QUIT[0] == 81;
    assert HELO[3] == 79 && HELP[3] == 80 && RCPT[1] == 67 && RSET[1] == 83 && |STARTTLS| == 8;
  }

  // Each branch of the dispatch on the verb is reached by its own verb.
  lemma InterpretOfArgument(lossy: Lossy, a: Bytes)
    ensures Interpret(lossy, HELO, Some(a)) == Ok(Hello(Text(lossy, a), false))
    ensures Interpret(lossy, EHLO, Some(a)) == Ok(Hello(Text(lossy, a), true))
    ensures Interpret(lossy, AUTH, Some(a)) == ParseAuth(a)
    ensures Interpret(lossy, MAIL, Some(a)) ==
            match StripPrefixIgnoreCase(a, FROM)
            case None => Err("MAIL requires FROM")
            case Some(t) => Ok(Mail(Text(lossy, t)))
    ensures Interpret(lossy, RCPT, Some(a)) ==
            match StripPrefixIgnoreCase(a, TO)
            case None => Err("RCPT requires TO")
            case Some(t) => Ok(Recipient(Text(lossy, t)))
  {
    DistinctVerbs();
    assert forall i, j :: 0 <= i < j < 11 ==> VERBS[i] != VERBS[j];
    assert VERBS[0] == HELO && VERBS[1] == EHLO && VERBS[2] == HELP && VERBS[3] == STARTTLS && VERBS[4] == AUTH;
    assert VERBS[5] == MAIL && VERBS[6] == RCPT;
  }

  lemma InterpretBare(lossy: Lossy, verb: Bytes)
    requires verb in [HELP, STARTTLS, DATA, RSET, NOOP, QUIT]
    ensures Interpret(lossy, verb, None) ==
            Ok(if verb == HELP then Help else if verb == STARTTLS then StartTls else if verb == DATA then Data
               else if verb == RSET then Reset else if verb == NOOP then NoOp else Quit)
  {
    assert verb[0] in [72, 83, 68, 82, 78, 81];
    assert HELO[0] == 72 && EHLO[0] == 69 && AUTH[0] == 65 && MAIL[0] == 77;
    assert verb[0] == 72 ==> verb[3] == 80;
    assert HELO[3] == 79 && RCPT[0] == 82 && RCPT[1] == 67 && verb[1] != 67;
  }

  lemma TextOfAscii(lossy: Lossy, s: string)
    requires DecodesAscii(lossy) && IsAscii(s) && Trimmed(s)
    ensures Text(lossy, Encode(s)) == s
  {
  }

  // Upper and lower case letters of verbs are the same to the parser.
  lemma VerbCaseIrrelevant(lossy: Lossy, verb: Bytes, verb': Bytes, arg: Option<Bytes>)
    requires SPACE !in verb && SPACE !in verb' && SameLetters(verb, verb')
    ensures var tail := Tail(arg);
            Parse(lossy, verb + tail + CRLF) == Parse(lossy, verb' + tail + CRLF)
  {
    UpperIff(verb, verb');
    ParseOfWords(lossy, verb, arg);
    ParseOfWords(lossy, verb', arg);
  }

  lemma MechanismCaseIrrelevant(word: Bytes, word': Bytes, tail: Bytes)
    requires Upper(word) == Upper(word') && SPACE !in word && SPACE !in word'
    requires tail == [] || tail[0] == SPACE
    ensures ParseAuth(word + tail) == ParseAuth(word' + tail)
  {
    if tail == [] {
      assert word + tail == word && word' + tail == word';
      SplitOnceOf(word, [], SPACE);
      SplitOnceOf(word', [], SPACE);
    } else {
      assert tail == [SPACE] + tail[1..];
      assert word + tail == word + [SPACE] + tail[1..] && word' + tail == word' + [SPACE] + tail[1..];
      SplitOnceOf(word, tail[1..], SPACE);
      SplitOnceOf(word', tail[1..], SPACE);
    }
  }

  lemma PrefixCaseIrrelevant(prefix: Bytes, word: Bytes, word': Bytes, tail: Bytes)
    requires Upper(word) == Upper(word') && |word| == |prefix|
    ensures StripPrefixIgnoreCase(word + tail, prefix) == StripPrefixIgnoreCase(word' + tail, prefix)
  {
    assert |word| == |Upper(word)| == |word'|;
    assert (word + tail)[..|word|] == word && (word + tail)[|word|..] == tail;
    assert (word' + tail)[..|word|] == word' && (word' + tail)[|word|..] == tail;
  }

  // So are those of the AUTH mechanism and of the FROM: and TO: keywords.
  lemma KeywordCaseIrrelevant(lossy: Lossy, verb: Bytes, word: Bytes, word': Bytes, tail: Bytes)
    requires SameLetters(word, word')
    requires (verb == MAIL && |word| == |FROM|) || (verb == RCPT && |word| == |TO|) ||
             (verb == AUTH && SPACE !in word && SPACE !in word' && (tail == [] || tail[0] == SPACE))
    ensures Parse(lossy, verb + ([SPACE] + (word + tail)) + CRLF) ==
            Parse(lossy, verb + ([SPACE] + (word' + tail)) + CRLF)
  {
    UpperIff(word, word');
    UpperVerbs();
    ParseOfWords(lossy, verb, Some(word + tail));
    ParseOfWords(lossy, verb, Some(word' + tail));
    InterpretOfArgument(lossy, word + tail);
    InterpretOfArgument(lossy, word' + tail);
    if verb == AUTH {
      MechanismCaseIrrelevant(word, word', tail);
    } else {
      PrefixCaseIrrelevant(if verb == MAIL then FROM else TO, word, word', tail);
    }
  }

  // CRLF, a bare LF and no terminator at all mean the same.
  lemma LineEndingIrrelevant(lossy: Lossy, body: Bytes)
    requires body == [] || (Last(body) != CR && Last(body) != LF)
    ensures Parse(lossy, body + CRLF) == Parse(lossy, body + [LF]) == Parse(lossy, body)
  {
    StripNewlineOf(body);
  }

  // ----- the language accepted -----

  // text starts with the keyword, in any case.
  predicate Opens(text: Bytes, keyword: Bytes)
  {
    |keyword| <= |text| && Upper(text[..|keyword|]) == keyword
  }

  // The grammar of commands: a verb and an argument that stand for c.
  predicate Spells(lossy: Lossy, verb: Bytes, arg: Option<Bytes>, c: Command)
  {
    match c
    case Hello(domain, extended) =>
      Upper(verb) == (if extended then EHLO else HELO) && arg.Some? && domain == Text(lossy, arg.value)
    case Help => Upper(verb) == HELP
    case StartTls => Upper(verb) == STARTTLS && arg.None?
    case Authenticate(mechanism, initial) =>
      var word := MechanismWord(mechanism);
      Upper(verb) == AUTH && arg.Some? && Opens(arg.value, word) && arg.value[|word|..] == Tail(initial)
    case Mail(from) =>
      Upper(verb) == MAIL && arg.Some? && Opens(arg.value, FROM) && from == Text(lossy, arg.value[|FROM|..])
    case Recipient(to) =>
      Upper(verb) == RCPT && arg.Some? && Opens(arg.value, TO) && to == Text(lossy, arg.value[|TO|..])
    case Data => Upper(verb) == DATA && arg.None?
    case Reset => Upper(verb) == RSET && arg.None?
    case NoOp => Upper(verb) == NOOP && arg.None?
    case Quit => Upper(verb) == QUIT && arg.None?
  }

  predicate IsLineOf(lossy: Lossy, line: Bytes, verb: Bytes, arg: Option<Bytes>, c: Command)
  {
    SPACE !in verb && StripNewline(line) == verb + Tail(arg) && Spells(lossy, verb, arg, c)
  }

  lemma ParseAuthSound(arg: Bytes)
    ensures var p := ParseAuth(arg);
            p.Ok? ==>
              && p.value.Authenticate?
              && var word := MechanismWord(p.value.mechanism);
                 Opens(arg, word) && arg[|word|..] == Tail(p.value.initial)
  {
    hide Upper;
    var n := IndexOf(arg, SPACE);
    if n < |arg| {
      assert arg[n..] == [SPACE] + arg[n + 1..];
    } else {
      assert arg[..n] == arg && arg[n..] == [];
    }
  }

  lemma ParseAuthComplete(arg: Bytes, mechanism: AuthMethod, initial: Option<Bytes>)
    requires var word := MechanismWord(mechanism);
             Opens(arg, word) && arg[|word|..] == Tail(initial)
    ensures ParseAuth(arg) == Ok(Authenticate(mechanism, initial))
  {
    var word := MechanismWord(mechanism);
    var w := arg[..|word|];
    assert arg == w + Tail(initial);
    NoSpaceIn(w, word);
    UpperVerbs();
    AuthRoundTrip(mechanism, initial);
    MechanismCaseIrrelevant(w, word, Tail(initial));
  }

  lemma NoSpaceIn(w: Bytes, word: Bytes)
    requires Upper(w) == word && SPACE !in word
    ensures SPACE !in w
  {
  }

  lemma UpperKeywords()
    ensures Upper(FROM) == FROM && Upper(TO) == TO
  {
  }

  lemma InterpretSound(lossy: Lossy, verb: Bytes, arg: Option<Bytes>)
    ensures var p := Interpret(lossy, Upper(verb), arg); p.Ok? ==> Spells(lossy, verb, arg, p.value)
  {
    hide Upper, ParseAuth, Text, Opens, StripPrefixIgnoreCase, Tail;
    if arg.Some? {
      ParseAuthSound(arg.value);
      StripSound(arg.value, FROM);
      StripSound(arg.value, TO);
      UpperKeywords();
    }
  }

  lemma StripSound(s: Bytes, prefix: Bytes)
    requires Upper(prefix) == prefix
    ensures StripPrefixIgnoreCase(s, prefix) == if Opens(s, prefix) then Some(s[|prefix|..]) else None
  {
    hide Upper;
  }

  lemma InterpretComplete(lossy: Lossy, verb: Bytes, arg: Option<Bytes>, c: Command)
    requires Spells(lossy, verb, arg, c)
    ensures Interpret(lossy, Upper(verb), arg) == Ok(c)
  {
    hide Upper, ParseAuth, Text, Opens, StripPrefixIgnoreCase, Tail, Interpret;
    UpperKeywords();
    match c {
      case Help => InterpretHelp(lossy, arg);
      case Hello(_, _) => InterpretOfArgument(lossy, arg.value);
      case Authenticate(mechanism, initial) =>
        InterpretOfArgument(lossy, arg.value);
        ParseAuthComplete(arg.value, mechanism, initial);
      case Mail(_) =>
        InterpretOfArgument(lossy, arg.value);
        StripSound(arg.value, FROM);
      case Recipient(_) =>
        InterpretOfArgument(lossy, arg.value);
        StripSound(arg.value, TO);
      case _ =>
        InterpretBare(lossy, Upper(verb));
        DistinctBare();
    }
  }

  lemma InterpretHelp(lossy: Lossy, arg: Option<Bytes>)
    ensures Interpret(lossy, HELP, arg) == Ok(Help)
  {
    assert HELO[3] == 79 && HELP[3] == 80 && EHLO[0] == 69 && HELP[0] == 72;
  }

  lemma DistinctBare()
    ensures HELP != STARTTLS && HELP != DATA && HELP != RSET && HELP != NOOP && HELP != QUIT
    ensures STARTTLS != DATA && STARTTLS != RSET && STARTTLS != NOOP && STARTTLS != QUIT
    ensures DATA != RSET && DATA != NOOP && DATA != QUIT && RSET != NOOP && RSET != QUIT && NOOP != QUIT
  {
    assert HELP[0] == 72 && DATA[0] == 68 && RSET[0] == 82 && NOOP[0] == 78 && QUIT[0] == 81 && |STARTTLS| == 8;
  }

  lemma InterpretIff(lossy: Lossy, verb: Bytes, arg: Option<Bytes>, c: Command)
    ensures Interpret(lossy, Upper(verb), arg) == Ok(c) <==> Spells(lossy, verb, arg, c)
  {
    hide Interpret, Spells;
    InterpretSound(lossy, verb, arg);
    if Spells(lossy, verb, arg, c) {
      InterpretComplete(lossy, verb, arg, c);
    }
  }

  // The parser accepts exactly the lines of the grammar, and reads each as the one command it spells.
  lemma ParseIff(lossy: Lossy, line: Bytes, c: Command)
    ensures Parse(lossy, line) == Ok(c) <==> exists verb, arg :: IsLineOf(lossy, line, verb, arg, c)
  {
    hide Spells, Interpret, SplitOnce, Tail, StripNewline;
    var body := StripNewline(line);
    var (verb, arg) := SplitOnce(body, SPACE);
    SplitOnceJoins(body);
    InterpretIff(lossy, verb, arg, c);
    if Parse(lossy, line) == Ok(c) {
      assert IsLineOf(lossy, line, verb, arg, c);
    }
    if v, a :| IsLineOf(lossy, line, v, a, c) {
      SplitOnceOfTail(v, a);
    }
  }

  lemma SplitOnceJoins(body: Bytes)
    ensures var (verb, arg) := SplitOnce(body, SPACE); SPACE !in verb && body == verb + Tail(arg)
  {
    var n := IndexOf(body, SPACE);
    if n < |body| {
      assert body == body[..n] + ([SPACE] + body[n + 1..]);
    } else {
      assert body[..n] == body && body + [] == body;
    }
  }

  lemma SplitOnceOfTail(verb: Bytes, arg: Option<Bytes>)
    requires SPACE !in verb
    ensures SplitOnce(verb + Tail(arg), SPACE) == (verb, arg)
  {
    match arg {
      case None =>
        assert verb + Tail(arg) == verb;
        SplitOnceOf(verb, [], SPACE);
      case Some(a) =>
        assert verb + Tail(arg) == verb + [SPACE] + a;
        SplitOnceOf(verb, a, SPACE);
    }
  }

  // ----- round trip -----

  lemma OpensItself(keyword: Bytes, tail: Bytes)
    requires Upper(keyword) == keyword
    ensures Opens(keyword + tail, keyword) && (keyword + tail)[|keyword|..] == tail
  {
    assert (keyword + tail)[..|keyword|] == keyword;
  }

  // The words of a command spell it.
  lemma WordsSpell(lossy: Lossy, c: Command)
    requires Printable(c) && (HasText(c) ==> DecodesAscii(lossy))
    ensures var (verb, arg) := Words(c); SPACE !in verb && Spells(lossy, verb, arg, c)
  {
    hide Text, Upper, Opens, Encode, Tail;
    UpperVerbs();
    UpperKeywords();
    match c {
      case Hello(domain, _) => TextOfAscii(lossy, domain);
      case Authenticate(mechanism, initial) => OpensItself(MechanismWord(mechanism), Tail(initial));
      case Mail(from) =>
        OpensItself(FROM, Encode(from));
        TextOfAscii(lossy, from);
      case Recipient(to) =>
        OpensItself(TO, Encode(to));
        TextOfAscii(lossy, to);
      case _ =>
    }
  }

  // Printing a command and parsing the line gives the command back.
  lemma CommandRoundTrip(lossy: Lossy, c: Command)
    requires Printable(c) && (HasText(c) ==> DecodesAscii(lossy))
    ensures Parse(lossy, Print(c) + CRLF) == Ok(c)
  {
    hide Words, Spells, Parse, StripNewline;
    var (verb, arg) := Words(c);
    WordsSpell(lossy, c);
    StripNewlineOf(Print(c));
    assert IsLineOf(lossy, Print(c) + CRLF, verb, arg, c);
    ParseIff(lossy, Print(c) + CRLF, c);
  }

  // ----- the words themselves -----

  // The words of the language are these texts.
  lemma WordsSpelled()
    ensures HELO == Encode("HELO") && EHLO == Encode("EHLO") && HELP == Encode("HELP") && AUTH == Encode("AUTH")
    ensures MAIL == Encode("MAIL") && RCPT == Encode("RCPT") && DATA == Encode("DATA") && RSET == Encode("RSET")
    ensures NOOP == Encode("NOOP") && QUIT == Encode("QUIT") && FROM == Encode("FROM:") && TO == Encode("TO:")
  {
  }

  lemma LongWordsSpelled()
    ensures STARTTLS == Encode("STARTTLS") && PLAIN == Encode("PLAIN") && LOGIN == Encode("LOGIN")
  {
  }

  // "ehlo x" is understood like "EHLO x".
  lemma SmallLetters(lossy: Lossy)
    ensures Parse(lossy, Encode("ehlo x") + CRLF) == Ok(Hello(Text(lossy, Encode("x")), true))
  {
    hide Interpret, Parse, Text;
    assert Encode("ehlo x") == Encode("ehlo") + ([SPACE] + Encode("x"));
    assert SPACE !in Encode("ehlo") && SameLetters(Encode("ehlo"), EHLO);
    UpperIff(Encode("ehlo"), EHLO);
    UpperVerbs();
    ParseOfWords(lossy, Encode("ehlo"), Some(Encode("x")));
    InterpretOfArgument(lossy, Encode("x"));
  }

  // Whitespace around a text field is not part of it.
  lemma TextTrims(lossy: Lossy, u: string, a: string, v: string)
    requires DecodesAscii(lossy) && IsAscii(u + a + v) && Blank(u) && Blank(v) && Trimmed(a)
    ensures Text(lossy, Encode(u + a + v)) == a
  {
    hide Trim;
    TrimOf(u, a, v);
  }

  // So an address may stand off from its keyword, and a domain from its verb.
  lemma SpacesTolerated(lossy: Lossy, u: string, a: string, v: string)
    requires DecodesAscii(lossy) && IsAscii(u + a + v) && Blank(u) && Blank(v) && Trimmed(a)
    ensures var text := Encode(u + a + v);
            && Parse(lossy, MAIL + ([SPACE] + (FROM + text)) + CRLF) == Ok(Mail(a))
            && Parse(lossy, RCPT + ([SPACE] + (TO + text)) + CRLF) == Ok(Recipient(a))
            && Parse(lossy, HELO + ([SPACE] + text) + CRLF) == Ok(Hello(a, false))
            && Parse(lossy, EHLO + ([SPACE] + text) + CRLF) == Ok(Hello(a, true))
  {
    hide Interpret, Parse, Text, Encode, IsAscii, StripPrefixIgnoreCase, Blank;
    var text := Encode(u + a + v);
    TextTrims(lossy, u, a, v);
    UpperVerbs();
    UpperKeywords();
    ParseOfWords(lossy, MAIL, Some(FROM + text));
    ParseOfWords(lossy, RCPT, Some(TO + text));
    ParseOfWords(lossy, HELO, Some(text));
    ParseOfWords(lossy, EHLO, Some(text));
    InterpretOfArgument(lossy, FROM + text);
    InterpretOfArgument(lossy, TO + text);
    InterpretOfArgument(lossy, text);
    OpensItself(FROM, text);
    OpensItself(TO, text);
    StripSound(FROM + text, FROM);
    StripSound(TO + text, TO);
  }
}
