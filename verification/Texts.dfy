/** The texts of the session's replies fit on one line each. */
module Texts {
  import opened Basics
  import opened Responses

  predicate LineFree(s: string)
  {
    '\n' !in s
  }

  lemma Joined(s: string, a: string, b: string)
    requires s == a + b && LineFree(a) && LineFree(b)
    ensures LineFree(s)
  {
  }

  lemma SuccessTexts()
    ensures LineFree(SyntaxError(None).message)
    ensures LineFree(GOODBYE.message) && LineFree(OK.message) && LineFree(RESET.message)
    ensures LineFree(MAIL_ACCEPTED.message)
  {
  }

  lemma ChallengeTexts()
    ensures LineFree(AUTH_CHALLENGE_PLAIN.message)
    ensures LineFree(AUTH_CHALLENGE_LOGIN_USERNAME.message) && LineFree(AUTH_CHALLENGE_LOGIN_PASSWORD.message)
  {
  }

  lemma StartTexts()
    ensures LineFree(START_TLS.message) && LineFree(AUTH_OK.message)
  {
    Joined(START_TLS.message, "2.0.0 Ready", " to start TLS");
    Joined(AUTH_OK.message, "2.7.0 Authentication", " succeeded");
  }

  lemma RefusalTexts()
    ensures LineFree(BAD_SEQUENCE.message) && LineFree(AUTH_REQUIRED.message)
  {
    Joined(BAD_SEQUENCE.message, "5.5.1 Bad sequence", " of commands");
    Joined(AUTH_REQUIRED.message, "5.7.0 Authentication", " required");
  }

  lemma FailureTexts()
    ensures LineFree(AUTH_FAIL.message) && LineFree(MAIL_HANDLER_ERROR.message)
  {
    Joined(AUTH_FAIL.message, "5.7.8 Authentication", " failed");
    Joined(MAIL_HANDLER_ERROR.message, "4.3.0 Error during", " mail processing");
  }

  lemma StartHalves()
    ensures LineFree("3.0.0 Start mail input;") && LineFree(" end with <CRLF>.<CRLF>")
  {
  }

  lemma DataStartText()
    ensures LineFree(DATA_START.message)
  {
    hide LineFree;
    StartHalves();
    Joined(DATA_START.message, "3.0.0 Start mail input;", " end with <CRLF>.<CRLF>");
  }

  lemma TooLongHalves()
    ensures LineFree("5.3.4 Mail size exceeds") && LineFree(" fixed maximum message size")
  {
  }

  lemma TooLongText()
    ensures LineFree(DATA_TOO_LONG.message)
  {
    hide LineFree;
    TooLongHalves();
    Joined(DATA_TOO_LONG.message, "5.3.4 Mail size exceeds", " fixed maximum message size");
  }

  predicate Fits(r: Response)
  {
    100 <= r.code <= 999 && LineFree(r.message)
  }

  // Every fixed reply fits on its line.
  lemma FixedReplies()
    ensures Fits(START_TLS) && Fits(GOODBYE) && Fits(AUTH_OK) && Fits(OK) && Fits(RESET) && Fits(MAIL_ACCEPTED)
    ensures Fits(AUTH_CHALLENGE_PLAIN) && Fits(AUTH_CHALLENGE_LOGIN_USERNAME) && Fits(AUTH_CHALLENGE_LOGIN_PASSWORD)
    ensures Fits(DATA_START) && Fits(MAIL_HANDLER_ERROR) && Fits(BAD_SEQUENCE) && Fits(AUTH_REQUIRED)
    ensures Fits(AUTH_FAIL) && Fits(DATA_TOO_LONG) && Fits(SyntaxError(None))
  {
    hide LineFree;
    SuccessTexts();
    ChallengeTexts();
    StartTexts();
    RefusalTexts();
    FailureTexts();
    DataStartText();
    TooLongText();
  }

  lemma Explained(err: string)
    requires LineFree(err)
    ensures Fits(SyntaxError(Some(err)))
  {
  }

  lemma MissingArgumentErrors()
    ensures LineFree("HELO requires domain") && LineFree("MAIL requires FROM") && LineFree("RCPT requires TO")
    ensures LineFree("AUTH requires mechanism")
  {
  }

  lemma UnexpectedArgumentErrors()
    ensures LineFree("DATA takes no arguments") && LineFree("RSET takes no arguments")
    ensures LineFree("NOOP takes no arguments") && LineFree("QUIT takes no arguments")
  {
  }

  lemma UnknownErrors()
    ensures LineFree("STARTTLS takes no arguments") && LineFree("unrecognized command")
    ensures LineFree("unsupported AUTH mechanism") && LineFree("TLS not supported")
  {
  }

  lemma PartsErrorInTwo()
    ensures WRONG_PARTS == "invalid number of parts" + " in PLAIN credential payload"
  {
  }

  lemma PartsErrorHalves()
    ensures LineFree("invalid number of parts") && LineFree(" in PLAIN credential payload")
  {
  }

  lemma PartsError()
    ensures LineFree(WRONG_PARTS)
  {
    hide LineFree, WRONG_PARTS;
    PartsErrorInTwo();
    PartsErrorHalves();
    Joined(WRONG_PARTS, "invalid number of parts", " in PLAIN credential payload");
  }

  lemma PlainEofError()
    ensures LineFree(EOF_IN_PLAIN)
  {
    Joined(EOF_IN_PLAIN, "unexpected EOF", " in AUTH PLAIN challenge");
  }

  lemma LoginEofError()
    ensures LineFree(EOF_IN_LOGIN)
  {
    Joined(EOF_IN_LOGIN, "unexpected EOF", " in AUTH LOGIN challenge");
  }

  lemma AuthErrors()
    ensures LineFree(WRONG_PARTS) && LineFree(EOF_IN_PLAIN) && LineFree(EOF_IN_LOGIN)
    ensures LineFree("invalid base64 data")
  {
    PartsError();
    PlainEofError();
    LoginEofError();
  }

  lemma HelpText()
    ensures LineFree("HELO EHLO HELP MAIL RCPT DATA RSET NOOP QUIT")
  {
    Joined("HELO EHLO HELP MAIL RCPT DATA RSET NOOP QUIT", "HELO EHLO HELP MAIL RCPT", " DATA RSET NOOP QUIT");
  }

  lemma ShortTexts()
    ensures LineFree("") && LineFree(" AUTH") && LineFree(" STARTTLS") && LineFree("Commands supported")
  {
  }

  // ----- the challenges of AUTH LOGIN -----

  // A base64 digit (section 4 of RFC 4648).
  function Base64Digit(n: nat): char
    requires n < 64
  {
    if n < 26 then 'A' + n as char
    else if n < 52 then 'a' + (n - 26) as char
    else if n < 62 then '0' + (n - 52) as char
    else if n == 62 then '+' else '/'
  }

  // The base64 text of three ASCII characters.
  function Base64(a: char, b: char, c: char): string
    requires a as int < 256 && b as int < 256 && c as int < 256
  {
    var n := (a as int * 256 + b as int) * 256 + c as int;
    [Base64Digit(n / 0x4_0000), Base64Digit(n / 0x1000 % 64), Base64Digit(n / 64 % 64), Base64Digit(n % 64)]
  }

  lemma DigitsOf(n: nat, w: nat, x: nat, y: nat, z: nat)
    requires x < 64 && y < 64 && z < 64 && n == w * 0x4_0000 + x * 0x1000 + y * 64 + z
    ensures n / 0x4_0000 == w && n / 0x1000 % 64 == x && n / 64 % 64 == y && n % 64 == z
  {
    assert n / 0x1000 == w * 64 + x;
    assert n / 64 == w * 0x1000 + x * 64 + y;
  }

  lemma GroupOf(a: char, b: char, c: char, w: nat, x: nat, y: nat, z: nat)
    requires a as int < 256 && b as int < 256 && c as int < 256 && w < 64 && x < 64 && y < 64 && z < 64
    requires (a as int * 256 + b as int) * 256 + c as int == w * 0x4_0000 + x * 0x1000 + y * 64 + z
    ensures Base64(a, b, c) == [Base64Digit(w), Base64Digit(x), Base64Digit(y), Base64Digit(z)]
  {
    hide Base64Digit;
    DigitsOf((a as int * 256 + b as int) * 256 + c as int, w, x, y, z);
  }

  lemma UsernameGroups()
    ensures Base64('U', 's', 'e') == "VXNl" && Base64('r', 'n', 'a') == "cm5h" && Base64('m', 'e', ':') == "bWU6"
  {
    hide Base64;
    GroupOf('U', 's', 'e', 21, 23, 13, 37);
    GroupOf('r', 'n', 'a', 28, 38, 57, 33);
    GroupOf('m', 'e', ':', 27, 22, 20, 58);
  }

  lemma PasswordGroups()
    ensures Base64('P', 'a', 's') == "UGFz" && Base64('s', 'w', 'o') == "c3dv" && Base64('r', 'd', ':') == "cmQ6"
  {
    hide Base64;
    GroupOf('P', 'a', 's', 20, 6, 5, 51);
    GroupOf('s', 'w', 'o', 28, 55, 29, 47);
    GroupOf('r', 'd', ':', 28, 38, 16, 58);
  }

  // The client is asked for "Username:" and "Password:", in base64.
  lemma ChallengesAsk()
    ensures AUTH_CHALLENGE_LOGIN_USERNAME.message ==
            Base64('U', 's', 'e') + Base64('r', 'n', 'a') + Base64('m', 'e', ':')
    ensures AUTH_CHALLENGE_LOGIN_PASSWORD.message ==
            Base64('P', 'a', 's') + Base64('s', 'w', 'o') + Base64('r', 'd', ':')
    ensures AUTH_CHALLENGE_LOGIN_USERNAME.code == 334 && AUTH_CHALLENGE_LOGIN_PASSWORD.code == 334
    ensures AUTH_CHALLENGE_PLAIN.code == 334 && AUTH_CHALLENGE_PLAIN.message == ""
  {
    hide Base64;
    UsernameGroups();
    PasswordGroups();
  }
}
