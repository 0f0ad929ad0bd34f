/** Replies of the SMTP server. */
module Responses {
  import opened Basics

  datatype Response = Response(code: nat, message: string, hasNext: bool) {

    // The line without its CRLF; an empty message drops the delimiter.
    function Line(): string
    {
      Decimal(code) + (if message == "" then "" else if hasNext then "-" else " ") + message
    }

    function Extend(extension: string): Response
    {
      Response(code, message + ": " + extension, hasNext)
    }
  }

  function Final(code: nat, message: string): Response
  {
    Response(code, message, false)
  }

  function Continued(code: nat, message: string): Response
  {
    Response(code, message, true)
  }

  function Banner(serverName: string): Response
  {
    Final(220, "2.2.0 " + serverName + " ESMTP ready")
  }

  function SyntaxError(err: Option<string>): Response
  {
    Final(500, match err case Some(e) => "5.5.2 Syntax error: " + e case None => "5.5.2 Syntax error")
  }

  const START_TLS := Final(220, "2.0.0 Ready to start TLS")
  const GOODBYE := Final(221, "2.0.0 Goodbye")
  const AUTH_OK := Final(235, "2.7.0 Authentication succeeded")
  const OK := Final(250, "2.0.0 OK")
  const RESET := Final(250, "2.0.0 RESET")
  const MAIL_ACCEPTED := Final(250, "2.0.0 Mail accepted")
  const AUTH_CHALLENGE_PLAIN := Final(334, "")
  const AUTH_CHALLENGE_LOGIN_USERNAME := Final(334, "VXNlcm5hbWU6")
  const AUTH_CHALLENGE_LOGIN_PASSWORD := Final(334, "UGFzc3dvcmQ6")
  const DATA_START := Final(354, "3.0.0 Start mail input; end with <CRLF>.<CRLF>")
  const MAIL_HANDLER_ERROR := Final(451, "4.3.0 Error during mail processing")
  const BAD_SEQUENCE := Final(503, "5.5.1 Bad sequence of commands")
  const AUTH_REQUIRED := Final(530, "5.7.0 Authentication required")
  const AUTH_FAIL := Final(535, "5.7.8 Authentication failed")
  const DATA_TOO_LONG := Final(552, "5.3.4 Mail size exceeds fixed maximum message size")

  // Why an AUTH exchange failed.
  const WRONG_PARTS := "invalid number of parts in PLAIN credential payload"
  const EOF_IN_PLAIN := "unexpected EOF in AUTH PLAIN challenge"
  const EOF_IN_LOGIN := "unexpected EOF in AUTH LOGIN challenge"
}
