# PostGraph: the mail proxy's protocol core, proved

PostGraph accepts mail over SMTP and forwards it through Microsoft Graph. This project models the part of
it that decides what is accepted and for whom, and proves what that part guarantees: for all bytes a client
may send, however they are split up on the wire, for all answers of the event handler and of the decoding
libraries, and for all interleavings of concurrent sessions.

`dafny verify dfyconfig.toml` checks everything.

## How it is organised

| file | contents |
|---|---|
| `Basics`, `Lines`, `Command`, `Response`, `Mail` | octets and text, lines of at most 1500 bytes, the command parser, replies, the mail object |
| `Connection` | the buffered connection and the stream that replays read-ahead bytes to TLS, as classes |
| `Protocol` | the session as a pure function of the client's bytes: one step per turn of the main loop, with a transcript |
| `Session` | the session as a class over a chunked connection; every method is tied to `Protocol` |
| `Transcript`, `Invariants`, `Expected` | what a transcript says, the inductive invariant, and what a session does next as a function of its transcript alone |
| `SessionTheorems`, `Answers`, `Delivery`, `Conversation` | the theorems about every session, when each command is granted, the history of a delivered mail, and whole conversations |
| `Transparency`, `AuthForms`, `Framing`, `Texts` | message content end to end, the two forms of AUTH, the client's view of the replies and their texts |
| `PeerFilter`, `Users`, `Fail2Ban`, `Proxy` | rule evaluation, send-as permissions, peer records, the handler's callbacks |
| `Server`, `Forwarding`, `Task`, `System` | interleaved connections, what is forwarded and for whom, one connection from accept to close, and whole sessions interleaved |

The session is stated twice on purpose. `Sessions.Session` is the program: a class whose methods loop over
buffers, assign fields and write replies. `Protocol.Step` and `Protocol.Run` are what it is proved to compute,
and the theorems are about those: an invariant kept by each step (`Invariants.StepKeeps`), hence true after
every number of turns (`Invariants.InvAlways`), with the facts drawn from it in `SessionTheorems` and
`Forwarding`. The transcript (`Protocol.Log`) lists the lines read, the replies sent and the handler calls
made; functions of the transcript such as `Transcripts.Envelope`, `Transcripts.Content` or
`Transcripts.LastLogin` are the independent account that the session's fields are compared with.

`Expectations.Expected` goes one step further: it says what a session does after any transcript, with no phase, no
flag and no mail object. `Expectations.AlwaysExpected` proves that every session does exactly that at every event, and
ends only where nothing more is expected, at a line that cannot be read, or at a failed TLS handshake. With the lines
read (`SessionTheorems.ByteLaw`) and the handler's answers (`SessionTheorems.HandlerLaw`) this fixes the transcript.

## Where the code and its descriptions differ

The model follows the code. These differences from the comments, the RFCs or the evident intent are proved:

- A lone leading period in message content is kept, while section 4.5.2 of RFC 5321 has the receiver delete it
  (`Transparency.UnstuffIsStandardIff` says exactly when the two agree, `Transparency.LoneDotIsKept` is an instance).
- `normalize_address` takes off one pair of brackets at a time and is not idempotent (`Mails.NormalizeUnchangedIff`
  says which addresses it leaves as they are, `Mails.NormalizeDoubleBrackets` is an instance).
- A mail is delivered without any recipient if no RCPT was granted since its MAIL, and only then
  (`Deliveries.DeliveredMail`; `Deliveries.DeliveredToNobody` is a whole session that does it).
- RSET also drops the greeting and the login: they outlast it exactly if there was neither
  (`Answers.ResetUndoesAll`; in `Answers.ResetForgetsGreeting` a client that greeted is refused MAIL after RSET).
- A finished transaction returns to the greeted phase, not to the initial one as the comment on `Phase::Connected`
  says (`Transparency.EndToEnd`).
- Section 4.2.1 of RFC 5321 has all lines of a reply carry one code; here they do exactly if the line answered is
  not HELP, which gets a 250 line carried on by a 214 line (`Framing.MultiLineCodes`, `Framing.HelpMixesCodes`).
- A client recovers the replies sent exactly if the server name fits on a line, is not empty where EHLO was
  answered, and no error text of the mail handler contains a line feed (`Framing.ReadsBackIff`, with the failures
  `Framing.EmptyNameMisreads` and `Framing.BrokenErrorMisreads`).
- The connection counter of a peer is right in every state exactly if no sweep forgets a peer with a live session;
  a session that outlives `max_age` can make the counter wrap (`Server.RunConservesIff`, `Server.CounterWraps`).
- A ban lasts exactly as long as no sweep comes more than `max_age` after the peer's last activity, and a banned
  peer that returns after any time is rejected unless somebody else's connection swept its record first
  (`Server.BanPersistsIff`, `Server.ReturnDoesNotLiftBan`).
- Send-as entries are withdrawn by exact spelling although permission ignores letter case
  (`Users.WithdrawalEffectiveIff` says exactly when a withdrawal ends the permission,
  `Users.WithdrawalIsCaseSensitive` is an instance).
- Without authentication every mail is forwarded, whatever its sender (`Forwarding.ForwardedWithoutAuth`).

## Model

| member | source | states |
|---|---|---|
| Sessions.RunOverPieces | lib/smtp/src/session.rs:134-381 | Chunking independence of a whole session: result, bytes written and final handler state depend only on the concatenation of the pieces in which the client's bytes arrive |
| Sessions.Session.Handle | lib/smtp/src/session.rs:134-381 | The looping, buffering session terminates on every input and its result, transcript, written output, handler and state are those of the pure session on the unread bytes |
| Sessions.Session.HandleFor | lib/smtp/src/server.rs:40-50 | A session cut off after any number of turns is in the state the pure session has after that many turns |
| Sessions.Session.Turn | lib/smtp/src/session.rs:138-381 | One turn of the main loop refines one step: read, then content line or command |
| Sessions.Session.CollectLine | lib/smtp/src/session.rs:516-557 | The buffer loop returns the first LF-terminated line of at most 1500 bytes of the byte stream, or end of stream, line too long, or end within a line, whatever the chunks, and consumes exactly that line |
| Sessions.Session.ReadLine | lib/smtp/src/session.rs:516-557 | Reading a line refines the pure read on the concatenated bytes and records it |
| Sessions.Session.Reply | lib/smtp/src/session.rs:561-575 | A reply appends its line and CRLF to the output, which stays the text of the replies in the transcript |
| Sessions.Session.HandleAuth | lib/smtp/src/session.rs:386-452 | The multi-line AUTH dialogue refines its pure form: challenges, answers, outcome and abort |
| Sessions.Session.FinishAuth | lib/smtp/src/session.rs:285-307 | A login is reported once and decides between 235 with authentication and 535 with the end of the session |
| Sessions.Session.HandleAuthenticate | lib/smtp/src/session.rs:261-308 | AUTH: phase, mode and TLS are checked in that order before the dialogue |
| Sessions.Session.HandleHello | lib/smtp/src/session.rs:178-226 | HELO and EHLO: only once, asks the handler, multi-line features for EHLO |
| Sessions.Session.HandleStartTls | lib/smtp/src/session.rs:241-260 | STARTTLS replaces the connection, which is given every unread byte, and resets the state; the old output is kept |
| Sessions.Session.HandleMailFrom | lib/smtp/src/session.rs:309-328 | MAIL: phase, then authentication, then a fresh envelope |
| Sessions.Session.HandleRecipient | lib/smtp/src/session.rs:329-345 | RCPT: phase, then authentication, then one more recipient |
| Sessions.Session.HandleDataCommand | lib/smtp/src/session.rs:346-362 | DATA: phase, then authentication, then content follows |
| Sessions.Session.HandleReset | lib/smtp/src/session.rs:363-371 | RSET resets the state, replies, and tells the handler |
| Sessions.Session.HandleData | lib/smtp/src/session.rs:456-477 | A content line ends the message, is refused as too long, or is appended unstuffed |
| Sessions.Session.DeliverMail | lib/smtp/src/session.rs:145-161 | The mail is given to the handler once, the reply tells its answer, and the envelope is emptied |
| Sessions.Session.Execute | lib/smtp/src/session.rs:177-379 | The dispatch on the command refines the pure dispatch |
| Lines.NextLine | lib/smtp/src/session.rs:516-557 | A line read is a non-empty prefix of the stream of at most 1500 bytes with its only LF at the end, and what remains is the rest |
| Lines.NextLineOf | lib/smtp/src/session.rs:516-557 | Every terminated line of legal length at the head of a stream is the line read |
| Lines.NextLineIff | lib/smtp/src/session.rs:516-557 | When reading gives a line, the end of the stream, an end within a line or a line too long, with the limit of 1500 bytes as a number |
| Protocol.Run | lib/smtp/src/session.rs:134-381 | Every session ends: the unread bytes, with STARTTLS at most once, are a measure |
| Protocol.StepShortens | lib/smtp/src/session.rs:138-141 | Every turn that continues has consumed bytes or moved to TLS |
| Protocol.RunIsReached | lib/smtp/src/session.rs:134-381 | The result of a session is its state after some finite number of turns |
| Protocol.RunFromAnyTurn | lib/smtp/src/session.rs:134-381 | Stopping to look after any number of turns does not change the result |
| Invariants.StepKeeps | lib/smtp/src/session.rs:134-381 | Every turn keeps the invariant: bytes, handler state, causes of calls, login, envelope, content, phases, authentication and reply balance |
| Invariants.InvAlways | lib/smtp/src/session.rs:134-381 | The invariant holds after any number of turns of any session. Connected and greeted phases have an empty mail, the envelope phase no content, the data phase is exactly the one a granted DATA opened, and the mail object equals the account of the transcript |
| Invariants.ReadIsDue | lib/smtp/src/session.rs:139-142 | A line read while nothing is owed is due exactly one final reply |
| Invariants.HandshakeKeeps | lib/smtp/src/session.rs:386-452 | The AUTH dialogue keeps the invariant and leaves the answer line due a reply |
| Invariants.HandshakeExchanges | lib/smtp/src/session.rs:386-452 | Credentials always come from the exchange in the transcript: inline payload or answers to the challenges |
| Invariants.LoginKeeps | lib/smtp/src/session.rs:285-307 | The login call keeps the account of bytes, handler and causes, and an accepted one makes the session authenticated where AUTH is allowed, under RequireTls over TLS |
| Invariants.UpgradeKeeps | lib/smtp/src/session.rs:252-259 | STARTTLS hands TLS exactly the unread bytes and ends login and transaction |
| Invariants.DeliveryKeeps | lib/smtp/src/session.rs:145-161 | The mail delivered is the one the transcript accounts for |
| Invariants.ContentKeeps | lib/smtp/src/session.rs:464-476 | Captured data equal the unstuffed lines since the granted DATA and stay within the limit |
| Invariants.DataKeeps | lib/smtp/src/session.rs:346-362 | DATA answered with 354 is what opens the data phase |
| Invariants.SayAllEffect | lib/smtp/src/session.rs:198-223 | A multi-line reply settles exactly one line, whatever its length |
| Invariants.EnvelopeAfterOk | lib/smtp/src/session.rs:309-344 | What an OK after a line does to the envelope: MAIL starts it anew, RCPT extends it, anything else leaves it |
| SessionTheorems.CallsAreCaused | lib/smtp/src/session.rs:134-381 | Each handler call has its cause in the transcript before it; a mail's envelope was granted, DATA was granted and its data are the lines read since, ended by the terminator and within the size limit, with a login in force where authentication is configured |
| Deliveries.DeliveredMail | lib/smtp/src/session.rs:145-166 | Every mail handed to the handler, in every session: its MAIL and its DATA were granted in this order with no delivery and no RSET, STARTTLS taken up or MAIL granted by the client in between, sender and recipients are the normalized ones granted, data are the unstuffed lines since DATA, and there is a recipient exactly if a RCPT was granted since its MAIL |
| Conversations.ConversationRoundTrip | lib/smtp/src/session.rs:134-381 | A client that greets, logs in where it must, posts any letters and quits: the session closes, and the handler was given exactly those letters, in order and byte for byte |
| Conversations.SecureRoundTrip | lib/smtp/src/session.rs:241-260 | The same through STARTTLS, in every authentication mode |
| Conversations.LetterReceived | lib/smtp/src/session.rs:309-362 | A letter posted to a ready session is a mail received, and the session is ready again |
| Conversations.LettersReceived | lib/smtp/src/session.rs:309-362 | So for any number of letters |
| Conversations.BracketedRoundTrip | lib/smtp/src/session.rs:134-381 | Letters posted with their sender and recipients in brackets are handed to the handler with the bare addresses, in a whole conversation |
| Deliveries.ContentMeaning | lib/smtp/src/session.rs:456-477 | While content is read, DATA was granted and all lines since are content, and the captured data are what those lines stand for, first to last |
| Deliveries.RecipientsIff | lib/smtp/src/session.rs:329-345 | There is a granted recipient exactly if some RCPT line was answered with OK |
| Deliveries.DeliveredToNobody | lib/smtp/src/session.rs:346-362 | A session of HELO, MAIL, DATA and an empty content hands the handler a mail without recipients |
| Deliveries.CommandTurn | lib/smtp/src/session.rs:138-177 | A turn for a command line executes the command it parses to, on what follows |
| SessionTheorems.EnvelopeMeaning | lib/smtp/src/session.rs:309-344 | An envelope is the normalized sender of the last MAIL granted and the normalized RCPTs granted since, in order; since then the client sent no RSET and no STARTTLS that was taken up, and no mail was delivered |
| SessionTheorems.OpenTransaction | lib/smtp/src/session.rs:309-344 | So it is with the transaction open in any session between turns |
| Expectations.AlwaysExpected | lib/smtp/src/session.rs:134-452 | Every session does, event by event, what its transcript alone demands, and ends only where nothing more is expected, at a line that cannot be read, or at a failed TLS handshake |
| Expectations.StateShows | lib/smtp/src/session.rs:61-98 | Phase, authentication flag and kind of connection are what the transcript shows |
| Expectations.NothingUndone | lib/smtp/src/session.rs:241-371 | Where no call undid greeting, login or transaction, no RSET and no STARTTLS that was taken up did |
| Expectations.UndoneByNext | lib/smtp/src/session.rs:241-371 | A RSET outside content is answered 250 and reported to the handler; a STARTTLS answered 220 starts TLS, unless the session ends |
| Expectations.ExecuteKept | lib/smtp/src/session.rs:177-379 | Each command does what the transcript demands |
| Expectations.StepKept | lib/smtp/src/session.rs:138-381 | Each turn does what the transcript demands |
| Answers.CommandsAnswered | lib/smtp/src/session.rs:177-379 | In every session MAIL is granted exactly if the client was greeted, has no transaction open and is logged in where it must be; RCPT and DATA exactly if a transaction is open; STARTTLS exactly if it is offered to a greeted client without one; AUTH is taken up exactly if it is offered to a greeted client without one, under TLS where required; greetings are put to the handler exactly if there was none; RSET, NOOP and QUIT are never refused |
| Answers.CommandsInNumbers | lib/smtp/src/session.rs:154-379 | The code of the answer to each command line in every session, as a number, from the transcript before it; a line that is no command gets 500 with the reason |
| Answers.CallsInNumbers | lib/smtp/src/session.rs:285-307 | A login is answered 235 or 535 and a mail 250 or 451, the latter with the handler's error |
| Answers.ContentInNumbers | lib/smtp/src/session.rs:456-477 | The only reply to a content line is 552, to one that takes the mail above the size limit |
| Answers.BannerFirst | lib/smtp/src/session.rs:134-137 | Every session opens with 220 and the server name |
| Answers.FeaturesAre | lib/smtp/src/session.rs:203-214 | EHLO lists 8BITMIME, STARTTLS and AUTH where they apply, the size limit as a decimal that reads back as the number, and nothing else |
| Answers.GreetingAnswered | lib/smtp/src/session.rs:199-228 | A greeting is answered with the server name and, if extended, one 250 line per feature, in order |
| Answers.EventsAreExpected | lib/smtp/src/session.rs:134-452 | Each event of a session is the one expected after those before it |
| Answers.ResetUndoesAll | lib/smtp/src/session.rs:363-371 | RSET outside content, in every reachable state, leaves the state of a new session with the handler told; greeting and login outlast it exactly if there was neither |
| Answers.ResetForgetsGreeting | lib/smtp/src/session.rs:309-314 | HELO, RSET, MAIL: MAIL is refused |
| Answers.QuitCloses | lib/smtp/src/session.rs:375-378 | QUIT outside content, in every reachable state, closes the session with 221 |
| SessionTheorems.TransactionsAreAuthenticated | lib/smtp/src/session.rs:480-483 | In every reachable state an open transaction meets the authentication requirement, being authenticated is having a login nothing undid, and under RequireTls it implies TLS |
| SessionTheorems.AuthRequiredOnlyForMail | lib/smtp/src/session.rs:316-358 | 530 is only ever the answer to MAIL from a greeted, not logged-in client: the same branches of RCPT and DATA are unreachable |
| SessionTheorems.OnlyMailRequiresAuth | lib/smtp/src/session.rs:316-358 | One turn answers 530 only to MAIL, if open transactions are authenticated |
| SessionTheorems.TlsStartsAtMostOnce | lib/smtp/src/session.rs:241-260 | TLS starts once if the connection is TLS and never otherwise |
| SessionTheorems.ReplyLaw | lib/smtp/src/session.rs:134-381 | At every loop head, final replies are 1 + lines read and ends of stream seen - lines that are message content, AUTH answers counting as lines; lines are message content exactly in the data phase, which a granted DATA opened and only content lines continued |
| SessionTheorems.ByteLaw | lib/smtp/src/connection.rs:82-94 | Lines read and bytes unread make up the client's bytes; TLS is given all that was unread, and the lines since and bytes unread make up what it decrypted |
| SessionTheorems.HandlerLaw | lib/smtp/src/session.rs:134-381 | The handler's state is that after exactly the calls in the transcript, in order, and the transcript records its answers |
| SessionTheorems.ClosedOnlyByQuit | lib/smtp/src/session.rs:375-378 | Every session ends; it ends well only by a QUIT read outside message content, answered with 221 |
| SessionTheorems.StepClosesByQuit | lib/smtp/src/session.rs:375-378 | A turn closes the session only for a line that parses as QUIT outside message content |
| SessionTheorems.RefusalsChangeNothing | lib/smtp/src/session.rs:169-362 | A command answered 500, 503 or 530 leaves session state and handler state as they were |
| SessionTheorems.HandshakeOnlyChallenges | lib/smtp/src/session.rs:386-452 | The AUTH dialogue itself sends nothing but 334 challenges |
| SessionTheorems.StartTlsAdvertisedIff | lib/smtp/src/session.rs:203-205 | EHLO advertises STARTTLS exactly where the command would not be answered as unsupported |
| SessionTheorems.AuthAdvertisedIff | lib/smtp/src/session.rs:206-208 | EHLO advertises AUTH exactly where the command is not rejected as unknown |
| Transparency.EndToEnd | lib/smtp/src/session.rs:145-167 | From DATA on, every stuffed body with terminator, in lines the session can read, is delivered exactly once and byte for byte with what follows left unread if within the size limit; otherwise 552, the session ends, and nothing is delivered |
| Transparency.ContentLineStep | lib/smtp/src/session.rs:456-477 | Any line read as content, by its bytes: period CRLF and period LF end the content and no other line does; of two leading periods one is dropped; a line beyond the limit is refused |
| Transparency.BodyFits | lib/smtp/src/session.rs:456-477 | A body that fits is taken in line by line, byte for byte |
| Transparency.BodyTooLong | lib/smtp/src/session.rs:470-474 | A body that does not fit is refused at the first line exceeding the limit |
| Transparency.UnstuffInvertsStuff | lib/smtp/src/session.rs:464-466 | Dot-stuffing is undone for every line, and no stuffed line reads as the terminator |
| Transparency.UnstuffIsStandardIff | lib/smtp/src/session.rs:464-466 | The session undoes stuffing as RFC 5321 says exactly if the line does not start with a lone period |
| Transparency.LoneDotIsKept | lib/smtp/src/session.rs:464-466 | The line ".f" keeps its period |
| AuthForms.FormsAgree | lib/smtp/src/session.rs:386-452 | Inline and challenge forms of AUTH PLAIN and AUTH LOGIN lead to the same login call, replies, unread bytes, state and result, for every payload without LF that fits a line |
| AuthForms.FormsAgreeToTheEnd | lib/smtp/src/session.rs:134-452 | Whichever form was used, the rest of the session, to its end, is the same |
| AuthForms.RunSame | lib/smtp/src/session.rs:134-381 | Sessions that differ in their past transcript only have the same future |
| AuthForms.HandshakesAgree | lib/smtp/src/session.rs:386-452 | The two forms give the same outcome of the dialogue |
| AuthForms.PlainAcceptedIff | lib/smtp/src/session.rs:403-421 | A PLAIN payload, with any ASCII whitespace around it, is accepted exactly if the payload itself decodes to data with two NULs, and yields the second and third of NUL-free parts |
| AuthForms.JoinOfSplit | lib/smtp/src/session.rs:410-410 | Splitting on a delimiter loses nothing: joining gives the input back, the parts are free of it, and there is one more part than delimiters |
| AuthForms.SplitOfJoin | lib/smtp/src/session.rs:410-410 | Splitting inverts joining of delimiter-free parts |
| AuthForms.DecodeIgnoresNewline | lib/smtp/src/session.rs:504-513 | A challenge answer decodes as the payload without its line end |
| AuthForms.DecodesCore | lib/smtp/src/session.rs:504-513 | The base64 decoder is given exactly the bytes of the payload, whatever ASCII whitespace and line end surround them |
| AuthForms.LoginAcceptedIff | lib/smtp/src/session.rs:423-452 | The two payloads of LOGIN, whitespace around them or not, are accepted exactly if both decode, and yield what they decode to, first the user |
| AuthForms.LoginExchange | lib/smtp/src/session.rs:277-307 | A whole AUTH LOGIN exchange as one turn: both challenges, both answers, one login call with the decoded user and password, and 235 or 535 |
| Texts.ChallengesAsk | lib/smtp/src/response.rs:20-27 | The LOGIN challenges are base64 of Username: and Password:, computed by the alphabet of RFC 4648, under code 334 |
| Commands.ParseIff | lib/smtp/src/command.rs:64-135 | The parser accepts exactly the lines of the command grammar and reads each as the one command it spells |
| Commands.InterpretSound | lib/smtp/src/command.rs:72-133 | Whatever the dispatch on the verb accepts is spelled by verb and argument |
| Commands.InterpretComplete | lib/smtp/src/command.rs:72-133 | Whatever verb and argument spell is accepted |
| Commands.ParseAuthSound | lib/smtp/src/command.rs:91-115 | An accepted AUTH argument is a mechanism in any case, alone or followed by a space and the initial response |
| Commands.ParseAuthComplete | lib/smtp/src/command.rs:91-115 | Every such argument is accepted, with arbitrary bytes as initial response |
| Commands.StripSound | lib/smtp/src/command.rs:140-155 | A keyword prefix is stripped exactly if the input starts with it, letter case aside |
| Commands.SplitOnceJoins | lib/smtp/src/command.rs:162-171 | Splitting at the first delimiter loses nothing and leaves a delimiter-free head |
| Commands.SplitOnceOf | lib/smtp/src/command.rs:162-171 | A delimiter-free word is split off as it is |
| Commands.CommandRoundTrip | lib/smtp/src/command.rs:64-135 | Every command with trimmed ASCII fields is parsed back from its printed line |
| Commands.VerbCaseIrrelevant | lib/smtp/src/command.rs:72-72 | Verbs that differ in the case of ASCII letters only parse the same |
| Commands.KeywordCaseIrrelevant | lib/smtp/src/command.rs:91-127 | So do the AUTH mechanism and the keywords FROM: and TO: |
| Basics.UpperIff | lib/smtp/src/command.rs:138-155 | Texts are equal in upper case exactly if they differ in the case of ASCII letters only, by their codes |
| Commands.WordsSpelled | lib/smtp/src/command.rs:72-131 | The words of the parser are the ASCII codes of the texts in the source |
| Commands.LongWordsSpelled | lib/smtp/src/command.rs:84-112 | So are the long ones |
| Commands.SmallLetters | lib/smtp/src/command.rs:72-82 | The line "ehlo x" is an extended greeting of x |
| Commands.SpacesTolerated | lib/smtp/src/command.rs:72-127 | Whitespace around a domain or an address is no part of it, in front and behind |
| Commands.LineEndingIrrelevant | lib/smtp/src/command.rs:66-68 | CRLF, LF and no line end mean the same if the body does not end in one |
| Framing.ReadsBackIff | lib/smtp/src/session.rs:561-575 | In every session a client that splits what the server writes into lines and reads on at hyphens recovers exactly the replies sent if and only if the server name fits on a line, is not empty where EHLO was answered, and no handler error broke its line |
| Framing.NeatMeaning | lib/smtp/src/session.rs:150-222 | The last two conditions, event by event |
| Framing.ClientKeepsStep | lib/smtp/src/session.rs:561-575 | Where it does, it counts one complete reply for the banner and one for each line that is not message content |
| Framing.EmptyNameMisreads | lib/smtp/src/response.rs:154-163 | With an empty server name the answer to EHLO is misread |
| Framing.ErrorTextSplits | lib/smtp/src/session.rs:150-153 | A handler error with line feeds splits its 451 into as many replies as it has lines |
| Framing.BrokenErrorMisreads | lib/smtp/src/session.rs:150-153 | A whole session whose replies are misread because of such an error |
| Framing.MultiLineCodes | lib/smtp/src/session.rs:198-239 | In every session a line that announces another is followed by it, in the same code exactly if the line answered is not HELP |
| Framing.HelpMixesCodes | lib/smtp/src/session.rs:227-240 | HELP is answered with a 250 line carried on by a 214 line |
| Framing.WireRoundTrip | lib/smtp/src/response.rs:154-163 | The text of replies with three-digit codes reads back as those replies exactly if each has a text without line feeds and, if continued, a text at all |
| Framing.EachLineFeedSplits | lib/smtp/src/response.rs:154-163 | A client sees one reply more for each line feed in a text |
| Framing.ReplyRoundTrip | lib/smtp/src/response.rs:154-163 | A reply line reads back as the reply exactly if a continued reply has a text |
| Framing.SessionTidy | lib/smtp/src/session.rs:134-381 | Every reply of every session has a three-digit code, multi-line replies are complete between turns, and framing is broken by nothing but the server name and handler errors |
| Framing.DecimalRoundTrip | lib/smtp/src/response.rs:154-163 | The printed code is the code |
| Mails.NormalizeUnchangedIff | lib/smtp/src/lib.rs:101-107 | An address is left as it is exactly if it has no whitespace at its ends, no "<" in front and no ">" behind |
| Mails.NormalizeBracketed | lib/smtp/src/lib.rs:101-107 | An address in brackets, with any whitespace inside and outside of them, is normalized to the bare address |
| Mails.NormalizeOpened | lib/smtp/src/lib.rs:101-107 | So is one with an opening bracket only |
| Mails.NormalizeClosed | lib/smtp/src/lib.rs:101-107 | So is one with a closing bracket only |
| Mails.NormalizeUnbracketed | lib/smtp/src/lib.rs:101-107 | So is one without brackets |
| Mails.NormalizeIsStableIff | lib/smtp/src/lib.rs:101-107 | Hence normalizing again changes nothing exactly if no bracket was left |
| Mails.NormalizeDoubleBrackets | lib/smtp/src/lib.rs:101-107 | Doubled brackets are taken off one pair at a time |
| Connections.PrefixedTcpStream.FromExisting | lib/smtp/src/connection.rs:142-147 | The stream has the buffered bytes and then those of the socket to yield |
| Connections.PrefixedTcpStream.PollRead | lib/smtp/src/connection.rs:151-163 | Data yielded and data pending are the data pending before; at most the capacity is yielded, and nothing only at the end |
| Connections.PrefixedTcpStream.PollAll | lib/smtp/src/connection.rs:151-163 | For any sequence of read capacities the bytes yielded are a prefix of the client's bytes |
| Connections.Connection.FillBuf | lib/smtp/src/connection.rs:68-73 | Filling the buffer loses nothing, and an empty buffer means the end of the stream |
| Connections.Connection.Consume | lib/smtp/src/connection.rs:75-80 | Consuming removes exactly the first bytes |
| Connections.Connection.StartTls | lib/smtp/src/connection.rs:82-100 | The upgrade succeeds exactly if TLS is available and the handshake on all unread bytes does, and gives the decrypted data |
| Connections.Connection.WriteAll | lib/smtp/src/connection.rs:54-59 | Writing appends to the output |
| PeerFilters.VerdictIsLongestPrefix | lib/mail_proxy/src/peer_filter.rs:72-118 | The sorted scan allows an address exactly if a matching rule of greatest prefix length is an Allow; nothing matching is denied |
| PeerFilters.SortIndicesSorts | lib/mail_proxy/src/peer_filter.rs:99-118 | The evaluation order holds every rule once, by descending key and, for equal keys, in list order |
| PeerFilters.ScanIsTotal | lib/mail_proxy/src/peer_filter.rs:86-95 | The scan finds a rule for every IPv4 and IPv6 address |
| PeerFilters.VerdictIgnoresOrder | lib/mail_proxy/src/peer_filter.rs:72-118 | The decision depends on the set of rules only, not on order or repetition |
| PeerFilters.NestedOrDisjoint | lib/mail_proxy/src/peer_filter.rs:192-199 | Two networks that share an address are nested (section 3.1 of RFC 4632) |
| PeerFilters.ContainsIff | lib/mail_proxy/src/peer_filter.rs:192-199 | A network holds exactly the addresses of its family whose number, divided by 2 to the number of host bits, agrees with its own |
| PeerFilters.FirstOctetDecides | lib/mail_proxy/src/peer_filter.rs:192-199 | A /8 network holds exactly the IPv4 addresses with its first octet |
| PeerFilters.PrivateNetwork | lib/mail_proxy/src/peer_filter.rs:96-147 | Decisions for ALLOW:10.0.0.0/8, and for DENY:10.0.0.0/8 below an allow-all |
| PeerFilters.FromStringIff | lib/mail_proxy/src/peer_filter.rs:175-188 | A text is read as a rule exactly if the word before the first colon is ALLOW or DENY in some case and what follows is its network |
| PeerFilters.AddIsLocal | lib/mail_proxy/src/peer_filter.rs:52-61 | A new rule changes decisions only in its network, where no more specific rule matches, and to its own action |
| PeerFilters.AddDecides | lib/mail_proxy/src/peer_filter.rs:52-61 | There, if no rule as specific matches, it does decide |
| PeerFilters.AddThenRemove | lib/mail_proxy/src/peer_filter.rs:65-68 | Removing a rule just added restores the list, order included |
| PeerFilters.PeerFilter.Add | lib/mail_proxy/src/peer_filter.rs:52-61 | Adds a rule at the end exactly if it is absent |
| PeerFilters.PeerFilter.Remove | lib/mail_proxy/src/peer_filter.rs:65-68 | Every other rule stays, in its order, and the rule is gone |
| PeerFilters.RemovedKeeps | lib/mail_proxy/src/peer_filter.rs:65-68 | What removal leaves is every other rule |
| PeerFilters.PeerFilter.Iter | lib/mail_proxy/src/peer_filter.rs:99-118 | The rules in evaluation order, then the implicit denies for both families |
| PeerFilters.PeerFilter.EvaluateWithContext | lib/mail_proxy/src/peer_filter.rs:86-95 | The scanning loop returns the first match and always finds one |
| PeerFilters.PeerFilter.EvaluateAddress | lib/mail_proxy/src/peer_filter.rs:72-82 | The decision equals the order-free longest-prefix rule |
| PeerFilters.PeerFilter.NewAllowAny | lib/mail_proxy/src/peer_filter.rs:33-48 | Two allow-all rules |
| PeerFilters.RuleRoundTrip | lib/mail_proxy/src/peer_filter.rs:175-211 | A rule is read back from its text, whatever colons its network contains |
| Users.EntryPermitsIff | lib/mail_proxy/src/user.rs:220-240 | The entry check of the loop means: everything, that address, or every address of that non-empty domain |
| Users.AfterLastMeaning | lib/mail_proxy/src/user.rs:229-234 | The text behind the last "@" is the separator-free suffix after one |
| Users.UserList.VerifyUserCanSendAs | lib/mail_proxy/src/user.rs:212-243 | The early-exit loop, in whatever order the set is visited, accepts exactly if the user exists and some entry permits the sender |
| Users.PermitsMonotone | lib/mail_proxy/src/user.rs:212-243 | More entries permit more |
| Users.PermitsIgnoresCase | lib/mail_proxy/src/user.rs:212-243 | Letter case of entries and sender does not matter |
| Users.WithdrawalEffectiveIff | lib/mail_proxy/src/user.rs:181-194 | For a known user a withdrawal ends the permission exactly if none of his other entries is "*@*", another spelling of the address, or the entry for the domain behind its last "@" |
| Users.CoversIff | lib/mail_proxy/src/user.rs:220-240 | These three string tests are what an entry means |
| Users.WithdrawalIsCaseSensitive | lib/mail_proxy/src/user.rs:181-194 | After withdrawing an address from the only entry, spelled with a capital letter, the user may still send as it |
| Users.PasswordUpdateKeepsSendAs | lib/mail_proxy/src/user.rs:89-109 | Updating a password changes nobody's permissions |
| Users.NewUserSendsAsHimself | lib/mail_proxy/src/user.rs:97-106 | A new user may send as himself |
| Users.UserList.SetUserPassword | lib/mail_proxy/src/user.rs:89-109 | New map: password replaced, or user added with himself as sender; unchanged if hashing fails. Afterwards exactly the passwords matching the new hash are accepted for that user, and for everybody else what was accepted before |
| Users.PasswordTakesEffect | lib/mail_proxy/src/user.rs:89-131 | After a password was set, a login of that user is accepted exactly if the password matches the new hash, for a known and for a new user; every other login is answered as before |
| Users.AdditionGrants | lib/mail_proxy/src/user.rs:164-176 | An entry added permits its user exactly what it means besides what was permitted before, and nobody else anything |
| Users.RemovalLeaves | lib/mail_proxy/src/user.rs:181-193 | An entry removed leaves its user exactly what his other entries mean, and everybody else everything |
| Users.EntriesKeepPasswords | lib/mail_proxy/src/user.rs:164-193 | Adding and removing entries changes no login |
| Users.UserList.RemoveUser | lib/mail_proxy/src/user.rs:113-120 | New map without the user; error exactly if there was none |
| Users.UserList.AddUserSendAs | lib/mail_proxy/src/user.rs:164-176 | One more entry for that user only; error exactly if there is no such user |
| Users.UserList.RemoveUserSendAs | lib/mail_proxy/src/user.rs:181-193 | One entry less for that user only; error exactly if there is no such user |
| Users.UserList.VerifyUserPassword | lib/mail_proxy/src/user.rs:146-159 | Accepts exactly a known user with a matching password |
| Fail2Bans.Fail2Ban.PushConnection | lib/mail_proxy/src/fail2ban.rs:83-100 | One more connection and a fresh time for that peer, or a new record |
| Fail2Bans.Fail2Ban.PopConnection | lib/mail_proxy/src/fail2ban.rs:104-110 | One connection less for that peer, wrapping at zero |
| Fail2Bans.Fail2Ban.PushFail | lib/mail_proxy/src/fail2ban.rs:114-121 | One more failure and a fresh time for that peer, if recorded |
| Fail2Bans.Fail2Ban.GetVerdict | lib/mail_proxy/src/fail2ban.rs:126-154 | Old records are dropped, the verdict is about what is left, and there is no record exactly if it was absent or too old |
| Server.ConnectionsAreConserved | lib/mail_proxy/src/proxy.rs:56-87 | Over all interleavings, if no live session outlives max_age: recorded connections equal live sessions for every peer, no live peer is forgotten, and no peer exceeds max_connections admitted sessions |
| Server.RunConservesIff | lib/mail_proxy/src/fail2ban.rs:83-130 | Over any run the counts are right in every state exactly if no sweep drops the record of a peer with a live session |
| Server.ConnectConservesIff | lib/mail_proxy/src/fail2ban.rs:83-130 | The same for one connection |
| Server.AdmittedIff | lib/mail_proxy/src/proxy.rs:56-74 | In a sound world, if no live session outlived max_age, a connection is admitted exactly if its peer has at most max_fails failures since its record was created, fewer than max_connections live sessions, and is allowed by the filter |
| Server.AdmissionAfterRun | lib/mail_proxy/src/proxy.rs:56-74 | So for the next connection after any such run |
| Server.AdmissionIsBounded | lib/mail_proxy/src/fail2ban.rs:126-147 | Over any run in which no sweep drops the record of a peer with a live session, no peer exceeds max_connections admitted sessions |
| Server.PopIsSafe | lib/mail_proxy/src/fail2ban.rs:104-110 | Under conservation the counter decremented is never zero |
| Server.CounterWraps | lib/mail_proxy/src/fail2ban.rs:104-130 | A run in which a session outlives max_age and the counter wraps |
| Server.FailsAreExplained | lib/mail_proxy/src/fail2ban.rs:114-121 | In every run a record's failures are the unproductive disconnections since its creation and its time the last activity |
| Server.BanOutlastsIff | lib/mail_proxy/src/fail2ban.rs:126-147 | A ban outlasts an action exactly if the sweep finds the peer's last activity recent enough |
| Server.BanPersistsIff | lib/mail_proxy/src/fail2ban.rs:126-147 | Over any run a ban holds in every state exactly if no sweep comes more than max_age after the last activity |
| Server.BanPersists | lib/mail_proxy/src/fail2ban.rs:126-147 | In particular at the end of such a run |
| Server.BannedIsRejected | lib/mail_proxy/src/proxy.rs:60-65 | A banned peer is rejected for its failures, if its own sweep follows its recording within max_age |
| Server.ReturnDoesNotLiftBan | lib/mail_proxy/src/proxy.rs:60-65 | However late it returns, a banned peer is rejected if nobody connected meanwhile, and stays banned exactly if its own sweep follows its recording within max_age |
| Server.NoRecordIff | lib/mail_proxy/src/proxy.rs:60-65 | After its own connection is recorded a peer has no record exactly if the sweep came more than max_age later |
| Proxy.ProxyHandler.OnConnect | lib/mail_proxy/src/proxy.rs:56-74 | The locked section: record, sweep, verdict, then filter; accepted peers are allowed by the longest-prefix rule |
| Proxy.ProxyHandler.OnDisconnect | lib/mail_proxy/src/proxy.rs:76-87 | The locked section: a failure if unproductive, then one connection less |
| Proxy.ProxyHandler.OnLogin | lib/mail_proxy/src/proxy.rs:89-103 | Refines the login callback: user remembered or forgotten, refusal makes the session unproductive |
| Proxy.ProxyHandler.OnMail | lib/mail_proxy/src/proxy.rs:105-124 | Refines the mail callback: sender check for a known user, then productive and forwarded, and answered with what sending resulted in |
| Proxy.ProxyHandler.OnReset | lib/mail_proxy/src/proxy.rs:126-129 | Refines the reset callback: user forgotten |
| Forwarding.ForwardedArePermitted | lib/mail_proxy/src/proxy.rs:89-129 | With authentication configured, after any number of turns, the mails forwarded are exactly those whose sender the user logged in at the time may use, and productive means one was and no login was refused since |
| Forwarding.ForwardedOnlyAuthenticated | lib/mail_proxy/src/proxy.rs:105-124 | Every mail forwarded stems from a login with a matching password, with no RSET and no STARTTLS taken up sent by the client and no further login in between, by a user allowed to send as its sender, and the mail is the one the transcript explains |
| Forwarding.HandlerAgrees | lib/mail_proxy/src/proxy.rs:89-129 | The handler knows the logged-in user whenever there is one, although STARTTLS does not tell it that a login lapsed; after a reset it knows none |
| Forwarding.HandlerAnswers | lib/mail_proxy/src/proxy.rs:89-124 | In every session a login is accepted exactly if the user exists and the password matches, a mail its user may not send is refused, and any other mail is answered with what sending it after all those before resulted in |
| Forwarding.MailAnswered | lib/mail_proxy/src/proxy.rs:105-124 | So the client is told 250 exactly if its mail was permitted and sending it succeeded, and 451 otherwise |
| Forwarding.LastLoginMeaning | lib/mail_proxy/src/proxy.rs:89-103 | The login in force was accepted for a matching password, and since then there was no further login, no RSET and no STARTTLS taken up |
| Forwarding.PermittedIsSourced | lib/mail_proxy/src/proxy.rs:105-124 | Each permitted mail has its login and its delivery in the transcript |
| Forwarding.ForwardedWithoutAuth | lib/mail_proxy/src/proxy.rs:105-124 | Without authentication all delivered mails are forwarded, for no user |
| Forwarding.ForwardedAtEveryEvent | lib/smtp/src/server.rs:41-50 | What is forwarded is what is deserved at every single event of a session, so also for one cut off within a turn |
| Protocol.StepExtends | lib/smtp/src/session.rs:134-381 | A turn takes back nothing of the transcript |
| Tasks.Serve | lib/smtp/src/server.rs:34-66 | One connection: the handler is asked, the session runs exactly if admitted, the handler is told once; what is forwarded is what the conversation deserves, and the records count a failure exactly if it was unproductive |
| Systems.RecordsCountConversations | lib/smtp/src/server.rs:29-67 | In every interleaving of whole sessions, cut off anywhere, a record's failures are the unproductive conversations of its peer since it was created, and the mails forwarded by all finished sessions are those their conversations deserved |
| Systems.RecordsRunAlong | lib/smtp/src/server.rs:29-67 | Without the turns of the sessions every such run is a run of the shared records, so that what holds of all those runs holds here |
| Systems.ConversationAgrees | lib/mail_proxy/src/proxy.rs:76-129 | What the records are told when a session ends, also within a turn, is what its conversation deserves |

## Left out

- Sessions.Session.Handle: does not model read, reply and session timeouts or write errors, each of which ends a session early.
- Sessions.Session.HandleFor: cuts a session off between turns only; one cut off within a turn has been through the first events of that turn, and what it forwarded and how it counts is proved for every number of events (`Forwarding.ForwardedAtEveryEvent`, `Systems.RecordsCountConversations`).
- Tasks.Serve: is one connection with no other between its two locked sections, cut off between turns; the interleavings of many sessions, cut off anywhere, are the transition systems of `Server` and `System` over the same functions.
- Connections.Connection.StartTls: the TLS handshake is a function of the unread bytes that gives the decrypted data or fails, and the decrypted data arrive in arbitrary pieces; rustls and its records are not modelled.
- Connections.Connection.WriteAll: output is one text, without flushing or partial writes.
- Proxy.ProxyHandler.OnMail: sending is a function that may fail of what was sent before; the Graph client behind it (`lib/ms_graph`) is not modelled.
- Server.ConnectionsAreConserved: counters do not overflow upwards at 2^32; taking one from zero wraps explicitly, as in a release build (a debug build would panic).
- Fail2Bans.Fail2Ban.GetVerdict: one sweep uses one clock reading for all records, where the code reads the clock per record.
- Commands.CommandRoundTrip: UTF-8 decoding is a parameter, assumed to leave ASCII text as it is only for commands with text fields.
- Users.NewUserSendsAsHimself: lower-casing is a parameter, assumed idempotent here and arbitrary elsewhere; password hashing and verification are parameters.
- PeerFilters.RuleRoundTrip: network text and upper-casing are parameters with the inverse law as hypothesis; parse errors carry no text.
- PeerFilters.PeerFilter.Iter: the library's stable sort is its specification, a stable insertion, and not its algorithm.
- `Mail` and `SessionState` are values that the session's fields hold, as the session owns them and nothing else refers to them.
- Base64 decoding is a parameter of every session; what it accepts is not modelled, only what it is given (`AuthForms.DecodesCore`).
- The session's optional connection, empty only while STARTTLS replaces it, is not optional in the model.
- The commands are methods of their own, where the code has one long `match`.
- Fixed and custom reply texts are one text; reply codes are unbounded numbers.
- Errors of the greeting, login and reset callbacks are answers (an error counts as a rejection, as in the code); error texts for the log and logging itself are left out.
- The accept loop, configuration loading, TLS certificates, command-line tools, the Windows service and the installation scripts.
- Listing users and rules, and serialization of the user list.
