# Authentication server client: command table and session flow

This project models the client half of a small authentication server in
Dafny and proves properties of that model. It has two parts.

- **The command table** (`CommandBehavior`). The enum holds twelve operation
  kinds, each with a fixed text description. `getCommandByDescription` is a
  case-insensitive linear search over the constants in declaration order. It
  returns the first match, or `null` when nothing matches.
- **The console client** (`Client`). The client first runs an
  authentication phase: it reads command lines and sends each one to the
  server tagged UNSECURE, until the first successful answer or the line
  "disconnect". It then runs an action phase: it reads lines and sends each
  one tagged SECURE, until "disconnect", a successful logout, or an answer
  that says the session is logged out. `startClient` alternates the two
  phases until "disconnect". Failed logins are counted, and a successful
  login resets the count. In the authentication phase, every answer is
  counted first; if the counter then stands at 3 or more, a one-minute
  lockout follows, which resets the counter unless the sleep is
  interrupted. After an interrupted sleep the counter stays at 3 or more,
  so the next answer other than a successful login (a failed register, say)
  locks out again. Every request and answer travels as a frame: a 4-byte
  big-endian length, then the serialized bytes. Answers are read through a single 1024-byte buffer.

Files:

- `wrappers.dfy`: the `Option` and `Result` datatypes.
- `command_behavior.dfy` (module `Command`): the enum, its descriptions,
  `equalsIgnoreCase`, and the lookup.
- `communication.dfy` (module `Communication`): the `Input` and `Output`
  records, `CommandType` and `CommandStatus`.
- `client_flow.dfy` (module `ClientFlow`): the counter rules, and the two
  phases and the whole session as pure functions over a finite *script*. A
  script is a sequence of steps. Each step holds a typed line, the server's
  answer to it, and whether a lockout sleep after that answer is
  interrupted. This module also holds the lemmas about the flow.
- `client.dfy` (module `Client`): the class `Client`. It has the
  `failedLoginAttempts` field and a `requests` field that records every
  request written to the socket. Its methods mirror `countFailedLoginAttempts`,
  `sleepClient`, `sendObject`, `authenticateClient`, `performClientActions`
  and `startClient`. Each loop is proved to compute exactly what the
  matching function in `ClientFlow` describes.
- `framing.dfy` (module `Framing`): `putInt`/`getInt`, the frame written by
  `sendObject`, and the buffered read of `getServerOutput`. These are pure
  functions over bytes.

Tier tagging is an independent reference. `ModeAfter` is a two-state
machine over the answers: the client becomes authenticated on a successful
answer and leaves that state on an answer that ends the actions.
`SessionTiersFollowMode` proves that each request carries the tier of the
state reached by the steps before it.

## Model

| member | source | states |
|---|---|---|
| Command.DescriptionsDistinctIgnoringCase | ClientAuthenticationServer/src/bg/sofia/uni/fmi/mjt/authenticationserver/command/CommandBehavior.java:4-15 | two different constants have descriptions that differ even ignoring case |
| Command.Values | ClientAuthenticationServer/src/bg/sofia/uni/fmi/mjt/authenticationserver/command/CommandBehavior.java:3-15 | `values()` holds twelve constants: every constant, each exactly once |
| Command.Description | ClientAuthenticationServer/src/bg/sofia/uni/fmi/mjt/authenticationserver/command/CommandBehavior.java:4-25 | every description is between 6 and 18 characters long |
| Command.FoldChar | ClientAuthenticationServer/src/bg/sofia/uni/fmi/mjt/authenticationserver/command/CommandBehavior.java:29 | folding never yields an upper-case ASCII letter, keeps lower-case ASCII letters as they are, and keeps ASCII characters ASCII |
| Command.FoldCharAscii | ClientAuthenticationServer/src/bg/sofia/uni/fmi/mjt/authenticationserver/command/CommandBehavior.java:29 | two ASCII characters fold together iff they are equal or are the same letter in upper and lower case (code points 32 apart) |
| Command.FoldCharNonAscii | ClientAuthenticationServer/src/bg/sofia/uni/fmi/mjt/authenticationserver/command/CommandBehavior.java:29 | a non-ASCII character folds together with an ASCII one iff it is capital I with dot or dotless i against i/I, long s against s/S, or the Kelvin sign against k/K |
| Command.EqualsIgnoreCase | ClientAuthenticationServer/src/bg/sofia/uni/fmi/mjt/authenticationserver/command/CommandBehavior.java:29 | strings equal ignoring case have the same length, and every string equals itself ignoring case |
| Command.EqualsIgnoreCaseAt | ClientAuthenticationServer/src/bg/sofia/uni/fmi/mjt/authenticationserver/command/CommandBehavior.java:29 | two strings are equal ignoring case iff they have the same length and each pair of characters is equal once case-folded |
| Command.EqualsIgnoreCaseIsEquivalence | ClientAuthenticationServer/src/bg/sofia/uni/fmi/mjt/authenticationserver/command/CommandBehavior.java:29 | equality ignoring case is reflexive, symmetric and transitive |
| Command.FirstMatch | ClientAuthenticationServer/src/bg/sofia/uni/fmi/mjt/authenticationserver/command/CommandBehavior.java:28-33 | a found constant is one of those scanned and its description equals the input ignoring case; the scan finds nothing iff no scanned constant matches |
| Command.FirstMatchIsFirst | ClientAuthenticationServer/src/bg/sofia/uni/fmi/mjt/authenticationserver/command/CommandBehavior.java:28-31 | when a constant matches and none before it in the scanned order does, the scan returns that constant, whatever follows it |
| Command.GetCommandByDescription | ClientAuthenticationServer/src/bg/sofia/uni/fmi/mjt/authenticationserver/command/CommandBehavior.java:27-34 | a non-null result has a description equal to the input ignoring case; the result is null (None) iff no description matches |
| Command.GetCommandByDescriptionExact | ClientAuthenticationServer/src/bg/sofia/uni/fmi/mjt/authenticationserver/command/CommandBehavior.java:27-34 | the lookup yields c iff the input equals c's description ignoring case, in both directions |
| Command.DescriptionRoundTrip | ClientAuthenticationServer/src/bg/sofia/uni/fmi/mjt/authenticationserver/command/CommandBehavior.java:19-34 | looking up the description a constant was declared with gives back that constant |
| Command.UpperCaseLogoutFindsLogout | ClientAuthenticationServer/src/bg/sofia/uni/fmi/mjt/authenticationserver/command/CommandBehavior.java:29 | "LOGOUT" finds LOGOUT |
| Command.BareLoginFindsNothing | ClientAuthenticationServer/src/bg/sofia/uni/fmi/mjt/authenticationserver/command/CommandBehavior.java:33 | "LOGIN", a prefix of two descriptions, finds nothing (null) |
| Framing.PutInt | ClientAuthenticationServer/src/bg/sofia/uni/fmi/mjt/authenticationserver/client/Client.java:182 | the length prefix takes exactly `Integer.BYTES` (4) bytes, big-endian: bytes 0, 1, 2 and 3 are the base-256 digits of the unsigned 32-bit reading at 256^3, 256^2, 256 and 1, so the sign is the high bit of the first byte, and a value below 256 is written as three zero bytes and then itself |
| Framing.GetInt | ClientAuthenticationServer/src/bg/sofia/uni/fmi/mjt/authenticationserver/client/Client.java:165 | four bytes read big-endian always give a Java `int`: it is negative iff the first byte has its high bit set, and bytes 0, 1, 2 and 3 are its base-256 digits (taken modulo 2^32) at 256^3, 256^2, 256 and 1; and three leading zero bytes give the last byte's value |
| Framing.IntRoundTrip | ClientAuthenticationServer/src/bg/sofia/uni/fmi/mjt/authenticationserver/client/Client.java:182 | reading back the four bytes written for any `int` gives that `int` |
| Framing.BytesRoundTrip | ClientAuthenticationServer/src/bg/sofia/uni/fmi/mjt/authenticationserver/client/Client.java:165 | writing back the `int` read from any four bytes gives those bytes |
| Framing.Frame | ClientAuthenticationServer/src/bg/sofia/uni/fmi/mjt/authenticationserver/client/Client.java:179-184 | a frame is 4 + length bytes; its first four bytes read back as the payload length, and the payload follows them |
| Framing.ReadFrame | ClientAuthenticationServer/src/bg/sofia/uni/fmi/mjt/authenticationserver/client/Client.java:160-167 | a payload that is read was framed at the head of what arrived, and 4 + its length fits the 1024-byte buffer; a negative length prefix fails with NegativeArraySize, and a short buffer fails with BufferUnderflow, each iff its condition holds |
| Framing.FrameRoundTrip | ClientAuthenticationServer/src/bg/sofia/uni/fmi/mjt/authenticationserver/client/Client.java:160-184 | when 4 + length is at most 1024, reading a frame gives back its payload, whatever arrives after it |
| Framing.FrameTooLargeForBuffer | ClientAuthenticationServer/src/bg/sofia/uni/fmi/mjt/authenticationserver/client/Client.java:24 | a frame longer than the 1024-byte buffer always fails with BufferUnderflow |
| ClientFlow.AfterSleep | ClientAuthenticationServer/src/bg/sofia/uni/fmi/mjt/authenticationserver/client/Client.java:65-75 | the sleep never raises the counter: finished, it leaves 0; interrupted, it leaves the counter as it was |
| ClientFlow.CountingTouchesOnlyLogins | ClientAuthenticationServer/src/bg/sofia/uni/fmi/mjt/authenticationserver/client/Client.java:50-59 | only a login answer changes the counter: a successful one sets it to 0 and a failed one adds exactly 1 |
| ClientFlow.LockoutRule | ClientAuthenticationServer/src/bg/sofia/uni/fmi/mjt/authenticationserver/client/Client.java:93-97 | a successful login never locks out; with the counter at 3 or more any other answer locks out; with the counter at 0 or 1 no answer does |
| ClientFlow.LockoutSleep | ClientAuthenticationServer/src/bg/sofia/uni/fmi/mjt/authenticationserver/client/Client.java:93-97 | after a lockout the counter is 0 when the sleep finishes and the freshly counted value when it is interrupted; without a lockout it is the freshly counted value |
| ClientFlow.CountAfterResponse | ClientAuthenticationServer/src/bg/sofia/uni/fmi/mjt/authenticationserver/client/Client.java:93-97 | after an answer in the authentication phase: an uninterrupted lockout leaves the counter below 3; a successful login resets it to 0 and never locks out; a failed login that stays below the limit adds exactly one; another behaviour leaves a counter below the limit unchanged; an interrupted lockout leaves it at 3 or more |
| ClientFlow.AuthenticationPhase | ClientAuthenticationServer/src/bg/sofia/uni/fmi/mjt/authenticationserver/client/Client.java:77-103 | the phase ends authenticated, on "disconnect", or with the console exhausted; it reads at most the script; when it runs out of input it has read every line |
| ClientFlow.ActionPhase | ClientAuthenticationServer/src/bg/sofia/uni/fmi/mjt/authenticationserver/client/Client.java:105-129 | the phase ends logged out, on "disconnect", or with the console exhausted; it reads at most the script; when it runs out of input it has read every line |
| ClientFlow.Session | ClientAuthenticationServer/src/bg/sofia/uni/fmi/mjt/authenticationserver/client/Client.java:131-150 | the client stops only on "disconnect" or when the console runs dry |
| ClientFlow.AuthenticationPhaseStopsAtFirstSuccess | ClientAuthenticationServer/src/bg/sofia/uni/fmi/mjt/authenticationserver/client/Client.java:83-101 | the authentication phase stops at the first "disconnect" or the first successful answer of any behaviour: every earlier step continues the loop, and the last step is exactly that line or answer |
| ClientFlow.AuthenticationPhaseSendsUnsecure | ClientAuthenticationServer/src/bg/sofia/uni/fmi/mjt/authenticationserver/client/Client.java:84-89 | the authentication phase sends one request per line read, except a final "disconnect"; request j is line j, tagged UNSECURE |
| ClientFlow.ActionPhaseStopsAtLogout | ClientAuthenticationServer/src/bg/sofia/uni/fmi/mjt/authenticationserver/client/Client.java:108-127 | the action phase stops at the first "disconnect", successful logout or logged-out answer: every earlier step continues the loop, and the last step is exactly that line or answer |
| ClientFlow.ActionPhaseSendsSecure | ClientAuthenticationServer/src/bg/sofia/uni/fmi/mjt/authenticationserver/client/Client.java:109-114 | the action phase sends one request per line read, except a final "disconnect"; request j is line j, tagged SECURE |
| ClientFlow.PhasesEndOnDisconnectLine | ClientAuthenticationServer/src/bg/sofia/uni/fmi/mjt/authenticationserver/client/Client.java:86-88 | each phase ends on "disconnect" iff the last line it read is "disconnect" |
| ClientFlow.SessionSendsLinesBeforeDisconnect | ClientAuthenticationServer/src/bg/sofia/uni/fmi/mjt/authenticationserver/client/Client.java:137-143 | over the whole run, the client sends exactly the lines typed before the first "disconnect", in order, and never sends "disconnect"; a run that ends on "disconnect" stopped at that line, and a run that ran out of input sent every line |
| ClientFlow.AuthenticationPhaseTiers | ClientAuthenticationServer/src/bg/sofia/uni/fmi/mjt/authenticationserver/client/Client.java:84 | every request of the authentication phase carries the UNSECURE tier that the mode machine gives before any successful answer |
| ClientFlow.AuthenticationPhaseLetsIn | ClientAuthenticationServer/src/bg/sofia/uni/fmi/mjt/authenticationserver/client/Client.java:98-100 | an authentication phase that ends authenticated leaves the mode machine in the authenticated state |
| ClientFlow.ActionPhaseTiers | ClientAuthenticationServer/src/bg/sofia/uni/fmi/mjt/authenticationserver/client/Client.java:109 | every request of the action phase carries the SECURE tier of the authenticated state |
| ClientFlow.ActionPhaseLetsOut | ClientAuthenticationServer/src/bg/sofia/uni/fmi/mjt/authenticationserver/client/Client.java:118-125 | an action phase that ends on a successful logout or a logged-out answer leaves the mode machine unauthenticated |
| ClientFlow.RoundEndsUnauthenticated | ClientAuthenticationServer/src/bg/sofia/uni/fmi/mjt/authenticationserver/client/Client.java:137-143 | after a round that logs out, every line read was sent, and the mode machine is back in the unauthenticated state in which the next authentication phase starts |
| ClientFlow.SessionTiersFollowMode | ClientAuthenticationServer/src/bg/sofia/uni/fmi/mjt/authenticationserver/client/Client.java:137-143 | over the whole run, request j carries the tier of the mode reached after the first j lines: UNSECURE until a successful answer, SECURE until an answer that ends the actions, and so on |
| ClientFlow.AuthenticationKeepsCounterBelowLimit | ClientAuthenticationServer/src/bg/sofia/uni/fmi/mjt/authenticationserver/client/Client.java:95-97 | when no lockout sleep is interrupted, the authentication phase leaves the counter below 3 |
| ClientFlow.LoginResetsCounter | ClientAuthenticationServer/src/bg/sofia/uni/fmi/mjt/authenticationserver/client/Client.java:53-54 | an authentication phase that ends on a successful login leaves the counter at 0 |
| ClientFlow.ThirdFailedLoginLocksOut | ClientAuthenticationServer/src/bg/sofia/uni/fmi/mjt/authenticationserver/client/Client.java:95-97 | two failed logins leave the counter at 2; the third reaches the limit, and the uninterrupted lockout resets the counter to 0 |
| ClientFlow.InterruptedLockoutKeepsCounter | ClientAuthenticationServer/src/bg/sofia/uni/fmi/mjt/authenticationserver/client/Client.java:71-74 | an interrupted lockout leaves the counter at 3, so even a failed register answer next locks out again |
| ClientFlow.ActionPhaseCounterUncapped | ClientAuthenticationServer/src/bg/sofia/uni/fmi/mjt/authenticationserver/client/Client.java:116 | the action phase counts failed logins but never locks out: two of them take the counter from 2 to 4 |
| ClientFlow.DisconnectIsCaseSensitive | ClientAuthenticationServer/src/bg/sofia/uni/fmi/mjt/authenticationserver/client/Client.java:41-44 | "DISCONNECT" is sent like any other line; only the exact "disconnect" after it stops the client |
| ClientFlow.LoginLogoutDisconnect | ClientAuthenticationServer/src/bg/sofia/uni/fmi/mjt/authenticationserver/client/Client.java:131-143 | a login, a logout and "disconnect" send the login UNSECURE and the logout SECURE, then stop |
| Client.Client.constructor | ClientAuthenticationServer/src/bg/sofia/uni/fmi/mjt/authenticationserver/client/Client.java:33-39 | host and port are kept; the counter starts at 0; nothing has been sent |
| Client.Client.CountFailedLoginAttempts | ClientAuthenticationServer/src/bg/sofia/uni/fmi/mjt/authenticationserver/client/Client.java:50-59 | a successful login answer resets the counter to 0; a failed one adds exactly 1; any other behaviour leaves it unchanged |
| Client.Client.SleepClient | ClientAuthenticationServer/src/bg/sofia/uni/fmi/mjt/authenticationserver/client/Client.java:65-75 | the sleep resets the counter to 0; an interrupted sleep leaves it unchanged |
| Client.Client.CountAndLockOut | ClientAuthenticationServer/src/bg/sofia/uni/fmi/mjt/authenticationserver/client/Client.java:93-97 | the counter after an answer of the authentication phase is the one `CountAfterResponse` gives for the old counter, the answer and the sleep flag |
| Client.Client.SendObject | ClientAuthenticationServer/src/bg/sofia/uni/fmi/mjt/authenticationserver/client/Client.java:172-188 | the request is appended to what has been written to the socket |
| Client.Client.AuthenticateClient | ClientAuthenticationServer/src/bg/sofia/uni/fmi/mjt/authenticationserver/client/Client.java:77-103 | the loop ends as the authentication phase does, reads as many lines, leaves the counter that phase computes and sends its requests; it returns the last line read ("" when none) |
| Client.Client.PerformClientActions | ClientAuthenticationServer/src/bg/sofia/uni/fmi/mjt/authenticationserver/client/Client.java:105-129 | the loop ends as the action phase does, reads as many lines, leaves the counter that phase computes and sends its requests; it returns the last line read ("" when none) |
| Client.Client.StartClient | ClientAuthenticationServer/src/bg/sofia/uni/fmi/mjt/authenticationserver/client/Client.java:131-150 | the outer loop ends as the session does, leaves its counter and sends exactly its requests |

## Left out

- Sockets: opening and connecting the channel, the reads and writes, and
  the direct buffer are not modelled. The class takes the console lines and
  the server's answers together as a script. It records each request as an
  `Input` value in `requests` instead of writing bytes.
- Client.Client.SendObject: records the `Input` value, not its frame. Java
  object serialization is a foreign library, so payloads are opaque bytes.
  The frame layout is modelled and proved separately in `Framing`.
- Framing.ReadFrame: one socket read is assumed to deliver `received` in
  full. What the network splits across several reads is not modelled.
- `Thread.sleep`: the wall-clock wait is not modelled. Each step carries a
  flag that says whether the sleep would be interrupted.
- Console I/O: menus, prompts and printed messages are not modelled.
  `Scanner.nextLine` on an exhausted console throws, and nothing catches
  it. The model ends the run with `InputExhausted` instead.
- Exception handling in `startClient`: the IOException message and the
  ClassNotFoundException rethrow are not modelled. The script never fails
  mid-read.
- Command.GetCommandByDescription: a `null` argument is not modelled,
  because Dafny strings cannot be null.
- Command.FoldChar: Java's `equalsIgnoreCase` compares upper- and
  lower-case mappings over all of Unicode. `FoldChar` folds ASCII letters
  plus the four non-ASCII characters whose mappings land on an ASCII letter
  (U+0130, U+0131, U+017F, U+212A). This is exact whenever one side is
  ASCII, which every description is (`FoldCharAscii` and `FoldCharNonAscii`
  state the pairs it identifies). Two non-ASCII strings may compare
  differently from Java.
- Client.Client.CountFailedLoginAttempts: the counter is an unbounded
  `nat`. In Java it is an `Integer`, and `failedLoginAttempts++` would wrap
  from 2^31-1 to a negative value. Only a successful login answer or a
  finished lockout sleep brings it back down, and the action phase never
  sleeps, so about 2^31 failed logins there (or in an authentication phase
  whose sleeps are all interrupted) reach the wrap. The model does not
  wrap.
- Output: `loggedOut` is a plain boolean. A null `Boolean` would fail
  unboxing at Client.java:122.
- Server-side logic: sessions, command execution, authorization and audit
  events are not part of this model.
