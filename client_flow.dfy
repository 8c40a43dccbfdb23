/**
 * The session flow of the console client, as pure functions over a finite
 * script of console lines and server answers. The class in module
 * `Client` runs the same flow step by step and is proved against these
 * functions.
 */
module ClientFlow {
  import opened Command
  import opened Communication

  /** `MAX_FAILED_LOGIN_ATTEMPTS`. */
  const MaxFailedLoginAttempts: nat := 3

  /** `shouldDisconnect`: exact, case-sensitive comparison with "disconnect". */
  predicate ShouldDisconnect(message: string)
  {
    message == "disconnect"
  }

  /** `isStatusSuccessful`. */
  predicate IsStatusSuccessful(status: CommandStatus)
  {
    status == Successful
  }

  /** `isCommandBehaviorLogout`. */
  predicate IsCommandBehaviorLogout(behaviour: CommandBehavior)
  {
    behaviour == Logout
  }

  /** The two behaviours `countFailedLoginAttempts` looks at. */
  predicate IsLogin(behaviour: CommandBehavior)
  {
    behaviour == LoginBySessionId || behaviour == LoginByUsername
  }

  /** The failed-login counter after `countFailedLoginAttempts`. */
  function CountedAttempts(count: nat, behaviour: CommandBehavior, status: CommandStatus): nat
  {
    if IsLogin(behaviour) then
      if IsStatusSuccessful(status) then 0 else count + 1
    else count
  }

  /** The counter after `sleepClient`: reset, unless the sleep is interrupted. */
  function AfterSleep(count: nat, interrupted: bool): (r: nat)
    ensures r <= count
    ensures !interrupted ==> r == 0
    ensures interrupted ==> r == count
  {
    if interrupted then count else 0
  }

  /** In the authentication phase, a response after which the client locks out. */
  predicate LocksOut(count: nat, reply: Output)
  {
    CountedAttempts(count, reply.commandBehaviour, reply.status) >= MaxFailedLoginAttempts
  }

  /**
   * Counting touches only login answers: a successful one resets the
   * counter to 0, a failed one adds exactly one, and any other answer
   * leaves the counter as it was.
   */
  lemma CountingTouchesOnlyLogins(count: nat, behaviour: CommandBehavior, status: CommandStatus)
    ensures CountedAttempts(count, behaviour, status) != count ==> IsLogin(behaviour)
    ensures IsLogin(behaviour) && IsStatusSuccessful(status) ==> CountedAttempts(count, behaviour, status) == 0
    ensures IsLogin(behaviour) && !IsStatusSuccessful(status) ==> CountedAttempts(count, behaviour, status) == count + 1
  {
  }

  /**
   * The lockout rule: a successful login never locks out, a counter
   * already at the limit locks out on any other answer, and a counter
   * two or more below the limit cannot reach it in one answer.
   */
  lemma LockoutRule(count: nat, reply: Output)
    ensures IsLogin(reply.commandBehaviour) && IsStatusSuccessful(reply.status) ==> !LocksOut(count, reply)
    ensures count >= MaxFailedLoginAttempts && !(IsLogin(reply.commandBehaviour) && IsStatusSuccessful(reply.status)) ==>
              LocksOut(count, reply)
    ensures count + 1 < MaxFailedLoginAttempts ==> !LocksOut(count, reply)
  {
  }

  /**
   * The counter after one response in the authentication phase: counted,
   * then, at the limit, the lockout sleep.
   */
  function CountAfterResponse(count: nat, reply: Output, interrupted: bool): (r: nat)
    ensures !interrupted ==> r < MaxFailedLoginAttempts
    ensures IsLogin(reply.commandBehaviour) && IsStatusSuccessful(reply.status) ==> r == 0 && !LocksOut(count, reply)
    ensures IsLogin(reply.commandBehaviour) && !IsStatusSuccessful(reply.status) && count + 1 < MaxFailedLoginAttempts ==> r == count + 1
    ensures !IsLogin(reply.commandBehaviour) && count < MaxFailedLoginAttempts ==> r == count
    ensures LocksOut(count, reply) && interrupted ==> r >= MaxFailedLoginAttempts
  {
    var counted := CountedAttempts(count, reply.commandBehaviour, reply.status);
    if counted >= MaxFailedLoginAttempts then AfterSleep(counted, interrupted) else counted
  }

  /**
   * The exact counter after an answer: the uninterrupted lockout sleep
   * resets it to 0, an interrupted one keeps the counted value, and
   * without a lockout the counted value stands.
   */
  lemma LockoutSleep(count: nat, reply: Output, interrupted: bool)
    ensures LocksOut(count, reply) && !interrupted ==> CountAfterResponse(count, reply, interrupted) == 0
    ensures LocksOut(count, reply) && interrupted ==>
              CountAfterResponse(count, reply, interrupted) == CountedAttempts(count, reply.commandBehaviour, reply.status)
    ensures !LocksOut(count, reply) ==>
              CountAfterResponse(count, reply, interrupted) == CountedAttempts(count, reply.commandBehaviour, reply.status)
  {
  }

  /**
   * One line typed at the console, the server's answer to it (unused when
   * the line is "disconnect", which is never sent) and whether a lockout
   * sleep after that answer would be interrupted.
   */
  datatype Step = Step(line: string, reply: Output, interrupted: bool)

  /**
   * Why a phase ended. `InputExhausted` stands for the exception
   * `Scanner.nextLine` throws when the console has no more lines, which
   * nothing in the client catches.
   */
  datatype PhaseEnd = Authenticated | LoggedOut | Disconnected | InputExhausted

  /** A phase's end, the counter after it, the requests sent and the steps read. */
  datatype PhaseRun = PhaseRun(end: PhaseEnd, count: nat, sent: seq<Input>, used: nat)

  /** The number of requests a phase sends: every line read but a final "disconnect". */
  function SentCount(r: PhaseRun): int
  {
    if r.end == Disconnected then r.used - 1 else r.used
  }

  /** A request tagged with the tier; `ClientRequestParser` builds these. */
  function Request(step: Step, tier: CommandType): Input
  {
    Input(step.line, tier)
  }

  /** A step after which `authenticateClient` reads another line. */
  predicate AuthenticationContinues(step: Step)
  {
    !ShouldDisconnect(step.line) && !IsStatusSuccessful(step.reply.status)
  }

  /** An answer after which `performClientActions` stops: a successful logout, or a logged-out session. */
  predicate EndsActions(reply: Output)
  {
    (IsStatusSuccessful(reply.status) && IsCommandBehaviorLogout(reply.commandBehaviour)) || reply.loggedOut
  }

  /** A step after which `performClientActions` reads another line. */
  predicate ActionsContinue(step: Step)
  {
    !ShouldDisconnect(step.line) && !EndsActions(step.reply)
  }

  /**
   * `authenticateClient`: read lines until "disconnect" or the first
   * successful answer; every other line is sent UNSECURE.
   */
  function AuthenticationPhase(count: nat, script: seq<Step>): (r: PhaseRun)
    ensures r.end == Authenticated || r.end == Disconnected || r.end == InputExhausted
    ensures r.used <= |script|
    ensures r.end == InputExhausted ==> r.used == |script|
    ensures r.end != InputExhausted ==> 1 <= r.used
    decreases |script|
  {
    if script == [] then PhaseRun(InputExhausted, count, [], 0)
    else
      var step := script[0];
      if ShouldDisconnect(step.line) then PhaseRun(Disconnected, count, [], 1)
      else
        var counted := CountAfterResponse(count, step.reply, step.interrupted);
        var request := Request(step, Unsecure);
        if IsStatusSuccessful(step.reply.status) then PhaseRun(Authenticated, counted, [request], 1)
        else
          var rest := AuthenticationPhase(counted, script[1..]);
          PhaseRun(rest.end, rest.count, [request] + rest.sent, 1 + rest.used)
  }

  /**
   * `performClientActions`: read lines until "disconnect", a successful
   * logout or a logged-out answer; every other line is sent SECURE. The
   * counter is updated but never checked here.
   */
  function ActionPhase(count: nat, script: seq<Step>): (r: PhaseRun)
    ensures r.end == LoggedOut || r.end == Disconnected || r.end == InputExhausted
    ensures r.used <= |script|
    ensures r.end == InputExhausted ==> r.used == |script|
    ensures r.end != InputExhausted ==> 1 <= r.used
    decreases |script|
  {
    if script == [] then PhaseRun(InputExhausted, count, [], 0)
    else
      var step := script[0];
      if ShouldDisconnect(step.line) then PhaseRun(Disconnected, count, [], 1)
      else
        var counted := CountedAttempts(count, step.reply.commandBehaviour, step.reply.status);
        var request := Request(step, Secure);
        if EndsActions(step.reply) then PhaseRun(LoggedOut, counted, [request], 1)
        else
          var rest := ActionPhase(counted, script[1..]);
          PhaseRun(rest.end, rest.count, [request] + rest.sent, 1 + rest.used)
  }

  /** How the whole client run ended, the final counter and every request sent. */
  datatype SessionRun = SessionRun(end: PhaseEnd, count: nat, sent: seq<Input>)

  /**
   * `startClient`: alternate the two phases until a phase ends on
   * "disconnect" (or the console runs dry).
   */
  function Session(count: nat, script: seq<Step>): (r: SessionRun)
    ensures r.end == Disconnected || r.end == InputExhausted
    decreases |script|
  {
    var auth := AuthenticationPhase(count, script);
    if auth.end != Authenticated then SessionRun(auth.end, auth.count, auth.sent)
    else
      var rest := script[auth.used..];
      var actions := ActionPhase(auth.count, rest);
      if actions.end != LoggedOut then SessionRun(actions.end, actions.count, auth.sent + actions.sent)
      else
        var next := Session(actions.count, rest[actions.used..]);
        SessionRun(next.end, next.count, auth.sent + actions.sent + next.sent)
  }

  /** The run `r`, preceded by `used` steps that sent `sent`. */
  function Preceded(sent: seq<Input>, used: nat, r: PhaseRun): PhaseRun
  {
    PhaseRun(r.end, r.count, sent + r.sent, used + r.used)
  }

  /** One step of the authentication phase, unfolded. */
  lemma AuthenticationStep(count: nat, script: seq<Step>)
    requires script != [] && !ShouldDisconnect(script[0].line)
    ensures var counted := CountAfterResponse(count, script[0].reply, script[0].interrupted);
      var request := Request(script[0], Unsecure);
      var rest := AuthenticationPhase(counted, script[1..]);
      AuthenticationPhase(count, script) ==
        if IsStatusSuccessful(script[0].reply.status) then PhaseRun(Authenticated, counted, [request], 1)
        else PhaseRun(rest.end, rest.count, [request] + rest.sent, 1 + rest.used)
  {
  }

  /** One step of the action phase, unfolded. */
  lemma ActionStep(count: nat, script: seq<Step>)
    requires script != [] && !ShouldDisconnect(script[0].line)
    ensures var counted := CountedAttempts(count, script[0].reply.commandBehaviour, script[0].reply.status);
      var request := Request(script[0], Secure);
      var rest := ActionPhase(counted, script[1..]);
      ActionPhase(count, script) ==
        if EndsActions(script[0].reply) then PhaseRun(LoggedOut, counted, [request], 1)
        else PhaseRun(rest.end, rest.count, [request] + rest.sent, 1 + rest.used)
  {
  }

  /**
   * One more step of the authentication phase, seen from a loop that has
   * already read `used` steps and sent `sent`.
   */
  lemma AuthenticationAdvance(whole: PhaseRun, sent: seq<Input>, used: nat, count: nat, script: seq<Step>)
    requires used < |script| && !ShouldDisconnect(script[used].line)
    requires whole == Preceded(sent, used, AuthenticationPhase(count, script[used..]))
    ensures var counted := CountAfterResponse(count, script[used].reply, script[used].interrupted);
      var request := Request(script[used], Unsecure);
      whole == if IsStatusSuccessful(script[used].reply.status)
               then PhaseRun(Authenticated, counted, sent + [request], used + 1)
               else Preceded(sent + [request], used + 1, AuthenticationPhase(counted, script[used + 1..]))
  {
    var tail := script[used..];
    assert tail[0] == script[used] && tail[1..] == script[used + 1..];
    AuthenticationStep(count, tail);
    var counted := CountAfterResponse(count, script[used].reply, script[used].interrupted);
    var rest := AuthenticationPhase(counted, script[used + 1..]);
    assert sent + ([Request(script[used], Unsecure)] + rest.sent) == sent + [Request(script[used], Unsecure)] + rest.sent;
  }

  /**
   * One more step of the action phase, seen from a loop that has already
   * read `used` steps and sent `sent`.
   */
  lemma ActionAdvance(whole: PhaseRun, sent: seq<Input>, used: nat, count: nat, script: seq<Step>)
    requires used < |script| && !ShouldDisconnect(script[used].line)
    requires whole == Preceded(sent, used, ActionPhase(count, script[used..]))
    ensures var counted := CountedAttempts(count, script[used].reply.commandBehaviour, script[used].reply.status);
      var request := Request(script[used], Secure);
      whole == if EndsActions(script[used].reply)
               then PhaseRun(LoggedOut, counted, sent + [request], used + 1)
               else Preceded(sent + [request], used + 1, ActionPhase(counted, script[used + 1..]))
  {
    var tail := script[used..];
    assert tail[0] == script[used] && tail[1..] == script[used + 1..];
    ActionStep(count, tail);
    var counted := CountedAttempts(count, script[used].reply.commandBehaviour, script[used].reply.status);
    var rest := ActionPhase(counted, script[used + 1..]);
    assert sent + ([Request(script[used], Secure)] + rest.sent) == sent + [Request(script[used], Secure)] + rest.sent;
  }

  /**
   * The authentication phase reads lines until the first "disconnect" or
   * the first successful answer, whichever comes first, and sends every
   * line but a "disconnect", tagged UNSECURE.
   */
  lemma {:induction false} AuthenticationPhaseStopsAtFirstSuccess(count: nat, script: seq<Step>)
    ensures var r := AuthenticationPhase(count, script);
      (r.end == Disconnected ==> ShouldDisconnect(script[r.used - 1].line)) &&
      (r.end == Authenticated ==>
         !ShouldDisconnect(script[r.used - 1].line) && IsStatusSuccessful(script[r.used - 1].reply.status)) &&
      (forall j :: 0 <= j < r.used && (j < r.used - 1 || r.end == InputExhausted) ==>
         AuthenticationContinues(script[j]))
    decreases |script|
  {
    if script != [] && !ShouldDisconnect(script[0].line) && !IsStatusSuccessful(script[0].reply.status) {
      var counted := CountAfterResponse(count, script[0].reply, script[0].interrupted);
      AuthenticationPhaseStopsAtFirstSuccess(counted, script[1..]);
      assert forall j :: 1 <= j < |script| ==> script[1..][j - 1] == script[j];
    }
  }

  /**
   * The authentication phase sends one request per line it read, except a
   * final "disconnect": the line itself, tagged UNSECURE.
   */
  lemma {:induction false} AuthenticationPhaseSendsUnsecure(count: nat, script: seq<Step>)
    ensures var r := AuthenticationPhase(count, script);
      |r.sent| == SentCount(r) &&
      (forall j :: 0 <= j < |r.sent| ==> r.sent[j] == Request(script[j], Unsecure))
    decreases |script|
  {
    if script != [] && !ShouldDisconnect(script[0].line) && !IsStatusSuccessful(script[0].reply.status) {
      var counted := CountAfterResponse(count, script[0].reply, script[0].interrupted);
      AuthenticationPhaseSendsUnsecure(counted, script[1..]);
      assert forall j :: 1 <= j < |script| ==> script[1..][j - 1] == script[j];
    }
  }

  /**
   * The action phase reads lines until the first "disconnect" or the
   * first answer that ends the actions, and sends every line but a
   * "disconnect", tagged SECURE.
   */
  lemma {:induction false} ActionPhaseStopsAtLogout(count: nat, script: seq<Step>)
    ensures var r := ActionPhase(count, script);
      (r.end == Disconnected ==> ShouldDisconnect(script[r.used - 1].line)) &&
      (r.end == LoggedOut ==> !ShouldDisconnect(script[r.used - 1].line) && EndsActions(script[r.used - 1].reply)) &&
      (forall j :: 0 <= j < r.used && (j < r.used - 1 || r.end == InputExhausted) ==>
         ActionsContinue(script[j]))
    decreases |script|
  {
    if script != [] && !ShouldDisconnect(script[0].line) && !EndsActions(script[0].reply) {
      var counted := CountedAttempts(count, script[0].reply.commandBehaviour, script[0].reply.status);
      ActionPhaseStopsAtLogout(counted, script[1..]);
      assert forall j :: 1 <= j < |script| ==> script[1..][j - 1] == script[j];
    }
  }

  /**
   * The action phase sends one request per line it read, except a final
   * "disconnect": the line itself, tagged SECURE.
   */
  lemma {:induction false} ActionPhaseSendsSecure(count: nat, script: seq<Step>)
    ensures var r := ActionPhase(count, script);
      |r.sent| == SentCount(r) &&
      (forall j :: 0 <= j < |r.sent| ==> r.sent[j] == Request(script[j], Secure))
    decreases |script|
  {
    if script != [] && !ShouldDisconnect(script[0].line) && !EndsActions(script[0].reply) {
      var counted := CountedAttempts(count, script[0].reply.commandBehaviour, script[0].reply.status);
      ActionPhaseSendsSecure(counted, script[1..]);
      assert forall j :: 1 <= j < |script| ==> script[1..][j - 1] == script[j];
    }
  }

  /** A phase ends on "disconnect" exactly when the last line it read is "disconnect". */
  lemma PhasesEndOnDisconnectLine(count: nat, script: seq<Step>)
    ensures var r := AuthenticationPhase(count, script);
      r.end == Disconnected <==> r.used > 0 && ShouldDisconnect(script[r.used - 1].line)
    ensures var r := ActionPhase(count, script);
      r.end == Disconnected <==> r.used > 0 && ShouldDisconnect(script[r.used - 1].line)
  {
    AuthenticationPhaseStopsAtFirstSuccess(count, script);
    ActionPhaseStopsAtLogout(count, script);
  }

  /** The run `r`, preceded by requests `sent`. */
  function Joined(sent: seq<Input>, r: SessionRun): SessionRun
  {
    SessionRun(r.end, r.count, sent + r.sent)
  }

  /**
   * A round of `startClient` whose authentication phase does not
   * authenticate ends the session with that phase.
   */
  lemma SessionEndsInAuthentication(sent: seq<Input>, count: nat, script: seq<Step>)
    requires AuthenticationPhase(count, script).end != Authenticated
    ensures var auth := AuthenticationPhase(count, script);
      Joined(sent, Session(count, script)) == SessionRun(auth.end, auth.count, sent + auth.sent)
  {
  }

  /**
   * A round of `startClient` that authenticates and then neither logs out
   * nor is logged out ends the session with its action phase.
   */
  lemma SessionEndsInActions(sent: seq<Input>, count: nat, script: seq<Step>)
    requires AuthenticationPhase(count, script).end == Authenticated
    requires var auth := AuthenticationPhase(count, script);
      ActionPhase(auth.count, script[auth.used..]).end != LoggedOut
    ensures var auth := AuthenticationPhase(count, script);
      var actions := ActionPhase(auth.count, script[auth.used..]);
      Joined(sent, Session(count, script)) == SessionRun(actions.end, actions.count, sent + auth.sent + actions.sent)
  {
    var auth := AuthenticationPhase(count, script);
    var actions := ActionPhase(auth.count, script[auth.used..]);
    assert sent + (auth.sent + actions.sent) == sent + auth.sent + actions.sent;
  }

  /**
   * A round of `startClient` that authenticates and then logs out hands
   * over to the next round, on the lines after those it read.
   */
  lemma SessionLogsOut(sent: seq<Input>, count: nat, script: seq<Step>)
    requires AuthenticationPhase(count, script).end == Authenticated
    requires var auth := AuthenticationPhase(count, script);
      ActionPhase(auth.count, script[auth.used..]).end == LoggedOut
    ensures var auth := AuthenticationPhase(count, script);
      var actions := ActionPhase(auth.count, script[auth.used..]);
      Joined(sent, Session(count, script)) ==
        Joined(sent + auth.sent + actions.sent, Session(actions.count, script[auth.used..][actions.used..]))
  {
    var auth := AuthenticationPhase(count, script);
    var actions := ActionPhase(auth.count, script[auth.used..]);
    var next := Session(actions.count, script[auth.used..][actions.used..]);
    AppendAssociative(sent, auth.sent, actions.sent);
    AppendAssociative(sent, auth.sent + actions.sent, next.sent);
  }

  lemma AppendAssociative<T>(a: seq<T>, b: seq<T>, c: seq<T>)
    ensures a + b + c == a + (b + c)
  {
  }

  lemma SliceOfSlice<T>(s: seq<T>, a: nat, b: nat)
    requires a + b <= |s|
    ensures s[a..][b..] == s[a + b..]
  {
  }

  lemma PrefixSplit<T>(s: seq<T>, a: nat, b: nat)
    requires a + b <= |s|
    ensures s[..a + b] == s[..a] + s[a..][..b]
  {
  }

  /** `sent` carries, in order, the lines at the head of `script`, none of them "disconnect". */
  predicate SendsLines(sent: seq<Input>, script: seq<Step>)
  {
    |sent| <= |script| &&
    forall j :: 0 <= j < |sent| ==> sent[j].message == script[j].line && !ShouldDisconnect(script[j].line)
  }

  lemma SendsLinesAppend(xs: seq<Input>, ys: seq<Input>, script: seq<Step>)
    requires SendsLines(xs, script) && SendsLines(ys, script[|xs|..])
    ensures SendsLines(xs + ys, script)
  {
    forall j | |xs| <= j < |xs| + |ys|
      ensures (xs + ys)[j].message == script[j].line && !ShouldDisconnect(script[j].line)
    {
      assert (xs + ys)[j] == ys[j - |xs|] && script[|xs|..][j - |xs|] == script[j];
    }
  }

  lemma AuthenticationPhaseSendsLines(count: nat, script: seq<Step>)
    ensures SendsLines(AuthenticationPhase(count, script).sent, script)
  {
    var r := AuthenticationPhase(count, script);
    AuthenticationPhaseStopsAtFirstSuccess(count, script);
    AuthenticationPhaseSendsUnsecure(count, script);
    forall j | 0 <= j < |r.sent| ensures !ShouldDisconnect(script[j].line) {
      assert AuthenticationContinues(script[j]) || script[j].reply.status == Successful;
    }
  }

  lemma ActionPhaseSendsLines(count: nat, script: seq<Step>)
    ensures SendsLines(ActionPhase(count, script).sent, script)
  {
    var r := ActionPhase(count, script);
    ActionPhaseStopsAtLogout(count, script);
    ActionPhaseSendsSecure(count, script);
    forall j | 0 <= j < |r.sent| ensures !ShouldDisconnect(script[j].line) {
      assert ActionsContinue(script[j]) || j == r.used - 1;
    }
  }

  /**
   * `sent` carries the lines at the head of `script`, none of them
   * "disconnect"; a run that ended on "disconnect" stopped at the line
   * right after them, and one that ran out of input sent every line.
   */
  predicate SendsLinesUpToDisconnect(sent: seq<Input>, end: PhaseEnd, script: seq<Step>)
  {
    SendsLines(sent, script) &&
    (end == Disconnected ==> |sent| < |script| && ShouldDisconnect(script[|sent|].line)) &&
    (end == InputExhausted ==> |sent| == |script|)
  }

  lemma SendsLinesUpToDisconnectAppend(xs: seq<Input>, ys: seq<Input>, end: PhaseEnd, script: seq<Step>)
    requires SendsLines(xs, script) && SendsLinesUpToDisconnect(ys, end, script[|xs|..])
    ensures SendsLinesUpToDisconnect(xs + ys, end, script)
  {
    SendsLinesAppend(xs, ys, script);
    if end == Disconnected {
      assert script[|xs + ys|] == script[|xs|..][|ys|];
    }
  }

  /** An authentication phase that does not authenticate ends the lines the session sends. */
  lemma AuthenticationPhaseLines(count: nat, script: seq<Step>)
    ensures var r := AuthenticationPhase(count, script);
      SendsLines(r.sent, script) &&
      (r.end == Authenticated ==> |r.sent| == r.used) &&
      (r.end != Authenticated ==> SendsLinesUpToDisconnect(r.sent, r.end, script))
  {
    AuthenticationPhaseSendsLines(count, script);
    PhasesEndOnDisconnectLine(count, script);
    PhasesSendOnePerLine(count, script);
  }

  /** An action phase that does not log out ends the lines the session sends. */
  lemma ActionPhaseLines(count: nat, script: seq<Step>)
    ensures var r := ActionPhase(count, script);
      SendsLines(r.sent, script) &&
      (r.end == LoggedOut ==> |r.sent| == r.used) &&
      (r.end != LoggedOut ==> SendsLinesUpToDisconnect(r.sent, r.end, script))
  {
    ActionPhaseSendsLines(count, script);
    PhasesEndOnDisconnectLine(count, script);
    PhasesSendOnePerLine(count, script);
  }

  /**
   * The client sends exactly the lines typed before the first
   * "disconnect", in order, and stops at that line; only a console that
   * runs dry stops it earlier.
   */
  lemma {:induction false} SessionSendsLinesBeforeDisconnect(count: nat, script: seq<Step>)
    ensures var r := Session(count, script);
      SendsLinesUpToDisconnect(r.sent, r.end, script)
    decreases |script|
  {
    var auth := AuthenticationPhase(count, script);
    AuthenticationPhaseLines(count, script);
    if auth.end == Authenticated {
      var rest := script[auth.used..];
      var actions := ActionPhase(auth.count, rest);
      ActionPhaseLines(auth.count, rest);
      if actions.end == LoggedOut {
        var done := auth.sent + actions.sent;
        SendsLinesAppend(auth.sent, actions.sent, script);
        var tail := script[auth.used..][actions.used..];
        assert tail == script[auth.used + actions.used..];
        assert tail == script[|done|..];
        SessionSendsLinesBeforeDisconnect(actions.count, tail);
        var next := Session(actions.count, tail);
        SendsLinesUpToDisconnectAppend(done, next.sent, next.end, script);
        assert Session(count, script) == SessionRun(next.end, next.count, done + next.sent);
      } else {
        SendsLinesUpToDisconnectAppend(auth.sent, actions.sent, actions.end, script);
        assert Session(count, script) == SessionRun(actions.end, actions.count, auth.sent + actions.sent);
      }
    } else {
      assert Session(count, script) == SessionRun(auth.end, auth.count, auth.sent);
    }
  }

  /**
   * An independent account of the tiers: a flat state machine over the
   * answers, true while the client is in its action phase. Before the
   * first successful answer it is unauthenticated; once authenticated, it
   * stays so until an answer ends the actions.
   */
  function NextMode(authenticated: bool, step: Step): bool
  {
    if authenticated then !EndsActions(step.reply) else IsStatusSuccessful(step.reply.status)
  }

  function ModeAfter(authenticated: bool, steps: seq<Step>): bool
    decreases |steps|
  {
    if steps == [] then authenticated else ModeAfter(NextMode(authenticated, steps[0]), steps[1..])
  }

  /** The tier `ClientRequestParser` tags a request with in each mode. */
  function Tier(authenticated: bool): CommandType
  {
    if authenticated then Secure else Unsecure
  }

  lemma {:induction false} ModeAfterAppend(authenticated: bool, xs: seq<Step>, ys: seq<Step>)
    ensures ModeAfter(authenticated, xs + ys) == ModeAfter(ModeAfter(authenticated, xs), ys)
    decreases |xs|
  {
    if xs != [] {
      assert (xs + ys)[0] == xs[0] && (xs + ys)[1..] == xs[1..] + ys;
      ModeAfterAppend(NextMode(authenticated, xs[0]), xs[1..], ys);
    } else {
      assert xs + ys == ys;
    }
  }

  /**
   * Request by request, `sent` carries the tier of the mode that the
   * steps before it lead to, starting from `authenticated`.
   */
  predicate TiersFollow(sent: seq<Input>, script: seq<Step>, authenticated: bool)
    decreases |sent|
  {
    |sent| <= |script| &&
    (sent == [] ||
     (sent[0].commandType == Tier(authenticated) &&
      TiersFollow(sent[1..], script[1..], NextMode(authenticated, script[0]))))
  }

  lemma {:induction false} TiersFollowAppend(xs: seq<Input>, ys: seq<Input>, script: seq<Step>, authenticated: bool)
    requires TiersFollow(xs, script, authenticated)
    requires TiersFollow(ys, script[|xs|..], ModeAfter(authenticated, script[..|xs|]))
    ensures TiersFollow(xs + ys, script, authenticated)
    decreases |xs|
  {
    if xs == [] {
      assert xs + ys == ys && script[..0] == [] && script[0..] == script;
    } else {
      assert script[..|xs|][0] == script[0] && script[..|xs|][1..] == script[1..][..|xs| - 1];
      assert script[1..][|xs| - 1..] == script[|xs|..];
      TiersFollowAppend(xs[1..], ys, script[1..], NextMode(authenticated, script[0]));
      assert (xs + ys)[0] == xs[0] && (xs + ys)[1..] == xs[1..] + ys;
    }
  }

  /** The index-wise reading of `TiersFollow`. */
  lemma {:induction false} TiersFollowAt(sent: seq<Input>, script: seq<Step>, authenticated: bool)
    requires TiersFollow(sent, script, authenticated)
    ensures |sent| <= |script|
    ensures forall j :: 0 <= j < |sent| ==> sent[j].commandType == Tier(ModeAfter(authenticated, script[..j]))
    decreases |sent|
  {
    if sent != [] {
      TiersFollowAt(sent[1..], script[1..], NextMode(authenticated, script[0]));
      forall j | 0 <= j < |sent| ensures sent[j].commandType == Tier(ModeAfter(authenticated, script[..j])) {
        if j == 0 {
          assert script[..0] == [];
        } else {
          assert script[..j][0] == script[0] && script[..j][1..] == script[1..][..j - 1];
          assert sent[j] == sent[1..][j - 1];
        }
      }
    }
  }

  /** The authentication phase tags every request UNSECURE: the client is not yet in. */
  lemma {:induction false} AuthenticationPhaseTiers(count: nat, script: seq<Step>)
    ensures TiersFollow(AuthenticationPhase(count, script).sent, script, false)
    decreases |script|
  {
    if script != [] && !ShouldDisconnect(script[0].line) {
      var counted := CountAfterResponse(count, script[0].reply, script[0].interrupted);
      AuthenticationStep(count, script);
      if !IsStatusSuccessful(script[0].reply.status) {
        AuthenticationPhaseTiers(counted, script[1..]);
        var rest := AuthenticationPhase(counted, script[1..]);
        assert ([Request(script[0], Unsecure)] + rest.sent)[1..] == rest.sent;
      }
    }
  }

  /** An authentication phase that authenticates leaves the client in. */
  lemma {:induction false} AuthenticationPhaseLetsIn(count: nat, script: seq<Step>)
    requires AuthenticationPhase(count, script).end == Authenticated
    ensures ModeAfter(false, script[..AuthenticationPhase(count, script).used])
    decreases |script|
  {
    var counted := CountAfterResponse(count, script[0].reply, script[0].interrupted);
    AuthenticationStep(count, script);
    if IsStatusSuccessful(script[0].reply.status) {
      assert script[..1][0] == script[0] && script[..1][1..] == [];
    } else {
      AuthenticationPhaseLetsIn(counted, script[1..]);
      var used := AuthenticationPhase(counted, script[1..]).used;
      assert script[..used + 1][0] == script[0] && script[..used + 1][1..] == script[1..][..used];
    }
  }

  /** The action phase tags every request SECURE: the client is in. */
  lemma {:induction false} ActionPhaseTiers(count: nat, script: seq<Step>)
    ensures TiersFollow(ActionPhase(count, script).sent, script, true)
    decreases |script|
  {
    if script != [] && !ShouldDisconnect(script[0].line) {
      var counted := CountedAttempts(count, script[0].reply.commandBehaviour, script[0].reply.status);
      ActionStep(count, script);
      if !EndsActions(script[0].reply) {
        ActionPhaseTiers(counted, script[1..]);
        var rest := ActionPhase(counted, script[1..]);
        assert ([Request(script[0], Secure)] + rest.sent)[1..] == rest.sent;
      }
    }
  }

  /** An action phase that ends on a logout leaves the client out again. */
  lemma {:induction false} ActionPhaseLetsOut(count: nat, script: seq<Step>)
    requires ActionPhase(count, script).end == LoggedOut
    ensures !ModeAfter(true, script[..ActionPhase(count, script).used])
    decreases |script|
  {
    var counted := CountedAttempts(count, script[0].reply.commandBehaviour, script[0].reply.status);
    ActionStep(count, script);
    if EndsActions(script[0].reply) {
      assert script[..1][0] == script[0] && script[..1][1..] == [];
    } else {
      ActionPhaseLetsOut(counted, script[1..]);
      var used := ActionPhase(counted, script[1..]).used;
      assert script[..used + 1][0] == script[0] && script[..used + 1][1..] == script[1..][..used];
    }
  }

  /** One authentication phase followed by one action phase, as `startClient` runs them. */
  lemma RoundTiers(count: nat, script: seq<Step>)
    requires AuthenticationPhase(count, script).end == Authenticated
    ensures var auth := AuthenticationPhase(count, script);
      var actions := ActionPhase(auth.count, script[auth.used..]);
      TiersFollow(auth.sent + actions.sent, script, false)
  {
    var auth := AuthenticationPhase(count, script);
    var rest := script[auth.used..];
    AuthenticationPhaseTiers(count, script);
    AuthenticationPhaseLetsIn(count, script);
    PhasesSendOnePerLine(count, script);
    ActionPhaseTiers(auth.count, rest);
    TiersFollowAppend(auth.sent, ActionPhase(auth.count, rest).sent, script, false);
  }

  /** Both phases send one request per line read, except a final "disconnect". */
  lemma PhasesSendOnePerLine(count: nat, script: seq<Step>)
    ensures |AuthenticationPhase(count, script).sent| == SentCount(AuthenticationPhase(count, script))
    ensures |ActionPhase(count, script).sent| == SentCount(ActionPhase(count, script))
  {
    AuthenticationPhaseSendsUnsecure(count, script);
    ActionPhaseSendsSecure(count, script);
  }

  /** A round that ends on a logout leaves the client unauthenticated, all its lines sent. */
  lemma RoundEndsUnauthenticated(count: nat, script: seq<Step>)
    requires AuthenticationPhase(count, script).end == Authenticated
    requires ActionPhase(AuthenticationPhase(count, script).count,
                         script[AuthenticationPhase(count, script).used..]).end == LoggedOut
    ensures var auth := AuthenticationPhase(count, script);
      var actions := ActionPhase(auth.count, script[auth.used..]);
      |auth.sent + actions.sent| == auth.used + actions.used &&
      !ModeAfter(false, script[..auth.used + actions.used])
  {
    var auth := AuthenticationPhase(count, script);
    var rest := script[auth.used..];
    var actions := ActionPhase(auth.count, rest);
    AuthenticationPhaseLetsIn(count, script);
    ActionPhaseLetsOut(auth.count, rest);
    PhasesSendOnePerLine(count, script);
    PhasesSendOnePerLine(auth.count, rest);
    PrefixSplit(script, auth.used, actions.used);
    ModeAfterAppend(false, script[..auth.used], rest[..actions.used]);
  }

  /** The session's requests, request by request, follow the tiers of the mode machine. */
  lemma {:induction false} SessionTiers(count: nat, script: seq<Step>)
    ensures TiersFollow(Session(count, script).sent, script, false)
    decreases |script|
  {
    var auth := AuthenticationPhase(count, script);
    var actions := ActionPhase(auth.count, script[auth.used..]);
    if auth.end == Authenticated && actions.end == LoggedOut {
      var next := Session(actions.count, script[auth.used..][actions.used..]);
      SessionTiers(actions.count, script[auth.used..][actions.used..]);
      LoggedOutRoundTiers(count, script, next.sent);
    } else if auth.end == Authenticated {
      RoundTiers(count, script);
    } else {
      AuthenticationPhaseTiers(count, script);
    }
  }

  /** The tiers of a round that logs out, followed by those of the requests sent after it. */
  lemma LoggedOutRoundTiers(count: nat, script: seq<Step>, later: seq<Input>)
    requires AuthenticationPhase(count, script).end == Authenticated
    requires var auth := AuthenticationPhase(count, script);
      ActionPhase(auth.count, script[auth.used..]).end == LoggedOut
    requires var auth := AuthenticationPhase(count, script);
      TiersFollow(later, script[auth.used..][ActionPhase(auth.count, script[auth.used..]).used..], false)
    ensures var auth := AuthenticationPhase(count, script);
      TiersFollow(auth.sent + ActionPhase(auth.count, script[auth.used..]).sent + later, script, false)
  {
    var auth := AuthenticationPhase(count, script);
    var actions := ActionPhase(auth.count, script[auth.used..]);
    RoundTiers(count, script);
    RoundEndsUnauthenticated(count, script);
    TiersFollowAfterLogout(auth.sent + actions.sent, later, script, auth.used, actions.used);
  }

  /** Requests sent after a logout, on the lines that follow it, extend the tiers. */
  lemma TiersFollowAfterLogout(xs: seq<Input>, ys: seq<Input>, script: seq<Step>, a: nat, b: nat)
    requires a <= |script| && b <= |script[a..]| && |xs| == a + b
    requires TiersFollow(xs, script, false) && !ModeAfter(false, script[..a + b])
    requires TiersFollow(ys, script[a..][b..], false)
    ensures TiersFollow(xs + ys, script, false)
  {
    SliceOfSlice(script, a, b);
    TiersFollowAppend(xs, ys, script, false);
  }

  /**
   * Every request the client sends is tagged UNSECURE while it is
   * authenticating and SECURE once a successful answer has let it in,
   * until a logout answer sends it back.
   */
  lemma SessionTiersFollowMode(count: nat, script: seq<Step>)
    ensures var sent := Session(count, script).sent;
      |sent| <= |script| &&
      forall j :: 0 <= j < |sent| ==> sent[j].commandType == Tier(ModeAfter(false, script[..j]))
  {
    SessionTiers(count, script);
    TiersFollowAt(Session(count, script).sent, script, false);
  }

  /**
   * While no lockout sleep is interrupted, the authentication phase keeps
   * the counter below the limit.
   */
  lemma {:induction false} AuthenticationKeepsCounterBelowLimit(count: nat, script: seq<Step>)
    requires count < MaxFailedLoginAttempts
    requires forall j :: 0 <= j < |script| ==> !script[j].interrupted
    ensures AuthenticationPhase(count, script).count < MaxFailedLoginAttempts
    decreases |script|
  {
    if script != [] && !ShouldDisconnect(script[0].line) && !IsStatusSuccessful(script[0].reply.status) {
      AuthenticationKeepsCounterBelowLimit(CountAfterResponse(count, script[0].reply, script[0].interrupted), script[1..]);
    }
  }

  /** Authentication that ends on a successful login leaves the counter at 0. */
  lemma {:induction false} LoginResetsCounter(count: nat, script: seq<Step>)
    requires AuthenticationPhase(count, script).end == Authenticated
    requires IsLogin(script[AuthenticationPhase(count, script).used - 1].reply.commandBehaviour)
    ensures AuthenticationPhase(count, script).count == 0
    decreases |script|
  {
    var step := script[0];
    if !IsStatusSuccessful(step.reply.status) {
      var counted := CountAfterResponse(count, step.reply, step.interrupted);
      assert script[1..][AuthenticationPhase(counted, script[1..]).used - 1]
          == script[AuthenticationPhase(count, script).used - 1];
      LoginResetsCounter(counted, script[1..]);
    }
  }

  /** A failed login by username, and the step that types it. */
  const WrongPassword: Output := Output("wrong password", NotSuccessful, LoginByUsername, false)
  const TypedLogin: string := "login --username alice --password wrong"

  /**
   * Three failed logins in a row: the third brings the counter to the
   * limit and the uninterrupted lockout resets it to 0.
   */
  lemma ThirdFailedLoginLocksOut()
    ensures AuthenticationPhase(0, [Step(TypedLogin, WrongPassword, false), Step(TypedLogin, WrongPassword, false)]).count == 2
    ensures LocksOut(2, WrongPassword)
    ensures AuthenticationPhase(0, [Step(TypedLogin, WrongPassword, false), Step(TypedLogin, WrongPassword, false),
                                    Step(TypedLogin, WrongPassword, false)]).count == 0
  {
    var f := Step(TypedLogin, WrongPassword, false);
    assert [f, f, f][1..] == [f, f] && [f, f][1..] == [f] && [f][1..] == [];
    assert AuthenticationPhase(2, [f]).count == 0;
    assert AuthenticationPhase(1, [f]).count == 2;
    assert AuthenticationPhase(1, [f, f]).count == 0;
  }

  /**
   * An interrupted lockout leaves the counter at the limit, so the next
   * answer of any kind, even a failed registration, locks out again.
   */
  lemma InterruptedLockoutKeepsCounter()
    ensures AuthenticationPhase(2, [Step(TypedLogin, WrongPassword, true)]).count == 3
    ensures LocksOut(3, Output("already exists", NotSuccessful, Register, false))
  {
  }

  /** In the action phase the counter is counted but never checked: it passes the limit. */
  lemma ActionPhaseCounterUncapped()
    ensures ActionPhase(2, [Step(TypedLogin, WrongPassword, false), Step(TypedLogin, WrongPassword, false)])
         == PhaseRun(InputExhausted, 4, [Input(TypedLogin, Secure), Input(TypedLogin, Secure)], 2)
  {
    var f := Step(TypedLogin, WrongPassword, false);
    assert [f, f][1..] == [f] && [f][1..] == [];
    assert ActionPhase(3, [f]) == PhaseRun(InputExhausted, 4, [Input(TypedLogin, Secure)], 1);
  }

  /** "disconnect" is matched case-sensitively: "DISCONNECT" is sent like any other line. */
  lemma DisconnectIsCaseSensitive(reply: Output)
    requires !IsStatusSuccessful(reply.status)
    ensures Session(0, [Step("DISCONNECT", reply, false), Step("disconnect", reply, false)]).sent
         == [Input("DISCONNECT", Unsecure)]
    ensures Session(0, [Step("DISCONNECT", reply, false), Step("disconnect", reply, false)]).end == Disconnected
  {
    var script := [Step("DISCONNECT", reply, false), Step("disconnect", reply, false)];
    assert script[1..] == [Step("disconnect", reply, false)];
    var counted := CountAfterResponse(0, reply, false);
    assert AuthenticationPhase(counted, script[1..]) == PhaseRun(Disconnected, counted, [], 1);
    assert AuthenticationPhase(0, script) == PhaseRun(Disconnected, counted, [Input("DISCONNECT", Unsecure)], 2);
  }

  /** A login, a logout and a disconnect: one request per tier, then the client stops. */
  lemma LoginLogoutDisconnect()
    ensures var ok := Output("ok", Successful, LoginByUsername, false);
      var bye := Output("bye", Successful, Logout, false);
      Session(0, [Step("login --username alice --password p1", ok, false),
                  Step("logout --session-id s1", bye, false),
                  Step("disconnect", bye, false)])
      == SessionRun(Disconnected, 0, [Input("login --username alice --password p1", Unsecure),
                                      Input("logout --session-id s1", Secure)])
  {
  }
}
