/**
 * The console client as the object it is: a failed-login counter the
 * session flow updates in place, and the three loops of `Client`
 * (`authenticateClient`, `performClientActions`, `startClient`). The
 * console and the socket are a script of steps (see `ClientFlow.Step`);
 * every request written to the socket is recorded in `requests`.
 */
module Client {
  import opened Command
  import opened Communication
  import opened ClientFlow

  class Client {
    const host: string
    const serverPort: int
    /** `failedLoginAttempts`. */
    var failedLoginAttempts: nat
    /** The requests written to the socket so far, in order. */
    var requests: seq<Input>

    constructor (host: string, serverPort: int)
      ensures this.host == host && this.serverPort == serverPort
      ensures failedLoginAttempts == 0 && requests == []
    {
      this.host := host;
      this.serverPort := serverPort;
      failedLoginAttempts := 0;
      requests := [];
    }

    /**
     * `countFailedLoginAttempts`: a login answer resets the counter when
     * successful and adds one when not; any other answer leaves it alone.
     */
    method CountFailedLoginAttempts(commandBehaviour: CommandBehavior, status: CommandStatus)
      modifies this`failedLoginAttempts
      ensures IsLogin(commandBehaviour) && IsStatusSuccessful(status) ==> failedLoginAttempts == 0
      ensures IsLogin(commandBehaviour) && !IsStatusSuccessful(status) ==> failedLoginAttempts == old(failedLoginAttempts) + 1
      ensures !IsLogin(commandBehaviour) ==> failedLoginAttempts == old(failedLoginAttempts)
    {
      if commandBehaviour == LoginBySessionId || commandBehaviour == LoginByUsername {
        if IsStatusSuccessful(status) {
          failedLoginAttempts := 0;
        } else {
          failedLoginAttempts := failedLoginAttempts + 1;
        }
      }
    }

    /** `sleepClient`: after the sleep the counter is 0; an interrupted sleep leaves it. */
    method SleepClient(interrupted: bool)
      modifies this`failedLoginAttempts
      ensures failedLoginAttempts == if interrupted then old(failedLoginAttempts) else 0
    {
      if !interrupted {
        failedLoginAttempts := 0;
      }
    }

    /**
     * The answer handling of `authenticateClient`: count the answer, then,
     * at the limit, sleep the lockout off.
     */
    method CountAndLockOut(output: Output, interrupted: bool)
      modifies this`failedLoginAttempts
      ensures failedLoginAttempts == CountAfterResponse(old(failedLoginAttempts), output, interrupted)
    {
      CountFailedLoginAttempts(output.commandBehaviour, output.status);
      if failedLoginAttempts >= MaxFailedLoginAttempts {
        SleepClient(interrupted);
      }
    }

    /** `sendObject`: the request goes out on the socket. */
    method SendObject(input: Input)
      modifies this`requests
      ensures requests == old(requests) + [input]
    {
      requests := requests + [input];
    }

    /**
     * `authenticateClient`: returns the last line read, the number of
     * steps read and why the phase ended.
     */
    method AuthenticateClient(script: seq<Step>) returns (message: string, used: nat, end: PhaseEnd)
      modifies this
      ensures var r := AuthenticationPhase(old(failedLoginAttempts), script);
        end == r.end && used == r.used && failedLoginAttempts == r.count && requests == old(requests) + r.sent
      ensures message == if used == 0 then "" else script[used - 1].line
    {
      ghost var whole := AuthenticationPhase(failedLoginAttempts, script);
      ghost var sent: seq<Input> := [];
      ghost var rest := script;
      message := "";
      used := 0;
      var authenticated := false;
      while !authenticated && !ShouldDisconnect(message)
        invariant used <= |script| && rest == script[used..]
        invariant requests == old(requests) + sent
        invariant message == if used == 0 then "" else script[used - 1].line
        invariant !authenticated ==> !ShouldDisconnect(message)
        invariant !authenticated ==> whole == Preceded(sent, used, AuthenticationPhase(failedLoginAttempts, rest))
        invariant authenticated ==> whole == PhaseRun(Authenticated, failedLoginAttempts, sent, used)
        decreases |script| - used
      {
        if used == |script| {
          end := InputExhausted;
          return;
        }
        var step := script[used];
        message := step.line;
        if ShouldDisconnect(message) {
          assert rest[0] == script[used];
          assert AuthenticationPhase(failedLoginAttempts, rest) == PhaseRun(Disconnected, failedLoginAttempts, [], 1);
          used := used + 1;
          break;
        }
        ghost var count := failedLoginAttempts;
        AuthenticationAdvance(whole, sent, used, count, script);
        used := used + 1;
        rest := rest[1..];
        var input := Input(message, Unsecure);
        SendObject(input);
        AppendAssociative(old(requests), sent, [input]);
        sent := sent + [input];
        var output := step.reply;
        CountAndLockOut(output, step.interrupted);
        if IsStatusSuccessful(output.status) {
          authenticated := true;
        }
      }
      end := if authenticated then Authenticated else Disconnected;
    }

    /**
     * `performClientActions`: returns the last line read, the number of
     * steps read and why the phase ended.
     */
    method PerformClientActions(script: seq<Step>) returns (message: string, used: nat, end: PhaseEnd)
      modifies this
      ensures var r := ActionPhase(old(failedLoginAttempts), script);
        end == r.end && used == r.used && failedLoginAttempts == r.count && requests == old(requests) + r.sent
      ensures message == if used == 0 then "" else script[used - 1].line
    {
      ghost var whole := ActionPhase(failedLoginAttempts, script);
      ghost var sent: seq<Input> := [];
      ghost var rest := script;
      message := "";
      used := 0;
      while !ShouldDisconnect(message)
        invariant used <= |script| && rest == script[used..]
        invariant requests == old(requests) + sent
        invariant message == if used == 0 then "" else script[used - 1].line
        invariant !ShouldDisconnect(message)
        invariant whole == Preceded(sent, used, ActionPhase(failedLoginAttempts, rest))
        decreases |script| - used
      {
        if used == |script| {
          end := InputExhausted;
          return;
        }
        var step := script[used];
        message := step.line;
        if ShouldDisconnect(message) {
          assert rest[0] == script[used];
          assert ActionPhase(failedLoginAttempts, rest) == PhaseRun(Disconnected, failedLoginAttempts, [], 1);
          used := used + 1;
          break;
        }
        ghost var count := failedLoginAttempts;
        ActionAdvance(whole, sent, used, count, script);
        used := used + 1;
        rest := rest[1..];
        var input := Input(message, Secure);
        SendObject(input);
        AppendAssociative(old(requests), sent, [input]);
        sent := sent + [input];
        var output := step.reply;
        CountFailedLoginAttempts(output.commandBehaviour, output.status);
        assert failedLoginAttempts == CountedAttempts(count, output.commandBehaviour, output.status);
        if IsStatusSuccessful(output.status) && IsCommandBehaviorLogout(output.commandBehaviour) {
          end := LoggedOut;
          return;
        }
        if output.loggedOut {
          end := LoggedOut;
          return;
        }
      }
      end := Disconnected;
    }

    /**
     * `startClient`: authentication and action phases alternate until a
     * "disconnect" line (or the end of the console input).
     */
    method StartClient(script: seq<Step>) returns (end: PhaseEnd)
      modifies this
      ensures var r := Session(old(failedLoginAttempts), script);
        end == r.end && failedLoginAttempts == r.count && requests == old(requests) + r.sent
    {
      ghost var whole := Session(failedLoginAttempts, script);
      ghost var sent: seq<Input> := [];
      var message := "";
      var rest := script;
      while !ShouldDisconnect(message)
        invariant requests == old(requests) + sent
        invariant !ShouldDisconnect(message) ==> whole == Joined(sent, Session(failedLoginAttempts, rest))
        invariant ShouldDisconnect(message) ==> whole == SessionRun(Disconnected, failedLoginAttempts, sent)
        decreases |rest|
      {
        ghost var count := failedLoginAttempts;
        ghost var auth := AuthenticationPhase(count, rest);
        PhasesEndOnDisconnectLine(count, rest);
        var used;
        message, used, end := AuthenticateClient(rest);
        if end != Authenticated {
          SessionEndsInAuthentication(sent, count, rest);
          AppendAssociative(old(requests), sent, auth.sent);
          sent := sent + auth.sent;
          if end == InputExhausted {
            return;
          }
          break;
        }
        AppendAssociative(old(requests), sent, auth.sent);
        ghost var middle := sent + auth.sent;
        var next := rest[used..];
        ghost var actions := ActionPhase(auth.count, next);
        PhasesEndOnDisconnectLine(auth.count, next);
        message, used, end := PerformClientActions(next);
        if end != LoggedOut {
          SessionEndsInActions(sent, count, rest);
          AppendAssociative(old(requests), middle, actions.sent);
          sent := middle + actions.sent;
          if end == InputExhausted {
            return;
          }
          break;
        }
        SessionLogsOut(sent, count, rest);
        AppendAssociative(old(requests), middle, actions.sent);
        sent := middle + actions.sent;
        rest := next[used..];
      }
      end := Disconnected;
    }
  }
}
