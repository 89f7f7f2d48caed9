/** Cluster.up: the attempt loop that brings the docker-compose cluster up. */
module StartUp {
  import opened Text

  datatype CommandResult = CommandResult(exitcode: int, output: string)

  /** What the commands of one attempt would answer; `ups` answers the repeated up command. */
  datatype Attempt = Attempt(pull: CommandResult, down: CommandResult, ups: nat -> CommandResult, ps: CommandResult)

  /** `Unbound`: a variable is read before anything was assigned to it. */
  datatype Outcome = NodesChecked | CouldNotBringUp | Unbound

  predicate Unhealthy(r: CommandResult) {
    Contains(r.output, "is unhealthy")
  }

  predicate Exited(r: CommandResult) {
    Contains(r.output, "Exit")
  }

  /** What `cmd` holds after at most `count` up commands from number `i` on, the first that reports
      nothing unhealthy being the last; without any it keeps the result it had. */
  function UpResult(ups: nat -> CommandResult, i: nat, count: nat, before: CommandResult): CommandResult
    decreases count
  {
    if count == 0 then before
    else if !Unhealthy(ups(i)) then ups(i)
    else UpResult(ups, i + 1, count - 1, ups(i))
  }

  /** The result kept is that of the first up command that reports nothing unhealthy, else the last one's. */
  lemma {:induction false} UpResultIsFirstHealthy(ups: nat -> CommandResult, i: nat, count: nat,
                                                  before: CommandResult, j: nat)
    requires j < count && forall k | i <= k < i + j :: Unhealthy(ups(k))
    ensures !Unhealthy(ups(i + j)) || j == count - 1 ==> UpResult(ups, i, count, before) == ups(i + j)
    decreases j
  {
    hide Unhealthy;
    if j > 0 {
      assert Unhealthy(ups(i));
      UpResultIsFirstHealthy(ups, i + 1, count - 1, ups(i), j - 1);
    }
  }

  /** An attempt in which everything went well. */
  predicate Succeeds(a: Attempt, maxUpAttempts: nat) {
    var up := UpResult(a.ups, 0, maxUpAttempts, a.down);
    a.pull.exitcode == 0 && a.down.exitcode == 0 && up.exitcode == 0 && !Unhealthy(up) && !Exited(a.ps)
  }

  /** The attempt succeeds exactly when pulling, cleaning up and, of the allowed up commands, the first one
      that reports nothing unhealthy exit with zero, and no container exited. Without any up command the
      result of cleaning up is judged in its place. */
  lemma SucceedsExactly(a: Attempt, maxUpAttempts: nat)
    ensures Succeeds(a, maxUpAttempts) <==>
              && a.pull.exitcode == 0
              && a.down.exitcode == 0
              && !Contains(a.ps.output, "Exit")
              && if maxUpAttempts == 0 then !Contains(a.down.output, "is unhealthy")
                 else exists j: nat :: j < maxUpAttempts && FirstHealthy(a.ups, j) && a.ups(j).exitcode == 0
  {
    hide Contains;
    if maxUpAttempts > 0 {
      KeptResult(a, maxUpAttempts);
    }
  }

  ghost predicate FirstHealthy(ups: nat -> CommandResult, j: nat) {
    !Contains(ups(j).output, "is unhealthy") && forall i: nat | i < j :: Contains(ups(i).output, "is unhealthy")
  }

  lemma KeptResult(a: Attempt, maxUpAttempts: pos)
    ensures var up := UpResult(a.ups, 0, maxUpAttempts, a.down);
            up.exitcode == 0 && !Unhealthy(up) <==>
              exists j: nat :: j < maxUpAttempts && FirstHealthy(a.ups, j) && a.ups(j).exitcode == 0
  {
    hide Contains;
    var n := FirstHealthyBefore(a.ups, maxUpAttempts);
    if n < maxUpAttempts {
      UpResultIsFirstHealthy(a.ups, 0, maxUpAttempts, a.down, n);
      assert FirstHealthy(a.ups, n);
    } else {
      UpResultIsFirstHealthy(a.ups, 0, maxUpAttempts, a.down, maxUpAttempts - 1);
    }
  }

  /** How many of the first `count` up commands come before one that reports nothing unhealthy. */
  function FirstHealthyBefore(ups: nat -> CommandResult, count: nat): (n: nat)
    ensures n <= count && forall i: nat | i < n :: Unhealthy(ups(i))
    ensures n < count ==> !Unhealthy(ups(n))
  {
    if count == 0 then 0
    else
      var n := FirstHealthyBefore(ups, count - 1);
      if n == count - 1 && Unhealthy(ups(n)) then count else n
  }

  /** The inner loop. */
  method ComposeUp(ups: nat -> CommandResult, maxUpAttempts: nat, before: CommandResult) returns (cmd: CommandResult)
    ensures cmd == UpResult(ups, 0, maxUpAttempts, before)
  {
    hide Unhealthy;
    cmd := before;
    for i := 0 to maxUpAttempts
      invariant UpResult(ups, i, maxUpAttempts - i, cmd) == UpResult(ups, 0, maxUpAttempts, before)
    {
      cmd := ups(i);
      if !Unhealthy(cmd) {
        break;
      }
    }
  }

  /** One pass through the attempt loop: what it leaves in `cmd` and `ps_cmd`, and whether it breaks. */
  method TryOnce(a: Attempt, maxUpAttempts: nat, ps: Option<CommandResult>)
    returns (cmd: CommandResult, psCmd: Option<CommandResult>, done: bool)
    ensures done <==> Succeeds(a, maxUpAttempts)
    ensures done ==> psCmd.Some? && cmd.exitcode == 0 && !Unhealthy(cmd) && !Exited(psCmd.value)
    ensures !done ==> cmd.exitcode != 0 || Unhealthy(cmd) || (psCmd.Some? && Exited(psCmd.value))
  {
    hide Unhealthy, Exited;
    psCmd := ps;
    cmd := a.pull;
    if cmd.exitcode != 0 {
      return cmd, psCmd, false;
    }
    cmd := a.down;
    if cmd.exitcode != 0 {
      return cmd, psCmd, false;
    }
    cmd := ComposeUp(a.ups, maxUpAttempts, cmd);
    psCmd := Some(a.ps);
    if Unhealthy(cmd) || Exited(psCmd.value) {
      return cmd, psCmd, false;
    }
    done := cmd.exitcode == 0;
  }

  /** The attempt loop and the test after it. The node-health phase is reached exactly when some attempt
      succeeds; every way the last attempt can go wrong makes the test fail; the second variable is never
      read unassigned; and the attempts stop at the first success. Only without any attempt is `cmd`
      itself unassigned. */
  method Up(maxAttempts: nat, maxUpAttempts: nat, script: nat -> Attempt) returns (outcome: Outcome, attempts: nat)
    ensures outcome.NodesChecked? <==> exists i | 0 <= i < maxAttempts :: Succeeds(script(i), maxUpAttempts)
    ensures outcome.Unbound? <==> maxAttempts == 0
    ensures attempts <= maxAttempts
    ensures forall i | 0 <= i < attempts && Succeeds(script(i), maxUpAttempts) :: i == attempts - 1
    ensures outcome.NodesChecked? ==> attempts > 0 && Succeeds(script(attempts - 1), maxUpAttempts)
    ensures !outcome.NodesChecked? ==> attempts == maxAttempts
  {
    hide Unhealthy, Exited, Succeeds;
    var cmd: Option<CommandResult> := None;
    var psCmd: Option<CommandResult> := None;
    attempts := 0;
    var done := false;
    while attempts < maxAttempts && !done
      invariant attempts <= maxAttempts
      invariant forall i | 0 <= i < attempts && Succeeds(script(i), maxUpAttempts) :: done && i == attempts - 1
      invariant cmd.Some? <==> attempts > 0
      invariant done ==> attempts > 0 && Succeeds(script(attempts - 1), maxUpAttempts)
                         && psCmd.Some? && cmd.value.exitcode == 0 && !Unhealthy(cmd.value) && !Exited(psCmd.value)
      invariant !done && attempts > 0 ==>
                  cmd.value.exitcode != 0 || Unhealthy(cmd.value) || (psCmd.Some? && Exited(psCmd.value))
    {
      var result;
      result, psCmd, done := TryOnce(script(attempts), maxUpAttempts, psCmd);
      cmd := Some(result);
      attempts := attempts + 1;
    }
    assert done ==> exists i | 0 <= i < maxAttempts :: Succeeds(script(i), maxUpAttempts);
    if cmd.None? {
      return Unbound, attempts;
    }
    if cmd.value.exitcode != 0 || Unhealthy(cmd.value) {
      return CouldNotBringUp, attempts;
    }
    if psCmd.None? {
      return Unbound, attempts;
    }
    outcome := if Exited(psCmd.value) then CouldNotBringUp else NodesChecked;
  }
}
