/** ClickHouseNode.query: executing a statement, retrying it on transient errors and checking the last
    response. */
module QueryRetry {
  import opened Text

  type Setting = (string, string)

  datatype Response = Response(exitcode: int, output: string)

  /** What an execution ends with: a response, an expect timeout, or nothing because the step was skipped. */
  datatype Reply = Answer(response: Response) | TimedOut | Skipped

  /** The arguments of a call. */
  datatype Params = Params(
    sql: string,
    message: Option<string>,
    exitcode: Option<int>,
    noChecks: bool,
    raiseOnException: bool,
    ignoreException: bool,
    settings: seq<Setting>,
    retryCount: int,
    messagesToRetry: Option<seq<string>>,
    retryDelay: real,
    secure: bool,
    maxOutput: string,
    queryId: Option<string>,
    useFile: bool,
    hashOutput: bool,
    fileOutput: Option<string>,
    pipeCmd: string)

  const MESSAGES_TO_RETRY: seq<string> := [
    "DB::Exception: ZooKeeper session has been expired",
    "DB::Exception: Connection loss",
    "Coordination::Exception: Session expired",
    "Coordination::Exception: Connection loss",
    "Coordination::Exception: Operation timeout",
    "DB::Exception: Operation timeout",
    "Operation timed out",
    "ConnectionPoolWithFailover: Connection failed at try",
    "DB::Exception: New table appeared in database being dropped or detached. Try again",
    "is already started to be removing by another replica right now",
    "Shutdown is called for table",
    "is executing longer than distributed_ddl_task_timeout"
  ]

  // ----- one execution

  /** Where the output of the client goes. */
  datatype Output = Shown | Truncated(bytes: string) | Hashed | ToFile(path: string)

  /** What decides the command of one execution. Long statements go through a file and the host shell; the
      others are written by the pipe command. */
  datatype Execution = Execution(sql: string, pipe: Option<string>, settings: seq<Setting>, secure: bool, output: Output)

  function QueryIdSetting(queryId: Option<string>): seq<Setting> {
    match queryId
    case None => []
    case Some(id) => [("query_id", id)]
  }

  predicate ViaFile(p: Params) {
    |p.sql| > 1024 || p.useFile
  }

  /** Truncating comes before hashing, and hashing before a file, which only file statements can write. */
  function OutputOf(p: Params): Output {
    if p.maxOutput != "-0" then Truncated(p.maxOutput)
    else if p.hashOutput then Hashed
    else if ViaFile(p) && p.fileOutput.Some? && p.fileOutput.value != "" then ToFile(p.fileOutput.value)
    else Shown
  }

  /** `defaults` are the default query settings of the test context. */
  function ExecutionOf(p: Params, defaults: seq<Setting>): Execution {
    Execution(p.sql, if ViaFile(p) then None else Some(p.pipeCmd), p.settings + defaults + QueryIdSetting(p.queryId),
              p.secure, OutputOf(p))
  }

  function Messages(p: Params): seq<string> {
    if p.messagesToRetry.None? then MESSAGES_TO_RETRY else p.messagesToRetry.value
  }

  predicate Retriable(messages: seq<string>, reply: Reply) {
    reply.Answer? && exists m | m in messages :: Contains(reply.response.output, m)
  }

  function Retries(p: Params): nat {
    if p.retryCount < 0 then 0 else p.retryCount
  }

  function Delay(p: Params): real {
    if p.retryDelay < 0.0 then 0.0 else p.retryDelay
  }

  /** The arguments of the recursive call: what it does not pass on falls back to the defaults. */
  function Again(p: Params): Params {
    Params(p.sql, p.message, p.exitcode, p.noChecks, p.raiseOnException, false, p.settings, Retries(p) - 1,
           Some(Messages(p)), 5.0, false, "-0", None, false, false, None, "echo -e")
  }

  // ----- the verdict

  datatype Outcome =
    | Returned(response: Response)
    | WrongExitcode(response: Response)
    | MessageMissing(response: Response)
    | QueryRuntimeException(response: Response)
    | UnexpectedException(response: Response)
    | ExpectTimeout
    | NotExecuted

  /** The checks at the end of a call, in order. */
  function Verdict(p: Params, r: Response): Outcome {
    if p.noChecks then Returned(r)
    else if p.exitcode.Some? && r.exitcode != p.exitcode.value then WrongExitcode(r)
    else if p.message.Some? && !Contains(r.output, p.message.value) then MessageMissing(r)
    else if !p.ignoreException && (p.message.None? || !Contains(p.message.value, "Exception:"))
            && Contains(r.output, "Exception:") then
      if p.raiseOnException then QueryRuntimeException(r) else UnexpectedException(r)
    else Returned(r)
  }

  function Conclude(p: Params, reply: Reply): Outcome {
    match reply
    case Answer(r) => Verdict(p, r)
    case TimedOut => ExpectTimeout
    case Skipped => NotExecuted
  }

  lemma AgainRetries(p: Params)
    ensures Retries(p) > 0 ==> Retries(Again(p)) == Retries(p) - 1
  {
  }

  // ----- the call

  datatype Trace = Trace(executions: seq<Execution>, sleeps: seq<real>, outcome: Outcome)

  /** A call whose executions are answered by `script` from number `n` on. */
  function QueryTrace(p: Params, defaults: seq<Setting>, script: nat -> Reply, n: nat): (t: Trace)
    ensures |t.executions| == |t.sleeps| + 1
    decreases Retries(p)
  {
    var e := ExecutionOf(p, defaults);
    if Retries(p) > 0 && Retriable(Messages(p), script(n)) then
      var rest := QueryTrace(Again(p), defaults, script, n + 1);
      Trace([e] + rest.executions, [Delay(p)] + rest.sleeps, rest.outcome)
    else
      Trace([e], [], Conclude(p, script(n)))
  }

  lemma TraceStep(p: Params, defaults: seq<Setting>, script: nat -> Reply, n: nat)
    ensures var t := QueryTrace(p, defaults, script, n);
            if Retries(p) > 0 && Retriable(Messages(p), script(n)) then
              var rest := QueryTrace(Again(p), defaults, script, n + 1);
              t == Trace([ExecutionOf(p, defaults)] + rest.executions, [Delay(p)] + rest.sleeps, rest.outcome)
            else
              t == Trace([ExecutionOf(p, defaults)], [], Conclude(p, script(n)))
  {
    hide ExecutionOf, Retriable, Conclude;
  }

  lemma OnlyAnswers(messages: seq<string>, reply: Reply)
    ensures Retriable(messages, reply) ==> reply.Answer?
  {
  }

  /** The node object records what it executed and how long it slept. */
  class ClickHouseNode {
    var executed: seq<Execution>
    var slept: seq<real>

    constructor ()
      ensures executed == [] && slept == []
    {
      executed := [];
      slept := [];
    }

    /** The command of one execution. */
    method Prepare(p: Params, defaults: seq<Setting>) returns (e: Execution)
      ensures e == ExecutionOf(p, defaults)
    {
      var querySettings := p.settings;
      querySettings := querySettings + defaults;
      if p.queryId.Some? {
        querySettings := querySettings + [("query_id", p.queryId.value)];
      }
      assert querySettings == p.settings + defaults + QueryIdSetting(p.queryId);
      var output := Shown;
      var pipe := None;
      if |p.sql| > 1024 || p.useFile {
        if p.maxOutput != "-0" {
          output := Truncated(p.maxOutput);
        } else if p.hashOutput {
          output := Hashed;
        } else if p.fileOutput.Some? && p.fileOutput.value != "" {
          output := ToFile(p.fileOutput.value);
        }
      } else {
        pipe := Some(p.pipeCmd);
        if p.maxOutput != "-0" {
          output := Truncated(p.maxOutput);
        } else if p.hashOutput {
          output := Hashed;
        }
      }
      e := Execution(p.sql, pipe, querySettings, p.secure, output);
    }

    method Query(p: Params, defaults: seq<Setting>, script: nat -> Reply, n: nat) returns (outcome: Outcome)
      modifies this
      ensures var t := QueryTrace(p, defaults, script, n);
              executed == old(executed) + t.executions && slept == old(slept) + t.sleeps && outcome == t.outcome
      decreases Retries(p)
    {
      hide Contains, QueryTrace, Verdict, Messages, Again, Delay, Retriable, ExecutionOf;
      OnlyAnswers(Messages(p), script(n));
      TraceStep(p, defaults, script, n);
      AgainRetries(p);
      var e := Prepare(p, defaults);
      executed := executed + [e];
      var reply := script(n);
      if reply.TimedOut? {
        return ExpectTimeout;
      }
      if reply.Skipped? {
        return NotExecuted;
      }
      if Retries(p) > 0 && Retriable(Messages(p), reply) {
        slept := slept + [Delay(p)];
        outcome := this.Query(Again(p), defaults, script, n + 1);
        return;
      }
      outcome := Verdict(p, reply.response);
    }
  }

  // ----- how often, with what, and what comes back

  /** How many of the first `bound` replies are retriable before one is not. */
  function LeadingRetriable(messages: seq<string>, script: nat -> Reply, n: nat, bound: nat): (k: nat)
    ensures k <= bound
    ensures forall i | n <= i < n + k :: Retriable(messages, script(i))
    ensures k < bound ==> !Retriable(messages, script(n + k))
    decreases bound
  {
    if bound == 0 || !Retriable(messages, script(n)) then 0
    else 1 + LeadingRetriable(messages, script, n + 1, bound - 1)
  }

  /** The arguments the last execution runs with. */
  function LastParams(p: Params, retried: nat): Params {
    if retried == 0 then p else Again(p).(retryCount := Retries(p) - retried)
  }

  lemma AgainTwice(p: Params, retried: nat)
    requires retried <= Retries(p) - 1
    ensures Messages(Again(p)) == Messages(p)
    ensures Again(p).settings == p.settings && Retries(Again(p)) == Retries(p) - 1 && Delay(Again(p)) == 5.0
    ensures LastParams(Again(p), retried) == LastParams(p, retried + 1)
  {
  }

  /** The first execution is the caller's, the `retried` others fall back to the defaults. */
  function Executions(p: Params, defaults: seq<Setting>, retried: nat): seq<Execution> {
    [ExecutionOf(p, defaults)] + Repeat(ExecutionOf(Again(p), defaults), retried)
  }

  /** Only the first delay is the caller's. */
  function Sleeps(p: Params, retried: nat): seq<real> {
    if retried == 0 then [] else [Delay(p)] + Repeat(5.0, retried - 1)
  }

  /** For every script of replies: the statement is executed once, plus once per reply of the initial
      retriable run, up to the retry count. Every execution uses the caller's settings followed by the
      defaults; only the first adds the query id and uses the caller's other options. Only the last
      reply is concluded from. */
  lemma {:induction false} QueryExecutions(p: Params, defaults: seq<Setting>, script: nat -> Reply, n: nat)
    ensures var k := LeadingRetriable(Messages(p), script, n, Retries(p));
            QueryTrace(p, defaults, script, n)
            == Trace(Executions(p, defaults, k), Sleeps(p, k), Conclude(LastParams(p, k), script(n + k)))
    decreases Retries(p)
  {
    hide *;
    TraceStep(p, defaults, script, n);
    LeadingStep(Messages(p), script, n, Retries(p));
    LastParamsNone(p);
    AgainOfAgain(p, defaults);
    if Retries(p) > 0 && Retriable(Messages(p), script(n)) {
      var k := LeadingRetriable(Messages(p), script, n, Retries(p));
      AgainTwice(p, k - 1);
      QueryExecutions(Again(p), defaults, script, n + 1);
      OneMoreRetry(p, defaults, k);
    } else {
      NoRetry(p, defaults);
    }
  }

  lemma LeadingStep(messages: seq<string>, script: nat -> Reply, n: nat, bound: nat)
    ensures LeadingRetriable(messages, script, n, bound) ==
              if bound > 0 && Retriable(messages, script(n)) then 1 + LeadingRetriable(messages, script, n + 1, bound - 1)
              else 0
  {
    hide Retriable;
  }

  lemma NoRetry(p: Params, defaults: seq<Setting>)
    ensures Executions(p, defaults, 0) == [ExecutionOf(p, defaults)] && Sleeps(p, 0) == []
  {
    hide ExecutionOf;
  }

  lemma LastParamsNone(p: Params)
    ensures LastParams(p, 0) == p
  {
  }

  lemma OneMoreRetry(p: Params, defaults: seq<Setting>, k: nat)
    requires k > 0 && ExecutionOf(Again(Again(p)), defaults) == ExecutionOf(Again(p), defaults) && Delay(Again(p)) == 5.0
    ensures [ExecutionOf(p, defaults)] + Executions(Again(p), defaults, k - 1) == Executions(p, defaults, k)
    ensures [Delay(p)] + Sleeps(Again(p), k - 1) == Sleeps(p, k)
  {
    hide ExecutionOf, Delay, Again;
  }

  lemma AgainOfAgain(p: Params, defaults: seq<Setting>)
    ensures ExecutionOf(Again(Again(p)), defaults) == ExecutionOf(Again(p), defaults)
  {
  }

  /** The settings of each execution, spelled out. */
  lemma SettingsDoNotAccumulate(p: Params, defaults: seq<Setting>, script: nat -> Reply, i: nat)
    requires i < |QueryTrace(p, defaults, script, 0).executions|
    ensures QueryTrace(p, defaults, script, 0).executions[i].settings
         == p.settings + defaults + if i == 0 then QueryIdSetting(p.queryId) else []
  {
    hide QueryTrace, LeadingRetriable;
    QueryExecutions(p, defaults, script, 0);
    assert ExecutionOf(Again(p), defaults).settings == p.settings + defaults + [];
  }

  /** The options that a retry does not pass on have their default values, as far as they matter: a short
      statement ignores the output file, and one sent through a file the pipe command. */
  predicate DefaultOptions(p: Params) {
    && p.queryId.None? && !p.secure && p.maxOutput == "-0" && !p.hashOutput
    && if |p.sql| > 1024 then p.fileOutput.None? || p.fileOutput.value == ""
       else !p.useFile && p.pipeCmd == "echo -e"
  }

  /** All executions run with the caller's options exactly when there is no retry or the options that a
      retry forgets have their default values. */
  lemma OptionsHonoured(p: Params, defaults: seq<Setting>, script: nat -> Reply)
    ensures var k := LeadingRetriable(Messages(p), script, 0, Retries(p));
            var executions := QueryTrace(p, defaults, script, 0).executions;
            (forall e | e in executions :: e == ExecutionOf(p, defaults)) <==> k == 0 || DefaultOptions(p)
  {
    hide QueryTrace, LeadingRetriable, Messages, ExecutionOf, DefaultOptions;
    QueryExecutions(p, defaults, script, 0);
    AgainIsSame(p, defaults);
    var executions := QueryTrace(p, defaults, script, 0).executions;
    if LeadingRetriable(Messages(p), script, 0, Retries(p)) > 0 {
      assert executions[1] == ExecutionOf(Again(p), defaults);
      assert executions[1] in executions;
    }
  }

  lemma AgainIsSame(p: Params, defaults: seq<Setting>)
    ensures ExecutionOf(Again(p), defaults) == ExecutionOf(p, defaults) <==> DefaultOptions(p)
  {
    var own, again := ExecutionOf(p, defaults).settings, ExecutionOf(Again(p), defaults).settings;
    assert |own| == |p.settings| + |defaults| + |QueryIdSetting(p.queryId)|;
    assert |again| == |p.settings| + |defaults|;
  }

  /** Every wait lasts as long as the caller asked exactly when there is at most one wait or the caller
      asked for the default of five seconds. */
  lemma DelaysHonoured(p: Params, defaults: seq<Setting>, script: nat -> Reply)
    ensures var k := LeadingRetriable(Messages(p), script, 0, Retries(p));
            var sleeps := QueryTrace(p, defaults, script, 0).sleeps;
            (forall d | d in sleeps :: d == Delay(p)) <==> k <= 1 || Delay(p) == 5.0
  {
    hide QueryTrace, LeadingRetriable, Messages, Delay;
    QueryExecutions(p, defaults, script, 0);
    var sleeps := QueryTrace(p, defaults, script, 0).sleeps;
    if LeadingRetriable(Messages(p), script, 0, Retries(p)) > 1 {
      assert sleeps[1] == 5.0 && sleeps[1] in sleeps;
    }
  }

  /** Where the output of the first execution goes, and how the statement reaches the client. */
  lemma ExecutionExactly(p: Params, defaults: seq<Setting>)
    ensures var e := ExecutionOf(p, defaults);
            && e.sql == p.sql && e.secure == p.secure
            && (e.pipe.None? <==> |p.sql| > 1024 || p.useFile)
            && (e.pipe.Some? ==> e.pipe.value == p.pipeCmd)
            && (e.output.Truncated? <==> p.maxOutput != "-0")
            && (e.output.Truncated? ==> e.output.bytes == p.maxOutput)
            && (e.output.Hashed? <==> p.maxOutput == "-0" && p.hashOutput)
            && (e.output.ToFile? <==>
                  p.maxOutput == "-0" && !p.hashOutput && e.pipe.None? && p.fileOutput.Some? && p.fileOutput.value != "")
            && (e.output.ToFile? ==> p.fileOutput == Some(e.output.path))
  {
  }

  // ----- when there is a retry, and what a call's outcome means

  /** A reply is retriable exactly when one of the messages stands somewhere in its output. */
  lemma RetriableExactly(messages: seq<string>, r: Response)
    ensures Retriable(messages, Answer(r)) <==>
              exists m, before, after :: m in messages && r.output == before + m + after
  {
    hide Contains;
    forall m | m in messages
      ensures Contains(r.output, m) <==> exists before, after :: r.output == before + m + after
    {
      ContainsExactly(r.output, m);
    }
  }

  /** A negative retry count or delay counts as none, and a call waits once between two executions. */
  lemma CountsAndDelays(p: Params, defaults: seq<Setting>, script: nat -> Reply)
    ensures var t := QueryTrace(p, defaults, script, 0);
            && |t.executions| == |t.sleeps| + 1
            && |t.sleeps| <= (if p.retryCount < 0 then 0 else p.retryCount)
            && (t.sleeps != [] ==> t.sleeps[0] == if p.retryDelay < 0.0 then 0.0 else p.retryDelay)
            && forall d | d in t.sleeps :: d >= 0.0
  {
    hide QueryTrace, LeadingRetriable, Messages;
    QueryExecutions(p, defaults, script, 0);
  }

  /** The first of the checks at the end of a call that fails, if they are made at all. */
  datatype Failure = NoFailure | BadExitcode | NoMessage | HasException

  function FirstFailure(p: Params, ignored: bool, r: Response): Failure {
    if p.noChecks then NoFailure
    else if p.exitcode.Some? && p.exitcode != Some(r.exitcode) then BadExitcode
    else if p.message.Some? && !Contains(r.output, p.message.value) then NoMessage
    else if Contains(r.output, "Exception:") && !ignored && (p.message.Some? ==> !Contains(p.message.value, "Exception:"))
    then HasException
    else NoFailure
  }

  /** How a call ends, over every script: each outcome comes exactly from its own cause in the last reply.
      The request to ignore exceptions counts only without a retry. */
  lemma OutcomeExactly(p: Params, defaults: seq<Setting>, script: nat -> Reply)
    ensures var k := LeadingRetriable(Messages(p), script, 0, Retries(p));
            var outcome := QueryTrace(p, defaults, script, 0).outcome;
            match script(k)
            case TimedOut => outcome.ExpectTimeout?
            case Skipped => outcome.NotExecuted?
            case Answer(r) =>
              match FirstFailure(p, p.ignoreException && k == 0, r)
              case NoFailure => outcome == Returned(r)
              case BadExitcode => outcome == WrongExitcode(r)
              case NoMessage => outcome == MessageMissing(r)
              case HasException => outcome == if p.raiseOnException then QueryRuntimeException(r) else UnexpectedException(r)
  {
    hide QueryTrace, LeadingRetriable, Messages, Contains;
    QueryExecutions(p, defaults, script, 0);
  }

  /** What a caller may rely on: a call that returns with checks gives a response with the asked exit code
      and the asked message, and with an exception only if a message with one was asked for or exceptions
      were ignored. */
  lemma ReturnedMeetsRequest(p: Params, defaults: seq<Setting>, script: nat -> Reply)
    requires !p.noChecks && QueryTrace(p, defaults, script, 0).outcome.Returned?
    ensures var r := QueryTrace(p, defaults, script, 0).outcome.response;
            && (p.exitcode.Some? ==> r.exitcode == p.exitcode.value)
            && (p.message.Some? ==> exists before, after :: r.output == before + p.message.value + after)
            && (Contains(r.output, "Exception:") ==>
                  p.ignoreException || (p.message.Some? && Contains(p.message.value, "Exception:")))
  {
    hide QueryTrace, LeadingRetriable, Messages, Contains;
    OutcomeExactly(p, defaults, script);
    var r := QueryTrace(p, defaults, script, 0).outcome.response;
    if p.message.Some? {
      ContainsExactly(r.output, p.message.value);
    }
  }

  /** Ignoring exceptions or not makes no difference to the verdict on this response. */
  predicate ExceptionCheckIrrelevant(p: Params, r: Response) {
    || !p.ignoreException
    || p.noChecks
    || (p.exitcode.Some? && r.exitcode != p.exitcode.value)
    || (p.message.Some? && (!Contains(r.output, p.message.value) || Contains(p.message.value, "Exception:")))
    || !Contains(r.output, "Exception:")
  }

  /** The request to ignore exceptions is lost on a retry. The last answer is judged as the caller asked
      exactly when there was no retry, it was not asked for, or the exception check does not matter. */
  lemma IgnoreExceptionHonoured(p: Params, defaults: seq<Setting>, script: nat -> Reply)
    requires var k := LeadingRetriable(Messages(p), script, 0, Retries(p)); script(k).Answer?
    ensures var k := LeadingRetriable(Messages(p), script, 0, Retries(p));
            var r := script(k).response;
            var asked := QueryTrace(p, defaults, script, 0).outcome == Verdict(p, r);
            asked <==> k == 0 || ExceptionCheckIrrelevant(p, r)
  {
    hide QueryTrace, LeadingRetriable, Contains, Messages;
    QueryExecutions(p, defaults, script, 0);
  }

  // ----- concrete calls whose options are forgotten

  const PLAIN_CALL := Params("SELECT 1", None, None, false, false, false, [], 1, Some(["lost"]), 5.0, false, "-0", None,
                             false, false, None, "echo -e")

  /** `count` retriable replies and then an exception. */
  function LostReplies(count: nat): nat -> Reply {
    (i: nat) => Answer(Response(0, if i < count then "lost" else "Exception:"))
  }

  lemma LostIsRetriable(count: nat, i: nat)
    requires i < count
    ensures Retriable(["lost"], LostReplies(count)(i))
  {
    hide Contains;
    ContainsItself("lost");
    assert "lost" in ["lost"];
  }

  /** One retry forgets the request to ignore exceptions: the call fails on one. */
  lemma IgnoreExceptionForgotten()
    ensures QueryTrace(PLAIN_CALL.(ignoreException := true), [], LostReplies(1), 0).outcome
         == UnexpectedException(Response(0, "Exception:"))
  {
    hide ExecutionOf, Delay, Retriable, Contains;
    var p := PLAIN_CALL.(ignoreException := true);
    LostIsRetriable(1, 0);
    TraceStep(p, [], LostReplies(1), 0);
    TraceStep(Again(p), [], LostReplies(1), 1);
    ContainsItself("Exception:");
  }

  /** One retry forgets the query id and the secure connection. */
  lemma OptionsForgotten()
    ensures var executions := QueryTrace(PLAIN_CALL.(queryId := Some("7"), secure := true), [], LostReplies(1), 0).executions;
            |executions| == 2
            && executions[0].settings == [("query_id", "7")] && executions[0].secure
            && executions[1].settings == [] && !executions[1].secure
  {
    hide Conclude, Delay, Retriable;
    var p := PLAIN_CALL.(queryId := Some("7"), secure := true);
    LostIsRetriable(1, 0);
    TraceStep(p, [], LostReplies(1), 0);
    TraceStep(Again(p), [], LostReplies(1), 1);
  }

  /** With two retries the second wait forgets the delay. */
  lemma DelayForgotten()
    ensures QueryTrace(PLAIN_CALL.(retryCount := 2, retryDelay := 1.0), [], LostReplies(2), 0).sleeps == [1.0, 5.0]
  {
    hide Conclude, ExecutionOf, Retriable;
    var p := PLAIN_CALL.(retryCount := 2, retryDelay := 1.0);
    LostIsRetriable(2, 0);
    LostIsRetriable(2, 1);
    TraceStep(p, [], LostReplies(2), 0);
    TraceStep(Again(p), [], LostReplies(2), 1);
    TraceStep(Again(Again(p)), [], LostReplies(2), 2);
  }
}
