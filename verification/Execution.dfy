/** `execute`, `cleanup` and `applyResultParser` (internal/testgate/runner.go, result_parser.go):
    how command, parser, cleanup and retry outcomes fold into one status. */
module Execution {
  import opened Manifest
  import opened Prelude

  datatype Status = Pass | Fail | Blocked | Skipped | SafetyStop

  /** A line of command output as the result parser sees it. */
  datatype Line = Ignored | Malformed | Event(action: string, test: string)

  /** What the executor reports for one command. Any value is possible. */
  datatype Command = Command(
    exitCode: int, timedOut: bool, secretFound: bool, processResidue: bool,
    lines: seq<Line>, scanError: bool)

  /** The four commands that running one check can involve. */
  datatype Observation = Observation(command: Command, cleanup: Command, retry: Command, retryCleanup: Command)

  datatype CleanupStatus = NotRun | NotRequired | CleanupPass | CleanupFail
  datatype Cache = Executed | NotApplicable | NotExecuted
  datatype Retry = Retry(status: Status, cleanup: CleanupStatus)

  /** The class a result is reported under: the one the check declares or one the runner assigns. */
  datatype FailureClass =
    | Declared(name: string)
    | Timeout              // "timeout"
    | TestDefect           // "test defect"
    | CleanupDefect        // "cleanup defect"
    | SafetyViolation      // "safety invariant violation"
    | Flaky                // "nondeterministic or flaky behavior"
    | MissingPrerequisite  // "missing prerequisite"

  datatype Result = Result(
    id: string, status: Status, failureClass: FailureClass, cache: Cache,
    cleanup: CleanupStatus, retry: Option<Retry>, blockedBy: seq<string>)

  const PARSER := "go-test-json-required-passes"

  // ----- the result parser

  function Required(check: Check): seq<string> {
    if check.requiredTestPasses == [] && check.scenario.Some? then check.scenario.value
    else check.requiredTestPasses
  }

  /** No malformed event, no scanner error, and a pass event for every required test. */
  ghost predicate ParserAccepts(check: Check, cmd: Command) {
    check.resultParser == PARSER ==>
      && Malformed !in cmd.lines && !cmd.scanError
      && forall name :: name in Required(check) ==> Event("pass", name) in cmd.lines
  }

  /** The output could be read and holds a pass event for every test the check requires; a scenario
      that names none of its own requires its assertions. */
  ghost predicate AllReported(check: Check, c: Command) {
    check.resultParser == "go-test-json-required-passes" ==>
      && Malformed !in c.lines && !c.scanError
      && (forall name :: name in check.requiredTestPasses ==> Event("pass", name) in c.lines)
      && (check.requiredTestPasses == [] && check.scenario.Some? ==>
            forall name :: name in check.scenario.value ==> Event("pass", name) in c.lines)
  }

  /** The parser can turn a status into FAIL, never into anything else, and leaves SAFETY STOP alone. */
  method ApplyResultParser(check: Check, cmd: Command, status: Status, failureClass: FailureClass)
    returns (s: Status, c: FailureClass)
    ensures AllReported(check, cmd) || status == SafetyStop ==> s == status && c == failureClass
    ensures !AllReported(check, cmd) && status != SafetyStop ==> s == Fail && c == TestDefect
  {
    s, c := status, failureClass;
    if check.resultParser != PARSER {
      return;
    }
    var passed, malformed := ScanEvents(Required(check), cmd.lines);
    if cmd.scanError {
      malformed := malformed + 1;
    }
    var missing := set name | name in passed && !passed[name];
    if missing == {} {
      assert forall name :: name in passed ==> name !in missing;
    }
    if malformed > 0 || missing != {} {
      if status != SafetyStop {
        s, c := Fail, TestDefect;
      }
    }
  }

  /** The scanning loop: which required tests reported a pass, how many events did not parse. */
  method ScanEvents(names: seq<string>, lines: seq<Line>) returns (passed: map<string, bool>, malformed: nat)
    ensures forall name :: name in passed <==> name in names
    ensures forall name :: name in passed ==> (passed[name] <==> Event("pass", name) in lines)
    ensures malformed == 0 <==> Malformed !in lines
  {
    passed := map name | name in names :: false;
    malformed := 0;
    for i := 0 to |lines|
      invariant forall name :: name in passed <==> name in names
      invariant forall name :: name in passed ==> (passed[name] <==> Event("pass", name) in lines[..i])
      invariant malformed == 0 <==> Malformed !in lines[..i]
    {
      TakeSnoc(lines, i);
      match lines[i] {
        case Ignored =>
        case Malformed => malformed := malformed + 1;
        case Event(action, test) =>
          if action == "pass" && test in passed {
            passed := passed[test := true];
          }
      }
    }
    TakeAll(lines);
  }

  // ----- cleanup

  predicate Unclean(cmd: Command) {
    cmd.exitCode != 0 || cmd.timedOut || cmd.secretFound || cmd.processResidue
  }

  predicate CleanupFails(check: Check, cmd: Command) {
    check.hasCleanup && Unclean(cmd)
  }

  predicate CleanupUnsafe(check: Check, cmd: Command) {
    CleanupFails(check, cmd) && (check.cleanupSafetyCritical || cmd.secretFound || cmd.processResidue)
  }

  method Cleanup(check: Check, cmd: Command) returns (status: CleanupStatus, safety: bool)
    ensures status == CleanupFail <==> CleanupFails(check, cmd)
    ensures status == NotRequired <==> !check.hasCleanup
    ensures status != NotRun
    ensures safety == CleanupUnsafe(check, cmd)
  {
    if !check.hasCleanup {
      return NotRequired, false;
    }
    if cmd.exitCode != 0 || cmd.timedOut || cmd.secretFound || cmd.processResidue {
      return CleanupFail, check.cleanupSafetyCritical || cmd.secretFound || cmd.processResidue;
    }
    return CleanupPass, false;
  }

  // ----- the status algebra, as a table of priorities

  predicate PlatformAllowed(check: Check, goos: string) {
    check.platforms == [] || goos in check.platforms
  }

  /** The command itself broke a safety rule. */
  predicate Violation(check: Check, cmd: Command) {
    || cmd.secretFound
    || (check.scenario.Some? && cmd.processResidue)
    || (check.safetyCritical && (cmd.timedOut || cmd.exitCode != 0))
  }

  /** Status before any retry: a failed cleanup decides first, then safety, then failure. */
  ghost function FirstStatus(check: Check, obs: Observation): Status {
    if CleanupFails(check, obs.cleanup) then
      if CleanupUnsafe(check, obs.cleanup) then SafetyStop else Fail
    else if Violation(check, obs.command) then SafetyStop
    else if obs.command.timedOut || obs.command.exitCode != 0 || !ParserAccepts(check, obs.command) then Fail
    else Pass
  }

  ghost function FirstClass(check: Check, obs: Observation): FailureClass {
    if CleanupFails(check, obs.cleanup) then
      if CleanupUnsafe(check, obs.cleanup) then SafetyViolation else CleanupDefect
    else if Violation(check, obs.command) then SafetyViolation
    else if !ParserAccepts(check, obs.command) then TestDefect
    else if obs.command.timedOut then Timeout
    else Declared(check.failureClass)
  }

  ghost predicate Retries(check: Check, obs: Observation, retry: bool) {
    retry && FirstStatus(check, obs) == Fail && !check.safetyCritical
  }

  ghost predicate RetryUnsafe(check: Check, obs: Observation) {
    CleanupUnsafe(check, obs.retryCleanup) || obs.retry.secretFound || obs.retry.processResidue
  }

  ghost predicate RetryPasses(check: Check, obs: Observation) {
    !Unclean(obs.retry) && ParserAccepts(check, obs.retry) && !CleanupFails(check, obs.retryCleanup)
  }

  ghost function StatusOf(check: Check, obs: Observation, retry: bool, goos: string): Status {
    if !PlatformAllowed(check, goos) then Skipped
    else if Retries(check, obs, retry) && RetryUnsafe(check, obs) then SafetyStop
    else FirstStatus(check, obs)
  }

  ghost function ClassOf(check: Check, obs: Observation, retry: bool, goos: string): FailureClass {
    if !PlatformAllowed(check, goos) then Declared(check.failureClass)
    else if Retries(check, obs, retry) && RetryUnsafe(check, obs) then SafetyViolation
    else if Retries(check, obs, retry) && RetryPasses(check, obs) then Flaky
    else FirstClass(check, obs)
  }

  function CleanupStatusOf(check: Check, cmd: Command): CleanupStatus {
    if !check.hasCleanup then NotRequired else if Unclean(cmd) then CleanupFail else CleanupPass
  }

  ghost function ResultOf(check: Check, obs: Observation, retry: bool, goos: string): Result {
    Result(check.id, StatusOf(check, obs, retry, goos), ClassOf(check, obs, retry, goos),
           if PlatformAllowed(check, goos) then Executed else NotApplicable,
           if PlatformAllowed(check, goos) then CleanupStatusOf(check, obs.cleanup) else NotRun,
           if PlatformAllowed(check, goos) && Retries(check, obs, retry) then
             Some(Retry(if RetryPasses(check, obs) then Pass else Fail, CleanupStatusOf(check, obs.retryCleanup)))
           else None,
           [])
  }

  // ----- the outcome, field by field

  /** The command exited 0 in time and left neither a credential nor a process behind. */
  predicate Spotless(c: Command) {
    c.exitCode == 0 && !c.timedOut && !c.secretFound && !c.processResidue
  }

  predicate Leaks(c: Command) {
    c.secretFound || c.processResidue
  }

  /** The status without a retry, for all outcomes. */
  lemma StatusTable(check: Check, obs: Observation, goos: string)
    ensures var s, c := StatusOf(check, obs, false, goos), obs.command;
      var supported := check.platforms == [] || goos in check.platforms;
      var broken := check.hasCleanup && !Spotless(obs.cleanup);
      var unsafeCleanup := check.cleanupSafetyCritical || Leaks(obs.cleanup);
      var unsafeCommand := c.secretFound || (check.scenario.Some? && c.processResidue)
                           || (check.safetyCritical && (c.timedOut || c.exitCode != 0));
      var good := c.exitCode == 0 && !c.timedOut && !unsafeCommand && AllReported(check, c);
      && (s == Skipped <==> !supported)
      && (s == SafetyStop <==> supported && (if broken then unsafeCleanup else unsafeCommand))
      && (s == Pass <==> supported && !broken && good)
      && s != Blocked
  {
  }

  /** What the diagnostic retry adds: it runs for a FAIL of a check that is not safety critical, raises
      it to SAFETY STOP exactly when the retry or its cleanup leaks or a safety-critical cleanup fails,
      and records PASS exactly when everything about it was in order. */
  lemma RetryTable(check: Check, obs: Observation, goos: string)
    ensures var off, on := ResultOf(check, obs, false, goos), ResultOf(check, obs, true, goos);
      var retried := off.status == Fail && !check.safetyCritical;
      var broken := check.hasCleanup && !Spotless(obs.retryCleanup);
      var unsafe := Leaks(obs.retry) || (broken && (check.cleanupSafetyCritical || Leaks(obs.retryCleanup)));
      var passed := Spotless(obs.retry) && AllReported(check, obs.retry) && !broken;
      && off.retry == None
      && on.status == (if retried && unsafe then SafetyStop else off.status)
      && (on.retry.Some? <==> retried)
      && (retried ==> on.retry.value.status == (if passed then Pass else Fail))
      && (retried ==> on.retry.value.cleanup == if !check.hasCleanup then NotRequired else if broken then CleanupFail else CleanupPass)
      && on.failureClass == (if !retried then off.failureClass else if unsafe then SafetyViolation
                             else if passed then Flaky else off.failureClass)
      && on.id == off.id && on.cache == off.cache && on.cleanup == off.cleanup && on.blockedBy == off.blockedBy
  {
  }

  /** The class a failure is reported under, and what is said of the cleanup. */
  lemma ClassTable(check: Check, obs: Observation, goos: string)
    requires check.platforms == [] || goos in check.platforms
    ensures var r, c := ResultOf(check, obs, false, goos), obs.command;
      var broken := check.hasCleanup && !Spotless(obs.cleanup);
      var failed := if broken then CleanupDefect else if !AllReported(check, c) then TestDefect
                    else if c.timedOut then Timeout else Declared(check.failureClass);
      && r.cleanup == (if !check.hasCleanup then NotRequired else if broken then CleanupFail else CleanupPass)
      && (r.status == SafetyStop ==> r.failureClass == SafetyViolation)
      && (r.status == Fail ==> r.failureClass == failed)
      && (r.status == Pass ==> r.failureClass == Declared(check.failureClass))
  {
  }

  /** The source's step-by-step overwriting of one result record computes the priority table,
      and PASS needs every single condition. */
  method Execute(check: Check, obs: Observation, retry: bool, goos: string) returns (result: Result)
    ensures result == ResultOf(check, obs, retry, goos)
    ensures result.status == Pass <==>
      && (check.platforms == [] || goos in check.platforms)
      && obs.command.exitCode == 0 && !obs.command.timedOut && !obs.command.secretFound
      && !(check.scenario.Some? && obs.command.processResidue)
      && AllReported(check, obs.command)
      && (check.hasCleanup ==> Spotless(obs.cleanup))
    ensures result.status == SafetyStop ==> result.failureClass == SafetyViolation
    ensures result.id == check.id && result.blockedBy == []
    ensures result.cache == if check.platforms == [] || goos in check.platforms then Executed else NotApplicable
  {
    StatusTable(check, obs, goos);
    RetryNeverClears(check, obs, goos);
    if !PlatformAllowed(check, goos) {
      return Result(check.id, Skipped, Declared(check.failureClass), NotApplicable, NotRun, None, []);
    }
    var status, kind, cleanup := FirstExecution(check, obs);
    result := Result(check.id, status, kind, Executed, cleanup, None, []);
    if retry && result.status == Fail && !check.safetyCritical {
      result := DiagnosticRetry(check, obs, result);
    }
  }

  /** Everything `execute` does before the diagnostic retry, each rule overwriting the last. */
  method FirstExecution(check: Check, obs: Observation)
    returns (status: Status, kind: FailureClass, cleanup: CleanupStatus)
    ensures status == FirstStatus(check, obs) && kind == FirstClass(check, obs)
    ensures cleanup == CleanupStatusOf(check, obs.cleanup)
  {
    var command := obs.command;
    status, kind := Pass, Declared(check.failureClass);
    if command.timedOut {
      status, kind := Fail, Timeout;
    }
    if command.exitCode != 0 {
      status := Fail;
    }
    if check.safetyCritical && status == Fail {
      status, kind := SafetyStop, SafetyViolation;
    }
    if command.secretFound {
      status, kind := SafetyStop, SafetyViolation;
    }
    if check.scenario.Some? && command.processResidue {
      status, kind := SafetyStop, SafetyViolation;
    }
    status, kind := ApplyResultParser(check, command, status, kind);
    var unsafe;
    cleanup, unsafe := Cleanup(check, obs.cleanup);
    if cleanup == CleanupFail {
      status, kind := Fail, CleanupDefect;
      if unsafe {
        status, kind := SafetyStop, SafetyViolation;
      }
    }
  }

  /** One more execution, for classification only: it can raise SAFETY STOP but never clears a failure. */
  method DiagnosticRetry(check: Check, obs: Observation, first: Result) returns (result: Result)
    requires first.status == Fail
    ensures result.retry ==
      Some(Retry(if RetryPasses(check, obs) then Pass else Fail, CleanupStatusOf(check, obs.retryCleanup)))
    ensures RetryUnsafe(check, obs) ==>
      result == first.(status := SafetyStop, failureClass := SafetyViolation, retry := result.retry)
    ensures !RetryUnsafe(check, obs) ==>
      result == first.(retry := result.retry,
        failureClass := if RetryPasses(check, obs) then Flaky else first.failureClass)
  {
    var command := obs.retry;
    var status := Fail;
    if command.exitCode == 0 && !command.timedOut && !command.secretFound && !command.processResidue {
      status := Pass;
    }
    var parsed, _ := ApplyResultParser(check, command, status, Declared(check.failureClass));
    status := parsed;
    var cleanup, unsafe := Cleanup(check, obs.retryCleanup);
    if cleanup == CleanupFail {
      status := Fail;
    }
    result := first.(retry := Some(Retry(status, cleanup)));
    if unsafe || command.secretFound || command.processResidue {
      return result.(status := SafetyStop, failureClass := SafetyViolation);
    }
    if status == Pass {
      result := result.(failureClass := Flaky, status := Fail);
    }
  }

  // ----- what the table implies

  /** Turning the retry on changes a status only from FAIL to SAFETY STOP. */
  lemma RetryNeverClears(check: Check, obs: Observation, goos: string)
    ensures var off, on := StatusOf(check, obs, false, goos), StatusOf(check, obs, true, goos);
      on == off || (off == Fail && on == SafetyStop)
  {
  }

  /** A command that broke a safety rule ends SAFETY STOP for every cleanup and retry outcome
      exactly when the check has no cleanup or a safety-critical one; a failing cleanup of any
      other check overwrites the stop with FAIL. */
  lemma ViolationAlwaysStopsIff(check: Check, retry: bool, goos: string)
    requires PlatformAllowed(check, goos)
    ensures (forall obs: Observation :: Violation(check, obs.command) ==> StatusOf(check, obs, retry, goos) == SafetyStop)
      <==> !check.hasCleanup || check.cleanupSafetyCritical
  {
    if check.hasCleanup && !check.cleanupSafetyCritical {
      OverwrittenStop(check, retry, goos);
    }
  }

  /** A leaked credential whose ordinary cleanup exits non-zero is reported as a plain failure. */
  lemma OverwrittenStop(check: Check, retry: bool, goos: string)
    requires PlatformAllowed(check, goos) && check.hasCleanup && !check.cleanupSafetyCritical
    ensures var leak := Command(0, false, true, false, [], false);
      var broken := Command(1, false, false, false, [], false);
      var obs := Observation(leak, broken, broken, broken);
      Violation(check, obs.command) && StatusOf(check, obs, retry, goos) == Fail
  {
  }

  /** A scenario passes only if every test it requires reported a pass, on every platform and whatever
      else the output says. */
  lemma ScenarioNeedsItsTests(s: Scenario, obs: Observation, retry: bool, goos: string)
    ensures var r := StatusOf(ScenarioCheck(s), obs, retry, goos);
      && r != Skipped
      && (r == Pass ==> forall name :: name in s.requiredTestPasses ==> Event("pass", name) in obs.command.lines)
  {
    StatusTable(ScenarioCheck(s), obs, goos);
    RetryNeverClears(ScenarioCheck(s), obs, goos);
  }

  /** Scenario checks: a credential hit or a surviving process always ends SAFETY STOP. */
  lemma ScenarioViolationStops(s: Scenario, obs: Observation, retry: bool, goos: string)
    requires obs.command.secretFound || obs.command.processResidue
    ensures StatusOf(ScenarioCheck(s), obs, retry, goos) == SafetyStop
  {
    ViolationAlwaysStopsIff(ScenarioCheck(s), retry, goos);
  }
}
