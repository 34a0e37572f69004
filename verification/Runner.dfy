/** internal/runner/runner.go: how a process run becomes a result, and what follows for its size
    and for its way through the outbox. */
module Runner {
  import opened GoStrings
  import opened Protocol
  import opened Redaction
  import opened Records
  import opened OutputLimit
  import opened Actions

  /** How the process ended, as far as the runner looks at it. */
  datatype ProcessEnd = DeadlineExceeded | ExitStatus(code: int) | NotRun | Success

  function Finish(base: ResultPayload, state: CommandState, exitCode: int, stdout: string, stderr: string,
                  truncated: bool, errorCode: string, endedAt: int): ResultPayload
  {
    base.(state := state, exitCode := exitCode, stdout := Redacted(stdout), stderr := Redacted(stderr),
          outputTruncated := truncated, endedAt := endedAt,
          durationMs := (endedAt - base.startedAt) / 1_000_000, errorCode := errorCode)
  }

  /** A run of the action's program under a timeout: the captured output is redacted, and the
      process end decides state, exit code and error code. */
  method Run(commandId: string, spec: Spec, timeout: int, maxOutputBytes: int, argvOk: bool,
             chunks: seq<Chunk>, end: ProcessEnd, startedAt: int, endedAt: int)
    returns (result: ResultPayload, effective: int)
    requires startedAt <= endedAt
    ensures effective == if timeout > 0 then timeout else if spec.timeout > 0 then spec.timeout else 30_000_000_000
    ensures result.commandId == commandId && result.action == spec.name
    ensures result.startedAt == startedAt && result.endedAt == endedAt
    ensures result.durationMs * 1_000_000 <= endedAt - startedAt < (result.durationMs + 1) * 1_000_000
    ensures result.outputTruncated <==>
            argvOk && (|Merged(chunks)| > Budget(maxOutputBytes) || LateEmptyWrite(Budget(maxOutputBytes), chunks))
    ensures !argvOk ==> result.state == Rejected && result.errorCode == "invalid_action_spec" && result.exitCode == -1
    ensures argvOk ==>
      var first := Clip(Merged(chunks), Budget(maxOutputBytes));
      && result.stdout == Redacted(Project(first, Stdout)) && result.stderr == Redacted(Project(first, Stderr))
      && match end
         case DeadlineExceeded => result.state == TimedOut && result.exitCode == -1 && result.errorCode == "timeout"
         case ExitStatus(code) => result.state == Failed && result.exitCode == code && result.errorCode == "process_failed"
         case NotRun => result.state == Failed && result.exitCode == -1 && result.errorCode == "process_failed"
         case Success => result.state == Succeeded && result.exitCode == 0 && result.errorCode == ""
    ensures 3 * (|result.stdout| + |result.stderr|) <= 14 * Budget(maxOutputBytes)
    ensures SanitizedPayload(Encode(result)) == Encode(result)
  {
    effective := timeout;
    if effective <= 0 {
      effective := spec.timeout;
    }
    if effective <= 0 {
      effective := 30 * SECOND;
    }
    var base := ResultPayload(commandId, spec.name, Running, -1, "", "", false, startedAt, startedAt, 0, "");
    if !argvOk {
      result := Finish(base, Rejected, -1, "", "", false, "invalid_action_spec", endedAt);
      RedactTextGrowth("");
    } else {
      var out, err, truncated := CaptureOutput(maxOutputBytes, chunks);
      result := match end
        case DeadlineExceeded => Finish(base, TimedOut, -1, out, err, truncated, "timeout", endedAt)
        case ExitStatus(code) => Finish(base, Failed, code, out, err, truncated, "process_failed", endedAt)
        case NotRun => Finish(base, Failed, -1, out, err, truncated, "process_failed", endedAt)
        case Success => Finish(base, Succeeded, 0, out, err, truncated, "", endedAt);
      RedactTextGrowth(out);
      RedactTextGrowth(err);
    }
    RedactedResultSurvivesOutbox(result);
  }

  /** A result whose text is already redacted goes through the outbox unchanged. */
  lemma RedactedResultSurvivesOutbox(r: ResultPayload)
    requires exists out :: r.stdout == Redacted(out)
    requires exists err :: r.stderr == Redacted(err)
    ensures SanitizedPayload(Encode(r)) == Encode(r)
  {
    var out :| r.stdout == Redacted(out);
    var err :| r.stderr == Redacted(err);
    RedactTextRemovesSensitiveWords(out);
    RedactTextRemovesSensitiveWords(err);
    PersistingResultExactly(r);
  }

  /** Limiter and redaction together: for every process output the two result texts have at most
      14/3 of the byte budget. */
  lemma OutputSizeBound(maxOutputBytes: int, chunks: seq<Chunk>)
    ensures var first := Clip(Merged(chunks), Budget(maxOutputBytes));
            3 * (|Redacted(Project(first, Stdout))| + |Redacted(Project(first, Stderr))|) <= 14 * Budget(maxOutputBytes)
  {
    var first := Clip(Merged(chunks), Budget(maxOutputBytes));
    ProjectSplitsBytes(first);
    RedactTextGrowth(Project(first, Stdout));
    RedactTextGrowth(Project(first, Stderr));
  }

  /** The factor cannot be improved: three bytes can become fourteen. */
  lemma OutputSizeBoundIsTight()
    ensures 3 * |Redacted("key")| == 14 * |"key"|
  {
    var s := "key";
    LowerCaseIsFixed(s);
    assert OccursAt(s, SENSITIVE_WORDS[5], 0);
    assert Contains(ToLower(s), SENSITIVE_WORDS[5]);
    assert ContainsSensitiveWord(s);
    SplitJoin([s]);
    assert SplitLines(s) == [s];
    assert s[|s| - 1] != '\n';
    assert RedactLines([s]) == [REDACTED];
  }
}
