/** internal/commands/handler.go: the gate every command passes before the runner is called, for
    one call and for any number of concurrent calls over one dedupe store. */
module Commands {
  import opened Protocol
  import opened Actions
  import Dedupe
  import GoStrings
  import Redaction
  import Records

  datatype Gate = Gate(registry: map<string, Spec>, allowed: set<string>, matches: Matcher)

  predicate IsIdChar(c: char) {
    'A' <= c <= 'Z' || 'a' <= c <= 'z' || '0' <= c <= '9' || c == '.' || c == '_' || c == ':' || c == '-'
  }

  predicate IsWellFormedId(id: string) {
    6 <= |id| <= 128 && forall i :: 0 <= i < |id| ==> IsIdChar(id[i])
  }

  /** The pattern again, by what it leaves out of ASCII. */
  lemma IdCharExactly(c: char)
    ensures IsIdChar(c) <==>
            !(c < '-' || c == '/' || ';' <= c <= '@' || '[' <= c <= '^' || c == '`' || 'z' < c)
  {
  }

  lemma WellFormedIdExactly(id: string)
    ensures IsWellFormedId(id) <==> 5 < |id| < 129 && forall c :: c in id ==>
              !(c < '-' || c == '/' || ';' <= c <= '@' || '[' <= c <= '^' || c == '`' || 'z' < c)
  {
    assert forall i :: 0 <= i < |id| ==> id[i] in id;
    forall c ensures IsIdChar(c) <==> !(c < '-' || c == '/' || ';' <= c <= '@' || '[' <= c <= '^' || c == '`' || 'z' < c) {
      IdCharExactly(c);
    }
  }

  datatype RejectCode = InvalidCommandId | DuplicateCommand | UnknownAction | ActionNotAllowed | InvalidArgs | TimeoutExceeded

  /** What the runner is asked to do. */
  datatype Request = Request(commandId: string, spec: Spec, args: ValidatedArgs, timeout: int)

  datatype Verdict = Refuse(code: RejectCode) | Admit(request: Request)

  /** The checks after the reservation, in their order. */
  function Judge(gate: Gate, cmd: CommandPayload): Verdict {
    if cmd.action !in gate.registry then Refuse(UnknownAction)
    else if cmd.action !in gate.allowed then Refuse(ActionNotAllowed)
    else
      var spec := gate.registry[cmd.action];
      if !Accepts(spec, cmd.args, gate.matches) then Refuse(InvalidArgs)
      else match ResolveTimeout(spec, cmd.timeoutSec)
        case None => Refuse(TimeoutExceeded)
        case Some(t) => Admit(Request(cmd.commandId, spec, ArgStrings(cmd.args), t))
  }

  datatype Event = Received(id: string) | Rejected(id: string, code: RejectCode) | Started(id: string) | Finished(id: string)

  /** A request that may reach the runner: registered and locally allowed action, accepted
      arguments passed on unchanged, and a timeout that is positive and within the action's. */
  ghost predicate IsSound(gate: Gate, cmd: CommandPayload, r: Request) {
    && r.commandId == cmd.commandId
    && cmd.action in gate.registry && cmd.action in gate.allowed && r.spec == gate.registry[cmd.action]
    && Accepts(r.spec, cmd.args, gate.matches)
    && r.args.Keys == cmd.args.Keys && (forall name :: name in cmd.args ==> cmd.args[name] == Str(r.args[name]))
    && (r.spec.timeout > 0 ==> 0 < EffectiveTimeout(r.spec, r.timeout) <= r.spec.timeout)
    && (cmd.timeoutSec.None? ==> r.timeout == r.spec.timeout)
    && (cmd.timeoutSec.Some? && cmd.timeoutSec.value * SECOND <= MAX_INT64 ==> r.timeout == cmd.timeoutSec.value * SECOND)
  }

  /** A command is admitted exactly when its action is registered and allowed, its arguments are
      accepted and its timeout resolves; and then the request is sound. */
  lemma AdmittedRequestIsSound(gate: Gate, cmd: CommandPayload)
    ensures Judge(gate, cmd).Admit? <==>
            && cmd.action in gate.registry && cmd.action in gate.allowed
            && Accepts(gate.registry[cmd.action], cmd.args, gate.matches)
            && ResolveTimeout(gate.registry[cmd.action], cmd.timeoutSec).Some?
    ensures Judge(gate, cmd).Admit? ==> IsSound(gate, cmd, Judge(gate, cmd).request)
  {
  }

  // ----- one call -----

  datatype Outcome = Turned(code: RejectCode) | Ran(request: Request)

  /** What becomes of a command, given the ids that are still remembered. */
  function Decision(gate: Gate, remembered: Dedupe.Seen, cmd: CommandPayload): Outcome {
    if !IsWellFormedId(cmd.commandId) then Turned(InvalidCommandId)
    else if cmd.commandId in remembered then Turned(DuplicateCommand)
    else match Judge(gate, cmd) { case Refuse(code) => Turned(code) case Admit(request) => Ran(request) }
  }

  function CodeText(code: RejectCode): string {
    match code
    case InvalidCommandId => "invalid_command_id"
    case DuplicateCommand => "duplicate_command"
    case UnknownAction => "unknown_action"
    case ActionNotAllowed => "action_not_allowed"
    case InvalidArgs => "invalid_args"
    case TimeoutExceeded => "timeout_exceeded"
  }

  function RejectedResult(cmd: CommandPayload, code: RejectCode, text: string, at: int): ResultPayload {
    ResultPayload(cmd.commandId, cmd.action, CommandState.Rejected, -1, "", text, false, at, at, 0, CodeText(code))
  }

  /** A rejection is not redacted before it is stored, so the outbox changes it exactly if its text
      contains a sensitive word. */
  lemma RejectionIsStoredAsIsExactly(cmd: CommandPayload, code: RejectCode, text: string, at: int)
    ensures var r := RejectedResult(cmd, code, text, at);
            Records.SanitizedPayload(Records.Encode(r)) == Records.Encode(r) <==> !Redaction.ContainsSensitiveWord(text)
  {
    Records.PersistingResultExactly(RejectedResult(cmd, code, text, at));
    Redaction.MarkIsPublic();
  }

  const QUOTE := "unknown action \""

  /** An instance: the text for an unknown action quotes its name. */
  lemma QuotedActionIsChanged(cmd: CommandPayload, at: int)
    ensures var r := RejectedResult(cmd, UnknownAction, QUOTE + "key" + "\"", at);
            Records.SanitizedPayload(Records.Encode(r)) != Records.Encode(r)
  {
    QuoteIsPlain();
    QuotedWordIsSensitive(QUOTE, 5, "\"");
    RejectionIsStoredAsIsExactly(cmd, UnknownAction, QUOTE + "key" + "\"", at);
  }

  predicate IsPlain(s: string) { forall i :: 0 <= i < |s| ==> s[i] <= '\U{7F}' && !('A' <= s[i] <= 'Z') }

  lemma QuoteIsPlain()
    ensures IsPlain(QUOTE) && IsPlain("\"")
  {
  }

  lemma QuotedWordIsSensitive(a: string, k: nat, b: string)
    requires IsPlain(a) && IsPlain(b) && k < |Redaction.SENSITIVE_WORDS| && IsPlain(Redaction.SENSITIVE_WORDS[k])
    ensures Redaction.ContainsSensitiveWord(a + Redaction.SENSITIVE_WORDS[k] + b)
  {
    var w := Redaction.SENSITIVE_WORDS[k];
    var s := a + w + b;
    Records.LowerCaseIsFixed(s);
    assert s[|a|..|a| + |w|] == w;
    assert GoStrings.OccursAt(s, w, |a|);
    assert GoStrings.Contains(GoStrings.ToLower(s), Redaction.SENSITIVE_WORDS[k]);
  }

  /** A requested timeout is positive and, as a duration, within the action's. */
  predicate TimeoutFits(spec: Spec, timeoutSec: Option<int>) {
    timeoutSec.Some? ==> timeoutSec.value > 0 && Wrap64(timeoutSec.value * SECOND) <= spec.timeout
  }

  /** The command passes every check; `isNew` says that its id is not remembered. */
  predicate PassesAll(gate: Gate, isNew: bool, cmd: CommandPayload) {
    && IsWellFormedId(cmd.commandId) && isNew && cmd.action in gate.registry && cmd.action in gate.allowed
    && Accepts(gate.registry[cmd.action], cmd.args, gate.matches) && TimeoutFits(gate.registry[cmd.action], cmd.timeoutSec)
  }

  /** The error code on the wire: that of the first check the command fails. */
  function FirstError(gate: Gate, isNew: bool, cmd: CommandPayload): string {
    if !IsWellFormedId(cmd.commandId) then "invalid_command_id"
    else if !isNew then "duplicate_command"
    else if cmd.action !in gate.registry then "unknown_action"
    else if cmd.action !in gate.allowed then "action_not_allowed"
    else if !Accepts(gate.registry[cmd.action], cmd.args, gate.matches) then "invalid_args"
    else "timeout_exceeded"
  }

  lemma DecisionIsFirstError(gate: Gate, remembered: Dedupe.Seen, isNew: bool, cmd: CommandPayload)
    requires isNew == (cmd.commandId !in remembered)
    ensures Decision(gate, remembered, cmd).Ran? <==> PassesAll(gate, isNew, cmd)
    ensures Decision(gate, remembered, cmd).Turned? ==>
              CodeText(Decision(gate, remembered, cmd).code) == FirstError(gate, isNew, cmd)
  {
  }

  class Handler {
    const gate: Gate
    const dedupe: Dedupe.DedupeStore
    const runner: Request -> ResultPayload
    /** The text of a rejection. */
    const explain: (CommandPayload, RejectCode) -> string
    var audit: seq<Event>

    constructor (gate: Gate, dedupe: Dedupe.DedupeStore, runner: Request -> ResultPayload,
                 explain: (CommandPayload, RejectCode) -> string)
      ensures this.gate == gate && this.dedupe == dedupe && this.runner == runner && this.explain == explain && audit == []
    {
      this.gate := gate;
      this.dedupe := dedupe;
      this.runner := runner;
      this.explain := explain;
      audit := [];
    }

    /** One call without interference.  The result is the rejection of the first check that fails,
        or what the runner makes of a sound request; the audit trail gains exactly received,
        rejected or received, started, finished; and the dedupe store is touched only by
        well-formed ids, whatever becomes of the command. */
    method Handle(cmd: CommandPayload, now: int, rejectedAt: int) returns (r: ResultPayload)
      modifies this`audit, dedupe
      ensures var remembered := Dedupe.Pruned(dedupe.cfg, old(dedupe.seen), now);
              match Decision(gate, remembered, cmd)
              case Turned(code) =>
                && r == RejectedResult(cmd, code, explain(cmd, code), rejectedAt)
                && audit == old(audit) + [Received(cmd.commandId), Event.Rejected(cmd.commandId, code)]
              case Ran(request) =>
                && r == runner(request) && IsSound(gate, cmd, request)
                && audit == old(audit) + [Received(cmd.commandId), Started(cmd.commandId), Finished(r.commandId)]
      ensures if IsWellFormedId(cmd.commandId)
              then Dedupe.ReserveSpec(dedupe.cfg, old(dedupe.seen), cmd.commandId, now,
                                      cmd.commandId !in Dedupe.Pruned(dedupe.cfg, old(dedupe.seen), now), dedupe.seen)
              else dedupe.seen == old(dedupe.seen)
      ensures 0 < dedupe.cfg.ttl < MAX_INT64 ==>
        var isNew := cmd.commandId in old(dedupe.seen) ==> now - old(dedupe.seen)[cmd.commandId] > dedupe.cfg.ttl;
        if PassesAll(gate, isNew, cmd) then exists request :: r == runner(request) && IsSound(gate, cmd, request)
        else r.state == CommandState.Rejected && r.exitCode == -1 && r.errorCode == FirstError(gate, isNew, cmd)
             && r.commandId == cmd.commandId && r.action == cmd.action && r.stdout == "" && r.startedAt == r.endedAt == rejectedAt
    {
      ghost var remembered := Dedupe.Pruned(dedupe.cfg, dedupe.seen, now);
      DecisionIsFirstError(gate, remembered, cmd.commandId !in remembered, cmd);
      audit := audit + [Received(cmd.commandId)];
      if !IsWellFormedId(cmd.commandId) {
        r := Reject(cmd, InvalidCommandId, rejectedAt);
        return;
      }
      var reserved := dedupe.Reserve(cmd.commandId, now);
      if !reserved {
        r := Reject(cmd, DuplicateCommand, rejectedAt);
        return;
      }
      var verdict := Check(cmd);
      if verdict.Refuse? {
        r := Reject(cmd, verdict.code, rejectedAt);
        return;
      }
      AdmittedRequestIsSound(gate, cmd);
      audit := audit + [Started(cmd.commandId)];
      r := runner(verdict.request);
      audit := audit + [Finished(r.commandId)];
    }

    /** The checks after the reservation, in the order they are made. */
    method Check(cmd: CommandPayload) returns (v: Verdict)
      ensures v == Judge(gate, cmd)
    {
      if cmd.action !in gate.registry {
        return Refuse(UnknownAction);
      }
      var spec := gate.registry[cmd.action];
      if cmd.action !in gate.allowed {
        return Refuse(ActionNotAllowed);
      }
      var args := ValidateArgs(spec, cmd.args, gate.matches);
      if args.None? {
        return Refuse(InvalidArgs);
      }
      var timeout := ResolveTimeout(spec, cmd.timeoutSec);
      if timeout.None? {
        return Refuse(TimeoutExceeded);
      }
      return Admit(Request(cmd.commandId, spec, args.value, timeout.value));
    }

    method Reject(cmd: CommandPayload, code: RejectCode, at: int) returns (r: ResultPayload)
      modifies this`audit
      ensures r == RejectedResult(cmd, code, explain(cmd, code), at)
      ensures audit == old(audit) + [Event.Rejected(cmd.commandId, code)]
    {
      audit := audit + [Event.Rejected(cmd.commandId, code)];
      r := ResultPayload(cmd.commandId, cmd.action, CommandState.Rejected, -1, "", explain(cmd, code), false,
                         at, at, 0, CodeText(code));
    }
  }

  // ----- concurrent calls -----

  /** Where a call is.  `op` is the position of its reservation among the dedupe operations. */
  datatype Pc =
    | AtGate
    | Reserved(op: nat)
    | Refusing(code: RejectCode)
    | Starting(request: Request, op: nat)
    | Executing(request: Request, op: nat)
    | DoneRejected
    | DoneFinished

  datatype Call = Call(cmd: CommandPayload, pc: Pc)

  /** One call of the runner. */
  datatype Launch = Launch(call: nat, cmd: CommandPayload, request: Request, op: nat)

  datatype State = State(
    calls: map<nat, Call>,
    audit: seq<(nat, Event)>,
    launches: seq<Launch>,
    ops: seq<Dedupe.Op>,
    stores: seq<Dedupe.Seen>)

  datatype Step =
    | Begin(c: nat, cmd: CommandPayload)
    | RefuseId(c: nat)
    | Reserve(c: nat, now: int, ok: bool, after: Dedupe.Seen)
    | Decide(c: nat)
    | WriteRejection(c: nat)
    | LaunchRunner(c: nat)
    | RunnerReturns(c: nat)
    | OtherDedupeOp(op: Dedupe.Op, after: Dedupe.Seen)

  ghost predicate Init(s: State) {
    s.calls == map[] && s.audit == [] && s.launches == [] && s.ops == [] && s.stores == [map[]]
  }

  /** One operation of the dedupe store, at a time not before the previous one. */
  ghost predicate DedupeStep(cfg: Dedupe.Config, s: State, op: Dedupe.Op, after: Dedupe.Seen) {
    && s.stores != [] && Dedupe.Next(cfg, s.stores[|s.stores| - 1], op, after)
    && Dedupe.StartOf(op) <= op.now
    && (s.ops != [] ==> s.ops[|s.ops| - 1].now <= Dedupe.StartOf(op))
  }

  function Moved(s: State, c: nat, pc: Pc): map<nat, Call>
    requires c in s.calls
  {
    s.calls[c := s.calls[c].(pc := pc)]
  }

  ghost predicate Next(gate: Gate, cfg: Dedupe.Config, s: State, step: Step, s': State) {
    match step
    case Begin(c, cmd) =>
      c !in s.calls && s' == s.(calls := s.calls[c := Call(cmd, AtGate)], audit := s.audit + [(c, Received(cmd.commandId))])
    case RefuseId(c) =>
      && c in s.calls && s.calls[c].pc.AtGate? && !IsWellFormedId(s.calls[c].cmd.commandId)
      && s' == s.(calls := Moved(s, c, Refusing(InvalidCommandId)))
    case Reserve(c, now, ok, after) =>
      && c in s.calls && s.calls[c].pc.AtGate? && IsWellFormedId(s.calls[c].cmd.commandId)
      && var op := Dedupe.Reserve(s.calls[c].cmd.commandId, now, ok);
         && DedupeStep(cfg, s, op, after)
         && s' == s.(calls := Moved(s, c, if ok then Reserved(|s.ops|) else Refusing(DuplicateCommand)),
                     ops := s.ops + [op], stores := s.stores + [after])
    case Decide(c) =>
      && c in s.calls && s.calls[c].pc.Reserved?
      && s' == s.(calls := Moved(s, c, match Judge(gate, s.calls[c].cmd)
                                       case Refuse(code) => Refusing(code)
                                       case Admit(r) => Starting(r, s.calls[c].pc.op)))
    case WriteRejection(c) =>
      && c in s.calls && s.calls[c].pc.Refusing?
      && s' == s.(calls := Moved(s, c, DoneRejected),
                  audit := s.audit + [(c, Event.Rejected(s.calls[c].cmd.commandId, s.calls[c].pc.code))])
    case LaunchRunner(c) =>
      && c in s.calls && s.calls[c].pc.Starting?
      && var call := s.calls[c];
         s' == s.(calls := Moved(s, c, Executing(call.pc.request, call.pc.op)),
                  audit := s.audit + [(c, Started(call.cmd.commandId))],
                  launches := s.launches + [Launch(c, call.cmd, call.pc.request, call.pc.op)])
    case RunnerReturns(c) =>
      && c in s.calls && s.calls[c].pc.Executing?
      && s' == s.(calls := Moved(s, c, DoneFinished), audit := s.audit + [(c, Finished(s.calls[c].cmd.commandId))])
    case OtherDedupeOp(op, after) =>
      DedupeStep(cfg, s, op, after) && s' == s.(ops := s.ops + [op], stores := s.stores + [after])
  }

  // ----- audit trail of one call -----

  function TrailOf(audit: seq<(nat, Event)>, c: nat): seq<Event> {
    if audit == [] then []
    else
      var m := |audit| - 1;
      TrailOf(audit[..m], c) + if audit[m].0 == c then [audit[m].1] else []
  }

  /** What a call must have written by the time it is at this point. */
  ghost predicate TrailFits(trail: seq<Event>, id: string, pc: Pc) {
    match pc
    case Executing(_, _) => trail == [Received(id), Started(id)]
    case DoneFinished => trail == [Received(id), Started(id), Finished(id)]
    case DoneRejected => |trail| == 2 && trail[0] == Received(id) && trail[1].Rejected? && trail[1].id == id
    case _ => trail == [Received(id)]
  }

  ghost predicate TrailsOk(s: State) {
    && (forall c :: c in s.calls ==> TrailFits(TrailOf(s.audit, c), s.calls[c].cmd.commandId, s.calls[c].pc))
    && (forall c :: c !in s.calls ==> TrailOf(s.audit, c) == [])
  }

  /** What a step writes to the audit log. */
  function StepEvents(s: State, step: Step): seq<(nat, Event)> {
    match step
    case Begin(c, cmd) => [(c, Received(cmd.commandId))]
    case WriteRejection(c) =>
      if c in s.calls && s.calls[c].pc.Refusing? then [(c, Event.Rejected(s.calls[c].cmd.commandId, s.calls[c].pc.code))] else []
    case LaunchRunner(c) => if c in s.calls then [(c, Started(s.calls[c].cmd.commandId))] else []
    case RunnerReturns(c) => if c in s.calls then [(c, Finished(s.calls[c].cmd.commandId))] else []
    case _ => []
  }

  lemma TrailAfter(gate: Gate, cfg: Dedupe.Config, s: State, step: Step, s': State, c: nat)
    requires Next(gate, cfg, s, step, s')
    ensures TrailOf(s'.audit, c) ==
            TrailOf(s.audit, c) + if StepEvents(s, step) != [] && StepEvents(s, step)[0].0 == c then [StepEvents(s, step)[0].1] else []
  {
  }

  lemma OneTrailStep(gate: Gate, cfg: Dedupe.Config, s: State, step: Step, s': State, c: nat)
    requires TrailsOk(s) && Next(gate, cfg, s, step, s')
    ensures c in s'.calls ==> TrailFits(TrailOf(s'.audit, c), s'.calls[c].cmd.commandId, s'.calls[c].pc)
    ensures c !in s'.calls ==> TrailOf(s'.audit, c) == []
  {
    TrailAfter(gate, cfg, s, step, s', c);
    if c in s.calls {
      assert TrailFits(TrailOf(s.audit, c), s.calls[c].cmd.commandId, s.calls[c].pc);
    }
  }

  lemma TrailsStep(gate: Gate, cfg: Dedupe.Config, s: State, step: Step, s': State)
    requires TrailsOk(s) && Next(gate, cfg, s, step, s')
    ensures TrailsOk(s')
  {
    forall c ensures c in s'.calls ==> TrailFits(TrailOf(s'.audit, c), s'.calls[c].cmd.commandId, s'.calls[c].pc)
             ensures c !in s'.calls ==> TrailOf(s'.audit, c) == [] {
      OneTrailStep(gate, cfg, s, step, s', c);
    }
  }

  // ----- reservations -----

  predicate HasOp(pc: Pc) { pc.Reserved? || pc.Starting? || pc.Executing? }

  /** This operation is the successful reservation of this id. */
  predicate Reserves(ops: seq<Dedupe.Op>, i: nat, id: string) {
    i < |ops| && ops[i].Reserve? && ops[i].ok && ops[i].id == id
  }

  ghost predicate CallOk(gate: Gate, ops: seq<Dedupe.Op>, call: Call) {
    && (HasOp(call.pc) ==> Reserves(ops, call.pc.op, call.cmd.commandId) && IsWellFormedId(call.cmd.commandId))
    && (call.pc.Starting? || call.pc.Executing? ==> Judge(gate, call.cmd) == Admit(call.pc.request))
  }

  /** Every call past the gate holds a reservation of its own. */
  ghost predicate CallsOk(gate: Gate, s: State) {
    && (forall c :: c in s.calls ==> CallOk(gate, s.ops, s.calls[c]))
    && (forall a, b :: a in s.calls && b in s.calls && a != b && HasOp(s.calls[a].pc) && HasOp(s.calls[b].pc) ==>
          s.calls[a].pc.op != s.calls[b].pc.op)
  }

  ghost predicate LaunchesOk(gate: Gate, s: State) {
    && (forall k :: 0 <= k < |s.launches| ==>
          && Reserves(s.ops, s.launches[k].op, s.launches[k].cmd.commandId)
          && IsWellFormedId(s.launches[k].cmd.commandId)
          && Judge(gate, s.launches[k].cmd) == Admit(s.launches[k].request))
    && (forall k, l :: 0 <= k < l < |s.launches| ==> s.launches[k].op != s.launches[l].op)
    // a reservation that a waiting call still holds has not launched anything
    && (forall c, k :: c in s.calls && (s.calls[c].pc.Reserved? || s.calls[c].pc.Starting?) && 0 <= k < |s.launches| ==>
          s.launches[k].op != s.calls[c].pc.op)
  }

  lemma OneCallStep(gate: Gate, cfg: Dedupe.Config, s: State, step: Step, s': State, c: nat)
    requires CallsOk(gate, s) && Next(gate, cfg, s, step, s') && c in s'.calls
    ensures CallOk(gate, s'.ops, s'.calls[c])
    ensures HasOp(s'.calls[c].pc) ==>
              || (s'.calls[c].pc.op == |s.ops| && step.Reserve? && step.c == c)
              || (c in s.calls && HasOp(s.calls[c].pc) && s.calls[c].pc.op == s'.calls[c].pc.op)
  {
  }

  lemma CallsStep(gate: Gate, cfg: Dedupe.Config, s: State, step: Step, s': State)
    requires CallsOk(gate, s) && Next(gate, cfg, s, step, s')
    ensures CallsOk(gate, s')
  {
    forall c | c in s'.calls ensures CallOk(gate, s'.ops, s'.calls[c]) { OneCallStep(gate, cfg, s, step, s', c); }
    forall a, b | a in s'.calls && b in s'.calls && a != b && HasOp(s'.calls[a].pc) && HasOp(s'.calls[b].pc)
      ensures s'.calls[a].pc.op != s'.calls[b].pc.op
    {
      OneCallStep(gate, cfg, s, step, s', a);
      OneCallStep(gate, cfg, s, step, s', b);
      assert a in s.calls ==> CallOk(gate, s.ops, s.calls[a]);
      assert b in s.calls ==> CallOk(gate, s.ops, s.calls[b]);
    }
  }

  lemma LaunchesStep(gate: Gate, cfg: Dedupe.Config, s: State, step: Step, s': State)
    requires CallsOk(gate, s) && LaunchesOk(gate, s) && Next(gate, cfg, s, step, s')
    ensures LaunchesOk(gate, s')
  {
    assert s.ops <= s'.ops;
    forall i: nat, id | Reserves(s.ops, i, id) ensures Reserves(s'.ops, i, id) { assert s'.ops[i] == s.ops[i]; }
    if step.LaunchRunner? {
      assert CallOk(gate, s.ops, s.calls[step.c]);
      assert s'.launches[|s.launches|].op == s.calls[step.c].pc.op;
      assert forall k :: 0 <= k < |s.launches| ==> s'.launches[k] == s.launches[k];
    }
  }

  // ----- rejections -----

  /** The check this code stands for fails, and all earlier ones hold. */
  ghost predicate Deserves(gate: Gate, ops: seq<Dedupe.Op>, cmd: CommandPayload, code: RejectCode) {
    match code
    case InvalidCommandId => !IsWellFormedId(cmd.commandId)
    case DuplicateCommand =>
      IsWellFormedId(cmd.commandId) && exists k :: 0 <= k < |ops| && ops[k].Reserve? && ops[k].id == cmd.commandId && !ops[k].ok
    case UnknownAction => IsWellFormedId(cmd.commandId) && cmd.action !in gate.registry
    case ActionNotAllowed => IsWellFormedId(cmd.commandId) && cmd.action in gate.registry && cmd.action !in gate.allowed
    case InvalidArgs =>
      && IsWellFormedId(cmd.commandId) && cmd.action in gate.registry && cmd.action in gate.allowed
      && !Accepts(gate.registry[cmd.action], cmd.args, gate.matches)
    case TimeoutExceeded =>
      && IsWellFormedId(cmd.commandId) && cmd.action in gate.registry && cmd.action in gate.allowed
      && Accepts(gate.registry[cmd.action], cmd.args, gate.matches) && !TimeoutFits(gate.registry[cmd.action], cmd.timeoutSec)
  }

  ghost predicate RejectionsOk(gate: Gate, s: State) {
    && (forall c :: c in s.calls && s.calls[c].pc.Refusing? ==> Deserves(gate, s.ops, s.calls[c].cmd, s.calls[c].pc.code))
    && (forall i :: 0 <= i < |s.audit| && s.audit[i].1.Rejected? ==> RejectionOk(gate, s, s.audit[i]))
  }

  ghost predicate RejectionOk(gate: Gate, s: State, e: (nat, Event))
    requires e.1.Rejected?
  {
    e.0 in s.calls && e.1.id == s.calls[e.0].cmd.commandId && Deserves(gate, s.ops, s.calls[e.0].cmd, e.1.code)
  }

  lemma DeservesStays(gate: Gate, ops: seq<Dedupe.Op>, more: seq<Dedupe.Op>, cmd: CommandPayload, code: RejectCode)
    requires Deserves(gate, ops, cmd, code) && ops <= more
    ensures Deserves(gate, more, cmd, code)
  {
    if code.DuplicateCommand? {
      var k :| 0 <= k < |ops| && ops[k].Reserve? && ops[k].id == cmd.commandId && !ops[k].ok;
      assert more[k] == ops[k];
    }
  }

  lemma NewRefusal(gate: Gate, cfg: Dedupe.Config, s: State, step: Step, s': State, c: nat)
    requires CallsOk(gate, s) && Next(gate, cfg, s, step, s') && c in s'.calls && s'.calls[c].pc.Refusing?
    requires c !in s.calls || !s.calls[c].pc.Refusing?
    ensures Deserves(gate, s'.ops, s'.calls[c].cmd, s'.calls[c].pc.code)
  {
    if step.Reserve? {
      assert s'.ops[|s.ops|] == Dedupe.Reserve(s.calls[c].cmd.commandId, step.now, step.ok);
    } else if step.Decide? {
      assert CallOk(gate, s.ops, s.calls[c]);
    }
  }

  lemma RejectionsStep(gate: Gate, cfg: Dedupe.Config, s: State, step: Step, s': State)
    requires CallsOk(gate, s) && RejectionsOk(gate, s) && Next(gate, cfg, s, step, s')
    ensures RejectionsOk(gate, s')
  {
    assert s.ops <= s'.ops;
    forall c | c in s'.calls && s'.calls[c].pc.Refusing?
      ensures Deserves(gate, s'.ops, s'.calls[c].cmd, s'.calls[c].pc.code)
    {
      if c in s.calls && s.calls[c].pc.Refusing? {
        DeservesStays(gate, s.ops, s'.ops, s.calls[c].cmd, s.calls[c].pc.code);
      } else {
        NewRefusal(gate, cfg, s, step, s', c);
      }
    }
    assert s'.audit == s.audit + StepEvents(s, step);
    forall i | 0 <= i < |s'.audit| && s'.audit[i].1.Rejected? ensures RejectionOk(gate, s', s'.audit[i]) {
      if i < |s.audit| {
        assert s'.audit[i] == s.audit[i] && RejectionOk(gate, s, s.audit[i]);
        DeservesStays(gate, s.ops, s'.ops, s.calls[s.audit[i].0].cmd, s.audit[i].1.code);
      }
    }
  }

  // ----- the dedupe store sees an ordinary run -----

  lemma DedupeRunStep(cfg: Dedupe.Config, s: State, op: Dedupe.Op, after: Dedupe.Seen)
    requires Dedupe.IsRun(cfg, s.stores, s.ops) && DedupeStep(cfg, s, op, after)
    ensures Dedupe.IsRun(cfg, s.stores + [after], s.ops + [op])
  {
    var states, ops := s.stores + [after], s.ops + [op];
    var m := |s.ops|;
    forall i: nat | i < |ops| ensures Dedupe.StepAt(cfg, states, ops, i) {
      if i < m {
        assert Dedupe.StepAt(cfg, s.stores, s.ops, i);
        assert states[i] == s.stores[i] && states[i + 1] == s.stores[i + 1] && ops[i] == s.ops[i];
      }
    }
    forall i, j | 0 <= i < j < |ops| ensures ops[i].now <= Dedupe.StartOf(ops[j]) {
      if j == m && i < m - 1 {
        assert s.ops[i].now <= Dedupe.StartOf(s.ops[m - 1]) <= s.ops[m - 1].now;
      }
    }
  }

  ghost predicate Inv(gate: Gate, cfg: Dedupe.Config, s: State) {
    && TrailsOk(s) && CallsOk(gate, s) && LaunchesOk(gate, s) && RejectionsOk(gate, s)
    && Dedupe.IsRun(cfg, s.stores, s.ops)
  }

  lemma InvStep(gate: Gate, cfg: Dedupe.Config, s: State, step: Step, s': State)
    requires Inv(gate, cfg, s) && Next(gate, cfg, s, step, s')
    ensures Inv(gate, cfg, s')
  {
    TrailsStep(gate, cfg, s, step, s');
    CallsStep(gate, cfg, s, step, s');
    LaunchesStep(gate, cfg, s, step, s');
    RejectionsStep(gate, cfg, s, step, s');
    if step.Reserve? {
      DedupeRunStep(cfg, s, Dedupe.Reserve(s.calls[step.c].cmd.commandId, step.now, step.ok), step.after);
    } else if step.OtherDedupeOp? {
      DedupeRunStep(cfg, s, step.op, step.after);
    }
  }

  ghost predicate StepAt(gate: Gate, cfg: Dedupe.Config, states: seq<State>, steps: seq<Step>, i: nat)
    requires |states| == |steps| + 1 && i < |steps|
  {
    Next(gate, cfg, states[i], steps[i], states[i + 1])
  }

  ghost predicate IsRun(gate: Gate, cfg: Dedupe.Config, states: seq<State>, steps: seq<Step>) {
    && |states| == |steps| + 1 && Init(states[0])
    && forall i: nat :: i < |steps| ==> StepAt(gate, cfg, states, steps, i)
  }

  lemma {:induction false} RunInv(gate: Gate, cfg: Dedupe.Config, states: seq<State>, steps: seq<Step>, n: nat)
    requires IsRun(gate, cfg, states, steps) && n < |states|
    ensures Inv(gate, cfg, states[n])
  {
    if n > 0 {
      var i := n - 1;
      RunInv(gate, cfg, states, steps, i);
      assert StepAt(gate, cfg, states, steps, i);
      InvStep(gate, cfg, states[i], steps[i], states[i + 1]);
    }
  }

  // ----- main results -----

  /** The two operations are more than the TTL apart, or crowded out by maxEntries other ids. */
  ghost predicate OutsideWindow(cfg: Dedupe.Config, ops: seq<Dedupe.Op>, id: string, i: nat, j: nat) {
    && i < j < |ops|
    && (|| ops[j].now - ops[i].now > cfg.ttl
        || |Dedupe.StampedIn(ops, j, ops[i].now, ops[j].now) - {id}| >= cfg.maxEntries)
  }

  /** A launch after an earlier reservation of the same id, whatever became of the call that made
      it (even if it was rejected), lies outside that reservation's window. */
  lemma ReservationBlocksLaterLaunches(gate: Gate, cfg: Dedupe.Config, states: seq<State>, steps: seq<Step>,
                                       n: nat, i: nat, k: nat)
    requires IsRun(gate, cfg, states, steps) && n < |states| && k < |states[n].launches|
    requires Reserves(states[n].ops, i, states[n].launches[k].cmd.commandId) && i < states[n].launches[k].op
    ensures OutsideWindow(cfg, states[n].ops, states[n].launches[k].cmd.commandId, i, states[n].launches[k].op)
  {
    RunInv(gate, cfg, states, steps, n);
    var s := states[n];
    Dedupe.AtMostOnceWithinWindow(cfg, s.stores, s.ops, i, s.launches[k].op);
  }

  /** The runner starts twice for one command id only outside the dedupe window: more than the TTL
      apart, or with at least maxEntries other ids stamped in between. */
  lemma RunnerStartsOncePerWindow(gate: Gate, cfg: Dedupe.Config, states: seq<State>, steps: seq<Step>,
                                  n: nat, k: nat, l: nat)
    requires IsRun(gate, cfg, states, steps) && n < |states| && k < |states[n].launches| && l < |states[n].launches|
    requires k != l && states[n].launches[k].cmd.commandId == states[n].launches[l].cmd.commandId
    ensures var s := states[n]; var id := s.launches[k].cmd.commandId;
            var a, b := s.launches[k].op, s.launches[l].op;
            && Reserves(s.ops, a, id) && Reserves(s.ops, b, id)
            && (OutsideWindow(cfg, s.ops, id, a, b) || OutsideWindow(cfg, s.ops, id, b, a))
  {
    RunInv(gate, cfg, states, steps, n);
    var s := states[n];
    var a, b := s.launches[k].op, s.launches[l].op;
    if a < b {
      Dedupe.AtMostOnceWithinWindow(cfg, s.stores, s.ops, a, b);
    } else {
      Dedupe.AtMostOnceWithinWindow(cfg, s.stores, s.ops, b, a);
    }
  }

  /** Every request that ever reaches the runner has a well-formed id and is sound. */
  lemma OnlySoundRequestsRun(gate: Gate, cfg: Dedupe.Config, states: seq<State>, steps: seq<Step>, n: nat, k: nat)
    requires IsRun(gate, cfg, states, steps) && n < |states| && k < |states[n].launches|
    ensures IsWellFormedId(states[n].launches[k].cmd.commandId)
    ensures IsSound(gate, states[n].launches[k].cmd, states[n].launches[k].request)
  {
    RunInv(gate, cfg, states, steps, n);
    AdmittedRequestIsSound(gate, states[n].launches[k].cmd);
  }

  /** The audit events of a finished call are exactly received, rejected or received, started,
      finished, in that order, whatever other calls do in between. */
  lemma AuditTrailIsComplete(gate: Gate, cfg: Dedupe.Config, states: seq<State>, steps: seq<Step>, n: nat, c: nat)
    requires IsRun(gate, cfg, states, steps) && n < |states| && c in states[n].calls
    requires states[n].calls[c].pc.DoneRejected? || states[n].calls[c].pc.DoneFinished?
    ensures var trail := TrailOf(states[n].audit, c); var id := states[n].calls[c].cmd.commandId;
            || (exists code :: trail == [Received(id), Event.Rejected(id, code)])
            || trail == [Received(id), Started(id), Finished(id)]
  {
    RunInv(gate, cfg, states, steps, n);
    var trail, id := TrailOf(states[n].audit, c), states[n].calls[c].cmd.commandId;
    assert TrailFits(trail, id, states[n].calls[c].pc);
    if states[n].calls[c].pc.DoneRejected? {
      assert trail == [Received(id), Event.Rejected(id, trail[1].code)];
    }
  }

  /** Every rejection that is ever logged names the first check its command fails. */
  lemma RejectionsAreDeserved(gate: Gate, cfg: Dedupe.Config, states: seq<State>, steps: seq<Step>, n: nat, i: nat)
    requires IsRun(gate, cfg, states, steps) && n < |states| && i < |states[n].audit| && states[n].audit[i].1.Rejected?
    ensures var s := states[n]; var (c, e) := s.audit[i];
            c in s.calls && e.id == s.calls[c].cmd.commandId && Deserves(gate, s.ops, s.calls[c].cmd, e.code)
  {
    RunInv(gate, cfg, states, steps, n);
    assert RejectionOk(gate, states[n], states[n].audit[i]);
  }
}
