/** One call of DispatchOnce as a run of the step machine in Dispatcher: thread 0 goes through the
    gate, scans, delivers and leaves. */
module Traces {
  import opened Records
  import opened Directories
  import opened Outbox
  import opened Dispatcher

  /** States joined by steps of the machine. */
  datatype Trace = Trace(states: seq<State>, steps: seq<Step>)

  ghost predicate IsTrace(cfg: Config, t: Trace) {
    && |t.states| == |t.steps| + 1
    && forall i {:trigger t.steps[i]} :: 0 <= i < |t.steps| ==> Next(cfg, t.states[i], t.steps[i], t.states[i + 1])
  }

  function End(t: Trace): State
    requires t.states != []
  {
    t.states[|t.states| - 1]
  }

  function Then(t: Trace, step: Step, s: State): Trace { Trace(t.states + [s], t.steps + [step]) }

  /** From `first`, thread 0 has come to `pc` with the directory in state `dir`. */
  ghost predicate Reaches(cfg: Config, t: Trace, first: State, dir: Directory, pc: Pc) {
    && IsTrace(cfg, t) && t.states[0] == first
    && End(t) == first.(dir := dir, threads := map[0 := pc], sending := true, log := End(t).log)
  }

  lemma OneMore(cfg: Config, t: Trace, step: Step, s: State)
    requires IsTrace(cfg, t) && Next(cfg, End(t), step, s)
    ensures IsTrace(cfg, Then(t, step, s)) && End(Then(t, step, s)) == s && Then(t, step, s).states[0] == t.states[0]
  {
    var more := Then(t, step, s);
    forall i | 0 <= i < |more.steps| ensures Next(cfg, more.states[i], more.steps[i], more.states[i + 1]) {
      if i < |t.steps| {
        assert more.steps[i] == t.steps[i] && more.states[i] == t.states[i] && more.states[i + 1] == t.states[i + 1];
      }
    }
  }

  /** The records whose delivery was started, in order. */
  function Started(log: seq<Event>): seq<Record> {
    if log == [] then []
    else
      var e := log[|log| - 1];
      Started(log[..|log| - 1]) + if e.SendStarted? then [e.rec] else []
  }

  /** How the deliveries that ended came out, in order. */
  function Acks(log: seq<Event>): seq<bool> {
    if log == [] then []
    else
      var e := log[|log| - 1];
      Acks(log[..|log| - 1]) + if e.SendSucceeded? then [true] else if e.SendFailed? then [false] else []
  }

  lemma LogAppend(log: seq<Event>, e: Event)
    ensures Started(log + [e]) == Started(log) + if e.SendStarted? then [e.rec] else []
    ensures Acks(log + [e]) == Acks(log) + if e.SendSucceeded? then [true] else if e.SendFailed? then [false] else []
  {
    assert (log + [e])[..|log|] == log;
  }

  /** The log went on without a delivery starting or ending. */
  ghost predicate IsQuiet(log: seq<Event>, log': seq<Event>) {
    && log <= log' && Started(log') == Started(log) && Acks(log') == Acks(log)
    && forall i :: |log| <= i < |log'| ==> !IsSend(log'[i])
  }

  predicate IsSend(e: Event) { e.SendStarted? || e.SendSucceeded? || e.SendFailed? }

  lemma Entering(cfg: Config, first: State) returns (t: Trace)
    requires !first.sending && first.threads == map[]
    ensures Reaches(cfg, t, first, first.dir, Gated) && End(t).log == first.log
  {
    var s := first.(threads := map[0 := Gated], sending := true);
    OneMore(cfg, Trace([first], []), Enter(0), s);
    t := Then(Trace([first], []), Enter(0), s);
  }

  lemma Scanning(cfg: Config, t: Trace, first: State, dir: Directory, now: int, due: seq<Record>)
    returns (t': Trace, readAt: nat)
    requires Reaches(cfg, t, first, dir, Gated) && DueSpec(dir, now, BATCH_SIZE, due)
    ensures Reaches(cfg, t', first, dir, Batch(due, readAt)) && End(t').log == End(t).log + [Read(0, due)]
  {
    var s := End(t);
    readAt := |s.log|;
    var s' := s.(threads := map[0 := Batch(due, readAt)], log := s.log + [Read(0, due)]);
    OneMore(cfg, t, ReadDue(0, now, due), s');
    t' := Then(t, ReadDue(0, now, due), s');
  }

  lemma Offering(cfg: Config, t: Trace, first: State, dir: Directory, todo: seq<Record>, readAt: nat)
    returns (t': Trace, via: Via)
    requires Reaches(cfg, t, first, dir, Batch(todo, readAt)) && todo != [] && (first.ws.Some? || first.pull)
    ensures Reaches(cfg, t', first, dir, Sending(todo[0], via, todo[1..], readAt))
    ensures End(t').log == End(t).log + [SendStarted(0, todo[0], via)]
    ensures if first.ws.Some? then via.WebSocket? && via.conn == first.ws.value else via.Pull? && first.pull
  {
    var s := End(t);
    via := Sender(s).value;
    var s' := s.(threads := map[0 := Sending(todo[0], via, todo[1..], readAt)], log := s.log + [SendStarted(0, todo[0], via)]);
    OneMore(cfg, t, StartSend(0), s');
    t' := Then(t, StartSend(0), s');
  }

  lemma Acknowledging(cfg: Config, t: Trace, first: State, dir: Directory, rec: Record, via: Via, todo: seq<Record>, readAt: nat)
    returns (t': Trace, sentAt: nat)
    requires Reaches(cfg, t, first, dir, Sending(rec, via, todo, readAt))
    ensures Reaches(cfg, t', first, dir, Delivered(rec, via, todo, readAt, sentAt))
    ensures End(t').log == End(t).log + [SendSucceeded(0, rec, via)]
  {
    var s := End(t);
    sentAt := |s.log|;
    var s' := s.(threads := map[0 := Delivered(rec, via, todo, readAt, sentAt)], log := s.log + [SendSucceeded(0, rec, via)]);
    OneMore(cfg, t, EndSend(0, true), s');
    t' := Then(t, EndSend(0, true), s');
  }

  lemma Failing(cfg: Config, t: Trace, first: State, dir: Directory, rec: Record, via: Via, todo: seq<Record>, readAt: nat)
    returns (t': Trace)
    requires Reaches(cfg, t, first, dir, Sending(rec, via, todo, readAt))
    ensures Reaches(cfg, t', first, dir, Undelivered(rec, todo, readAt))
    ensures End(t').log == End(t).log + [SendFailed(0, rec, via)]
  {
    var s := End(t);
    var s' := s.(threads := map[0 := Undelivered(rec, todo, readAt)], log := s.log + [SendFailed(0, rec, via)]);
    OneMore(cfg, t, EndSend(0, false), s');
    t' := Then(t, EndSend(0, false), s');
  }

  lemma Marking(cfg: Config, t: Trace, first: State, dir: Directory, rec: Record, todo: seq<Record>, readAt: nat,
                error: string, now: int, r: MarkResult, after: Directory) returns (t': Trace)
    requires Reaches(cfg, t, first, dir, Undelivered(rec, todo, readAt))
    requires MarkSpec(dir, rec.recordId, error, now, cfg.size, r, after)
    ensures Reaches(cfg, t', first, after, if r.Marked? then Batch(todo, readAt) else Leaving)
    ensures IsQuiet(End(t).log, End(t').log)
  {
    var s := End(t);
    MarkIsQuiet(s, error, now, r, after);
    var step := DoMark(0, error, now, r, after);
    var s' := s.(dir := after, threads := map[0 := if r.Marked? then Batch(todo, readAt) else Leaving],
                 log := s.log + NewEvents(s, step));
    OneMore(cfg, t, step, s');
    t' := Then(t, step, s');
  }

  lemma MarkIsQuiet(s: State, error: string, now: int, r: MarkResult, after: Directory)
    ensures IsQuiet(s.log, s.log + NewEvents(s, DoMark(0, error, now, r, after)))
  {
    assert s.log + [] == s.log;
    if r.Marked? { LogAppend(s.log, MarkedFailed(r.record)); }
  }

  lemma Deleting(cfg: Config, t: Trace, first: State, dir: Directory, rec: Record, via: Via, todo: seq<Record>,
                 readAt: nat, sentAt: nat, ok: bool, after: Directory) returns (t': Trace)
    requires Reaches(cfg, t, first, dir, Delivered(rec, via, todo, readAt, sentAt)) && DeleteSpec(dir, rec.recordId, ok, after)
    ensures Reaches(cfg, t', first, after, if ok then Batch(todo, readAt) else Leaving)
    ensures IsQuiet(End(t).log, End(t').log)
  {
    var s := End(t);
    var step := DoDelete(0, ok, after);
    assert s.log + [] == s.log;
    if ok {
      var e := NewEvents(s, step)[0];
      assert NewEvents(s, step) == [e];
      LogAppend(s.log, e);
    }
    var s' := s.(dir := after, threads := map[0 := if ok then Batch(todo, readAt) else Leaving],
                 log := s.log + NewEvents(s, step));
    OneMore(cfg, t, step, s');
    t' := Then(t, step, s');
  }

  /** Every way out of the call clears the flag. */
  lemma LeavingGate(cfg: Config, t: Trace, first: State, dir: Directory, pc: Pc) returns (t': Trace)
    requires Reaches(cfg, t, first, dir, pc) && (pc.Gated? || pc.Batch? || pc.Leaving?)
    requires !first.sending && first.threads == map[]
    ensures IsTrace(cfg, t') && t'.states[0] == first && End(t') == first.(dir := dir, log := End(t).log)
  {
    t' := t;
    if !pc.Leaving? {
      var s := End(t).(threads := map[0 := Leaving]);
      assert NewEvents(End(t), Abandon(0)) == [] && End(t).log + [] == End(t).log;
      OneMore(cfg, t, Abandon(0), s);
      t' := Then(t, Abandon(0), s);
    }
    var s := End(t').(threads := map[], sending := false);
    assert End(t').threads - {0} == map[];
    OneMore(cfg, t', Leave(0), s);
    t' := Then(t', Leave(0), s);
  }
}
