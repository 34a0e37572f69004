/** Retry bookkeeping over whole runs of the dispatcher: what the age, the attempt count and the
    next retry time of a pending record mean in terms of what happened to it. */
module RetryHistory {
  import opened Records
  import opened Directories
  import opened Retry
  import opened Outbox
  import opened OutboxLaws
  import opened Dispatcher

  datatype Tracked = Tracked(attempts: int, createdAt: int, nextRetryAt: int)

  /** Replaying the log for one id: the first save starts the clock, each failed delivery adds
      one attempt and sets the next retry time, and saving again changes none of the three. */
  function Track(start: map<string, Record>, log: seq<Event>, id: string): Tracked {
    if log == [] then
      if id in start then Tracked(start[id].attempts, start[id].createdAt, start[id].nextRetryAt)
      else Tracked(0, 0, 0)
    else
      Advance(Track(start, log[..|log| - 1], id), log[|log| - 1], id)
  }

  function Advance(t: Tracked, e: Event, id: string): Tracked {
    match e
    case Put(r, isNew) => if r.recordId == id && isNew then Tracked(0, r.createdAt, r.createdAt) else t
    case MarkedFailed(r) => if r.recordId == id then Tracked(t.attempts + 1, t.createdAt, r.nextRetryAt) else t
    case _ => t
  }

  ghost predicate TracksLog(s: State) {
    forall id :: id in Listed(s.dir) ==> Retries(Listed(s.dir)[id]) == Track(Listed(s.start), s.log, id)
  }

  function Retries(r: Record): Tracked { Tracked(r.attempts, r.createdAt, r.nextRetryAt) }

  lemma TrackOne(start: map<string, Record>, log: seq<Event>, e: Event, id: string)
    ensures Track(start, log + [e], id) == Advance(Track(start, log, id), e, id)
  {
  }

  lemma {:induction false} TrackDrops(start: map<string, Record>, log: seq<Event>, drops: seq<Record>, id: string)
    ensures Track(start, log + DropEvents(drops), id) == Track(start, log, id)
    decreases |drops|
  {
    if drops == [] {
      assert log + DropEvents(drops) == log;
    } else {
      var m := |drops| - 1;
      TrackDrops(start, log, drops[..m], id);
      assert log + DropEvents(drops) == log + DropEvents(drops[..m]) + [Drop(drops[m])];
      TrackOne(start, log + DropEvents(drops[..m]), Drop(drops[m]), id);
    }
  }

  /** What the new events of a step do to the replay. */
  lemma TrackStep(s: State, step: Step, id: string)
    ensures var before, after := Track(Listed(s.start), s.log, id), Track(Listed(s.start), s.log + NewEvents(s, step), id);
            var events := NewEvents(s, step);
            after == if events == [] then before else Advance(before, events[0], id)
  {
    var events := NewEvents(s, step);
    if step.DoSave? && events != [] {
      assert s.log + events == s.log + [events[0]] + DropEvents(step.drops);
      TrackOne(Listed(s.start), s.log, events[0], id);
      TrackDrops(Listed(s.start), s.log + [events[0]], step.drops, id);
    } else if events != [] {
      assert events == [events[0]];
      TrackOne(Listed(s.start), s.log, events[0], id);
    } else {
      assert s.log + events == s.log;
    }
  }

  lemma SaveRetries(s: State, step: Step, id: string)
    requires step.DoSave? && id in ListingAfter(s, step) && Matched(s.dir)
    ensures var events := NewEvents(s, step);
            if events != [] && events[0].rec.recordId == id && id !in Listed(s.dir)
            then events[0].isNew && Retries(ListingAfter(s, step)[id]) == Tracked(0, events[0].rec.createdAt, events[0].rec.createdAt)
            else id in Listed(s.dir) && Retries(ListingAfter(s, step)[id]) == Retries(Listed(s.dir)[id])
                 && (events != [] && events[0].rec.recordId == id ==> !events[0].isNew)
  {
    ListedExactly(s.dir);
  }

  lemma TracksLogStep(cfg: Config, s: State, step: Step, s': State)
    requires Matched(s.dir) && TracksLog(s) && Next(cfg, s, step, s')
    ensures TracksLog(s')
  {
    forall id | id in Listed(s'.dir) ensures Retries(Listed(s'.dir)[id]) == Track(Listed(s'.start), s'.log, id) {
      OneTracksLog(cfg, s, step, s', id);
    }
  }

  lemma OneTracksLog(cfg: Config, s: State, step: Step, s': State, id: string)
    requires Matched(s.dir) && TracksLog(s) && Next(cfg, s, step, s') && id in Listed(s'.dir)
    ensures Retries(Listed(s'.dir)[id]) == Track(Listed(s'.start), s'.log, id)
  {
    if step.DoSave? {
      SaveTracksLog(cfg, s, step, s', id);
    } else if step.DoMark? {
      MarkTracksLog(cfg, s, step, s', id);
    } else {
      StepListing(cfg, s, step, s');
      TrackStep(s, step, id);
    }
  }

  lemma SaveTracksLog(cfg: Config, s: State, step: Step, s': State, id: string)
    requires Matched(s.dir) && TracksLog(s) && Next(cfg, s, step, s') && id in Listed(s'.dir) && step.DoSave?
    ensures Retries(Listed(s'.dir)[id]) == Track(Listed(s'.start), s'.log, id)
  {
    StepListing(cfg, s, step, s');
    TrackStep(s, step, id);
    SaveRetries(s, step, id);
    SaveEventsShape(s, step, 0);
  }

  lemma MarkRetries(dir: Directory, recordId: string, error: string, now: int, size: Record -> nat,
                    r: MarkResult, after: Directory, id: string)
    requires Matched(dir) && MarkSpec(dir, recordId, error, now, size, r, after) && id in Listed(after)
    ensures id in Listed(dir)
    ensures var before := Retries(Listed(dir)[id]);
            Retries(Listed(after)[id]) == if r.Marked? then Advance(before, MarkedFailed(r.record), id) else before
  {
    MarkListing(dir, recordId, error, now, size, r, after);
    if r.Marked? { assert IsMarked(Listed(dir)[recordId], now, error, r.record); }
  }

  lemma MarkTracksLog(cfg: Config, s: State, step: Step, s': State, id: string)
    requires Matched(s.dir) && TracksLog(s) && Next(cfg, s, step, s') && id in Listed(s'.dir) && step.DoMark?
    ensures Retries(Listed(s'.dir)[id]) == Track(Listed(s'.start), s'.log, id)
  {
    MarkRetries(s.dir, s.threads[step.t].rec.recordId, step.error, step.now, cfg.size, step.marked, s'.dir, id);
    if step.marked.Marked? {
      TrackOne(Listed(s.start), s.log, MarkedFailed(step.marked.record), id);
    } else {
      assert s'.log == s.log;
    }
  }

  lemma {:induction false} RetriesFollowTheLog(cfg: Config, states: seq<State>, steps: seq<Step>, n: nat)
    requires IsRun(cfg, states, steps) && n < |states|
    ensures TracksLog(states[n])
  {
    if n > 0 {
      var i := n - 1;
      RetriesFollowTheLog(cfg, states, steps, i);
      RunInv(cfg, states, steps, i);
      var s, step, s' := states[i], steps[i], states[i + 1];
      TracksLogStep(cfg, s, step, s');
    }
  }

  /** The failed deliveries of an id since it was last new. */
  function FailuresSince(log: seq<Event>, id: string): nat {
    if log == [] then 0
    else
      var e := log[|log| - 1];
      if e.Put? && e.rec.recordId == id && e.isNew then 0
      else FailuresSince(log[..|log| - 1], id) + if e.MarkedFailed? && e.rec.recordId == id then 1 else 0
  }

  lemma {:induction false} TrackCountsFailures(start: map<string, Record>, log: seq<Event>, id: string)
    requires id !in start
    ensures Track(start, log, id).attempts == FailuresSince(log, id)
  {
    if log != [] { TrackCountsFailures(start, log[..|log| - 1], id); }
  }

  /** The attempt count of every pending record of a store that started empty is the number of
      its failed deliveries since it was first saved, in every reachable state. */
  lemma AttemptsCountFailures(cfg: Config, states: seq<State>, steps: seq<Step>, n: nat, id: string)
    requires IsRun(cfg, states, steps) && n < |states| && id in Listed(states[n].dir) && id !in Listed(states[n].start)
    ensures Listed(states[n].dir)[id].attempts == FailuresSince(states[n].log, id)
  {
    RetriesFollowTheLog(cfg, states, steps, n);
    TrackCountsFailures(Listed(states[n].start), states[n].log, id);
  }
}
