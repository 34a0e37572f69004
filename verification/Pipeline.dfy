/** From command to result: one connection's queue and workers together with the dispatcher, for one
    lifetime of the process.  A worker that has a result, and a read loop that has a rejection, hand
    it to the store before they go on. */
module Pipeline {
  import opened Protocol
  import opened Records
  import opened Directories
  import opened Outbox
  import D = Dispatcher
  import J = Jobs
  import F = Fates

  /** One hand-over: the job, its result envelope, what the store made of it, and the log position. */
  datatype Offer = Offer(job: J.Job, env: Envelope, saved: SaveResult, at: nat)

  datatype State = State(j: J.Conn, d: D.State, offers: seq<Offer>)

  datatype Step =
    | OnJobs(move: J.Step)
    | OnDispatcher(step: D.Step)
    | HandOver(job: J.Job, save: D.Step)

  ghost predicate Init(s: State) { J.Init(s.j) && D.Init(s.d) && s.offers == [] }

  predicate IsReporting(c: J.Conn, job: J.Job) {
    (exists w | 0 <= w < |c.workers| :: c.workers[w] == J.Reporting(job)) || c.reader == J.Rejecting(job)
  }

  predicate IsOffered(offers: seq<Offer>, job: J.Job) {
    exists i | 0 <= i < |offers| :: offers[i].job == job
  }

  /** Nobody goes on before its result was handed over. */
  predicate HandedOverFirst(s: State, step: J.Step) {
    match step
    case ReportDone(w) => w < |s.j.workers| && s.j.workers[w].Reporting? && IsOffered(s.offers, s.j.workers[w].job)
    case ReaderContinues => s.j.reader.Rejecting? ==> IsOffered(s.offers, s.j.reader.job)
    case ReaderFails => s.j.reader.Rejecting? ==> IsOffered(s.offers, s.j.reader.job)
    case _ => true
  }

  ghost predicate Next(cfg: D.Config, s: State, step: Step, s': State) {
    match step
    case OnJobs(js) => J.Next(s.j, js, s'.j) && HandedOverFirst(s, js) && s'.d == s.d && s'.offers == s.offers
    case OnDispatcher(ds) => D.Next(cfg, s.d, ds, s'.d) && !ds.Restart? && s'.j == s.j && s'.offers == s.offers
    case HandOver(job, ds) =>
      && IsReporting(s.j, job) && !IsOffered(s.offers, job)
      && ds.DoSave? && ds.env.kind == Result && CommandIdOf(ds.env) == Some(job.command.commandId)
      && D.Next(cfg, s.d, ds, s'.d) && s'.j == s.j
      && s'.offers == s.offers + [Offer(job, ds.env, ds.saved, |s.d.log|)]
  }

  // ----- every result is handed over -----

  ghost predicate ResultsHandedOver(s: State) {
    forall job :: job in J.JobsOf(s.j.results) ==> IsReporting(s.j, job) || IsOffered(s.offers, job)
  }

  /** A step of the connection keeps who is reporting, adds who has a new result, and lets go only
      of those that were handed over. */
  lemma ReportingStep(s: State, step: J.Step, s': State, job: J.Job)
    requires J.Next(s.j, step, s'.j) && HandedOverFirst(s, step) && s'.offers == s.offers
    requires job in J.JobsOf(s'.j.results)
    requires job in J.JobsOf(s.j.results) ==> IsReporting(s.j, job) || IsOffered(s.offers, job)
    ensures IsReporting(s'.j, job) || IsOffered(s'.offers, job)
  {
    if job in J.JobsOf(s.j.results) {
      if !IsOffered(s.offers, job) { StillReporting(s, step, s', job); }
    } else {
      NewResultIsReported(s.j, step, s'.j, job);
    }
  }

  lemma StillReporting(s: State, step: J.Step, s': State, job: J.Job)
    requires J.Next(s.j, step, s'.j) && HandedOverFirst(s, step)
    requires IsReporting(s.j, job) && !IsOffered(s.offers, job)
    ensures IsReporting(s'.j, job)
  {
    if w :| 0 <= w < |s.j.workers| && s.j.workers[w] == J.Reporting(job) {
      assert s'.j.workers[w] == J.Reporting(job);
    }
  }

  lemma NewResultIsReported(c: J.Conn, step: J.Step, c': J.Conn, job: J.Job)
    requires J.Next(c, step, c') && job in J.JobsOf(c'.results) && job !in J.JobsOf(c.results)
    ensures IsReporting(c', job)
  {
    var i :| 0 <= i < |c'.results| && c'.results[i].0 == job;
    assert forall m :: 0 <= m < |c.results| ==> c'.results[m] == c.results[m] && J.JobsOf(c.results)[m] == c.results[m].0;
    if step.HandlerReturns? { assert c'.workers[step.w] == J.Reporting(job); }
  }

  lemma OffersGrow(offers: seq<Offer>, more: seq<Offer>, job: J.Job)
    ensures IsOffered(offers, job) ==> IsOffered(offers + more, job)
  {
    if i :| 0 <= i < |offers| && offers[i].job == job { assert (offers + more)[i].job == job; }
  }

  lemma ResultsStep(cfg: D.Config, s: State, step: Step, s': State)
    requires ResultsHandedOver(s) && Next(cfg, s, step, s')
    ensures ResultsHandedOver(s')
  {
    forall job | job in J.JobsOf(s'.j.results) ensures IsReporting(s'.j, job) || IsOffered(s'.offers, job) {
      match step
      case OnJobs(js) => ReportingStep(s, js, s', job);
      case HandOver(_, ds) => OffersGrow(s.offers, [Offer(step.job, ds.env, ds.saved, |s.d.log|)], job);
      case OnDispatcher(_) =>
    }
  }

  // ----- each at most once, and what the store made of it -----

  /** If the store put it in place, the log has it there, under the command's own id. */
  ghost predicate OfferOk(log: seq<D.Event>, o: Offer) {
    o.saved.Saved? || o.saved.LimitsFailed? ==>
      && o.at < |log| && log[o.at].Put? && log[o.at].rec.commandId == o.job.command.commandId
      && log[o.at].rec.recordId == SanitizeRecordId(o.job.command.commandId)
      && log[o.at].rec.envelope == SanitizedEnvelope(o.env)
  }

  ghost predicate OffersOk(s: State) {
    && (forall i :: 0 <= i < |s.offers| ==> OfferOk(s.d.log, s.offers[i]))
    && (forall i, j :: 0 <= i < j < |s.offers| ==> s.offers[i].job != s.offers[j].job)
  }

  lemma PutOfOffer(cfg: D.Config, s: D.State, ds: D.Step, s': D.State, commandId: string)
    requires D.Next(cfg, s, ds, s') && ds.DoSave? && CommandIdOf(ds.env) == Some(commandId)
    requires ds.saved.Saved? || ds.saved.LimitsFailed?
    ensures |s'.log| > |s.log| && s'.log[|s.log|].Put?
    ensures var r := s'.log[|s.log|].rec;
            r.commandId == commandId && r.recordId == SanitizeRecordId(commandId) && r.envelope == SanitizedEnvelope(ds.env)
  {
    SanitizeKeepsCommandId(ds.env);
    PutIdentity(s.dir, ds.env, ds.now, ds.saved, ds.drops);
    var events := D.NewEvents(s, ds);
    assert s'.log[|s.log|] == events[0];
  }

  lemma PutIdentity(dir: Directory, env: Envelope, now: int, r: SaveResult, drops: seq<Record>)
    requires NewRecord(env, now).Accepted? && (r.Saved? || r.LimitsFailed?)
    ensures var events := D.SaveEvents(dir, env, now, r, drops);
            && events != [] && events[0].Put? && events[0].rec.envelope == SanitizedEnvelope(env)
            && CommandIdOf(SanitizedEnvelope(env)) == Some(events[0].rec.commandId)
            && events[0].rec.recordId == SanitizeRecordId(events[0].rec.commandId)
  {
  }

  lemma OffersStep(cfg: D.Config, s: State, step: Step, s': State)
    requires OffersOk(s) && Next(cfg, s, step, s')
    ensures OffersOk(s')
  {
    assert s.d.log <= s'.d.log;
    forall i | 0 <= i < |s'.offers| ensures OfferOk(s'.d.log, s'.offers[i]) {
      if i < |s.offers| {
        assert OfferOk(s.d.log, s.offers[i]) && s'.offers[i] == s.offers[i];
      } else if step.save.saved.Saved? || step.save.saved.LimitsFailed? {
        PutOfOffer(cfg, s.d, step.save, s'.d, step.job.command.commandId);
      }
    }
    if step.HandOver? {
      forall i | 0 <= i < |s.offers| ensures s.offers[i].job != step.job {
        assert s.offers[i].job == step.job ==> IsOffered(s.offers, step.job);
      }
    }
  }

  // ----- whole runs -----

  ghost predicate IsRun(cfg: D.Config, states: seq<State>, steps: seq<Step>) {
    && |states| == |steps| + 1 && Init(states[0])
    && forall i {:trigger steps[i]} :: 0 <= i < |steps| ==> Next(cfg, states[i], steps[i], states[i + 1])
  }

  ghost predicate Inv(s: State) { J.Inv(s.j) && ResultsHandedOver(s) && OffersOk(s) }

  lemma {:induction false} RunInv(cfg: D.Config, states: seq<State>, steps: seq<Step>, n: nat)
    requires IsRun(cfg, states, steps) && n < |states|
    ensures Inv(states[n])
  {
    if n == 0 {
      J.InitInv(states[0].j);
    } else {
      var i := n - 1;
      RunInv(cfg, states, steps, i);
      var s, step, s' := states[i], steps[i], states[i + 1];
      ResultsStep(cfg, s, step, s');
      OffersStep(cfg, s, step, s');
      if step.OnJobs? { J.InvStep(s.j, step.move, s'.j); }
    }
  }

  /** The dispatcher's part of a run is a run of the dispatcher. */
  lemma {:induction false} DispatcherRun(cfg: D.Config, states: seq<State>, steps: seq<Step>, n: nat)
    returns (ds: seq<D.State>, dsteps: seq<D.Step>)
    requires IsRun(cfg, states, steps) && n < |states|
    ensures D.IsRun(cfg, ds, dsteps) && ds[|dsteps|] == states[n].d
  {
    if n == 0 {
      ds, dsteps := [states[0].d], [];
    } else {
      var i := n - 1;
      ds, dsteps := DispatcherRun(cfg, states, steps, i);
      var s, step, s' := states[i], steps[i], states[i + 1];
      assert Next(cfg, s, step, s');
      if !step.OnJobs? {
        var d := if step.HandOver? then step.save else step.step;
        D.RunOneMore(cfg, ds, dsteps, d, s'.d);
        ds, dsteps := ds + [s'.d], dsteps + [d];
      }
    }
  }

  /** The result of this hand-over is pending, was delivered, was dropped, replaced or overtaken; or
      it was never put in place. */
  ghost predicate IsAccountedFor(d: D.State, o: Offer) {
    var id, env := SanitizeRecordId(o.job.command.commandId), SanitizedEnvelope(o.env);
    || o.saved.SaveRefused? || o.saved.WriteFailed? || o.job.command.commandId == ""
    || (id in Listed(d.dir) && Listed(d.dir)[id].envelope == env)
    || F.SentIn(d.log, o.at + 1, |d.log|, id, env)
    || F.DroppedUnsaved(d.log, o.at, id) || F.Replaced(d.log, o.at, id) || F.Overtaken(d.log, o.at, id)
  }

  lemma OfferFate(cfg: D.Config, states: seq<State>, steps: seq<Step>, n: nat, i: nat)
    requires IsRun(cfg, states, steps) && n < |states| && i < |states[n].offers|
    ensures IsAccountedFor(states[n].d, states[n].offers[i])
  {
    RunInv(cfg, states, steps, n);
    var o, d := states[n].offers[i], states[n].d;
    assert OfferOk(d.log, o);
    if (o.saved.Saved? || o.saved.LimitsFailed?) && o.job.command.commandId != "" {
      var ds, dsteps := DispatcherRun(cfg, states, steps, n);
      D.RunInv(cfg, ds, dsteps, |dsteps|);
      SanitizeYieldsCanonicalId(o.job.command.commandId);
      F.EveryResultIsAccountedFor(cfg, ds, dsteps, |dsteps|, o.at, SanitizeRecordId(o.job.command.commandId));
    }
  }

  /** From command to result: in every reachable state, every command that arrived is queued, with
      a worker, about to be handed over, or its result was handed to the store, exactly once, and is
      accounted for there. */
  lemma EveryCommandIsAccountedFor(cfg: D.Config, states: seq<State>, steps: seq<Step>, n: nat, k: nat)
    requires IsRun(cfg, states, steps) && n < |states| && k < |states[n].j.arrived|
    ensures var s := states[n]; var job := s.j.arrived[k];
            || job in s.j.queue || J.Running(s.j.workers, job) > 0 || IsReporting(s.j, job)
            || exists i :: 0 <= i < |s.offers| && s.offers[i].job == job && IsAccountedFor(s.d, s.offers[i])
                 && forall l :: 0 <= l < |s.offers| && s.offers[l].job == job ==> l == i
  {
    RunInv(cfg, states, steps, n);
    var s := states[n];
    var job := s.j.arrived[k];
    J.CountedMeansIn(s.j.arrived, job);
    assert J.CountOf(s.j.arrived, job) == J.Places(s.j, job);
    J.CountedMeansIn(s.j.queue, job);
    J.CountedMeansIn(J.JobsOf(s.j.results), job);
    if job in J.JobsOf(s.j.results) && !IsReporting(s.j, job) {
      var i :| 0 <= i < |s.offers| && s.offers[i].job == job;
      OfferFate(cfg, states, steps, n, i);
    }
  }
}
