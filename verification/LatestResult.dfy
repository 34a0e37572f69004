/** Conservation of the result itself, not only of its record: saving the same command again
    replaces the stored envelope, so what has to reach the cloud is the envelope saved last. */
module LatestResult {
  import opened Protocol
  import opened Records
  import opened Directories
  import opened Outbox
  import opened OutboxLaws
  import opened Dispatcher

  /** The put at position i is the last put of its id before position n. */
  ghost predicate IsLastPut(log: seq<Event>, i: nat, n: nat, id: string) {
    i < n <= |log| && log[i].Put? && log[i].rec.recordId == id && !PutBetween(log, i + 1, n, id)
  }

  /** A listed record carries the envelope put last, and so did every scanned record. */
  ghost predicate Current(s: State) {
    && (forall id, i: nat :: id in Listed(s.dir) && IsLastPut(s.log, i, |s.log|, id) ==>
          Listed(s.dir)[id].envelope == s.log[i].rec.envelope)
    && (forall p: nat :: p < |s.log| && s.log[p].Read? ==> ReadIsCurrent(s.log, p))
  }

  ghost predicate ReadIsCurrent(log: seq<Event>, p: nat)
    requires p < |log| && log[p].Read?
  {
    forall r, i: nat :: r in log[p].due && IsLastPut(log, i, p, r.recordId) ==> r.envelope == log[i].rec.envelope
  }

  lemma LastPutInPrefix(log: seq<Event>, more: seq<Event>, i: nat, n: nat, id: string)
    requires n <= |log|
    ensures IsLastPut(log + more, i, n, id) == IsLastPut(log, i, n, id)
  {
    PutBetweenPrefix(log, more, i + 1, n, id);
    assert i < n ==> (log + more)[i] == log[i];
  }

  /** Being last in a longer log means being last in the part that already held the put. */
  lemma LastPutShrinks(log: seq<Event>, i: nat, m: nat, n: nat, id: string)
    requires i < m <= n && IsLastPut(log, i, n, id)
    ensures IsLastPut(log, i, m, id)
  {
  }

  /** A new put of an id decides what is listed under it. */
  lemma NewPutIsListed(s: State, step: Step, id: string)
    requires id in ListingAfter(s, step) && NewEvents(s, step) != []
    requires NewEvents(s, step)[0].Put? && NewEvents(s, step)[0].rec.recordId == id
    ensures ListingAfter(s, step)[id] == NewEvents(s, step)[0].rec
  {
  }

  lemma ListedIsCurrent(cfg: Config, s: State, step: Step, s': State, id: string, i: nat)
    requires Matched(s.dir) && Current(s) && Next(cfg, s, step, s')
    requires id in Listed(s'.dir) && IsLastPut(s'.log, i, |s'.log|, id)
    ensures Listed(s'.dir)[id].envelope == s'.log[i].rec.envelope
  {
    StepListing(cfg, s, step, s');
    ListingAfterOrigin(cfg, s, step, s', id);
    var events := NewEvents(s, step);
    assert events != [] ==> s'.log[|s.log|] == events[0];
    if i < |s.log| {
      LastPutShrinks(s'.log, i, |s.log|, |s'.log|, id);
      LastPutInPrefix(s.log, events, i, |s.log|, id);
    } else {
      assert s'.log[i] == events[i - |s.log|];
      EventsExplainListing(s, step, id);
      NewPutIsListed(s, step, id);
    }
  }

  lemma OldReadIsCurrent(log: seq<Event>, more: seq<Event>, p: nat)
    requires p < |log| && log[p].Read? && ReadIsCurrent(log, p)
    ensures (log + more)[p] == log[p] && ReadIsCurrent(log + more, p)
  {
    forall r, i: nat | r in log[p].due && IsLastPut(log + more, i, p, r.recordId)
      ensures r.envelope == (log + more)[i].rec.envelope
    {
      LastPutInPrefix(log, more, i, p, r.recordId);
    }
  }

  /** A scan reads what is listed, so it reads the envelopes put last. */
  lemma NewReadIsCurrent(s: State, t: nat, now: int, due: seq<Record>)
    requires Matched(s.dir) && Current(s) && DueSpec(s.dir, now, BATCH_SIZE, due)
    ensures ReadIsCurrent(s.log + [Read(t, due)], |s.log|)
  {
    DueIsOldestDueRecords(s.dir, now, BATCH_SIZE, due);
    forall r, i: nat | r in due && IsLastPut(s.log + [Read(t, due)], i, |s.log|, r.recordId)
      ensures r.envelope == (s.log + [Read(t, due)])[i].rec.envelope
    {
      LastPutInPrefix(s.log, [Read(t, due)], i, |s.log|, r.recordId);
    }
  }

  lemma ReadsAreCurrent(cfg: Config, s: State, step: Step, s': State, p: nat)
    requires Matched(s.dir) && Current(s) && Next(cfg, s, step, s') && p < |s'.log| && s'.log[p].Read?
    ensures ReadIsCurrent(s'.log, p)
  {
    if p < |s.log| {
      assert s'.log[p] == s.log[p];
      OldReadIsCurrent(s.log, NewEvents(s, step), p);
    } else {
      assert s'.log[p] == NewEvents(s, step)[p - |s.log|];
      SaveEventsShape(s, step, p - |s.log|);
      NewReadIsCurrent(s, step.t, step.now, step.due);
    }
  }

  lemma CurrentStep(cfg: Config, s: State, step: Step, s': State)
    requires Matched(s.dir) && Current(s) && Next(cfg, s, step, s')
    ensures Current(s')
  {
    forall id, i: nat | id in Listed(s'.dir) && IsLastPut(s'.log, i, |s'.log|, id)
      ensures Listed(s'.dir)[id].envelope == s'.log[i].rec.envelope
    {
      ListedIsCurrent(cfg, s, step, s', id, i);
    }
    forall p: nat | p < |s'.log| && s'.log[p].Read? ensures ReadIsCurrent(s'.log, p) {
      ReadsAreCurrent(cfg, s, step, s', p);
    }
  }

  lemma LogOfSaveAlone(dir: Directory, env: Envelope, now: int, r: SaveResult, incoming: Record)
    requires NewRecord(env, now) == Accepted(incoming) && r.Saved? && r.record == KeepRetryState(dir, incoming)
    requires incoming.recordId == r.record.recordId
    ensures SaveEvents(dir, env, now, r, []) == [Put(r.record, r.record.recordId !in Listed(dir))]
  {
  }
}
