/** What becomes of every saved result, in every interleaving: the exact conditions under which it
    is delivered, replaced, or removed with a delivery of its predecessor. */
module Fates {
  import opened Protocol
  import opened Records
  import opened Directories
  import opened Retry
  import opened OutboxLaws
  import opened Dispatcher
  import opened LatestResult

  // ----- removals decide what is listed -----

  predicate IsRemoval(e: Event, id: string) { (e.Drop? || e.Deleted?) && e.rec.recordId == id }

  ghost predicate RemovedIn(log: seq<Event>, from: int, to: int, id: string) {
    exists j :: 0 <= j < |log| && from <= j < to && IsRemoval(log[j], id)
  }

  /** An id is listed exactly if its last put was valid and nothing removed it since. */
  ghost predicate Present(s: State) {
    forall id, i: nat :: IsLastPut(s.log, i, |s.log|, id) ==>
      (id in Listed(s.dir) <==> IsValidRecord(s.log[i].rec) && !RemovedIn(s.log, i + 1, |s.log|, id))
  }

  lemma RemovedInExtends(log: seq<Event>, more: seq<Event>, from: nat, id: string)
    requires from <= |log|
    ensures RemovedIn(log + more, from, |log + more|, id) <==>
            RemovedIn(log, from, |log|, id) || RemovedIn(more, 0, |more|, id)
  {
    var all := log + more;
    if j :| 0 <= j < |all| && from <= j && IsRemoval(all[j], id) {
      assert if j < |log| then all[j] == log[j] else all[j] == more[j - |log|];
    }
    if j :| 0 <= j < |log| && from <= j && IsRemoval(log[j], id) { assert all[j] == log[j]; }
    if j :| 0 <= j < |more| && IsRemoval(more[j], id) { assert all[|log| + j] == more[j]; }
  }

  lemma RemovedInPrefix(log: seq<Event>, more: seq<Event>, from: nat, to: nat, id: string)
    requires to <= |log|
    ensures RemovedIn(log + more, from, to, id) == RemovedIn(log, from, to, id)
  {
    var all := log + more;
    if j :| 0 <= j < |all| && from <= j < to && IsRemoval(all[j], id) { assert all[j] == log[j]; }
    if j :| 0 <= j < |log| && from <= j < to && IsRemoval(log[j], id) { assert all[j] == log[j]; }
  }

  /** Without a new put of an id, it stays listed exactly if the step logs no removal of it. */
  lemma ListingKeeps(cfg: Config, s: State, step: Step, s': State, id: string)
    requires Matched(s.dir) && Next(cfg, s, step, s')
    requires forall p :: 0 <= p < |NewEvents(s, step)| && NewEvents(s, step)[p].Put? ==> NewEvents(s, step)[p].rec.recordId != id
    ensures id in ListingAfter(s, step) <==>
            id in Listed(s.dir) && !RemovedIn(NewEvents(s, step), 0, |NewEvents(s, step)|, id)
  {
    if step.DoSave? {
      SaveKeeps(s, step, id);
    } else if step.DoMark? {
      MarkRemovesNothing(cfg, s, step, s', id);
    } else if step.DoDelete? {
      DeleteRemovesOne(s, step, id);
    } else {
      OtherStepsRemoveNothing(s, step, id);
    }
  }

  lemma OtherStepsRemoveNothing(s: State, step: Step, id: string)
    requires !step.DoSave? && !step.DoMark? && !step.DoDelete?
    ensures ListingAfter(s, step) == Listed(s.dir) && !RemovedIn(NewEvents(s, step), 0, |NewEvents(s, step)|, id)
  {
  }

  lemma SaveKeeps(s: State, step: Step, id: string)
    requires step.DoSave? && (NewEvents(s, step) != [] && NewEvents(s, step)[0].Put? ==> NewEvents(s, step)[0].rec.recordId != id)
    ensures id in ListingAfter(s, step) <==>
            id in Listed(s.dir) && !RemovedIn(NewEvents(s, step), 0, |NewEvents(s, step)|, id)
  {
    if NewEvents(s, step) != [] {
      SaveEventsShape(s, step, 0);
      SaveRemovals(s, step, id);
    }
  }

  lemma MarkRemovesNothing(cfg: Config, s: State, step: Step, s': State, id: string)
    requires Matched(s.dir) && Next(cfg, s, step, s') && step.DoMark?
    ensures id in ListingAfter(s, step) <==> id in Listed(s.dir)
    ensures !RemovedIn(NewEvents(s, step), 0, |NewEvents(s, step)|, id)
  {
    if step.marked.Marked? {
      assert IsMarked(Listed(s.dir)[s.threads[step.t].rec.recordId], step.now, step.error, step.marked.record);
    }
  }

  lemma DeleteRemovesOne(s: State, step: Step, id: string)
    requires step.DoDelete?
    ensures id in ListingAfter(s, step) <==>
            id in Listed(s.dir) && !RemovedIn(NewEvents(s, step), 0, |NewEvents(s, step)|, id)
  {
    var events := NewEvents(s, step);
    if events != [] { assert IsRemoval(events[0], events[0].rec.recordId); }
  }

  lemma SaveRemovals(s: State, step: Step, id: string)
    requires step.DoSave? && NewEvents(s, step) != []
    ensures RemovedIn(NewEvents(s, step), 0, |NewEvents(s, step)|, id) <==> id in Ids(step.drops)
    ensures RemovedIn(NewEvents(s, step), 1, |NewEvents(s, step)|, id) <==> id in Ids(step.drops)
  {
    var events := NewEvents(s, step);
    assert forall p :: 0 < p < |events| ==> events[p] == Drop(step.drops[p - 1]);
    if id in Ids(step.drops) {
      var i :| 0 <= i < |step.drops| && step.drops[i].recordId == id;
      assert IsRemoval(events[i + 1], id);
    }
  }

  lemma PresentStep(cfg: Config, s: State, step: Step, s': State, id: string, i: nat)
    requires Matched(s.dir) && Present(s) && Next(cfg, s, step, s') && IsLastPut(s'.log, i, |s'.log|, id)
    ensures id in Listed(s'.dir) <==> IsValidRecord(s'.log[i].rec) && !RemovedIn(s'.log, i + 1, |s'.log|, id)
  {
    StepListing(cfg, s, step, s');
    var events := NewEvents(s, step);
    if i < |s.log| {
      OldPutStep(cfg, s, step, s', id, i);
    } else {
      assert s'.log[i] == events[i - |s.log|];
      EventsExplainListing(s, step, id);
      NewPutStep(s, step, id);
      assert s'.log == s.log + events;
      RemovedFromNew(s.log, events, id);
    }
  }

  lemma OldPutStep(cfg: Config, s: State, step: Step, s': State, id: string, i: nat)
    requires Matched(s.dir) && Present(s) && Next(cfg, s, step, s') && IsLastPut(s'.log, i, |s'.log|, id) && i < |s.log|
    ensures id in ListingAfter(s, step) <==> IsValidRecord(s'.log[i].rec) && !RemovedIn(s'.log, i + 1, |s'.log|, id)
  {
    var events := NewEvents(s, step);
    LastPutShrinks(s'.log, i, |s.log|, |s'.log|, id);
    LastPutInPrefix(s.log, events, i, |s.log|, id);
    RemovedInExtends(s.log, events, i + 1, id);
    forall p | 0 <= p < |events| && events[p].Put? ensures events[p].rec.recordId != id {
      assert s'.log[|s.log| + p] == events[p];
    }
    ListingKeeps(cfg, s, step, s', id);
  }

  lemma NewPutStep(s: State, step: Step, id: string)
    requires step.DoSave? && NewEvents(s, step) != [] && NewEvents(s, step)[0].Put? && NewEvents(s, step)[0].rec.recordId == id
    ensures id in ListingAfter(s, step) <==>
            IsValidRecord(NewEvents(s, step)[0].rec) && !RemovedIn(NewEvents(s, step), 1, |NewEvents(s, step)|, id)
  {
    SaveRemovals(s, step, id);
  }

  lemma RemovedFromNew(log: seq<Event>, events: seq<Event>, id: string)
    ensures RemovedIn(log + events, |log| + 1, |log + events|, id) == RemovedIn(events, 1, |events|, id)
  {
    var all := log + events;
    if j :| 0 <= j < |all| && |log| + 1 <= j && IsRemoval(all[j], id) { assert all[j] == events[j - |log|]; }
    if j :| 0 <= j < |events| && 1 <= j && IsRemoval(events[j], id) { assert all[|log| + j] == events[j]; }
  }

  // ----- flights -----

  predicate HasQueue(pc: Pc) { !pc.Gated? && !pc.Leaving? }

  /** What a thread has scanned and not dealt with yet, the record at hand first. */
  function Queue(pc: Pc): seq<Record> {
    match pc
    case Batch(todo, _) => todo
    case Sending(rec, _, todo, _) => [rec] + todo
    case Delivered(rec, _, todo, _, _) => [rec] + todo
    case Undelivered(rec, todo, _) => [rec] + todo
    case _ => []
  }

  ghost predicate NoIdTwice(records: seq<Record>) {
    forall i, j :: 0 <= i < j < |records| ==> records[i].recordId != records[j].recordId
  }

  predicate IsSuccessOf(e: Event, id: string) { e.SendSucceeded? && e.rec.recordId == id }

  /** Since the scan of a thread, nothing in its queue was delivered but the record at hand. */
  ghost predicate FlightOk(log: seq<Event>, pc: Pc)
    requires HasQueue(pc)
  {
    && NoIdTwice(Queue(pc)) && pc.readAt < |log|
    && (forall p :: pc.readAt < p < |log| && log[p].SendSucceeded? && log[p].rec.recordId in Ids(Queue(pc)) ==>
          pc.Delivered? && p == pc.sentAt && log[p].rec == pc.rec)
  }

  ghost predicate Flights(s: State) {
    forall t :: t in s.threads && HasQueue(s.threads[t]) ==> FlightOk(s.log, s.threads[t])
  }

  /** A new success is that of the thread whose delivery ends. */
  lemma NewSuccess(s: State, step: Step, p: nat)
    requires p < |NewEvents(s, step)| && NewEvents(s, step)[p].SendSucceeded?
    ensures step.EndSend? && p == 0 && step.ok && step.t in s.threads && s.threads[step.t].Sending?
    ensures NewEvents(s, step) == [SendSucceeded(step.t, s.threads[step.t].rec, s.threads[step.t].via)]
  {
    SaveEventsShape(s, step, p);
  }

  lemma FlightStep(cfg: Config, s: State, step: Step, s': State, t: nat)
    requires Inv(s) && Flights(s) && Next(cfg, s, step, s') && t in s'.threads && HasQueue(s'.threads[t])
    ensures FlightOk(s'.log, s'.threads[t])
  {
    if step.ReadDue? && step.t == t {
      DueIsOldestDueRecords(s.dir, step.now, BATCH_SIZE, step.due);
    } else {
      OldFlightStep(cfg, s, step, s', t);
    }
  }

  lemma OldFlightStep(cfg: Config, s: State, step: Step, s': State, t: nat)
    requires SingleFlight(s) && Next(cfg, s, step, s') && t in s.threads && HasQueue(s.threads[t])
    requires FlightOk(s.log, s.threads[t]) && t in s'.threads && HasQueue(s'.threads[t])
    ensures FlightOk(s'.log, s'.threads[t])
  {
    QueueStep(cfg, s, step, s', t);
    SuccessesStep(cfg, s, step, s', t);
    FlightGoesOn(s.log, s.threads[t], s'.log, s'.threads[t]);
  }

  /** While a thread is in flight, a new success can only be its own. */
  lemma SuccessesStep(cfg: Config, s: State, step: Step, s': State, t: nat)
    requires SingleFlight(s) && Next(cfg, s, step, s') && t in s.threads && HasQueue(s.threads[t])
    ensures forall p: nat :: p < |s'.log| && s'.log[p].SendSucceeded? ==>
              if p < |s.log| then s'.log[p] == s.log[p]
              else step.EndSend? && step.t == t && step.ok && p == |s.log| && s'.log[p].rec == s.threads[t].rec
  {
    forall p: nat | p < |s'.log| && s'.log[p].SendSucceeded?
      ensures if p < |s.log| then s'.log[p] == s.log[p]
              else step.EndSend? && step.t == t && step.ok && p == |s.log| && s'.log[p].rec == s.threads[t].rec
    {
      if p >= |s.log| {
        NewSuccess(s, step, p - |s.log|);
        SameThread(s, t, step.t);
      }
    }
  }

  lemma FlightGoesOn(log: seq<Event>, pc: Pc, log': seq<Event>, pc': Pc)
    requires HasQueue(pc) && HasQueue(pc') && FlightOk(log, pc) && |log| <= |log'| && pc'.readAt == pc.readAt
    requires Queue(pc') == Queue(pc) || (Queue(pc) != [] && Queue(pc') == Queue(pc)[1..])
    requires pc.Delivered? ==> pc' == pc || Queue(pc') == Queue(pc)[1..]
    requires forall p :: pc.readAt < p < |log'| && log'[p].SendSucceeded? ==>
               if p < |log| then log'[p] == log[p]
               else p == |log| && pc'.Delivered? && pc'.sentAt == p && Queue(pc') == Queue(pc) && pc'.rec == log'[p].rec
    requires pc.Delivered? && Queue(pc') == Queue(pc)[1..] ==> Queue(pc)[0] == pc.rec
    ensures FlightOk(log', pc')
  {
    forall p | pc'.readAt < p < |log'| && log'[p].SendSucceeded? && log'[p].rec.recordId in Ids(Queue(pc'))
      ensures pc'.Delivered? && p == pc'.sentAt && log'[p].rec == pc'.rec
    {
      if p < |log| {
        assert log[p].rec.recordId in Ids(Queue(pc));
        if Queue(pc') != Queue(pc) { TailHasNotHead(Queue(pc)); }
      }
    }
  }

  lemma TailHasNotHead(records: seq<Record>)
    requires records != [] && NoIdTwice(records)
    ensures records[0].recordId !in Ids(records[1..]) && Ids(records[1..]) <= Ids(records)
  {
  }

  /** Apart from a scan, a queue only loses its first record, and only once that is dealt with. */
  lemma QueueStep(cfg: Config, s: State, step: Step, s': State, t: nat)
    requires Next(cfg, s, step, s') && t in s.threads && t in s'.threads && HasQueue(s.threads[t]) && HasQueue(s'.threads[t])
    ensures var pc, pc' := s.threads[t], s'.threads[t];
            && pc'.readAt == pc.readAt
            && (Queue(pc') == Queue(pc) || (Queue(pc) != [] && Queue(pc') == Queue(pc)[1..]))
            && (pc.Delivered? ==> pc' == pc || Queue(pc') == Queue(pc)[1..])
            && (pc.Delivered? ==> Queue(pc)[0] == pc.rec)
            && (step.EndSend? && step.t == t && step.ok ==>
                  pc'.Delivered? && pc'.sentAt == |s.log| && pc'.rec == pc.rec && Queue(pc') == Queue(pc))
  {
  }

  /** Between the scan and the delete of a record, its only successful delivery is the one that
      justifies the delete. */
  ghost predicate DeletesOne(log: seq<Event>, j: nat)
    requires j < |log| && log[j].Deleted?
  {
    forall p :: 0 <= p < |log| && log[j].readAt < p < j && IsSuccessOf(log[p], log[j].rec.recordId) ==> p == log[j].sentAt
  }

  ghost predicate Deletes(s: State) {
    forall j: nat :: j < |s.log| && s.log[j].Deleted? ==> DeletesOne(s.log, j)
  }

  lemma DeletesStep(cfg: Config, s: State, step: Step, s': State, j: nat)
    requires Inv(s) && Flights(s) && Deletes(s) && Next(cfg, s, step, s') && j < |s'.log| && s'.log[j].Deleted?
    ensures DeletesOne(s'.log, j)
  {
    assert forall p :: 0 <= p < |s.log| ==> s'.log[p] == s.log[p];
    if j < |s.log| {
      assert DeletesOne(s.log, j);
    } else {
      assert s'.log[j] == NewEvents(s, step)[j - |s.log|];
      NewDeleteIsFirst(s, step, j - |s.log|);
      var pc := s.threads[step.t];
      assert FlightOk(s.log, pc) && Queue(pc)[0] == pc.rec;
    }
  }

  // ----- after the delete -----

  /** Once deleted and not put again, an id is in no thread's queue, and no later delivery of it
      succeeds. */
  ghost predicate Finished(s: State, id: string, j: nat) {
    && (forall t :: t in s.threads ==> id !in Ids(Queue(s.threads[t])))
    && (forall p :: j < p < |s.log| ==> !IsSuccessOf(s.log[p], id))
  }

  ghost predicate NoEchoes(s: State) {
    forall id, i: nat, j: nat :: IsLastPut(s.log, i, |s.log|, id) && IsDeleteAfter(s.log, i, j, id) ==> Finished(s, id, j)
  }

  predicate IsDeleteAfter(log: seq<Event>, i: nat, j: nat, id: string) {
    i < j < |log| && log[j].Deleted? && log[j].rec.recordId == id
  }

  lemma NoEchoesStep(cfg: Config, s: State, step: Step, s': State, id: string, i: nat, j: nat)
    requires Inv(s) && Flights(s) && Present(s) && NoEchoes(s) && Next(cfg, s, step, s')
    requires IsLastPut(s'.log, i, |s'.log|, id) && IsDeleteAfter(s'.log, i, j, id)
    ensures Finished(s', id, j)
  {
    if j < |s.log| {
      WasFinished(cfg, s, step, s', id, i, j);
      QueuesStayFinished(cfg, s, step, s', id, j);
      LogStaysFinished(cfg, s, step, s', id, j);
    } else {
      assert s'.log[j] == NewEvents(s, step)[j - |s.log|];
      NewDeleteIsFirst(s, step, j - |s.log|);
      FinishesHere(cfg, s, step, s', id);
    }
  }

  lemma WasFinished(cfg: Config, s: State, step: Step, s': State, id: string, i: nat, j: nat)
    requires Present(s) && NoEchoes(s) && Next(cfg, s, step, s') && j < |s.log|
    requires IsLastPut(s'.log, i, |s'.log|, id) && IsDeleteAfter(s'.log, i, j, id)
    ensures Finished(s, id, j) && id !in Listed(s.dir)
  {
    assert s'.log[j] == s.log[j];
    LastPutShrinks(s'.log, i, |s.log|, |s'.log|, id);
    LastPutInPrefix(s.log, NewEvents(s, step), i, |s.log|, id);
    assert IsDeleteAfter(s.log, i, j, id) && IsRemoval(s.log[j], id);
  }

  lemma QueuesStayFinished(cfg: Config, s: State, step: Step, s': State, id: string, j: nat)
    requires Matched(s.dir) && Next(cfg, s, step, s') && Finished(s, id, j) && id !in Listed(s.dir)
    ensures forall t :: t in s'.threads ==> id !in Ids(Queue(s'.threads[t]))
  {
    forall t | t in s'.threads ensures id !in Ids(Queue(s'.threads[t])) {
      if step.ReadDue? && step.t == t {
        DueIsOldestDueRecords(s.dir, step.now, BATCH_SIZE, step.due);
      } else if HasQueue(s'.threads[t]) {
        QueueStep(cfg, s, step, s', t);
      }
    }
  }

  lemma LogStaysFinished(cfg: Config, s: State, step: Step, s': State, id: string, j: nat)
    requires Next(cfg, s, step, s') && Finished(s, id, j)
    ensures forall p :: j < p < |s'.log| ==> !IsSuccessOf(s'.log[p], id)
  {
    forall p | j < p < |s'.log| ensures !IsSuccessOf(s'.log[p], id) {
      if p < |s.log| {
        assert s'.log[p] == s.log[p];
      } else {
        assert s'.log[p] == NewEvents(s, step)[p - |s.log|];
        if s'.log[p].SendSucceeded? {
          NewSuccess(s, step, p - |s.log|);
          assert Queue(s.threads[step.t])[0] == s.threads[step.t].rec;
        }
      }
    }
  }

  lemma FinishesHere(cfg: Config, s: State, step: Step, s': State, id: string)
    requires Inv(s) && Flights(s) && Next(cfg, s, step, s') && step.DoDelete? && NewEvents(s, step) != []
    requires step.t in s.threads && s.threads[step.t].Delivered? && s.threads[step.t].rec.recordId == id
    ensures Finished(s', id, |s.log|)
  {
    var pc := s.threads[step.t];
    assert FlightOk(s.log, pc) && Queue(pc)[0] == pc.rec;
    TailHasNotHead(Queue(pc));
    assert Queue(pc)[1..] == pc.todo;
    forall t | t in s'.threads ensures id !in Ids(Queue(s'.threads[t])) { SameThread(s, t, step.t); }
  }

  // ----- scans -----

  ghost predicate ReadsWereStored(s: State) {
    forall p: nat, r :: p < |s.log| && s.log[p].Read? && r in s.log[p].due ==> StoredBefore(s, r, p)
  }

  lemma ReadsWereStoredStep(cfg: Config, s: State, step: Step, s': State, p: nat, r: Record)
    requires Inv(s) && ReadsWereStored(s) && Next(cfg, s, step, s')
    requires p < |s'.log| && s'.log[p].Read? && r in s'.log[p].due
    ensures StoredBefore(s', r, p)
  {
    if p < |s.log| {
      assert s'.log[p] == s.log[p];
      StoredBeforeExtends(s, s', r, p, p);
    } else {
      assert s'.log[p] == NewEvents(s, step)[p - |s.log|];
      SaveEventsShape(s, step, p - |s.log|);
      DueIsOldestDueRecords(s.dir, step.now, BATCH_SIZE, step.due);
      StoredBeforeExtends(s, s', r, p, p);
    }
  }

  // ----- whole runs -----

  ghost predicate FateInv(s: State) {
    Current(s) && Present(s) && Flights(s) && Deletes(s) && NoEchoes(s) && ReadsWereStored(s)
  }

  lemma FateStep(cfg: Config, s: State, step: Step, s': State)
    requires Inv(s) && FateInv(s) && Next(cfg, s, step, s')
    ensures FateInv(s')
  {
    CurrentStep(cfg, s, step, s');
    forall id, i: nat | IsLastPut(s'.log, i, |s'.log|, id)
      ensures id in Listed(s'.dir) <==> IsValidRecord(s'.log[i].rec) && !RemovedIn(s'.log, i + 1, |s'.log|, id)
    {
      PresentStep(cfg, s, step, s', id, i);
    }
    forall t | t in s'.threads && HasQueue(s'.threads[t]) ensures FlightOk(s'.log, s'.threads[t]) {
      FlightStep(cfg, s, step, s', t);
    }
    forall j: nat | j < |s'.log| && s'.log[j].Deleted? ensures DeletesOne(s'.log, j) {
      DeletesStep(cfg, s, step, s', j);
    }
    forall id, i: nat, j: nat | IsLastPut(s'.log, i, |s'.log|, id) && IsDeleteAfter(s'.log, i, j, id)
      ensures Finished(s', id, j)
    {
      NoEchoesStep(cfg, s, step, s', id, i, j);
    }
    forall p: nat, r | p < |s'.log| && s'.log[p].Read? && r in s'.log[p].due ensures StoredBefore(s', r, p) {
      ReadsWereStoredStep(cfg, s, step, s', p, r);
    }
  }

  lemma {:induction false} RunFateInv(cfg: Config, states: seq<State>, steps: seq<Step>, n: nat)
    requires IsRun(cfg, states, steps) && n < |states|
    ensures var fates := FateInv(states[n]); fates
  {
    if n == 0 {
      InitFates(states[0]);
    } else {
      RunFateInv(cfg, states, steps, n - 1);
      FatesAt(cfg, states, steps, n - 1);
    }
  }

  lemma RunFates(cfg: Config, states: seq<State>, steps: seq<Step>, n: nat)
    requires IsRun(cfg, states, steps) && n < |states|
    ensures var inv, fates := Inv(states[n]), FateInv(states[n]); inv && fates
  {
    RunInv(cfg, states, steps, n);
    RunFateInv(cfg, states, steps, n);
  }

  lemma FatesAt(cfg: Config, states: seq<State>, steps: seq<Step>, i: nat)
    requires IsRun(cfg, states, steps) && i < |steps| && FateInv(states[i])
    ensures var fates := FateInv(states[i + 1]); fates
  {
    RunInv(cfg, states, steps, i);
    var s, step, s' := states[i], steps[i], states[i + 1];
    FateStep(cfg, s, step, s');
  }

  lemma InitFates(s: State)
    requires Init(s)
    ensures FateInv(s)
  {
  }

  // ----- delivered or not -----

  /** A delivery of this envelope under this id succeeded at a log position in [from, to). */
  ghost predicate SentIn(log: seq<Event>, from: int, to: int, id: string, env: Envelope) {
    exists p :: 0 <= p < |log| && from <= p < to && IsSuccessOf(log[p], id) && log[p].rec.envelope == env
  }

  /** Up to the delete at j, the envelope put at i was delivered exactly if the scan came after
      the put, or the delivery did and carried an equal envelope. */
  lemma SentBeforeDeleteExactly(s: State, i: nat, j: nat, id: string)
    requires Inv(s) && FateInv(s) && IsDeleteAfter(s.log, i, j, id) && IsLastPut(s.log, i, j, id)
    ensures SentIn(s.log, i + 1, j, id, s.log[i].rec.envelope) <==>
            i < s.log[j].readAt || (i < s.log[j].sentAt && s.log[j].rec.envelope == s.log[i].rec.envelope)
  {
    var log, e, env := s.log, s.log[j], s.log[i].rec.envelope;
    assert DeleteIsJustified(log, j) && DeletesOne(log, j);
    assert IsSuccessOf(log[e.sentAt], id) && log[e.sentAt].rec == e.rec;
    if i < e.readAt {
      LastPutShrinks(log, i, e.readAt, j, id);
      assert ReadIsCurrent(log, e.readAt);
    }
    if SentIn(log, i + 1, j, id, env) && !(i < e.readAt) {
      var p :| 0 <= p < |log| && i + 1 <= p < j && IsSuccessOf(log[p], id) && log[p].rec.envelope == env;
      assert p == e.sentAt;
    }
  }

  /** For the envelope put last under an id that was deleted since: it was delivered after it was
      saved exactly if the scan behind the delete came after the save, or the delivery did and
      carried an equal envelope.  In every reachable state. */
  lemma DeletedEnvelopeWasSentExactly(cfg: Config, states: seq<State>, steps: seq<Step>, n: nat, i: nat, j: nat, id: string)
    requires IsRun(cfg, states, steps) && n < |states|
    requires IsLastPut(states[n].log, i, |states[n].log|, id) && IsDeleteAfter(states[n].log, i, j, id)
    ensures var log := states[n].log;
            SentIn(log, i + 1, |log|, id, log[i].rec.envelope) <==>
            i < log[j].readAt || (i < log[j].sentAt && log[j].rec.envelope == log[i].rec.envelope)
  {
    RunFates(cfg, states, steps, n);
    var s := states[n];
    LastPutShrinks(s.log, i, j, |s.log|, id);
    SentBeforeDeleteExactly(s, i, j, id);
    assert Finished(s, id, j);
    NothingSentLater(s, i, j, id, s.log[i].rec.envelope);
  }

  lemma NothingSentLater(s: State, i: nat, j: nat, id: string, env: Envelope)
    requires Finished(s, id, j) && IsDeleteAfter(s.log, i, j, id)
    ensures SentIn(s.log, i + 1, |s.log|, id, env) <==> SentIn(s.log, i + 1, j, id, env)
  {
    if p :| 0 <= p < |s.log| && i + 1 <= p && IsSuccessOf(s.log[p], id) && s.log[p].rec.envelope == env {
      assert p < j;
    }
  }

  /** So a result saved while a thread holds its predecessor, be it still waiting in the batch,
      under way or already delivered, is removed when that thread deletes the record; and it was
      not delivered, unless it equals its predecessor and was saved before the delivery ended. */
  lemma SavedWhileHeldIsLost(cfg: Config, states: seq<State>, steps: seq<Step>, m: nat, n: nat, t: nat, j: nat, id: string)
    requires IsRun(cfg, states, steps) && m < n < |states| && steps[m].DoSave?
    requires t in states[m].threads && HasQueue(states[m].threads[t]) && id in Ids(Queue(states[m].threads[t]))
    requires IsLastPut(states[n].log, |states[m].log|, |states[n].log|, id)
    requires IsDeleteAfter(states[n].log, |states[m].log|, j, id)
    requires states[n].log[j].readAt == states[m].threads[t].readAt
    ensures id !in Listed(states[n].dir)
    ensures var log := states[n].log; var i := |states[m].log|;
            SentIn(log, i + 1, |log|, id, log[i].rec.envelope) <==>
            i < log[j].sentAt && log[j].rec.envelope == log[i].rec.envelope
  {
    RunFates(cfg, states, steps, m);
    RunFates(cfg, states, steps, n);
    var log, i := states[n].log, |states[m].log|;
    assert FlightOk(states[m].log, states[m].threads[t]);
    DeletedEnvelopeWasSentExactly(cfg, states, steps, n, i, j, id);
    assert IsRemoval(log[j], id);
  }

  // ----- accounting for every saved result -----

  /** Dropped by the limits before anything else was saved under its id. */
  ghost predicate DroppedUnsaved(log: seq<Event>, i: nat, id: string) {
    exists j: nat :: i < j < |log| && log[j].Drop? && log[j].rec.recordId == id && !PutBetween(log, i + 1, j, id)
  }

  /** Removed with a delivery that was scanned before it was saved. */
  ghost predicate Overtaken(log: seq<Event>, i: nat, id: string) {
    exists j: nat :: IsDeleteAfter(log, i, j, id) && !PutBetween(log, i + 1, j, id) && log[j].readAt < i
  }

  /** Replaced at position k while it was pending. */
  ghost predicate ReplacedAt(log: seq<Event>, i: nat, k: nat, id: string) {
    i < k < |log| && log[k].Put? && log[k].rec.recordId == id && !log[k].isNew
    && !PutBetween(log, i + 1, k, id) && !RemovedIn(log, i + 1, k, id)
  }

  ghost predicate Replaced(log: seq<Event>, i: nat, id: string) {
    exists k: nat :: ReplacedAt(log, i, k, id)
  }

  lemma LastPutFate(s: State, i: nat, id: string)
    requires Inv(s) && FateInv(s) && IsLastPut(s.log, i, |s.log|, id) && IsValidRecord(s.log[i].rec)
    ensures || (id in Listed(s.dir) && Listed(s.dir)[id].envelope == s.log[i].rec.envelope)
            || SentIn(s.log, i + 1, |s.log|, id, s.log[i].rec.envelope)
            || DroppedUnsaved(s.log, i, id) || Overtaken(s.log, i, id)
  {
    var log := s.log;
    if id !in Listed(s.dir) {
      var j: nat :| j < |log| && i + 1 <= j && IsRemoval(log[j], id);
      LastPutShrinks(log, i, j, |log|, id);
      if log[j].Deleted? { DeletedFate(s, i, j, id); }
    }
  }

  lemma DeletedFate(s: State, i: nat, j: nat, id: string)
    requires Inv(s) && FateInv(s) && IsDeleteAfter(s.log, i, j, id) && IsLastPut(s.log, i, j, id)
    ensures SentIn(s.log, i + 1, |s.log|, id, s.log[i].rec.envelope) || Overtaken(s.log, i, id)
  {
    SentBeforeDeleteExactly(s, i, j, id);
    assert DeleteIsJustified(s.log, j);
    assert s.log[j].readAt != i;
  }

  /** The state a put was written in. */
  lemma {:induction false} PutOrigin(cfg: Config, states: seq<State>, steps: seq<Step>, n: nat, k: nat) returns (m: nat)
    requires IsRun(cfg, states, steps) && n < |states| && k < |states[n].log| && states[n].log[k].Put?
    ensures m < n && |states[m].log| == k && states[m].log <= states[n].log
    ensures states[n].log[k].isNew == (states[n].log[k].rec.recordId !in Listed(states[m].dir))
  {
    m := n - 1;
    var s, step, s' := states[m], steps[m], states[m + 1];
    assert Next(cfg, s, step, s');
    if k < |s.log| {
      assert s'.log[k] == s.log[k];
      m := PutOrigin(cfg, states, steps, m, k);
    } else {
      assert s'.log[k] == NewEvents(s, step)[k - |s.log|];
      EventsExplainListing(s, step, s'.log[k].rec.recordId);
    }
  }

  lemma {:induction false} FirstPutAfter(log: seq<Event>, i: nat, id: string) returns (k: nat)
    requires i < |log| && PutBetween(log, i + 1, |log|, id)
    ensures i < k < |log| && log[k].Put? && log[k].rec.recordId == id && !PutBetween(log, i + 1, k, id)
  {
    k := i + 1;
    while !(log[k].Put? && log[k].rec.recordId == id)
      invariant i < k < |log| && !PutBetween(log, i + 1, k, id)
      decreases |log| - k
    {
      var later :| 0 <= later < |log| && i + 1 <= later && log[later].Put? && log[later].rec.recordId == id;
      k := k + 1;
    }
  }

  /** Fates decided in a part of the log stay decided. */
  lemma FatesStay(log: seq<Event>, more: seq<Event>, i: nat, id: string, env: Envelope)
    ensures SentIn(log, i + 1, |log|, id, env) ==> SentIn(log + more, i + 1, |log + more|, id, env)
    ensures DroppedUnsaved(log, i, id) ==> DroppedUnsaved(log + more, i, id)
    ensures Overtaken(log, i, id) ==> Overtaken(log + more, i, id)
  {
    var all := log + more;
    if p :| 0 <= p < |log| && i + 1 <= p && IsSuccessOf(log[p], id) && log[p].rec.envelope == env { assert all[p] == log[p]; }
    if j: nat :| i < j < |log| && log[j].Drop? && log[j].rec.recordId == id && !PutBetween(log, i + 1, j, id) {
      PutBetweenPrefix(log, more, i + 1, j, id);
      assert all[j] == log[j];
    }
    if j: nat :| IsDeleteAfter(log, i, j, id) && !PutBetween(log, i + 1, j, id) && log[j].readAt < i {
      PutBetweenPrefix(log, more, i + 1, j, id);
      assert all[j] == log[j];
    }
  }

  /** A put replaces the pending result before it exactly if nothing removed that one; the log
      says so, and so could a look at the listing before the save. */
  lemma ReplacedExactly(cfg: Config, states: seq<State>, steps: seq<Step>, n: nat, i: nat, k: nat, id: string)
    requires IsRun(cfg, states, steps) && n < |states| && k < |states[n].log| && IsLastPut(states[n].log, i, k, id)
    requires IsValidRecord(states[n].log[i].rec) && states[n].log[k].Put? && states[n].log[k].rec.recordId == id
    ensures !states[n].log[k].isNew <==> !RemovedIn(states[n].log, i + 1, k, id)
  {
    var m := PutOrigin(cfg, states, steps, n, k);
    RunPresent(cfg, states, steps, m);
    var s, more := states[m], states[n].log[k..];
    assert states[n].log == s.log + more;
    PresentInPrefix(s, more, i, id);
  }

  lemma RunPresent(cfg: Config, states: seq<State>, steps: seq<Step>, m: nat)
    requires IsRun(cfg, states, steps) && m < |states|
    ensures Present(states[m])
  {
    RunFates(cfg, states, steps, m);
  }

  lemma PresentInPrefix(s: State, more: seq<Event>, i: nat, id: string)
    requires Present(s) && IsLastPut(s.log + more, i, |s.log|, id) && IsValidRecord((s.log + more)[i].rec)
    ensures id in Listed(s.dir) <==> !RemovedIn(s.log + more, i + 1, |s.log|, id)
  {
    LastPutInPrefix(s.log, more, i, |s.log|, id);
    RemovedInPrefix(s.log, more, i + 1, |s.log|, id);
  }

  /** Conservation of results: in every reachable state of every interleaving, the envelope of
      every save that named its command is still the one listed, or was delivered since, or was
      dropped by the limits, or was replaced while pending by a save with the same record id, or
      was removed with a delivery that was scanned before it was saved. */
  lemma EveryResultIsAccountedFor(cfg: Config, states: seq<State>, steps: seq<Step>, n: nat, i: nat, id: string)
    requires IsRun(cfg, states, steps) && n < |states| && i < |states[n].log|
    requires states[n].log[i].Put? && states[n].log[i].rec.recordId == id && IsValidRecord(states[n].log[i].rec)
    ensures var s := states[n]; var env := s.log[i].rec.envelope;
            || (id in Listed(s.dir) && Listed(s.dir)[id].envelope == env)
            || SentIn(s.log, i + 1, |s.log|, id, env)
            || DroppedUnsaved(s.log, i, id) || Replaced(s.log, i, id) || Overtaken(s.log, i, id)
  {
    var log := states[n].log;
    if !PutBetween(log, i + 1, |log|, id) {
      RunFates(cfg, states, steps, n);
      LastPutFate(states[n], i, id);
    } else {
      var k := FirstPutAfter(log, i, id);
      ReplacedExactly(cfg, states, steps, n, i, k, id);
      var m := PutOrigin(cfg, states, steps, n, k);
      RunFates(cfg, states, steps, m);
      EarlierFate(states[m], log, i, k, id);
    }
  }

  /** The fate before the next put decides. */
  lemma EarlierFate(s: State, log: seq<Event>, i: nat, k: nat, id: string)
    requires k < |log| && s.log == log[..k] && Inv(s) && FateInv(s) && IsLastPut(log, i, k, id)
    requires IsValidRecord(log[i].rec) && log[k].Put? && log[k].rec.recordId == id
    requires log[k].isNew == (id !in Listed(s.dir)) && (!log[k].isNew <==> !RemovedIn(log, i + 1, k, id))
    ensures SentIn(log, i + 1, |log|, id, log[i].rec.envelope)
            || DroppedUnsaved(log, i, id) || Replaced(log, i, id) || Overtaken(log, i, id)
  {
    assert log == s.log + log[k..];
    LastPutInPrefix(s.log, log[k..], i, k, id);
    LastPutFate(s, i, id);
    FatesStay(s.log, log[k..], i, id, log[i].rec.envelope);
    assert !log[k].isNew ==> ReplacedAt(log, i, k, id);
  }

  /** If no other result was ever saved under its record id, a result is lost to nothing but the
      limits. */
  lemma NothingIsLostSilently(cfg: Config, states: seq<State>, steps: seq<Step>, n: nat, i: nat, id: string)
    requires IsRun(cfg, states, steps) && n < |states| && i < |states[n].log|
    requires states[n].log[i].Put? && states[n].log[i].rec.recordId == id && IsValidRecord(states[n].log[i].rec)
    requires forall k :: 0 <= k < |states[n].log| && k != i && states[n].log[k].Put? ==> states[n].log[k].rec.recordId != id
    requires id !in Listed(states[n].start)
    ensures var s := states[n]; var env := s.log[i].rec.envelope;
            || (id in Listed(s.dir) && Listed(s.dir)[id].envelope == env)
            || SentIn(s.log, i + 1, |s.log|, id, env) || DroppedUnsaved(s.log, i, id)
  {
    EveryResultIsAccountedFor(cfg, states, steps, n, i, id);
    RunFates(cfg, states, steps, n);
    NotOvertakenAlone(states[n], i, id);
  }

  lemma NotOvertakenAlone(s: State, i: nat, id: string)
    requires Inv(s) && FateInv(s) && id !in Listed(s.start)
    requires forall k :: 0 <= k < |s.log| && k != i && s.log[k].Put? ==> s.log[k].rec.recordId != id
    ensures !Overtaken(s.log, i, id)
  {
    forall j: nat | IsDeleteAfter(s.log, i, j, id) ensures s.log[j].readAt >= i {
      assert DeleteIsJustified(s.log, j);
      assert StoredBefore(s, s.log[j].rec, s.log[j].readAt);
    }
  }
}
