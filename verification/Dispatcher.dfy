/** internal/transport/result_dispatcher.go as a step machine: any number of threads call Enqueue
    and DispatchOnce, the store lock makes each store operation one step, and senders run with
    no lock held.  A restart (crash plus recovery) may happen between any two steps. */
module Dispatcher {
  import opened Protocol
  import opened Records
  import opened Directories
  import opened Outbox
  import opened OutboxLaws

  const BATCH_SIZE := 16

  datatype Config = Config(limits: Limits, size: Record -> nat)

  /** Which sender a delivery uses; `ticket` tells the deliveries of one connection apart. */
  datatype Via = WebSocket(conn: nat, ticket: nat) | Pull

  /** Where a thread is between the single-flight gate and the deferred reset of the flag.
      `readAt` and `sentAt` are positions in the event log. */
  datatype Pc =
    | Gated
    | Batch(todo: seq<Record>, readAt: nat)
    | Sending(rec: Record, via: Via, todo: seq<Record>, readAt: nat)
    | Delivered(rec: Record, via: Via, todo: seq<Record>, readAt: nat, sentAt: nat)
    | Undelivered(rec: Record, todo: seq<Record>, readAt: nat)
    | Leaving

  datatype Event =
    | Put(rec: Record, isNew: bool)
    | Drop(rec: Record)
    | Read(thread: nat, due: seq<Record>)
    | SendStarted(thread: nat, rec: Record, via: Via)
    | SendSucceeded(thread: nat, rec: Record, via: Via)
    | SendFailed(thread: nat, rec: Record, via: Via)
    | MarkedFailed(rec: Record)
    | Deleted(thread: nat, rec: Record, via: Via, removed: Option<Record>, readAt: nat, sentAt: nat)
    | Restarted

  datatype State = State(
    start: Directory,
    dir: Directory,
    sending: bool,
    ws: Option<nat>,
    pull: bool,
    threads: map<nat, Pc>,
    log: seq<Event>)

  datatype Step =
    | DoSave(env: Envelope, now: int, saved: SaveResult, drops: seq<Record>, after: Directory)
    | Enter(t: nat)
    | ReadDue(t: nat, now: int, due: seq<Record>)
    | Abandon(t: nat)
    | StartSend(t: nat)
    | EndSend(t: nat, ok: bool)
    | DoMark(t: nat, error: string, now: int, marked: MarkResult, after: Directory)
    | DoDelete(t: nat, ok: bool, after: Directory)
    | Leave(t: nat)
    | SetWebSocket(conn: Option<nat>)
    | SetPull(available: bool)
    | Restart

  ghost predicate Init(s: State) {
    && s.dir == s.start && Matched(s.dir) && !s.sending && s.threads == map[] && s.log == []
  }

  function DropEvents(drops: seq<Record>): (events: seq<Event>)
    ensures |events| == |drops| && forall i :: 0 <= i < |drops| ==> events[i] == Drop(drops[i])
  {
    seq(|drops|, i requires 0 <= i < |drops| => Drop(drops[i]))
  }

  /** What a save writes to the log: nothing if it was refused or failed before the rename. */
  function SaveEvents(dir: Directory, env: Envelope, now: int, r: SaveResult, drops: seq<Record>): seq<Event> {
    match NewRecord(env, now)
    case Refused(_) => []
    case Accepted(incoming) =>
      if r.Saved? || r.LimitsFailed?
      then [Put(KeepRetryState(dir, incoming), incoming.recordId !in Listed(dir))] + DropEvents(drops)
      else []
  }

  /** The sender a delivery would use: WebSocket first, then pull. */
  function Sender(s: State): Option<Via> {
    if s.ws.Some? then Some(WebSocket(s.ws.value, |s.log|))
    else if s.pull then Some(Pull)
    else None
  }

  function NewEvents(s: State, step: Step): seq<Event> {
    match step
    case DoSave(env, now, r, drops, _) => SaveEvents(s.dir, env, now, r, drops)
    case ReadDue(t, _, due) => [Read(t, due)]
    case StartSend(t) =>
      if t in s.threads && s.threads[t].Batch? && s.threads[t].todo != [] && Sender(s).Some?
      then [SendStarted(t, s.threads[t].todo[0], Sender(s).value)] else []
    case EndSend(t, ok) =>
      if t in s.threads && s.threads[t].Sending?
      then [if ok then SendSucceeded(t, s.threads[t].rec, s.threads[t].via)
            else SendFailed(t, s.threads[t].rec, s.threads[t].via)]
      else []
    case DoMark(_, _, _, r, _) => if r.Marked? then [MarkedFailed(r.record)] else []
    case DoDelete(t, ok, _) =>
      if ok && t in s.threads && s.threads[t].Delivered?
      then var pc := s.threads[t];
           var id := pc.rec.recordId;
           [Deleted(t, pc.rec, pc.via, if id in Listed(s.dir) then Some(Listed(s.dir)[id]) else None,
                    pc.readAt, pc.sentAt)]
      else []
    case Restart => [Restarted]
    case _ => []
  }

  /** The thread part of a step: the guard, and where the thread is afterwards. */
  ghost predicate ThreadStep(s: State, step: Step, s': State) {
    match step
    case DoSave(_, _, _, _, _) => s'.threads == s.threads && s'.sending == s.sending
    case Enter(t) =>
      t !in s.threads &&
      if s.sending then s'.threads == s.threads && s'.sending
      else s'.threads == s.threads[t := Gated] && s'.sending
    case ReadDue(t, _, due) =>
      && t in s.threads && s.threads[t].Gated?
      && s'.threads == s.threads[t := Batch(due, |s.log|)] && s'.sending == s.sending
    case Abandon(t) => // scan error, cancelled context, no sender, or batch finished
      && t in s.threads && (s.threads[t].Gated? || s.threads[t].Batch?)
      && s'.threads == s.threads[t := Leaving] && s'.sending == s.sending
    case StartSend(t) =>
      && t in s.threads && s.threads[t].Batch? && s.threads[t].todo != [] && Sender(s).Some?
      && s'.sending == s.sending
      && var pc := s.threads[t];
         s'.threads == s.threads[t := Sending(pc.todo[0], Sender(s).value, pc.todo[1..], pc.readAt)]
    case EndSend(t, ok) =>
      && t in s.threads && s.threads[t].Sending?
      && s'.sending == s.sending
      && var pc := s.threads[t];
         s'.threads == s.threads[t := if ok then Delivered(pc.rec, pc.via, pc.todo, pc.readAt, |s.log|)
                                      else Undelivered(pc.rec, pc.todo, pc.readAt)]
    case DoMark(t, _, _, r, _) =>
      && t in s.threads && s.threads[t].Undelivered?
      && s'.sending == s.sending
      && var pc := s.threads[t];
         s'.threads == s.threads[t := if r.Marked? then Batch(pc.todo, pc.readAt) else Leaving]
    case DoDelete(t, ok, _) =>
      && t in s.threads && s.threads[t].Delivered?
      && s'.sending == s.sending
      && var pc := s.threads[t];
         s'.threads == s.threads[t := if ok then Batch(pc.todo, pc.readAt) else Leaving]
    case Leave(t) =>
      && t in s.threads && s.threads[t].Leaving?
      && s'.threads == s.threads - {t} && !s'.sending
    case SetWebSocket(_) => s'.threads == s.threads && s'.sending == s.sending
    case SetPull(_) => s'.threads == s.threads && s'.sending == s.sending
    case Restart => s'.threads == map[] && !s'.sending
  }

  /** The store part of a step, as the store promises it. */
  ghost predicate StoreStep(cfg: Config, s: State, step: Step, s': State) {
    match step
    case DoSave(env, now, r, drops, after) =>
      s'.dir == after && SaveSpec(s.dir, env, now, cfg.limits, cfg.size, r, drops, after)
    case ReadDue(_, now, due) => s'.dir == s.dir && DueSpec(s.dir, now, BATCH_SIZE, due)
    case DoMark(t, error, now, r, after) =>
      && s'.dir == after && t in s.threads && s.threads[t].Undelivered?
      && MarkSpec(s.dir, s.threads[t].rec.recordId, error, now, cfg.size, r, after)
    case DoDelete(t, ok, after) =>
      && s'.dir == after && t in s.threads && s.threads[t].Delivered?
      && DeleteSpec(s.dir, s.threads[t].rec.recordId, ok, after)
    case Restart => Listed(s'.dir) == Listed(s.dir) // all that recovery promises if its own file operations fail
    case _ => s'.dir == s.dir
  }

  ghost predicate Next(cfg: Config, s: State, step: Step, s': State) {
    && s'.start == s.start
    && ThreadStep(s, step, s')
    && StoreStep(cfg, s, step, s')
    && s'.log == s.log + NewEvents(s, step)
    && s'.ws == (if step.SetWebSocket? then step.conn else if step.Restart? then None else s.ws)
    && s'.pull == (if step.SetPull? then step.available else s.pull && !step.Restart?)
  }

  /** A run: states joined by steps. */
  ghost predicate IsRun(cfg: Config, states: seq<State>, steps: seq<Step>) {
    && |states| == |steps| + 1 && Init(states[0])
    && forall i {:trigger steps[i]} :: 0 <= i < |steps| ==> Next(cfg, states[i], steps[i], states[i + 1])
  }

  lemma RunOneMore(cfg: Config, states: seq<State>, steps: seq<Step>, step: Step, s': State)
    requires IsRun(cfg, states, steps) && Next(cfg, states[|steps|], step, s')
    ensures IsRun(cfg, states + [s'], steps + [step])
  {
    var all, more := states + [s'], steps + [step];
    forall i | 0 <= i < |more| ensures Next(cfg, all[i], more[i], all[i + 1]) {
      if i < |steps| { assert more[i] == steps[i] && all[i] == states[i] && all[i + 1] == states[i + 1]; }
    }
  }

  // ----- what one step does to the listing -----

  function ListingAfter(s: State, step: Step): map<string, Record> {
    var listing := Listed(s.dir);
    match step
    case DoSave(env, now, r, drops, _) =>
      (match NewRecord(env, now)
       case Refused(_) => listing
       case Accepted(incoming) =>
         if r.Saved? || r.LimitsFailed? then ListingWith(listing, KeepRetryState(s.dir, incoming)) - Ids(drops)
         else listing)
    case DoMark(_, _, _, r, _) => if r.Marked? then listing[r.record.recordId := r.record] else listing
    case DoDelete(t, ok, _) =>
      if ok && t in s.threads && s.threads[t].Delivered? then listing - {s.threads[t].rec.recordId} else listing
    case _ => listing
  }

  lemma StepListing(cfg: Config, s: State, step: Step, s': State)
    requires Matched(s.dir) && Next(cfg, s, step, s')
    ensures Listed(s'.dir) == ListingAfter(s, step)
    ensures Matched(s'.dir)
  {
    match step
    case DoSave(env, now, r, drops, after) =>
      SaveListing(s.dir, env, now, cfg.limits, cfg.size, r, drops, after);
    case DoMark(t, error, now, r, after) =>
      MarkListing(s.dir, s.threads[t].rec.recordId, error, now, cfg.size, r, after);
    case DoDelete(t, ok, after) =>
      DeleteListing(s.dir, s.threads[t].rec.recordId, ok, after);
    case _ =>
  }

  // ----- single flight -----

  /** The flag is up exactly while one thread is past the gate, and never more than one is. */
  ghost predicate SingleFlight(s: State) {
    |s.threads| == if s.sending then 1 else 0
  }

  lemma SingleFlightStep(cfg: Config, s: State, step: Step, s': State)
    requires SingleFlight(s) && Next(cfg, s, step, s')
    ensures SingleFlight(s')
  {
  }

  lemma SameThread(s: State, t: nat, u: nat)
    requires SingleFlight(s) && t in s.threads && u in s.threads
    ensures t == u
  {
    var threads := s.threads.Keys;
    assert |threads| == 1;
    var only :| only in threads;
    assert |threads - {only}| == 0;
  }

  // ----- conservation -----

  predicate Removes(e: Event, id: string) {
    || (e.Drop? && e.rec.recordId == id)
    || (e.Deleted? && e.rec.recordId == id)
    || (e.Put? && e.rec.recordId == id && !IsValidRecord(e.rec))
  }

  ghost predicate RemovedAfter(log: seq<Event>, from: nat, id: string) {
    exists j :: from <= j < |log| && Removes(log[j], id)
  }

  /** Every record the run started with, and every record ever put in place, is still listed
      unless a later event removed it. */
  ghost predicate Conserved(s: State) {
    && (forall id :: id in Listed(s.start) ==> id in Listed(s.dir) || RemovedAfter(s.log, 0, id))
    && (forall i :: 0 <= i < |s.log| && s.log[i].Put? && IsValidRecord(s.log[i].rec) ==>
          s.log[i].rec.recordId in Listed(s.dir) || RemovedAfter(s.log, i + 1, s.log[i].rec.recordId))
  }

  /** The new events explain the change of the listing: nothing disappears without one. */
  lemma EventsExplainListing(s: State, step: Step, id: string)
    ensures id in Listed(s.dir) ==> id in ListingAfter(s, step) || RemovedAfter(NewEvents(s, step), 0, id)
    ensures forall p :: 0 <= p < |NewEvents(s, step)| && NewEvents(s, step)[p].Put? ==>
              p == 0 && step.DoSave?
              && (IsValidRecord(NewEvents(s, step)[p].rec) && NewEvents(s, step)[p].rec.recordId == id ==>
                    id in ListingAfter(s, step) || RemovedAfter(NewEvents(s, step), 1, id))
  {
    var events := NewEvents(s, step);
    if step.DoSave? && events != [] {
      assert forall p :: 0 < p < |events| ==> events[p] == Drop(step.drops[p - 1]);
      if id in Ids(step.drops) {
        var i :| 0 <= i < |step.drops| && step.drops[i].recordId == id;
        assert Removes(events[i + 1], id);
      } else if id in Listed(s.dir) && id !in ListingAfter(s, step) {
        assert Removes(events[0], id);
      }
    } else if step.DoDelete? && events != [] && id == events[0].rec.recordId {
      assert Removes(events[0], id);
    }
  }

  lemma RemovedAfterExtends(log: seq<Event>, events: seq<Event>, from: nat, id: string)
    ensures RemovedAfter(log, from, id) ==> RemovedAfter(log + events, from, id)
    ensures forall p: nat :: from <= |log| + p && RemovedAfter(events, p, id) ==> RemovedAfter(log + events, from, id)
  {
    if RemovedAfter(log, from, id) {
      var j :| from <= j < |log| && Removes(log[j], id);
      assert (log + events)[j] == log[j];
    }
    forall p: nat | from <= |log| + p && RemovedAfter(events, p, id) ensures RemovedAfter(log + events, from, id) {
      var j :| p <= j < |events| && Removes(events[j], id);
      assert (log + events)[|log| + j] == events[j];
    }
  }

  lemma ConservedStep(cfg: Config, s: State, step: Step, s': State)
    requires Matched(s.dir) && Conserved(s) && Next(cfg, s, step, s')
    ensures Conserved(s')
  {
    StepListing(cfg, s, step, s');
    var events := NewEvents(s, step);
    forall id | id in Listed(s'.start) ensures id in Listed(s'.dir) || RemovedAfter(s'.log, 0, id) {
      EventsExplainListing(s, step, id);
      RemovedAfterExtends(s.log, events, 0, id);
    }
    forall i | 0 <= i < |s'.log| && s'.log[i].Put? && IsValidRecord(s'.log[i].rec)
      ensures s'.log[i].rec.recordId in Listed(s'.dir) || RemovedAfter(s'.log, i + 1, s'.log[i].rec.recordId)
    {
      var id := s'.log[i].rec.recordId;
      EventsExplainListing(s, step, id);
      RemovedAfterExtends(s.log, events, i + 1, id);
      if i < |s.log| {
        assert s'.log[i] == s.log[i];
      } else {
        assert s'.log[i] == events[i - |s.log|];
      }
    }
  }

  // ----- where envelopes come from, and what a delete removes -----

  predicate PutsRecord(e: Event, r: Record) {
    e.Put? && e.rec.recordId == r.recordId && e.rec.envelope == r.envelope
  }

  /** This envelope was stored under this id before log position `at`. */
  ghost predicate StoredBefore(s: State, r: Record, at: int) {
    || (r.recordId in Listed(s.start) && Listed(s.start)[r.recordId].envelope == r.envelope)
    || (exists i :: 0 <= i < at && i < |s.log| && PutsRecord(s.log[i], r))
  }

  predicate PutBetween(log: seq<Event>, from: int, to: int, id: string) {
    exists i | 0 <= i < |log| :: from <= i < to && log[i].Put? && log[i].rec.recordId == id
  }

  /** A record taken in the scan at `readAt` and still to be handled: its envelope was stored
      before, and unless saved again since, the stored envelope is still the same. */
  ghost predicate Held(s: State, t: nat, readAt: nat, r: Record) {
    && readAt < |s.log| && s.log[readAt].Read? && s.log[readAt].thread == t && r in s.log[readAt].due
    && StoredBefore(s, r, readAt)
    && (!PutBetween(s.log, readAt, |s.log|, r.recordId) && r.recordId in Listed(s.dir) ==>
          Listed(s.dir)[r.recordId].envelope == r.envelope)
  }

  ghost predicate PcHolds(s: State, t: nat, pc: Pc) {
    match pc
    case Gated => true
    case Leaving => true
    case Batch(todo, readAt) => forall r :: r in todo ==> Held(s, t, readAt, r)
    case Sending(rec, _, todo, readAt) => forall r :: r in todo || r == rec ==> Held(s, t, readAt, r)
    case Undelivered(rec, todo, readAt) => forall r :: r in todo || r == rec ==> Held(s, t, readAt, r)
    case Delivered(rec, via, todo, readAt, sentAt) =>
      && (forall r :: r in todo || r == rec ==> Held(s, t, readAt, r))
      && readAt < sentAt < |s.log| && s.log[sentAt] == SendSucceeded(t, rec, via)
  }

  /** A logged delete: the same thread scanned the record, then its delivery succeeded, then it
      was removed; and unless the id was saved again in between, what was removed is what was
      sent (or nothing, if a limit had dropped it). */
  predicate DeleteIsJustified(log: seq<Event>, j: nat)
    requires j < |log| && log[j].Deleted?
  {
    var e := log[j];
    && e.readAt < e.sentAt < j
    && log[e.readAt].Read? && log[e.readAt].thread == e.thread && e.rec in log[e.readAt].due
    && log[e.sentAt] == SendSucceeded(e.thread, e.rec, e.via)
    && (e.removed.Some? && !PutBetween(log, e.readAt, j, e.rec.recordId) ==>
          e.removed.value.envelope == e.rec.envelope)
  }

  ghost predicate Traceable(s: State) {
    && (forall id :: id in Listed(s.dir) ==> StoredBefore(s, Listed(s.dir)[id], |s.log|))
    && (forall t :: t in s.threads ==> PcHolds(s, t, s.threads[t]))
    && (forall k :: 0 <= k < |s.log| && s.log[k].SendStarted? ==> StoredBefore(s, s.log[k].rec, k))
    && (forall j :: 0 <= j < |s.log| && s.log[j].Deleted? ==> DeleteIsJustified(s.log, j))
  }

  lemma StoredBeforeExtends(s: State, s': State, r: Record, at: int, at': int)
    requires s'.start == s.start && s.log <= s'.log && at <= at' && StoredBefore(s, r, at)
    ensures StoredBefore(s', r, at')
  {
  }

  /** A listed envelope after a step was listed under the same id before, or was just put. */
  lemma ListingAfterOrigin(cfg: Config, s: State, step: Step, s': State, id: string)
    requires Matched(s.dir) && Next(cfg, s, step, s') && id in ListingAfter(s, step)
    ensures ListingAfter(s, step)[id].recordId == id
    ensures || (id in Listed(s.dir) && Listed(s.dir)[id].envelope == ListingAfter(s, step)[id].envelope)
            || (NewEvents(s, step) != [] && PutsRecord(NewEvents(s, step)[0], ListingAfter(s, step)[id]))
  {
    StepListing(cfg, s, step, s');
    if step.DoMark? {
      MarkOrigin(cfg, s, step, s', id);
    } else if step.DoSave? {
      SaveOrigin(s, step, id);
    }
  }

  lemma SaveOrigin(s: State, step: Step, id: string)
    requires step.DoSave? && id in ListingAfter(s, step)
    ensures || (id in Listed(s.dir) && Listed(s.dir)[id] == ListingAfter(s, step)[id])
            || (NewEvents(s, step) != [] && PutsRecord(NewEvents(s, step)[0], ListingAfter(s, step)[id]))
  {
  }

  lemma MarkOrigin(cfg: Config, s: State, step: Step, s': State, id: string)
    requires step.DoMark? && Matched(s.dir) && Next(cfg, s, step, s') && id in ListingAfter(s, step)
    ensures id in Listed(s.dir) && Listed(s.dir)[id].envelope == ListingAfter(s, step)[id].envelope
  {
  }

  lemma HeldStep(cfg: Config, s: State, step: Step, s': State, t: nat, readAt: nat, r: Record)
    requires Matched(s.dir) && Next(cfg, s, step, s') && Held(s, t, readAt, r)
    ensures Held(s', t, readAt, r)
  {
    StepListing(cfg, s, step, s');
    assert s'.log[readAt] == s.log[readAt];
    StoredBeforeExtends(s, s', r, readAt, readAt);
    var id := r.recordId;
    if id in Listed(s'.dir) && Listed(s'.dir)[id].envelope != r.envelope {
      ListingAfterOrigin(cfg, s, step, s', id);
      if PutBetween(s.log, readAt, |s.log|, id) {
        var i :| 0 <= i < |s.log| && readAt <= i < |s.log| && s.log[i].Put? && s.log[i].rec.recordId == id;
        assert s'.log[i] == s.log[i];
      } else {
        assert s'.log[|s.log|] == NewEvents(s, step)[0];
      }
    }
  }

  lemma ListedStep(cfg: Config, s: State, step: Step, s': State, id: string)
    requires Matched(s.dir) && Traceable(s) && Next(cfg, s, step, s') && id in Listed(s'.dir)
    ensures StoredBefore(s', Listed(s'.dir)[id], |s'.log|)
  {
    StepListing(cfg, s, step, s');
    ListingAfterOrigin(cfg, s, step, s', id);
    var r := Listed(s'.dir)[id];
    if id in Listed(s.dir) && Listed(s.dir)[id].envelope == r.envelope {
      assert Listed(s.dir)[id].recordId == id;
      assert StoredBefore(s, r, |s.log|);
      StoredBeforeExtends(s, s', r, |s.log|, |s'.log|);
    } else {
      assert s'.log[|s.log|] == NewEvents(s, step)[0];
    }
  }

  /** The scan of a thread holds what it read. */
  lemma ReadHolds(cfg: Config, s: State, step: Step, s': State, r: Record)
    requires Matched(s.dir) && Traceable(s) && Next(cfg, s, step, s') && step.ReadDue? && r in step.due
    ensures Held(s', step.t, |s.log|, r)
  {
    DueIsOldestDueRecords(s.dir, step.now, BATCH_SIZE, step.due);
    assert s'.log[|s.log|] == Read(step.t, step.due);
    assert StoredBefore(s, r, |s.log|);
    StoredBeforeExtends(s, s', r, |s.log|, |s.log|);
  }

  lemma PcStep(cfg: Config, s: State, step: Step, s': State, t: nat)
    requires Matched(s.dir) && Traceable(s) && Next(cfg, s, step, s') && t in s'.threads
    ensures PcHolds(s', t, s'.threads[t])
  {
    if step.ReadDue? && step.t == t {
      forall r | r in step.due ensures Held(s', t, |s.log|, r) { ReadHolds(cfg, s, step, s', r); }
    } else if t in s.threads && !s.threads[t].Gated? && !s.threads[t].Leaving? {
      SamePcStep(cfg, s, step, s', t);
      if s'.threads[t] != s.threads[t] { OwnPcStep(cfg, s, step, s', t); }
    }
  }

  /** Whatever another thread does, a thread keeps holding its batch. */
  lemma SamePcStep(cfg: Config, s: State, step: Step, s': State, t: nat)
    requires Matched(s.dir) && Traceable(s) && Next(cfg, s, step, s')
    requires t in s.threads && !s.threads[t].Gated? && !s.threads[t].Leaving?
    ensures PcHolds(s', t, s.threads[t])
  {
    var pc := s.threads[t];
    assert PcHolds(s, t, pc);
    forall r | Held(s, t, pc.readAt, r) ensures Held(s', t, pc.readAt, r) {
      HeldStep(cfg, s, step, s', t, pc.readAt, r);
    }
    if pc.Delivered? { assert s'.log[pc.sentAt] == s.log[pc.sentAt]; }
  }

  lemma OwnPcStep(cfg: Config, s: State, step: Step, s': State, t: nat)
    requires Next(cfg, s, step, s') && t in s.threads && t in s'.threads && s'.threads[t] != s.threads[t]
    requires !s.threads[t].Gated? && !s.threads[t].Leaving? && PcHolds(s', t, s.threads[t])
    requires PcHolds(s, t, s.threads[t])
    ensures PcHolds(s', t, s'.threads[t])
  {
    var pc, pc' := s.threads[t], s'.threads[t];
    if step.EndSend? && step.ok {
      assert Held(s, t, pc.readAt, pc.rec);
      assert s'.log[|s.log|] == SendSucceeded(t, pc.rec, pc.via);
    } else if step.StartSend? {
      assert forall r :: r in pc'.todo || r == pc'.rec ==> r in pc.todo;
    }
  }

  lemma PutBetweenPrefix(log: seq<Event>, more: seq<Event>, from: int, to: int, id: string)
    requires to <= |log|
    ensures PutBetween(log + more, from, to, id) == PutBetween(log, from, to, id)
  {
    var all := log + more;
    if PutBetween(all, from, to, id) {
      var i :| 0 <= i < |all| && from <= i < to && all[i].Put? && all[i].rec.recordId == id;
      assert log[i] == all[i];
    }
    if PutBetween(log, from, to, id) {
      var i :| 0 <= i < |log| && from <= i < to && log[i].Put? && log[i].rec.recordId == id;
      assert all[i] == log[i];
    }
  }

  lemma DeletesStep(cfg: Config, s: State, step: Step, s': State, j: nat)
    requires Matched(s.dir) && Traceable(s) && Next(cfg, s, step, s')
    requires j < |s'.log| && s'.log[j].Deleted?
    ensures DeleteIsJustified(s'.log, j)
  {
    var e := s'.log[j];
    if j < |s.log| {
      assert e == s.log[j] && DeleteIsJustified(s.log, j);
      assert s'.log[e.readAt] == s.log[e.readAt] && s'.log[e.sentAt] == s.log[e.sentAt];
      PutBetweenPrefix(s.log, NewEvents(s, step), e.readAt, j, e.rec.recordId);
    } else {
      NewDeleteIsFirst(s, step, j - |s.log|);
      assert e == NewEvents(s, step)[0] && j == |s.log|;
      var pc := s.threads[step.t];
      assert PcHolds(s, step.t, pc) && Held(s, step.t, pc.readAt, pc.rec);
      assert s'.log[e.readAt] == s.log[e.readAt] && s'.log[e.sentAt] == s.log[e.sentAt];
      PutBetweenPrefix(s.log, NewEvents(s, step), e.readAt, j, e.rec.recordId);
    }
  }

  lemma NewDeleteIsFirst(s: State, step: Step, p: nat)
    requires p < |NewEvents(s, step)| && NewEvents(s, step)[p].Deleted?
    ensures p == 0 && step.DoDelete? && step.t in s.threads && s.threads[step.t].Delivered?
  {
  }

  lemma SaveEventsShape(s: State, step: Step, p: nat)
    ensures step.DoSave? && p < |NewEvents(s, step)| ==>
              if p == 0 then NewEvents(s, step)[p].Put? else NewEvents(s, step)[p].Drop?
  {
  }

  lemma SendsStep(cfg: Config, s: State, step: Step, s': State, k: nat)
    requires Matched(s.dir) && Traceable(s) && Next(cfg, s, step, s')
    requires k < |s'.log| && s'.log[k].SendStarted?
    ensures StoredBefore(s', s'.log[k].rec, k)
  {
    if k < |s.log| {
      assert s'.log[k] == s.log[k];
      StoredBeforeExtends(s, s', s.log[k].rec, k, k);
    } else {
      var e := NewEvents(s, step)[k - |s.log|];
      assert s'.log[k] == e;
      SaveEventsShape(s, step, k - |s.log|);
      var pc := s.threads[step.t];
      assert PcHolds(s, step.t, pc) && Held(s, step.t, pc.readAt, pc.todo[0]);
      StoredBeforeExtends(s, s', pc.todo[0], pc.readAt, k);
    }
  }

  lemma TraceableStep(cfg: Config, s: State, step: Step, s': State)
    requires Matched(s.dir) && Traceable(s) && Next(cfg, s, step, s')
    ensures Traceable(s')
  {
    forall id | id in Listed(s'.dir) ensures StoredBefore(s', Listed(s'.dir)[id], |s'.log|) {
      ListedStep(cfg, s, step, s', id);
    }
    forall t | t in s'.threads ensures PcHolds(s', t, s'.threads[t]) { PcStep(cfg, s, step, s', t); }
    forall k | 0 <= k < |s'.log| && s'.log[k].SendStarted? ensures StoredBefore(s', s'.log[k].rec, k) {
      SendsStep(cfg, s, step, s', k);
    }
    forall j | 0 <= j < |s'.log| && s'.log[j].Deleted? ensures DeleteIsJustified(s'.log, j) {
      DeletesStep(cfg, s, step, s', j);
    }
  }

  // ----- what is put in place -----

  /** Every stored record carries a result envelope and lies under its command's record id. */
  ghost predicate PutsAreResults(s: State) {
    forall i :: 0 <= i < |s.log| && s.log[i].Put? ==>
      s.log[i].rec.envelope.kind == Result && s.log[i].rec.recordId == SanitizeRecordId(s.log[i].rec.commandId)
  }

  lemma PutsAreResultsStep(cfg: Config, s: State, step: Step, s': State)
    requires PutsAreResults(s) && Next(cfg, s, step, s')
    ensures PutsAreResults(s')
  {
    forall i | 0 <= i < |s'.log| && s'.log[i].Put?
      ensures s'.log[i].rec.envelope.kind == Result
      ensures s'.log[i].rec.recordId == SanitizeRecordId(s'.log[i].rec.commandId)
    {
      if i < |s.log| {
        assert s'.log[i] == s.log[i];
      } else {
        assert s'.log[i] == NewEvents(s, step)[i - |s.log|];
        SaveEventsShape(s, step, i - |s.log|);
      }
    }
  }

  /** The only stored records a scan does not list are those without a command id, and they all
      lie in the file "unknown". */
  lemma UnlistedPutIsUnknown(r: Record)
    requires r.envelope.kind == Result && r.recordId == SanitizeRecordId(r.commandId) && !IsValidRecord(r)
    ensures r.commandId == "" && r.recordId == UNKNOWN
  {
  }

  // ----- whole runs -----

  ghost predicate Inv(s: State) {
    Matched(s.dir) && SingleFlight(s) && Conserved(s) && Traceable(s) && PutsAreResults(s)
  }

  lemma InitInv(s: State)
    requires Init(s)
    ensures Inv(s)
  {
  }

  lemma InvStep(cfg: Config, s: State, step: Step, s': State)
    requires Inv(s) && Next(cfg, s, step, s')
    ensures Inv(s')
  {
    StepListing(cfg, s, step, s');
    SingleFlightStep(cfg, s, step, s');
    ConservedStep(cfg, s, step, s');
    TraceableStep(cfg, s, step, s');
    PutsAreResultsStep(cfg, s, step, s');
  }

  lemma {:induction false} RunInv(cfg: Config, states: seq<State>, steps: seq<Step>, n: nat)
    requires IsRun(cfg, states, steps) && n < |states|
    ensures Inv(states[n])
  {
    if n == 0 {
      InitInv(states[0]);
    } else {
      var i := n - 1;
      RunInv(cfg, states, steps, i);
      var s, step, s' := states[i], steps[i], states[i + 1];
      InvStep(cfg, s, step, s');
    }
  }

  ghost predicate WasDelivered(log: seq<Event>, i: nat, id: string) {
    exists j: nat :: i < j < |log| && log[j].Deleted? && log[j].rec.recordId == id && DeleteIsJustified(log, j)
  }

  ghost predicate WasDropped(log: seq<Event>, i: nat, id: string) {
    exists j :: i < j < |log| && log[j].Drop? && log[j].rec.recordId == id
  }

  /** A result without a command id was stored over the file "unknown". */
  ghost predicate WasOverwritten(log: seq<Event>, i: nat, id: string) {
    id == UNKNOWN && exists j :: i < j < |log| && log[j].Put? && log[j].rec.recordId == id && log[j].rec.commandId == ""
  }

  /** By record id (what becomes of the envelope saved at i itself is told in Fates): in every
      reachable state of every interleaving, an id saved with a non-empty command id is still
      listed, or a thread that had scanned it deleted it after a successful delivery, or the limits
      dropped it, or it is "unknown" and a result without a command id was stored over it. */
  lemma EverySavedRecordIsAccountedFor(cfg: Config, states: seq<State>, steps: seq<Step>, n: nat, i: nat)
    requires IsRun(cfg, states, steps) && n < |states|
    requires i < |states[n].log| && states[n].log[i].Put? && IsValidRecord(states[n].log[i].rec)
    ensures var s := states[n]; var id := s.log[i].rec.recordId;
            || id in Listed(s.dir)
            || WasDelivered(s.log, i, id) || WasDropped(s.log, i, id) || WasOverwritten(s.log, i, id)
  {
    RunInv(cfg, states, steps, n);
    var s := states[n];
    var id := s.log[i].rec.recordId;
    if id !in Listed(s.dir) {
      assert RemovedAfter(s.log, i + 1, id);
      var j :| i + 1 <= j < |s.log| && Removes(s.log[j], id);
      if s.log[j].Deleted? {
        assert DeleteIsJustified(s.log, j);
      } else if s.log[j].Put? {
        UnlistedPutIsUnknown(s.log[j].rec);
      }
    }
  }

  /** The exception is real: putting a result that names no command in place removes a pending
      record of the command "unknown", with nothing sent and nothing dropped. */
  lemma OverwritingLosesARecord(dir: Directory, env: Envelope, now: int, limits: Limits, size: Record -> nat,
                                r: SaveResult, drops: seq<Record>, after: Directory)
    requires Matched(dir) && env.kind == Result && CommandIdOf(env) == Some("")
    requires SaveSpec(dir, env, now, limits, size, r, drops, after) && (r.Saved? || r.LimitsFailed?)
    ensures UNKNOWN !in Listed(after)
  {
    SanitizeKeepsCommandId(env);
    EmptyIdIsUnknown();
    SaveListing(dir, env, now, limits, size, r, drops, after);
  }

  /** At most one thread is past the gate, in every reachable state. */
  lemma OnlyOneSender(cfg: Config, states: seq<State>, steps: seq<Step>, n: nat, t: nat, u: nat)
    requires IsRun(cfg, states, steps) && n < |states| && t in states[n].threads && u in states[n].threads
    ensures t == u && states[n].sending
  {
    RunInv(cfg, states, steps, n);
    SameThread(states[n], t, u);
  }

  /** How many saves put a record in place and then failed to enforce the limits, since the last
      save that succeeded.  A stop between the rename and the last drop counts as one. */
  function FailedSince(steps: seq<Step>): nat {
    if steps == [] then 0
    else
      var last := steps[|steps| - 1];
      if last.DoSave? && last.saved.Saved? then 0
      else FailedSince(steps[..|steps| - 1]) + if last.DoSave? && last.saved.LimitsFailed? then 1 else 0
  }

  /** A store that starts within the record limit exceeds it by no more than the number of saves
      that failed to enforce it since one succeeded.  In every reachable state. */
  lemma {:induction false} CountStaysBounded(cfg: Config, states: seq<State>, steps: seq<Step>, n: nat)
    requires IsRun(cfg, states, steps) && n < |states| && |Listed(states[0].dir)| <= cfg.limits.maxRecords
    ensures |Listed(states[n].dir)| <= cfg.limits.maxRecords + FailedSince(steps[..n])
  {
    if n > 0 {
      var i := n - 1;
      CountStaysBounded(cfg, states, steps, i);
      RunInv(cfg, states, steps, i);
      var s, step, s' := states[i], steps[i], states[i + 1];
      CountStep(cfg, s, step, s');
      FailedSinceStep(steps, i);
    }
  }

  lemma FailedSinceStep(steps: seq<Step>, i: nat)
    requires i < |steps|
    ensures FailedSince(steps[..i + 1]) ==
            if steps[i].DoSave? && steps[i].saved.Saved? then 0
            else FailedSince(steps[..i]) + if steps[i].DoSave? && steps[i].saved.LimitsFailed? then 1 else 0
  {
    assert steps[..i + 1][..i] == steps[..i];
  }

  /** One step makes the listing longer by at most one, and only by a save that does not succeed
      in enforcing the limits. */
  lemma CountStep(cfg: Config, s: State, step: Step, s': State)
    requires Matched(s.dir) && Next(cfg, s, step, s')
    ensures if step.DoSave? && step.saved.Saved? then |Listed(s'.dir)| <= cfg.limits.maxRecords
            else |Listed(s'.dir)| <= |Listed(s.dir)| + if step.DoSave? && step.saved.LimitsFailed? then 1 else 0
  {
    match step
    case DoSave(env, now, r, drops, after) =>
      SaveCount(s.dir, env, now, cfg.limits, cfg.size, r, drops, after);
    case DoMark(t, error, now, r, after) =>
      MarkKeepsCount(s.dir, s.threads[t].rec.recordId, error, now, cfg.size, r, after);
    case DoDelete(t, ok, after) =>
      DeleteKeepsCount(s.dir, s.threads[t].rec.recordId, ok, after);
    case _ =>
  }

  /** Every envelope handed to a sender was in the store first. */
  lemma SentEnvelopesWereStored(cfg: Config, states: seq<State>, steps: seq<Step>, n: nat, k: nat)
    requires IsRun(cfg, states, steps) && n < |states|
    requires k < |states[n].log| && states[n].log[k].SendStarted?
    ensures StoredBefore(states[n], states[n].log[k].rec, k)
  {
    RunInv(cfg, states, steps, n);
  }

  // ----- which sender -----

  /** A delivery starts over the connection's sender while there is one, and over the pull sender only
      without. */
  lemma StartsOverFirstSender(cfg: Config, s: State, t: nat, s': State)
    requires Next(cfg, s, StartSend(t), s')
    ensures t in s.threads && s.threads[t].Batch? && t in s'.threads && s'.threads[t].Sending?
    ensures s.threads[t].todo == [s'.threads[t].rec] + s'.threads[t].todo
    ensures s'.log == s.log + [SendStarted(t, s'.threads[t].rec, s'.threads[t].via)]
    ensures s.ws.Some? ==> s'.threads[t].via.WebSocket? && s'.threads[t].via.conn == s.ws.value
    ensures s.ws.None? ==> s'.threads[t].via == Pull && s.pull
  {
  }

  /** The connection's sender while there is one, the pull sender only without. */
  predicate IsFirstSender(s: State, via: Via) {
    if s.ws.Some? then via.WebSocket? && via.conn == s.ws.value else via.Pull? && s.pull
  }

  /** The same for every started delivery of every run: m is the state it was started in. */
  lemma {:induction false} EverySendUsesFirstSender(cfg: Config, states: seq<State>, steps: seq<Step>, n: nat, k: nat) returns (m: nat)
    requires IsRun(cfg, states, steps) && n < |states| && k < |states[n].log| && states[n].log[k].SendStarted?
    ensures m < n && |states[m].log| == k && states[m].log <= states[n].log
    ensures IsFirstSender(states[m], states[n].log[k].via)
  {
    m := n - 1;
    var s, step, s' := states[m], steps[m], states[m + 1];
    assert Next(cfg, s, step, s');
    if k < |s.log| {
      assert s'.log[k] == s.log[k];
      m := EverySendUsesFirstSender(cfg, states, steps, m, k);
    } else {
      NewSendIsStart(cfg, s, step, s', k);
    }
  }

  lemma NewSendIsStart(cfg: Config, s: State, step: Step, s': State, k: nat)
    requires Next(cfg, s, step, s') && |s.log| <= k < |s'.log| && s'.log[k].SendStarted?
    ensures k == |s.log| && IsFirstSender(s, s'.log[k].via)
  {
    assert s'.log[k] == NewEvents(s, step)[k - |s.log|];
    SaveEventsShape(s, step, k - |s.log|);
    StartsOverFirstSender(cfg, s, step.t, s');
  }

  /** A delivery ends over the sender it started over, and its outcome decides what follows: after
      success the thread can only delete, after failure only mark. */
  lemma OutcomeDecides(cfg: Config, s: State, t: nat, ok: bool, s': State)
    requires Next(cfg, s, EndSend(t, ok), s')
    ensures t in s.threads && s.threads[t].Sending? && t in s'.threads
    ensures ok ==> s'.threads[t].Delivered? && s'.threads[t].rec == s.threads[t].rec
                   && s'.log == s.log + [SendSucceeded(t, s.threads[t].rec, s.threads[t].via)]
    ensures !ok ==> s'.threads[t].Undelivered? && s'.threads[t].rec == s.threads[t].rec
                    && s'.log == s.log + [SendFailed(t, s.threads[t].rec, s.threads[t].via)]
  {
  }
}
