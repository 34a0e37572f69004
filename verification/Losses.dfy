/** Reachable runs in which a result disappears unsent and undropped, so that the exceptions in the
    conservation theorems cannot be left out. */
module Losses {
  import opened Protocol
  import opened Records
  import opened Directories
  import opened Outbox
  import opened OutboxLaws
  import opened Dispatcher
  import opened LatestResult
  import Commands

  const NOW: int := 5

  function SmallStore(): Config { Config(Limits(100, 100), (r: Record) => 1) }

  /** A result that names its command in the correlation id only. */
  function ResultOf(id: string, message: string): Envelope {
    Envelope("1", Result, message, id, "device", 0, NullPayload)
  }

  function RecordOf(id: string, message: string): Record {
    Record(SanitizeRecordId(id), id, NOW, NOW, 0, "", NOW, SanitizedEnvelope(ResultOf(id, message)))
  }

  lemma NewRecordOf(id: string, message: string)
    ensures NewRecord(ResultOf(id, message), NOW) == Accepted(RecordOf(id, message))
    ensures id != "" ==> IsValidRecord(RecordOf(id, message))
  {
    var clean := SanitizedEnvelope(ResultOf(id, message));
    assert clean.payload == Object(map[]);
    assert CommandIdOf(clean) == Some(id);
    SanitizeYieldsCanonicalId(id);
  }

  /** The directory that holds one record file. */
  function Holding(r: Record): Directory { map[PathOf(r.recordId) := File(1, Some(r))] }

  lemma HoldingListing(r: Record)
    ensures Listed(Holding(r)) == if IsValidRecord(r) then map[r.recordId := r] else map[]
    ensures Within(Holding(r), SmallStore().limits)
  {
    ListedExactly(Holding(r));
    if IsValidRecord(r) {
      OneRecordSize(Holding(r), r.recordId);
    } else {
      assert Listed(Holding(r)).Keys == {};
      NothingListed(Holding(r));
    }
  }

  /** Nothing stored yet, or a record of the same id, age and retry state. */
  predicate IsReplaceable(dir: Directory, prior: Record, r: Record) {
    || dir == map[]
    || (&& dir == Holding(prior) && prior.recordId == r.recordId && prior.createdAt == r.createdAt
        && prior.attempts == r.attempts && prior.lastError == r.lastError && prior.nextRetryAt == r.nextRetryAt)
  }

  lemma SaveSucceeds(dir: Directory, prior: Record, env: Envelope, r: Record)
    requires NewRecord(env, NOW) == Accepted(r) && IsReplaceable(dir, prior, r)
    ensures SaveSpec(dir, env, NOW, SmallStore().limits, SmallStore().size, Saved(r), [], Holding(r))
    ensures KeepRetryState(dir, r) == r
  {
    KeepsItself(dir, prior, r);
    InstallSucceeds(dir, prior, r);
  }

  lemma InstallSucceeds(dir: Directory, prior: Record, r: Record)
    requires IsReplaceable(dir, prior, r)
    ensures InstallSpec(dir, r, SmallStore().limits, SmallStore().size, Saved(r), [], Holding(r))
  {
    HoldingListing(r);
    NothingDropped(Holding(r));
    WrittenIsHolding(dir, prior, r);
  }

  lemma WrittenIsHolding(dir: Directory, prior: Record, r: Record)
    requires IsReplaceable(dir, prior, r)
    ensures Written(dir, r, 1) == Holding(r)
  {
  }

  lemma KeepsItself(dir: Directory, prior: Record, r: Record)
    requires IsReplaceable(dir, prior, r)
    ensures KeepRetryState(dir, r) == r
  {
  }

  function SaveOf(env: Envelope, r: Record): Step { DoSave(env, NOW, Saved(r), [], Holding(r)) }

  /** The state after a save put this record in place. */
  function Replaced(s: State, r: Record): State {
    s.(dir := Holding(r), log := s.log + [Put(r, r.recordId !in Listed(s.dir))])
  }

  lemma SaveOfRecordIsNext(s: State, prior: Record, env: Envelope, r: Record)
    requires NewRecord(env, NOW) == Accepted(r) && IsReplaceable(s.dir, prior, r)
    ensures Next(SmallStore(), s, SaveOf(env, r), Replaced(s, r))
  {
    SaveSucceeds(s.dir, prior, env, r);
    LogOfSaveAlone(s.dir, env, NOW, Saved(r), r);
  }

  function Empty(): State { State(map[], map[], false, None, true, map[], []) }

  lemma EmptyIsInitial()
    ensures IsRun(SmallStore(), [Empty()], []) && Listed(Empty().dir) == map[]
  {
  }

  // ----- one save replaces another -----

  /** Two saves with one record id: only the second is left, and if it names no command, nothing. */
  lemma SecondSaveReplacesFirst(first: string, a: string, second: string, b: string)
    returns (states: seq<State>, steps: seq<Step>)
    requires first != "" && SanitizeRecordId(first) == SanitizeRecordId(second)
    ensures IsRun(SmallStore(), states, steps) && |states| == 3
    ensures states[2].log == [Put(RecordOf(first, a), true), Put(RecordOf(second, b), false)]
    ensures IsValidRecord(RecordOf(first, a))
    ensures Listed(states[2].dir) == if second == "" then map[] else map[SanitizeRecordId(second) := RecordOf(second, b)]
  {
    var r1, r2 := RecordOf(first, a), RecordOf(second, b);
    NewRecordOf(first, a);
    NewRecordOf(second, b);
    HoldingListing(r1);
    HoldingListing(r2);
    states, steps := TwoSaves(r1, r2, ResultOf(first, a), ResultOf(second, b));
  }

  lemma TwoSaves(r1: Record, r2: Record, env1: Envelope, env2: Envelope) returns (states: seq<State>, steps: seq<Step>)
    requires NewRecord(env1, NOW) == Accepted(r1) && NewRecord(env2, NOW) == Accepted(r2)
    requires IsReplaceable(Holding(r1), r1, r2) && IsValidRecord(r1)
    ensures IsRun(SmallStore(), states, steps) && |states| == 3
    ensures states[2].dir == Holding(r2) && states[2].log == [Put(r1, true), Put(r2, false)]
  {
    EmptyIsInitial();
    HoldingListing(r1);
    var s1 := Replaced(Empty(), r1);
    SaveOfRecordIsNext(Empty(), r1, env1, r1);
    RunOneMore(SmallStore(), [Empty()], [], SaveOf(env1, r1), s1);
    states, steps := [Empty()] + [s1], [] + [SaveOf(env1, r1)];
    SaveOfRecordIsNext(s1, r1, env2, r2);
    RunOneMore(SmallStore(), states, steps, SaveOf(env2, r2), Replaced(s1, r2));
    states, steps := states + [Replaced(s1, r2)], steps + [SaveOf(env2, r2)];
  }

  /** A pending result of the command "unknown" is overwritten by one that names no command, and
      then nothing is listed at all. */
  lemma UnknownCommandCanBeOverwritten(a: string, b: string) returns (states: seq<State>, steps: seq<Step>)
    ensures IsRun(SmallStore(), states, steps) && |states| == 3
    ensures states[2].log == [Put(RecordOf(UNKNOWN, a), true), Put(RecordOf("", b), false)]
    ensures IsValidRecord(RecordOf(UNKNOWN, a)) && Listed(states[2].dir) == map[]
  {
    EmptyIdIsUnknown();
    states, steps := SecondSaveReplacesFirst(UNKNOWN, a, "", b);
  }

  /** Two different, named commands whose record ids collide: the first result is gone. */
  lemma CollidingCommandsReplaceEachOther(x: string, c: char, y: string, a: string, b: string)
    returns (states: seq<State>, steps: seq<Step>)
    requires IsCanonicalId(x) && IsCanonicalId(y) && !IsSafeChar(c)
    ensures IsRun(SmallStore(), states, steps) && |states| == 3
    ensures var first, second := RecordOf(x + [c] + y, a), RecordOf(x + "_" + y, b);
            && states[2].log == [Put(first, true), Put(second, false)]
            && first.commandId != second.commandId && IsValidRecord(first) && IsValidRecord(second)
            && Listed(states[2].dir) == map[second.recordId := second]
  {
    RecordIdsCollide(x, c, y);
    assert (x + [c] + y)[|x|] == c && (x + "_" + y)[|x|] == '_';
    NewRecordOf(x + "_" + y, b);
    states, steps := SecondSaveReplacesFirst(x + [c] + y, a, x + "_" + y, b);
  }

  /** Such commands pass the gate. */
  lemma CollidingIdsAreWellFormed()
    ensures Commands.IsWellFormedId("abc:def") && Commands.IsWellFormedId("abc_def")
    ensures SanitizeRecordId("abc:def") == SanitizeRecordId("abc_def")
  {
    PartsAreCanonical();
    PartsJoin();
    PartsCollide("abc", ':', "def", "abc:def", "abc_def");
  }

  lemma PartsCollide(x: string, c: char, y: string, first: string, second: string)
    requires IsCanonicalId(x) && IsCanonicalId(y) && !IsSafeChar(c) && x + [c] + y == first && x + "_" + y == second
    requires |second| >= 6 && |first| <= 128 && Commands.IsIdChar(c)
    ensures SanitizeRecordId(first) == SanitizeRecordId(second)
    ensures Commands.IsWellFormedId(first) && Commands.IsWellFormedId(second)
  {
    RecordIdsCollide(x, c, y);
  }

  lemma PartsAreCanonical()
    ensures IsCanonicalId("abc") && IsCanonicalId("def") && !IsSafeChar(':')
  {
  }

  lemma PartsJoin()
    ensures "abc" + [':'] + "def" == "abc:def" && "abc" + "_" + "def" == "abc_def"
  {
  }

  /** A second result of one command (such as the rejection of its repetition) replaces the first. */
  lemma RepeatedCommandReplacesItsResult(id: string, a: string, b: string) returns (states: seq<State>, steps: seq<Step>)
    requires id != ""
    ensures IsRun(SmallStore(), states, steps) && |states| == 3
    ensures states[2].log == [Put(RecordOf(id, a), true), Put(RecordOf(id, b), false)]
    ensures Listed(states[2].dir) == map[SanitizeRecordId(id) := RecordOf(id, b)]
  {
    states, steps := SecondSaveReplacesFirst(id, a, id, b);
  }

  // ----- a result saved during a delivery goes with the delivered one -----

  function Entered(s: State): State { s.(threads := s.threads[0 := Gated], sending := true) }

  function Scanned(s: State, r: Record): State {
    s.(threads := s.threads[0 := Batch([r], |s.log|)], log := s.log + [Read(0, [r])])
  }

  function Offered(s: State, r: Record): State {
    s.(threads := s.threads[0 := Sending(r, Pull, [], 1)], log := s.log + [SendStarted(0, r, Pull)])
  }

  function Acknowledged(s: State, r: Record): State {
    s.(threads := s.threads[0 := Delivered(r, Pull, [], 1, |s.log|)], log := s.log + [SendSucceeded(0, r, Pull)])
  }

  function Removed(s: State, r: Record, stored: Record, sentAt: nat): State {
    s.(dir := map[], threads := s.threads[0 := Batch([], 1)],
       log := s.log + [Deleted(0, r, Pull, Some(stored), 1, sentAt)])
  }

  lemma ScanFinds(r: Record)
    requires IsValidRecord(r) && r.nextRetryAt == NOW
    ensures DueSpec(Holding(r), NOW, BATCH_SIZE, [r])
  {
    HoldingListing(r);
    assert IsScan(Holding(r), {}, [r], [r.recordId]);
    assert DueOf([r][..0], NOW) == [];
    assert DueOf([r], NOW) == [r];
  }

  predicate IsReady(s: State, r: Record) {
    s.dir == Holding(r) && s.threads == map[] && !s.sending && s.ws.None? && s.pull && |s.log| == 1
  }

  lemma ScanIsNext(s: State, r: Record)
    requires IsReady(s, r) && IsValidRecord(r) && r.nextRetryAt == NOW
    ensures Next(SmallStore(), s, Enter(0), Entered(s))
    ensures Next(SmallStore(), Entered(s), ReadDue(0, NOW, [r]), Scanned(Entered(s), r))
  {
    ScanFinds(r);
  }

  lemma SendIsNext(s: State, r: Record)
    requires 0 in s.threads && s.threads[0] == Batch([r], 1) && s.ws.None? && s.pull
    ensures Next(SmallStore(), s, StartSend(0), Offered(s, r))
    ensures Next(SmallStore(), Offered(s, r), EndSend(0, true), Acknowledged(Offered(s, r), r))
  {
    assert [r][1..] == [];
  }

  lemma ScanRuns(states: seq<State>, steps: seq<Step>, r: Record) returns (states': seq<State>, steps': seq<Step>)
    requires IsRun(SmallStore(), states, steps) && IsValidRecord(r) && r.nextRetryAt == NOW
    requires IsReady(states[|steps|], r)
    ensures IsRun(SmallStore(), states', steps') && states'[|steps'|] == Scanned(Entered(states[|steps|]), r)
  {
    var s := states[|steps|];
    ScanIsNext(s, r);
    RunOneMore(SmallStore(), states, steps, Enter(0), Entered(s));
    states', steps' := states + [Entered(s)], steps + [Enter(0)];
    RunOneMore(SmallStore(), states', steps', ReadDue(0, NOW, [r]), Scanned(Entered(s), r));
    states', steps' := states' + [Scanned(Entered(s), r)], steps' + [ReadDue(0, NOW, [r])];
  }

  lemma SendRuns(states: seq<State>, steps: seq<Step>, r: Record) returns (states': seq<State>, steps': seq<Step>)
    requires IsRun(SmallStore(), states, steps)
    requires var s := states[|steps|]; 0 in s.threads && s.threads[0] == Batch([r], 1) && s.ws.None? && s.pull
    ensures IsRun(SmallStore(), states', steps') && states'[|steps'|] == Acknowledged(Offered(states[|steps|], r), r)
  {
    var s := states[|steps|];
    SendIsNext(s, r);
    RunOneMore(SmallStore(), states, steps, StartSend(0), Offered(s, r));
    states', steps' := states + [Offered(s, r)], steps + [StartSend(0)];
    RunOneMore(SmallStore(), states', steps', EndSend(0, true), Acknowledged(Offered(s, r), r));
    states', steps' := states' + [Acknowledged(Offered(s, r), r)], steps' + [EndSend(0, true)];
  }

  lemma SaveRuns(states: seq<State>, steps: seq<Step>, prior: Record, env: Envelope, r: Record)
    returns (states': seq<State>, steps': seq<Step>)
    requires IsRun(SmallStore(), states, steps) && NewRecord(env, NOW) == Accepted(r)
    requires IsReplaceable(states[|steps|].dir, prior, r)
    ensures IsRun(SmallStore(), states', steps') && states'[|steps'|] == Replaced(states[|steps|], r)
  {
    var s := states[|steps|];
    SaveOfRecordIsNext(s, prior, env, r);
    RunOneMore(SmallStore(), states, steps, SaveOf(env, r), Replaced(s, r));
    states', steps' := states + [Replaced(s, r)], steps + [SaveOf(env, r)];
  }

  lemma DeleteRuns(states: seq<State>, steps: seq<Step>, r: Record, stored: Record, sentAt: nat)
    returns (states': seq<State>, steps': seq<Step>)
    requires IsRun(SmallStore(), states, steps) && IsValidRecord(stored) && stored.recordId == r.recordId
    requires var s := states[|steps|];
             s.dir == Holding(stored) && 0 in s.threads && s.threads[0] == Delivered(r, Pull, [], 1, sentAt)
    ensures IsRun(SmallStore(), states', steps') && states'[|steps'|] == Removed(states[|steps|], r, stored, sentAt)
  {
    var s := states[|steps|];
    HoldingListing(stored);
    assert s.dir - {PathOf(r.recordId)} == map[];
    RunOneMore(SmallStore(), states, steps, DoDelete(0, true, map[]), Removed(s, r, stored, sentAt));
    states', steps' := states + [Removed(s, r, stored, sentAt)], steps + [DoDelete(0, true, map[])];
  }

  /** The two logs: the second save before the delivery starts, or after it ended. */
  function LogOfLoss(first: Record, second: Record, early: bool): seq<Event> {
    if early then
      [Put(first, true), Read(0, [first]), Put(second, false), SendStarted(0, first, Pull),
       SendSucceeded(0, first, Pull), Deleted(0, first, Pull, Some(second), 1, 4)]
    else
      [Put(first, true), Read(0, [first]), SendStarted(0, first, Pull), SendSucceeded(0, first, Pull),
       Put(second, false), Deleted(0, first, Pull, Some(second), 1, 3)]
  }

  /** Two versions of a record that can be saved one after the other. */
  predicate AreVersions(first: Record, second: Record, env1: Envelope, env2: Envelope) {
    && NewRecord(env1, NOW) == Accepted(first) && NewRecord(env2, NOW) == Accepted(second)
    && IsReplaceable(Holding(first), first, second) && IsValidRecord(first) && IsValidRecord(second)
    && first.nextRetryAt == NOW
  }

  function Begun(first: Record): State { Scanned(Entered(Replaced(Empty(), first)), first) }

  lemma BeginRuns(first: Record, env: Envelope) returns (states: seq<State>, steps: seq<Step>)
    requires NewRecord(env, NOW) == Accepted(first) && IsValidRecord(first) && first.nextRetryAt == NOW
    ensures IsRun(SmallStore(), states, steps) && states[|steps|] == Begun(first)
  {
    EmptyIsInitial();
    states, steps := SaveRuns([Empty()], [], first, env, first);
    states, steps := ScanRuns(states, steps, first);
  }

  function Lost(first: Record, second: Record, early: bool): State {
    if early then Removed(Acknowledged(Offered(Replaced(Begun(first), second), first), first), first, second, 4)
    else Removed(Replaced(Acknowledged(Offered(Begun(first), first), first), second), first, second, 3)
  }

  lemma EarlyLossRuns(first: Record, second: Record, env1: Envelope, env2: Envelope)
    returns (states: seq<State>, steps: seq<Step>)
    requires AreVersions(first, second, env1, env2)
    ensures IsRun(SmallStore(), states, steps) && states[|steps|] == Lost(first, second, true)
  {
    states, steps := BeginRuns(first, env1);
    states, steps := SaveRuns(states, steps, first, env2, second);
    states, steps := SendRuns(states, steps, first);
    states, steps := DeleteRuns(states, steps, first, second, 4);
  }

  lemma LateLossRuns(first: Record, second: Record, env1: Envelope, env2: Envelope)
    returns (states: seq<State>, steps: seq<Step>)
    requires AreVersions(first, second, env1, env2)
    ensures IsRun(SmallStore(), states, steps) && states[|steps|] == Lost(first, second, false)
  {
    states, steps := BeginRuns(first, env1);
    states, steps := SendRuns(states, steps, first);
    states, steps := SaveRuns(states, steps, first, env2, second);
    states, steps := DeleteRuns(states, steps, first, second, 3);
  }

  lemma LostLog(first: Record, second: Record, early: bool)
    requires IsValidRecord(first) && first.recordId == second.recordId
    ensures Lost(first, second, early).dir == map[] && Lost(first, second, early).log == LogOfLoss(first, second, early)
  {
    HoldingListing(first);
    BegunLog(first);
    if early { EarlyLog(first, second); } else { LateLog(first, second); }
  }

  lemma BegunLog(first: Record)
    ensures Begun(first).log == [Put(first, true), Read(0, [first])]
    ensures Begun(first).dir == Holding(first)
  {
    EmptyIsInitial();
  }

  lemma EarlyLog(first: Record, second: Record)
    requires Begun(first).log == [Put(first, true), Read(0, [first])] && Begun(first).dir == Holding(first)
    requires second.recordId in Listed(Holding(first))
    ensures Lost(first, second, true).log == LogOfLoss(first, second, true)
  {
  }

  lemma LateLog(first: Record, second: Record)
    requires Begun(first).log == [Put(first, true), Read(0, [first])] && Begun(first).dir == Holding(first)
    requires second.recordId in Listed(Holding(first))
    ensures Lost(first, second, false).log == LogOfLoss(first, second, false)
  {
  }

  /** Save, scan, deliver, delete, with a second save anywhere between scan and delete: the second
      result is gone, and only the first was sent. */
  lemma ResultSavedDuringDeliveryCanBeLost(id: string, a: string, b: string, early: bool)
    returns (states: seq<State>, steps: seq<Step>)
    requires id != "" && a != b
    ensures IsRun(SmallStore(), states, steps)
    ensures states[|steps|].log == LogOfLoss(RecordOf(id, a), RecordOf(id, b), early)
    ensures RecordOf(id, b).envelope != RecordOf(id, a).envelope && IsValidRecord(RecordOf(id, b))
    ensures Listed(states[|steps|].dir) == map[]
  {
    NewRecordOf(id, a);
    NewRecordOf(id, b);
    if early {
      states, steps := EarlyLossRuns(RecordOf(id, a), RecordOf(id, b), ResultOf(id, a), ResultOf(id, b));
    } else {
      states, steps := LateLossRuns(RecordOf(id, a), RecordOf(id, b), ResultOf(id, a), ResultOf(id, b));
    }
    LostLog(RecordOf(id, a), RecordOf(id, b), early);
    EmptyIsInitial();
  }

  // ----- the record limit -----

  function TightStore(): Config { Config(Limits(1, 100), (r: Record) => 1) }

  function HoldingBoth(r1: Record, r2: Record): Directory {
    map[PathOf(r1.recordId) := File(1, Some(r1)), PathOf(r2.recordId) := File(1, Some(r2))]
  }

  function StartedWith(dir: Directory): State { State(dir, dir, false, None, true, map[], []) }

  /** A store at its limit of one record that cannot drop ends up with two. */
  lemma FailedDropExceedsLimit(first: string, second: string, a: string)
    returns (states: seq<State>, steps: seq<Step>)
    requires first != "" && second != "" && SanitizeRecordId(first) != SanitizeRecordId(second)
    ensures IsRun(TightStore(), states, steps) && |states| == 2 && FailedSince(steps) == 1
    ensures |Listed(states[0].dir)| == 1 == TightStore().limits.maxRecords && |Listed(states[1].dir)| == 2
  {
    var r1, r2 := RecordOf(first, a), RecordOf(second, a);
    NewRecordOf(first, a);
    NewRecordOf(second, a);
    states, steps := FailedDropRuns(r1, r2, ResultOf(second, a));
  }

  lemma FailedDropRuns(r1: Record, r2: Record, env: Envelope) returns (states: seq<State>, steps: seq<Step>)
    requires IsValidRecord(r1) && IsValidRecord(r2) && r1.recordId != r2.recordId && NewRecord(env, NOW) == Accepted(r2)
    ensures IsRun(TightStore(), states, steps) && |states| == 2 && FailedSince(steps) == 1
    ensures |Listed(states[0].dir)| == 1 && |Listed(states[1].dir)| == 2
  {
    var both := HoldingBoth(r1, r2);
    var s := StartedWith(Holding(r1));
    var step := DoSave(env, NOW, LimitsFailed, [], both);
    var s' := s.(dir := both, log := [Put(r2, true)]);
    BothListed(r1, r2);
    FailedDropIsNext(r1, r2, env);
    states, steps := [s, s'], [step];
    assert steps[..0] == [];
  }

  lemma BothListed(r1: Record, r2: Record)
    requires IsValidRecord(r1) && IsValidRecord(r2) && r1.recordId != r2.recordId
    ensures Listed(Holding(r1)) == map[r1.recordId := r1] && |Listed(Holding(r1))| == 1
    ensures Listed(HoldingBoth(r1, r2)) == map[r1.recordId := r1, r2.recordId := r2] && |Listed(HoldingBoth(r1, r2))| == 2
  {
    HoldingListing(r1);
    ListedExactly(HoldingBoth(r1, r2));
    assert Listed(HoldingBoth(r1, r2)).Keys == {r1.recordId, r2.recordId};
    assert |{r1.recordId, r2.recordId}| == 2 && |Listed(HoldingBoth(r1, r2))| == |Listed(HoldingBoth(r1, r2)).Keys|;
  }

  lemma FailedDropIsNext(r1: Record, r2: Record, env: Envelope)
    requires IsValidRecord(r1) && IsValidRecord(r2) && r1.recordId != r2.recordId && NewRecord(env, NOW) == Accepted(r2)
    ensures var s, both := StartedWith(Holding(r1)), HoldingBoth(r1, r2);
            Next(TightStore(), s, DoSave(env, NOW, LimitsFailed, [], both), s.(dir := both, log := [Put(r2, true)]))
  {
    var dir, both := Holding(r1), HoldingBoth(r1, r2);
    HoldingListing(r1);
    assert KeepRetryState(dir, r2) == r2;
    assert Written(dir, r2, 1) == both;
    NothingDropped(both);
    assert DropEvents([]) == [];
    assert SaveEvents(dir, env, NOW, LimitsFailed, []) == [Put(r2, true)];
  }
}
