/** internal/outbox/store.go: the file operations of the outbox, one disk step at a time. */
module Outbox {
  import opened Sets
  import opened Protocol
  import opened Records
  import opened Directories
  import opened Draining
  import opened Retry

  datatype RemoveResult = Removed | NotExist | RemoveFailed

  /** The file system under the outbox.  Every operation may fail, and `history` records every
      state the directory passes through: a crash can happen at any of them.  `faults` counts the
      operations that failed; a missing file is not a fault. */
  class Disk {
    var files: Directory
    ghost var history: seq<Directory>
    ghost var faults: nat

    constructor (initial: Directory)
      ensures files == initial && history == [initial] && faults == 0
    {
      files := initial;
      history := [initial];
      faults := 0;
    }

    /** Creating the directory if it is missing. */
    method MakeDir() returns (ok: bool)
      modifies this`faults
      ensures faults == old(faults) + if ok then 0 else 1
    {
      ok := *;
      faults := faults + if ok then 0 else 1;
    }

    method ReadDir() returns (ok: bool, names: set<Name>)
      modifies this`faults
      ensures ok ==> names == files.Keys
      ensures faults == old(faults) + if ok then 0 else 1
    {
      ok := *;
      faults := faults + if ok then 0 else 1;
      names := if ok then files.Keys else {};
    }

    method CreateTruncated(name: Name) returns (ok: bool)
      modifies this
      ensures files == if ok then old(files)[name := File(0, None)] else old(files)
      ensures history == old(history) + [files]
      ensures faults == old(faults) + if ok then 0 else 1
    {
      ok := *;
      faults := faults + if ok then 0 else 1;
      if ok {
        files := files[name := File(0, None)];
      }
      history := history + [files];
    }

    /** Writing goes through a state with arbitrary contents, and a failed write stays there. */
    method Write(name: Name, contents: File) returns (ok: bool)
      modifies this
      ensures SameExcept(old(files), files, name)
      ensures ok ==> name in files && files[name] == contents
      ensures |history| == |old(history)| + 2 && old(history) <= history
      ensures forall k :: |old(history)| <= k < |history| ==> SameExcept(old(files), history[k], name)
      ensures faults == old(faults) + if ok then 0 else 1
    {
      var partial: File := *;
      files := files[name := partial];
      history := history + [files];
      ok := *;
      faults := faults + if ok then 0 else 1;
      if ok {
        files := files[name := contents];
      }
      history := history + [files];
    }

    method Rename(from: Name, to: Name) returns (ok: bool)
      modifies this
      ensures ok ==> from in old(files) && files == (old(files) - {from})[to := old(files)[from]]
      ensures !ok ==> files == old(files)
      ensures history == old(history) + [files]
      ensures faults == old(faults) + if ok || from !in old(files) then 0 else 1
    {
      ok := *;
      ok := ok && from in files;
      faults := faults + if ok || from !in files then 0 else 1;
      if ok {
        files := (files - {from})[to := files[from]];
      }
      history := history + [files];
    }

    method Remove(name: Name) returns (r: RemoveResult)
      modifies this
      ensures r.NotExist? ==> name !in old(files)
      ensures files == if r.RemoveFailed? then old(files) else old(files) - {name}
      ensures history == old(history) + [files]
      ensures faults == old(faults) + if r.RemoveFailed? then 1 else 0
    {
      var ok: bool := *;
      faults := faults + if ok then 0 else 1;
      if !ok {
        r := RemoveFailed;
      } else if name in files {
        files := files - {name};
        r := Removed;
      } else {
        r := NotExist;
      }
      history := history + [files];
    }
  }

  // ----- what the operations promise -----

  /** Saving over a listed record keeps its age and its retry state. */
  function KeepRetryState(dir: Directory, incoming: Record): Record {
    match ReadRecord(dir, PathOf(incoming.recordId))
    case None => incoming
    case Some(prior) =>
      incoming.(createdAt := prior.createdAt, attempts := prior.attempts,
             lastError := prior.lastError, nextRetryAt := prior.nextRetryAt)
  }

  datatype SaveResult = Saved(record: Record) | SaveRefused(error: RecordError) | WriteFailed | LimitsFailed

  /** All outcomes of Save: refused without a trace; failed with at most a stray temporary; or
      the record put in place and then oldest records dropped until the limits hold (or until a
      removal failed). */
  ghost predicate SaveSpec(dir: Directory, env: Envelope, now: int, limits: Limits, size: Record -> nat,
                           r: SaveResult, drops: seq<Record>, after: Directory)
  {
    match NewRecord(env, now)
    case Refused(e) => r == SaveRefused(e) && drops == [] && after == dir
    case Accepted(incoming) => InstallSpec(dir, KeepRetryState(dir, incoming), limits, size, r, drops, after)
  }

  ghost predicate InstallSpec(dir: Directory, record: Record, limits: Limits, size: Record -> nat,
                              r: SaveResult, drops: seq<Record>, after: Directory)
  {
    var written := Written(dir, record, size(record));
    match r
    case SaveRefused(_) => false
    case WriteFailed => drops == [] && SameExcept(dir, after, TmpPathOf(record.recordId))
    case LimitsFailed => IsDropSequence(written, drops, limits) && after == Dropped(written, drops)
    case Saved(s) =>
      && s == record && IsDropSequence(written, drops, limits)
      && after == Dropped(written, drops) && Within(after, limits)
  }

  /** A state in which a crash may interrupt Save: only the temporary differs from before, or
      the record is in place and some first part of the drops has happened. */
  ghost predicate SaveCrashState(dir: Directory, env: Envelope, now: int, size: Record -> nat,
                                 drops: seq<Record>, h: Directory)
  {
    match NewRecord(env, now)
    case Refused(_) => h == dir
    case Accepted(incoming) => InstallCrashState(dir, KeepRetryState(dir, incoming), size, drops, h)
  }

  ghost predicate InstallCrashState(dir: Directory, record: Record, size: Record -> nat,
                                    drops: seq<Record>, h: Directory)
  {
    || SameExcept(dir, h, TmpPathOf(record.recordId))
    || PartlyDropped(Written(dir, record, size(record)), drops, h)
  }

  /** Some first part of the drops has happened. */
  ghost predicate PartlyDropped(dir: Directory, drops: seq<Record>, h: Directory) {
    exists j :: 0 <= j <= |drops| && h == Dropped(dir, drops[..j])
  }

  datatype MarkResult = Marked(record: Record) | MarkFailed

  /** The record id MarkFailure writes back under: the one inside the file it read. */
  function MarkTarget(dir: Directory, recordId: string): string {
    match ReadRecord(dir, PathOf(recordId))
    case None => recordId
    case Some(r) => r.recordId
  }

  /** All outcomes of MarkFailure: the retry state advances, or at most a stray temporary. */
  ghost predicate MarkSpec(dir: Directory, recordId: string, error: string, now: int, size: Record -> nat,
                           r: MarkResult, after: Directory)
  {
    match r
    case MarkFailed => SameExcept(dir, after, TmpPathOf(MarkTarget(dir, recordId)))
    case Marked(record) =>
      && recordId in Listed(dir)
      && IsMarked(Listed(dir)[recordId], now, error, record)
      && after == Written(dir, record, size(record))
  }

  ghost predicate DeleteSpec(dir: Directory, recordId: string, ok: bool, after: Directory) {
    after == if ok then dir - {PathOf(recordId)} else dir
  }

  function DueOf(records: seq<Record>, now: int): seq<Record> {
    if records == [] then []
    else
      var m := |records| - 1;
      DueOf(records[..m], now) + if IsDue(records[m], now) then [records[m]] else []
  }

  function TakeLimit(records: seq<Record>, limit: int): seq<Record> {
    if 0 < limit < |records| then records[..limit] else records
  }

  /** The first `limit` due records of a scan in creation order; no limit if not positive. */
  ghost predicate DueSpec(dir: Directory, now: int, limit: int, due: seq<Record>) {
    exists scan :: IsListing(dir, scan) && due == TakeLimit(DueOf(scan, now), limit)
  }

  /** Limit enforcement after this save would end; matched directories always do. */
  ghost predicate SaveEnds(dir: Directory, env: Envelope, now: int, limits: Limits, size: Record -> nat) {
    match NewRecord(env, now)
    case Refused(_) => true
    case Accepted(incoming) =>
      var record := KeepRetryState(dir, incoming);
      Drains(Written(dir, record, size(record)), limits)
  }

  lemma MatchedSaveEnds(dir: Directory, env: Envelope, now: int, limits: Limits, size: Record -> nat)
    requires Matched(dir)
    ensures SaveEnds(dir, env, now, limits, size)
  {
    if NewRecord(env, now).Accepted? {
      var record := KeepRetryState(dir, NewRecord(env, now).record);
      WrittenStaysMatched(dir, record, size(record));
      MatchedDrains(Written(dir, record, size(record)), limits);
    }
  }

  lemma WrittenStaysMatched(dir: Directory, record: Record, bytes: nat)
    requires Matched(dir)
    ensures Matched(Written(dir, record, bytes))
  {
    WrittenListing(dir, record, bytes);
  }

  lemma DroppedStaysMatched(dir: Directory, drops: seq<Record>)
    requires Matched(dir)
    ensures Matched(Dropped(dir, drops))
  {
    RemovalListing(dir, Ids(drops));
  }

  // ----- the store -----

  const DEFAULT_MAX_RECORDS := 100
  const DEFAULT_MAX_BYTES := 5 * 1024 * 1024

  class Store {
    const disk: Disk
    const limits: Limits
    /** Length of a record's encoding. */
    const size: Record -> nat

    constructor (disk: Disk, maxRecords: int, maxBytes: int, size: Record -> nat)
      ensures this.disk == disk && this.size == size
      ensures limits.maxRecords == if maxRecords > 0 then maxRecords else 100
      ensures limits.maxBytes == if maxBytes > 0 then maxBytes else 5_242_880
    {
      this.disk := disk;
      this.size := size;
      this.limits := Limits(if maxRecords <= 0 then DEFAULT_MAX_RECORDS else maxRecords,
                            if maxBytes <= 0 then DEFAULT_MAX_BYTES else maxBytes);
    }

    /** Start-up recovery.  Fails only if the directory cannot be made or read; errors of its
        other file operations are ignored, but without any error it is complete.  No state it passes
        through lists anything else than before. */
    method Load() returns (ok: bool)
      modifies disk
      ensures old(disk.faults) <= disk.faults
      ensures !ok ==> disk.faults > old(disk.faults) && disk.files == old(disk.files) && disk.history == old(disk.history)
      ensures disk.faults == old(disk.faults) ==> disk.files == Recovered(old(disk.files))
      ensures old(disk.history) <= disk.history
      ensures Listed(disk.files) == Listed(old(disk.files))
      ensures AllList(disk.history[|old(disk.history)|..], Listed(old(disk.files)))
    {
      ok := disk.MakeDir();
      if !ok { return; }
      var names;
      ok, names := disk.ReadDir();
      if !ok { return; }
      ghost var before := disk.files;
      var rest := names;
      NothingVisited(before);
      while rest != {}
        invariant old(disk.faults) <= disk.faults
        invariant LoadProgress(before, disk.files, rest, disk.faults == old(disk.faults))
        invariant old(disk.history) <= disk.history
        invariant AllList(disk.history[|old(disk.history)|..], Listed(before))
        decreases |rest|
      {
        var name :| name in rest;
        ghost var now, past, faults := disk.files, disk.history, disk.faults;
        LoadEntry(name);
        AllListAppend(past, disk.history, |old(disk.history)|, Listed(before));
        LoadStep(before, now, rest, faults == old(disk.faults), name, disk.faults == faults, disk.files);
        rest := rest - {name};
      }
      assert before.Keys - {} == before.Keys;
    }

    /** One directory entry during recovery. */
    method LoadEntry(name: Name)
      modifies disk
      ensures old(disk.faults) <= disk.faults
      ensures EntryOutcome(old(disk.files), name, disk.faults == old(disk.faults), disk.files)
      ensures old(disk.history) <= disk.history
      ensures AllList(disk.history[|old(disk.history)|..], Listed(old(disk.files)))
    {
      if name.Tmp? {
        RemoveTmpListing(disk.files, name);
        var r := disk.Remove(name);
      } else if name.Json? && name in disk.files && ReadRecord(disk.files, name).None? {
        QuarantineListing(disk.files, name);
        var renamed := disk.Rename(name, BadPathOf(name));
      }
    }

    /** Temporary first, then rename: no reader ever sees a half-written record file. */
    method WriteRecordAtomic(record: Record) returns (ok: bool)
      modifies disk
      ensures old(disk.history) <= disk.history
      ensures ok ==> disk.files == Written(old(disk.files), record, size(record))
      ensures !ok ==> SameExcept(old(disk.files), disk.files, TmpPathOf(record.recordId))
      ensures forall k :: |old(disk.history)| <= k < |disk.history| ==>
                SameExcept(old(disk.files), disk.history[k], TmpPathOf(record.recordId))
                || (ok && disk.history[k] == disk.files)
      ensures disk.faults == old(disk.faults) + if ok then 0 else 1
    {
      var tmp := TmpPathOf(record.recordId);
      ok := disk.CreateTruncated(tmp);
      if !ok { return; }
      var data := File(size(record), Some(record));
      ok := disk.Write(tmp, data);
      if !ok { return; }
      ok := disk.Rename(tmp, PathOf(record.recordId));
    }

    /** The directory scan, sorted by creation time. */
    method List() returns (ok: bool, records: seq<Record>)
      modifies disk`faults
      ensures ok ==> IsListing(disk.files, records)
      ensures disk.faults == old(disk.faults) + if ok then 0 else 1
    {
      records := [];
      var names;
      ok, names := disk.ReadDir();
      if !ok { return; }
      var rest := names;
      ghost var stems: seq<string> := [];
      NothingScanned(disk.files);
      while rest != {}
        invariant rest <= disk.files.Keys
        invariant ok && disk.faults == old(disk.faults)
        invariant IsScan(disk.files, rest, records, stems)
        decreases |rest|
      {
        var name :| name in rest;
        ghost var scanned := records;
        if name.Json? && ReadRecord(disk.files, name).Some? {
          var i;
          records, i := InsertByAge(records, ReadRecord(disk.files, name).value);
          ScanOneMore(disk.files, rest, scanned, stems, name, i);
          stems := stems[..i] + [name.stem] + stems[i..];
        } else {
          ScanSkips(disk.files, rest, records, stems, name);
        }
        rest := rest - {name};
      }
      assert IsScan(disk.files, {}, records, stems);
    }

    /** Up to `limit` records whose retry time has come, oldest first. */
    method Due(now: int, limit: int) returns (ok: bool, due: seq<Record>)
      modifies disk`faults
      ensures disk.faults == old(disk.faults) + if ok then 0 else 1
      ensures ok ==> DueSpec(disk.files, now, limit, due)
      ensures !ok ==> due == []
    {
      var records;
      ok, records := List();
      if !ok { return false, []; }
      due := TakeDue(records, now, limit);
    }

    method Snapshot() returns (ok: bool, records: seq<Record>, total: nat)
      modifies disk`faults
      ensures disk.faults == old(disk.faults) + if ok then 0 else 1
      ensures ok ==> IsListing(disk.files, records) && total == TotalBytes(disk.files)
    {
      total := 0;
      ok, records := List();
      if !ok { return; }
      for i := 0 to |records|
        invariant ok && disk.faults == old(disk.faults)
        invariant total == SumBytes(disk.files, records[..i])
      {
        assert records[..i + 1][..i] == records[..i];
        var name := PathOf(records[i].recordId);
        if name in disk.files {
          total := total + disk.files[name].bytes;
        }
      }
      assert records[..|records|] == records;
      SumBytesIsTotal(disk.files, records);
    }

    /** Drops oldest records until both limits hold.  Without the precondition the loop need not
        end (see Draining); every matched directory meets it. */
    method EnforceLimits() returns (ok: bool, ghost drops: seq<Record>)
      requires Drains(disk.files, limits)
      modifies disk
      ensures old(disk.history) <= disk.history
      ensures IsDropSequence(old(disk.files), drops, limits)
      ensures disk.files == Dropped(old(disk.files), drops)
      ensures ok ==> Within(disk.files, limits) || |Listed(disk.files)| == 0
      ensures disk.faults == old(disk.faults) + if ok then 0 else 1
      ensures AllPartlyDropped(old(disk.files), drops, disk.history[|old(disk.history)|..])
    {
      drops := [];
      ghost var before := disk.files;
      ghost var past, states := disk.history, [];
      NoDropsYet(before, drops);
      ok := true;
      while ok
        invariant disk.faults == old(disk.faults) + if ok then 0 else 1
        invariant Drains(disk.files, limits)
        invariant DropProgress(before, drops, limits, disk.files, states)
        invariant past == old(disk.history) && disk.history == past + states
        decreases ok, |Listed(disk.files)|, if Within(disk.files, limits) then 0 else 1
      {
        var records, total;
        ok, records, total := Snapshot();
        if !ok { return; }
        ListingCounts(disk.files, records);
        if |records| <= limits.maxRecords && total <= limits.maxBytes {
          return;
        }
        if |records| == 0 {
          return;
        }
        FirstIsOldest(disk.files, records);
        ghost var left := disk.files;
        var r := disk.Remove(PathOf(records[0].recordId));
        ok := !r.RemoveFailed?;
        if ok {
          DrainTurn(left, limits, records[0]);
          DropProgressStep(before, drops, limits, left, states, records[0]);
          drops := drops + [records[0]];
        } else {
          DropProgressStall(before, drops, limits, left, states);
        }
        OneStateMore(past, states, disk.files);
        states := states + [disk.files];
      }
    }

    method Save(env: Envelope, now: int) returns (r: SaveResult, ghost drops: seq<Record>)
      requires SaveEnds(disk.files, env, now, limits, size) && limits.maxRecords > 0 && limits.maxBytes > 0
      modifies disk
      ensures Matched(old(disk.files)) ==> Matched(disk.files)
      ensures SaveSpec(old(disk.files), env, now, limits, size, r, drops, disk.files)
      ensures disk.faults == old(disk.faults) + if r.WriteFailed? || r.LimitsFailed? then 1 else 0
      ensures old(disk.history) <= disk.history
      ensures forall k :: |old(disk.history)| <= k < |disk.history| ==>
                SaveCrashState(old(disk.files), env, now, size, drops, disk.history[k])
    {
      drops := [];
      var incoming := NewRecord(env, now);
      if incoming.Refused? {
        return SaveRefused(incoming.error), drops;
      }
      var record := incoming.record;
      var prior := ReadRecord(disk.files, PathOf(record.recordId));
      if prior.Some? {
        record := record.(createdAt := prior.value.createdAt, attempts := prior.value.attempts,
                          lastError := prior.value.lastError, nextRetryAt := prior.value.nextRetryAt);
      }
      r, drops := Install(record);
    }

    method Install(record: Record) returns (r: SaveResult, ghost drops: seq<Record>)
      requires Drains(Written(disk.files, record, size(record)), limits) && limits.maxRecords > 0 && limits.maxBytes > 0
      modifies disk
      ensures Matched(old(disk.files)) ==> Matched(disk.files)
      ensures InstallSpec(old(disk.files), record, limits, size, r, drops, disk.files)
      ensures disk.faults == old(disk.faults) + if r.WriteFailed? || r.LimitsFailed? then 1 else 0
      ensures old(disk.history) <= disk.history
      ensures forall k :: |old(disk.history)| <= k < |disk.history| ==>
                InstallCrashState(old(disk.files), record, size, drops, disk.history[k])
    {
      drops := [];
      ghost var before := disk.files;
      var ok := WriteRecordAtomic(record);
      if !ok {
        SameExceptListsTheSame(before, disk.files, TmpPathOf(record.recordId));
        return WriteFailed, drops;
      }
      ghost var past := disk.history;
      ok, drops := EnforceLimits();
      InstallCrashStates(before, record, size, drops, |old(disk.history)|, past, disk.history);
      InstallOutcome(before, record, limits, size, ok, drops, disk.files);
      r := if ok then Saved(record) else LimitsFailed;
    }

    method MarkFailure(recordId: string, error: string, now: int) returns (r: MarkResult)
      modifies disk
      ensures Matched(old(disk.files)) ==> Matched(disk.files)
      ensures MarkSpec(old(disk.files), recordId, error, now, size, r, disk.files)
      ensures disk.faults == old(disk.faults) + if r.MarkFailed? && recordId in Listed(old(disk.files)) then 1 else 0
      ensures old(disk.history) <= disk.history
      ensures forall k :: |old(disk.history)| <= k < |disk.history| ==>
                SameExcept(old(disk.files), disk.history[k], TmpPathOf(MarkTarget(old(disk.files), recordId)))
                || (r.Marked? && disk.history[k] == disk.files)
    {
      ghost var before := disk.files;
      ListedExactly(before);
      var read := ReadRecord(disk.files, PathOf(recordId));
      if read.None? {
        return MarkFailed;
      }
      assert read.value == Listed(before)[recordId];
      var record := read.value.(attempts := read.value.attempts + 1, updatedAt := now,
                                lastError := ShortError(error));
      var delay := ComputeRetryDelay(record.attempts);
      var jitter := RetryJitter(delay);
      record := record.(nextRetryAt := record.updatedAt + delay + jitter);
      var ok := WriteRecordAtomic(record);
      if !ok {
        SameExceptListsTheSame(before, disk.files, TmpPathOf(record.recordId));
        return MarkFailed;
      }
      if Matched(before) { WrittenStaysMatched(before, record, size(record)); }
      r := Marked(record);
    }

    method Delete(recordId: string) returns (ok: bool)
      modifies disk
      ensures Matched(old(disk.files)) ==> Matched(disk.files)
      ensures DeleteSpec(old(disk.files), recordId, ok, disk.files)
      ensures disk.faults == old(disk.faults) + if ok then 0 else 1
      ensures disk.history == old(disk.history) + [disk.files]
    {
      ghost var before := disk.files;
      var r := disk.Remove(PathOf(recordId));
      ok := !r.RemoveFailed?;
      assert Paths({recordId}) == {PathOf(recordId)};
      RemovalListing(before, {recordId});
    }
  }

  /** Opening the outbox: refused without a directory name, and if recovery cannot make or read the
      directory. */
  method NewStore(disk: Disk, dirIsBlank: bool, maxRecords: int, maxBytes: int, size: Record -> nat)
    returns (store: Option<Store>)
    modifies disk
    ensures old(disk.faults) <= disk.faults
    ensures dirIsBlank ==> store.None? && disk.faults == old(disk.faults)
    ensures store.None? && !dirIsBlank ==> disk.faults > old(disk.faults)
    ensures store.None? ==> disk.files == old(disk.files)
    ensures store.Some? ==>
      var s := store.value;
      && fresh(s) && s.disk == disk && s.size == size
      && s.limits.maxRecords == (if maxRecords > 0 then maxRecords else 100)
      && s.limits.maxBytes == (if maxBytes > 0 then maxBytes else 5_242_880)
    ensures !dirIsBlank && disk.faults == old(disk.faults) ==> disk.files == Recovered(old(disk.files))
    ensures Listed(disk.files) == Listed(old(disk.files))
  {
    if dirIsBlank { return None; }
    var s := new Store(disk, maxRecords, maxBytes, size);
    var ok := s.Load();
    store := if ok then Some(s) else None;
  }

  // ----- lemmas behind the loops -----

  /** What recovery does with one entry. */
  function Visited(dir: Directory, name: Name): Directory {
    if name.Tmp? then dir - {name}
    else if IsCorrupt(dir, name) then (dir - {name})[BadPathOf(name) := dir[name]]
    else dir
  }

  /** None of these states lists anything else. */
  ghost predicate AllList(states: seq<Directory>, listing: map<string, Record>) {
    forall k :: 0 <= k < |states| ==> Listed(states[k]) == listing
  }

  lemma AllListAppend(a: seq<Directory>, b: seq<Directory>, from: nat, listing: map<string, Record>)
    requires a <= b && from <= |a| && AllList(a[from..], listing) && AllList(b[|a|..], listing)
    ensures AllList(b[from..], listing)
  {
  }

  ghost predicate EntryOutcome(now: Directory, name: Name, ok: bool, after: Directory) {
    && (ok ==> after == Visited(now, name))
    && (forall n :: n != name && !n.Bad? && n in now ==> n in after && after[n] == now[n])
    && Listed(after) == Listed(now)
  }

  /** Recovery in progress: what is left to visit is untouched, and without errors the
      directory is the recovered one as far as the visit got. */
  ghost predicate LoadProgress(before: Directory, now: Directory, rest: set<Name>, clean: bool) {
    && rest <= before.Keys
    && (forall n :: n in rest && !n.Bad? ==> n in now && now[n] == before[n])
    && (clean ==> now == RecoveredAfter(before, before.Keys - rest))
    && Listed(now) == Listed(before)
  }

  lemma NothingVisited(dir: Directory)
    ensures LoadProgress(dir, dir, dir.Keys, true)
  {
  }

  lemma LoadStep(before: Directory, now: Directory, rest: set<Name>, clean: bool, name: Name, ok: bool, after: Directory)
    requires LoadProgress(before, now, rest, clean) && name in rest && EntryOutcome(now, name, ok, after)
    ensures LoadProgress(before, after, rest - {name}, clean && ok)
  {
    if clean && ok {
      VisitOne(before, before.Keys - rest, name, now);
      assert before.Keys - (rest - {name}) == before.Keys - rest + {name};
    }
  }

  lemma VisitOne(dir: Directory, visited: set<Name>, name: Name, now: Directory)
    requires name in dir && name !in visited && now == RecoveredAfter(dir, visited)
    requires !name.Bad? ==> name in now && now[name] == dir[name]
    ensures Visited(now, name) == RecoveredAfter(dir, visited + {name})
  {
    GoneStep(dir, visited, name);
    QuarantinedStep(dir, visited, name);
    var gone, bad := Gone(dir, visited), Quarantined(dir, visited);
    if name.Tmp? {
      assert (dir - gone + bad) - {name} == dir - (gone + {name}) + bad;
    } else if IsCorrupt(dir, name) {
      assert ((dir - gone + bad) - {name})[BadPathOf(name) := dir[name]] == dir - (gone + {name}) + bad[BadPathOf(name) := dir[name]];
    }
  }

  lemma GoneStep(dir: Directory, visited: set<Name>, name: Name)
    requires name in dir
    ensures Gone(dir, visited + {name}) ==
            Gone(dir, visited) + if name.Tmp? || IsCorrupt(dir, name) then {name} else {}
  {
  }

  lemma QuarantinedStep(dir: Directory, visited: set<Name>, name: Name)
    requires name in dir
    ensures Quarantined(dir, visited + {name}) ==
            if IsCorrupt(dir, name) then Quarantined(dir, visited)[BadPathOf(name) := dir[name]]
            else Quarantined(dir, visited)
  {
  }

  lemma RemoveTmpListing(dir: Directory, name: Name)
    requires !name.Json?
    ensures Listed(dir - {name}) == Listed(dir)
  {
  }

  lemma QuarantineListing(dir: Directory, name: Name)
    requires name in dir && name.Json? && ReadRecord(dir, name).None?
    ensures Listed((dir - {name})[BadPathOf(name) := dir[name]]) == Listed(dir)
  {
  }

  method InsertByAge(records: seq<Record>, r: Record) returns (more: seq<Record>, i: nat)
    requires IsByAge(records)
    ensures i <= |records| && more == records[..i] + [r] + records[i..] && IsByAge(more)
  {
    i := 0;
    while i < |records| && records[i].createdAt <= r.createdAt
      invariant 0 <= i <= |records|
      invariant forall j :: 0 <= j < i ==> records[j].createdAt <= r.createdAt
    {
      i := i + 1;
    }
    more := records[..i] + [r] + records[i..];
  }

  lemma NothingScanned(dir: Directory)
    ensures IsScan(dir, dir.Keys, [], [])
  {
    ListedExactly(dir);
  }

  lemma ScanSkips(dir: Directory, rest: set<Name>, records: seq<Record>, stems: seq<string>, name: Name)
    requires IsScan(dir, rest, records, stems) && name in rest && !(name.Json? && ReadRecord(dir, name).Some?)
    ensures IsScan(dir, rest - {name}, records, stems)
  {
    ListedExactly(dir);
  }

  lemma ScanOneMore(dir: Directory, rest: set<Name>, records: seq<Record>, stems: seq<string>, name: Name, i: nat)
    requires IsScan(dir, rest, records, stems) && name in rest && name.Json? && ReadRecord(dir, name).Some?
    requires i <= |records| && IsByAge(records[..i] + [ReadRecord(dir, name).value] + records[i..])
    ensures IsScan(dir, rest - {name}, records[..i] + [ReadRecord(dir, name).value] + records[i..],
                   stems[..i] + [name.stem] + stems[i..])
  {
    ListedAt(dir, name.stem);
    assert name == PathOf(name.stem) && name.stem !in stems;
    InsertedIsDistinct(stems, name.stem, i);
    InsertedIsReadFrom(Listed(dir), records, stems, name.stem, i);
  }

  lemma InsertedIsReadFrom(listing: map<string, Record>, records: seq<Record>, stems: seq<string>, stem: string, i: nat)
    requires AreReadFrom(listing, records, stems) && stem in listing && i <= |records|
    ensures AreReadFrom(listing, records[..i] + [listing[stem]] + records[i..], stems[..i] + [stem] + stems[i..])
  {
  }

  method TakeDue(records: seq<Record>, now: int, limit: int) returns (due: seq<Record>)
    ensures due == TakeLimit(DueOf(records, now), limit)
  {
    due := [];
    for i := 0 to |records|
      invariant due == DueOf(records[..i], now)
      invariant limit > 0 ==> |due| < limit
    {
      assert records[..i + 1][..i] == records[..i];
      if records[i].nextRetryAt == ZERO_TIME || !(records[i].nextRetryAt > now) {
        due := due + [records[i]];
        if limit > 0 && |due| >= limit {
          DueOfPrefix(records, i + 1, now);
          return;
        }
      }
    }
    assert records[..|records|] == records;
  }

  lemma {:induction false} DueOfPrefix(records: seq<Record>, n: nat, now: int)
    requires n <= |records|
    ensures DueOf(records[..n], now) <= DueOf(records, now)
    decreases |records| - n
  {
    if n < |records| {
      assert records[..n + 1][..n] == records[..n];
      DueOfPrefix(records, n + 1, now);
    } else {
      assert records[..n] == records;
    }
  }

  lemma NothingListed(dir: Directory)
    ensures |Listed(dir)| == 0 ==> TotalBytes(dir) == 0
  {
  }

  lemma FirstIsOldest(dir: Directory, records: seq<Record>)
    requires IsListing(dir, records) && records != []
    ensures IsOldest(dir, records[0])
  {
    var stems :| IsScan(dir, {}, records, stems);
    FirstReadIsOldest(Listed(dir), records, stems);
    assert IsOldestFile(dir, stems[0]);
  }

  lemma FirstReadIsOldest(listing: map<string, Record>, records: seq<Record>, stems: seq<string>)
    requires AreReadFrom(listing, records, stems) && IsByAge(records) && records != []
    requires forall id :: id in listing ==> id in stems
    ensures forall id :: id in listing ==> records[0].createdAt <= listing[id].createdAt
  {
    forall id | id in listing ensures records[0].createdAt <= listing[id].createdAt {
      var k :| 0 <= k < |stems| && stems[k] == id;
      assert records[k] == listing[id];
    }
  }

  lemma NoDropsYet(dir: Directory, drops: seq<Record>)
    ensures PartlyDropped(dir, drops, dir)
  {
    assert Ids(drops[..0]) == {} && Paths({}) == {};
    assert dir == Dropped(dir, drops[..0]);
  }

  lemma AllDropped(dir: Directory, drops: seq<Record>)
    ensures PartlyDropped(dir, drops, Dropped(dir, drops))
  {
    assert drops[..|drops|] == drops;
  }

  ghost predicate AllPartlyDropped(dir: Directory, drops: seq<Record>, states: seq<Directory>) {
    forall k :: 0 <= k < |states| ==> PartlyDropped(dir, drops, states[k])
  }

  lemma AllPartlyDroppedMore(dir: Directory, drops: seq<Record>, next: Record, states: seq<Directory>)
    requires AllPartlyDropped(dir, drops, states)
    ensures AllPartlyDropped(dir, drops + [next], states)
  {
    forall k | 0 <= k < |states| ensures PartlyDropped(dir, drops + [next], states[k]) {
      var j :| 0 <= j <= |drops| && states[k] == Dropped(dir, drops[..j]);
      assert (drops + [next])[..j] == drops[..j];
    }
  }

  lemma OneStateMore(past: seq<Directory>, states: seq<Directory>, now: Directory)
    ensures past + (states + [now]) == past + states + [now]
  {
  }

  /** Limit enforcement in progress, having passed through `states`. */
  ghost predicate DropProgress(before: Directory, drops: seq<Record>, limits: Limits, now: Directory, states: seq<Directory>) {
    && now == Dropped(before, drops)
    && IsDropSequence(before, drops, limits)
    && AllPartlyDropped(before, drops, states)
  }

  lemma DropProgressStall(before: Directory, drops: seq<Record>, limits: Limits, now: Directory, states: seq<Directory>)
    requires DropProgress(before, drops, limits, now, states)
    ensures DropProgress(before, drops, limits, now, states + [now])
  {
    AllDropped(before, drops);
  }

  lemma DropProgressStep(before: Directory, drops: seq<Record>, limits: Limits, now: Directory, states: seq<Directory>, r: Record)
    requires DropProgress(before, drops, limits, now, states) && IsDrop(now, r, limits)
    ensures var after := now - {PathOf(r.recordId)};
            DropProgress(before, drops + [r], limits, after, states + [after])
  {
    DropOneMore(before, drops, r, limits);
    AllPartlyDroppedMore(before, drops, r, states);
    DropProgressStall(before, drops + [r], limits, now - {PathOf(r.recordId)}, states);
  }

  /** What a write and its limit enforcement come to. */
  lemma InstallOutcome(dir: Directory, record: Record, limits: Limits, size: Record -> nat, ok: bool,
                       drops: seq<Record>, after: Directory)
    requires limits.maxRecords > 0 && limits.maxBytes > 0
    requires IsDropSequence(Written(dir, record, size(record)), drops, limits)
    requires after == Dropped(Written(dir, record, size(record)), drops)
    requires ok ==> Within(after, limits) || |Listed(after)| == 0
    ensures InstallSpec(dir, record, limits, size, if ok then Saved(record) else LimitsFailed, drops, after)
    ensures Matched(dir) ==> Matched(after)
  {
    NothingListed(after);
    if Matched(dir) { InstalledStaysMatched(dir, record, size(record), drops); }
  }

  lemma InstalledStaysMatched(dir: Directory, record: Record, bytes: nat, drops: seq<Record>)
    requires Matched(dir)
    ensures Matched(Dropped(Written(dir, record, bytes), drops))
  {
    WrittenStaysMatched(dir, record, bytes);
    DroppedStaysMatched(Written(dir, record, bytes), drops);
  }

  /** The states of a write, then the states of its limit enforcement. */
  lemma InstallCrashStates(dir: Directory, record: Record, size: Record -> nat, drops: seq<Record>,
                           from: nat, past: seq<Directory>, history: seq<Directory>)
    requires from <= |past| && past <= history
    requires forall k :: from <= k < |past| ==>
               SameExcept(dir, past[k], TmpPathOf(record.recordId)) || past[k] == Written(dir, record, size(record))
    requires AllPartlyDropped(Written(dir, record, size(record)), drops, history[|past|..])
    ensures forall k :: from <= k < |history| ==> InstallCrashState(dir, record, size, drops, history[k])
  {
    NoDropsYet(Written(dir, record, size(record)), drops);
    forall k | from <= k < |history| ensures InstallCrashState(dir, record, size, drops, history[k]) {
      if k < |past| {
        assert history[k] == past[k];
      } else {
        assert history[k] == history[|past|..][k - |past|];
      }
    }
  }

  function SumBytes(dir: Directory, records: seq<Record>): nat {
    if records == [] then 0
    else
      var m := |records| - 1;
      SumBytes(dir, records[..m]) + BytesOf(dir, records[m])
  }

  lemma {:induction false} SumBytesIsSize(dir: Directory, records: seq<Record>, stems: seq<string>)
    requires IsDistinct(stems) && AreReadFrom(Listed(dir), records, stems)
    ensures Elements(stems) <= Listed(dir).Keys
    ensures SumBytes(dir, records) == SizeOf(dir, Elements(stems))
  {
    if records != [] {
      var m := |records| - 1;
      SumBytesIsSize(dir, records[..m], stems[..m]);
      assert Elements(stems) - {stems[m]} == Elements(stems[..m]);
      SizeOfWithout(dir, Elements(stems), stems[m]);
    }
  }

  lemma SumBytesIsTotal(dir: Directory, records: seq<Record>)
    requires IsListing(dir, records)
    ensures SumBytes(dir, records) == TotalBytes(dir)
  {
    var stems :| IsScan(dir, {}, records, stems);
    SumBytesIsSize(dir, records, stems);
    assert Elements(stems) == Listed(dir).Keys;
  }
}
