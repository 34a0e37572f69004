/** What the outbox guarantees across crashes, limits and scans, for every directory. */
module OutboxLaws {
  import opened Sets
  import opened Protocol
  import opened Records
  import opened Directories
  import opened Draining
  import opened Retry
  import opened Outbox

  // ----- crash atomicity -----

  /** The listing after an atomic save of a record. */
  function ListingWith(listing: map<string, Record>, r: Record): map<string, Record> {
    if IsValidRecord(r) then listing[r.recordId := r] else listing - {r.recordId}
  }

  /** A crash anywhere inside Save followed by recovery yields the listing before the save, or
      the listing after it with a first, oldest part of the drops done; never anything between. */
  lemma SaveIsCrashAtomic(dir: Directory, env: Envelope, now: int, limits: Limits, size: Record -> nat,
                          r: SaveResult, drops: seq<Record>, after: Directory, h: Directory)
    requires SaveSpec(dir, env, now, limits, size, r, drops, after)
    requires SaveCrashState(dir, env, now, size, drops, h)
    ensures Listed(Recovered(h)) == Listed(dir) ||
            (NewRecord(env, now).Accepted? &&
             var record := KeepRetryState(dir, NewRecord(env, now).record);
             exists j :: 0 <= j <= |drops| && IsDropSequence(Written(dir, record, size(record)), drops[..j], limits)
               && Listed(Recovered(h)) == ListingWith(Listed(dir), record) - Ids(drops[..j]))
  {
    RecoveredListing(h, h.Keys);
    if NewRecord(env, now).Accepted? {
      InstallIsCrashAtomic(dir, KeepRetryState(dir, NewRecord(env, now).record), limits, size, r, drops, after, h);
    }
  }

  lemma InstallIsCrashAtomic(dir: Directory, record: Record, limits: Limits, size: Record -> nat,
                             r: SaveResult, drops: seq<Record>, after: Directory, h: Directory)
    requires InstallSpec(dir, record, limits, size, r, drops, after)
    requires InstallCrashState(dir, record, size, drops, h)
    ensures Listed(h) == Listed(dir) ||
            exists j :: 0 <= j <= |drops| && IsDropSequence(Written(dir, record, size(record)), drops[..j], limits)
              && Listed(h) == ListingWith(Listed(dir), record) - Ids(drops[..j])
  {
    if SameExcept(dir, h, TmpPathOf(record.recordId)) {
      SameExceptListsTheSame(dir, h, TmpPathOf(record.recordId));
    } else {
      var written := Written(dir, record, size(record));
      var j :| 0 <= j <= |drops| && h == Dropped(written, drops[..j]);
      DropPrefix(written, drops, limits, j);
      WrittenListing(dir, record, size(record));
      RemovalListing(written, Ids(drops[..j]));
    }
  }

  /** A crash inside Save leaves the directory as some failed Save would, so whatever is proved
      for all outcomes of Save covers a process that stops in the middle of it. */
  lemma CrashedSaveIsAFailedSave(dir: Directory, env: Envelope, now: int, limits: Limits, size: Record -> nat,
                                 r: SaveResult, drops: seq<Record>, after: Directory, h: Directory)
    requires SaveSpec(dir, env, now, limits, size, r, drops, after)
    requires SaveCrashState(dir, env, now, size, drops, h)
    ensures exists r', drops' :: SaveSpec(dir, env, now, limits, size, r', drops', h)
  {
    match NewRecord(env, now)
    case Refused(e) =>
      assert SaveSpec(dir, env, now, limits, size, SaveRefused(e), [], h);
    case Accepted(incoming) =>
      var record := KeepRetryState(dir, incoming);
      if SameExcept(dir, h, TmpPathOf(record.recordId)) {
        assert SaveSpec(dir, env, now, limits, size, WriteFailed, [], h);
      } else {
        var written := Written(dir, record, size(record));
        var j :| 0 <= j <= |drops| && h == Dropped(written, drops[..j]);
        DropPrefix(written, drops, limits, j);
        assert SaveSpec(dir, env, now, limits, size, LimitsFailed, drops[..j], h);
      }
  }

  lemma DropPrefix(dir: Directory, drops: seq<Record>, limits: Limits, j: nat)
    requires IsDropSequence(dir, drops, limits) && j <= |drops|
    ensures IsDropSequence(dir, drops[..j], limits)
  {
    forall i | 0 <= i < j ensures IsDrop(Dropped(dir, drops[..j][..i]), drops[..j][i], limits) {
      assert drops[..j][..i] == drops[..i];
    }
  }

  // ----- what is saved and marked -----

  /** The record a successful save returns and lists: the new envelope under its own ids, with the
      creation time and retry state of the record that was listed there, if any. */
  lemma SavedRecordExactly(dir: Directory, env: Envelope, now: int, limits: Limits, size: Record -> nat,
                           r: SaveResult, drops: seq<Record>, after: Directory)
    requires SaveSpec(dir, env, now, limits, size, r, drops, after) && r.Saved?
    ensures NewRecord(env, now).Accepted?
    ensures var s, fresh' := r.record, NewRecord(env, now).record;
            && s.recordId == fresh'.recordId && s.commandId == fresh'.commandId && s.updatedAt == now
            && s.envelope == env.(payload := SanitizedPayload(env.payload))
            && (if s.recordId in Listed(dir) then
                  var prior := Listed(dir)[s.recordId];
                  s.createdAt == prior.createdAt && s.attempts == prior.attempts && s.lastError == prior.lastError
                  && s.nextRetryAt == prior.nextRetryAt
                else s.createdAt == now && s.attempts == 0 && s.lastError == "" && s.nextRetryAt == now)
  {
    ListedExactly(dir);
  }

  /** A save drops nothing exactly if the limits hold with the record in place. */
  lemma SaveDropsExactly(dir: Directory, record: Record, limits: Limits, size: Record -> nat, r: SaveResult,
                         drops: seq<Record>, after: Directory)
    requires InstallSpec(dir, record, limits, size, r, drops, after) && r.Saved?
    ensures var written := Written(dir, record, size(record));
            drops == [] <==> |Listed(written)| <= limits.maxRecords && TotalBytes(written) <= limits.maxBytes
  {
    NoDropsExactly(Written(dir, record, size(record)), drops, limits);
  }

  lemma NoDropsExactly(dir: Directory, drops: seq<Record>, limits: Limits)
    requires IsDropSequence(dir, drops, limits) && Within(Dropped(dir, drops), limits)
    ensures drops == [] <==> |Listed(dir)| <= limits.maxRecords && TotalBytes(dir) <= limits.maxBytes
  {
    NothingDropped(dir);
    if drops != [] {
      assert drops[..0] == [];
      assert IsDrop(Dropped(dir, drops[..0]), drops[0], limits);
    }
  }

  lemma NothingDropped(dir: Directory)
    ensures Dropped(dir, []) == dir
  {
    assert Ids([]) == {} && Paths({}) == {};
  }

  /** And every drop is made while there are too many records or too many bytes. */
  lemma DropsOnlyOverLimits(dir: Directory, drops: seq<Record>, limits: Limits, i: nat)
    requires IsDropSequence(dir, drops, limits) && i < |drops|
    ensures var left := Dropped(dir, drops[..i]);
            |Listed(left)| > limits.maxRecords || TotalBytes(left) > limits.maxBytes
  {
    assert IsDrop(Dropped(dir, drops[..i]), drops[i], limits);
  }

  /** The record a failed delivery leaves behind, field by field. */
  lemma MarkedRecordExactly(dir: Directory, recordId: string, error: string, now: int, size: Record -> nat,
                            r: MarkResult, after: Directory)
    requires MarkSpec(dir, recordId, error, now, size, r, after) && r.Marked?
    ensures recordId in Listed(dir)
    ensures var before, m := Listed(dir)[recordId], r.record;
            && m.attempts - before.attempts == 1 && m.updatedAt == now
            && m.recordId == before.recordId && m.commandId == before.commandId && m.createdAt == before.createdAt
            && m.envelope == before.envelope
            && m.lastError <= error && (|error| <= 200 ==> m.lastError == error) && (|error| > 200 ==> |m.lastError| == 200)
            && now + 4_000_000_000 <= m.nextRetryAt <= now + 72_000_000_000
  {
    MarkedExactly(Listed(dir)[recordId], now, error, r.record);
  }

  /** The same for MarkFailure, which replaces one record.  Delete is a single disk step. */
  lemma MarkIsCrashAtomic(dir: Directory, recordId: string, error: string, now: int, size: Record -> nat,
                          r: MarkResult, after: Directory, h: Directory)
    requires MarkSpec(dir, recordId, error, now, size, r, after)
    requires SameExcept(dir, h, TmpPathOf(MarkTarget(dir, recordId))) || (r.Marked? && h == after)
    ensures Listed(Recovered(h)) == Listed(dir)
            || (r.Marked? && Listed(Recovered(h)) == ListingWith(Listed(dir), r.record))
  {
    RecoveredListing(h, h.Keys);
    if SameExcept(dir, h, TmpPathOf(MarkTarget(dir, recordId))) {
      SameExceptListsTheSame(dir, h, TmpPathOf(MarkTarget(dir, recordId)));
    } else {
      WrittenListing(dir, r.record, size(r.record));
    }
  }

  lemma DeleteListing(dir: Directory, recordId: string, ok: bool, after: Directory)
    requires DeleteSpec(dir, recordId, ok, after)
    ensures Listed(after) == if ok then Listed(dir) - {recordId} else Listed(dir)
  {
  }

  // ----- limits -----

  lemma MarkListing(dir: Directory, recordId: string, error: string, now: int, size: Record -> nat,
                    r: MarkResult, after: Directory)
    requires Matched(dir) && MarkSpec(dir, recordId, error, now, size, r, after)
    ensures Listed(after) == if r.Marked? then Listed(dir)[recordId := r.record] else Listed(dir)
    ensures Matched(after)
  {
    if r.Marked? {
      ListedExactly(dir);
      WrittenListing(dir, r.record, size(r.record));
    } else {
      SameExceptListsTheSame(dir, after, TmpPathOf(MarkTarget(dir, recordId)));
    }
  }

  lemma SaveListing(dir: Directory, env: Envelope, now: int, limits: Limits, size: Record -> nat,
                    r: SaveResult, drops: seq<Record>, after: Directory)
    requires Matched(dir) && SaveSpec(dir, env, now, limits, size, r, drops, after)
    ensures Matched(after)
    ensures r.SaveRefused? || r.WriteFailed? ==> Listed(after) == Listed(dir)
    ensures r.Saved? || r.LimitsFailed? ==>
              && NewRecord(env, now).Accepted?
              && Listed(after) ==
                 ListingWith(Listed(dir), KeepRetryState(dir, NewRecord(env, now).record)) - Ids(drops)
  {
    if NewRecord(env, now).Accepted? {
      InstallListing(dir, KeepRetryState(dir, NewRecord(env, now).record), limits, size, r, drops, after);
    }
  }

  lemma InstallListing(dir: Directory, record: Record, limits: Limits, size: Record -> nat,
                       r: SaveResult, drops: seq<Record>, after: Directory)
    requires Matched(dir) && InstallSpec(dir, record, limits, size, r, drops, after)
    ensures Matched(after)
    ensures Listed(after) == if r.WriteFailed? then Listed(dir) else ListingWith(Listed(dir), record) - Ids(drops)
  {
    if r.WriteFailed? {
      SameExceptListsTheSame(dir, after, TmpPathOf(record.recordId));
    } else {
      WrittenAndDroppedListing(dir, record, size(record), drops);
    }
  }

  lemma WrittenAndDroppedListing(dir: Directory, record: Record, bytes: nat, drops: seq<Record>)
    requires Matched(dir)
    ensures var after := Dropped(Written(dir, record, bytes), drops);
            Matched(after) && Listed(after) == ListingWith(Listed(dir), record) - Ids(drops)
  {
    WrittenListing(dir, record, bytes);
    RemovalListing(Written(dir, record, bytes), Ids(drops));
  }

  /** The record count after a save: within the limit if it succeeded; the count before it if
      nothing was put in place; otherwise that of the new listing, less one for every drop. */
  lemma SaveCount(dir: Directory, env: Envelope, now: int, limits: Limits, size: Record -> nat,
                  r: SaveResult, drops: seq<Record>, after: Directory)
    requires Matched(dir) && SaveSpec(dir, env, now, limits, size, r, drops, after)
    ensures r.Saved? ==> |Listed(after)| <= limits.maxRecords
    ensures r.SaveRefused? || r.WriteFailed? ==> |Listed(after)| == |Listed(dir)|
    ensures r.LimitsFailed? ==>
              && NewRecord(env, now).Accepted?
              && |Listed(after)| == |ListingWith(Listed(dir), KeepRetryState(dir, NewRecord(env, now).record))| - |drops|
              && |Listed(after)| <= |Listed(dir)| + 1
  {
    SaveListing(dir, env, now, limits, size, r, drops, after);
    if NewRecord(env, now).Accepted? && !r.WriteFailed? {
      var record := KeepRetryState(dir, NewRecord(env, now).record);
      InstallCount(dir, record, size(record), limits, drops);
    }
  }

  lemma InstallCount(dir: Directory, record: Record, bytes: nat, limits: Limits, drops: seq<Record>)
    requires Matched(dir) && IsDropSequence(Written(dir, record, bytes), drops, limits)
    ensures |Listed(Dropped(Written(dir, record, bytes), drops))| == |ListingWith(Listed(dir), record)| - |drops|
            <= |Listed(dir)| + 1
  {
    WrittenListing(dir, record, bytes);
    WrittenStaysMatched(dir, record, bytes);
    DropsCount(Written(dir, record, bytes), drops, limits, |drops|);
    assert drops[..|drops|] == drops;
    OneMoreAtMost(Listed(dir), record);
  }

  lemma OneMoreAtMost(listing: map<string, Record>, r: Record)
    ensures |ListingWith(listing, r)| <= |listing| + 1
  {
    var after := ListingWith(listing, r);
    SubsetSize(after.Keys, listing.Keys + {r.recordId});
    assert |after| == |after.Keys| && |listing| == |listing.Keys|;
  }

  /** Every drop removes one listed record. */
  lemma {:induction false} DropsCount(dir: Directory, drops: seq<Record>, limits: Limits, j: nat)
    requires Matched(dir) && IsDropSequence(dir, drops, limits) && j <= |drops|
    ensures |Listed(Dropped(dir, drops[..j]))| == |Listed(dir)| - j
  {
    if j == 0 {
      assert Ids(drops[..0]) == {} && Paths({}) == {};
      assert Dropped(dir, drops[..0]) == dir;
    } else {
      var i := j - 1;
      DropsCount(dir, drops, limits, i);
      var left, r := Dropped(dir, drops[..i]), drops[i];
      assert IsDrop(left, r, limits);
      NextDropped(dir, drops, i);
      DroppedStaysMatched(dir, drops[..i]);
      OneDropCounts(left, r);
    }
  }

  lemma NextDropped(dir: Directory, drops: seq<Record>, i: nat)
    requires i < |drops|
    ensures Dropped(dir, drops[..i + 1]) == Dropped(dir, drops[..i]) - {PathOf(drops[i].recordId)}
  {
    assert drops[..i + 1] == drops[..i] + [drops[i]];
    DroppedOneMore(dir, drops[..i], drops[i]);
  }

  lemma OneDropCounts(left: Directory, r: Record)
    requires Matched(left) && IsOldest(left, r)
    ensures |Listed(left - {PathOf(r.recordId)})| == |Listed(left)| - 1
  {
    var f :| IsOldestFile(left, f) && Listed(left)[f] == r;
    WithoutListing(left, r);
    assert Listed(Without(left, r)).Keys == Listed(left).Keys - {f};
    assert |Listed(Without(left, r))| == |Listed(Without(left, r)).Keys| && |Listed(left)| == |Listed(left).Keys|;
  }

  lemma MarkKeepsCount(dir: Directory, recordId: string, error: string, now: int, size: Record -> nat,
                       r: MarkResult, after: Directory)
    requires Matched(dir) && MarkSpec(dir, recordId, error, now, size, r, after)
    ensures |Listed(after)| == |Listed(dir)|
  {
    MarkListing(dir, recordId, error, now, size, r, after);
    assert Listed(after).Keys == Listed(dir).Keys;
    assert |Listed(after)| == |Listed(after).Keys| && |Listed(dir)| == |Listed(dir).Keys|;
  }

  lemma DeleteKeepsCount(dir: Directory, recordId: string, ok: bool, after: Directory)
    requires DeleteSpec(dir, recordId, ok, after)
    ensures |Listed(after)| <= |Listed(dir)|
  {
    DeleteListing(dir, recordId, ok, after);
    SubsetSize(Listed(after).Keys, Listed(dir).Keys);
  }

  /** The byte limit is enforced by Save alone: marking a failure can push a store that was
      within its limits over them, and nothing is dropped until the next save. */
  lemma MarkCanExceedByteLimit(r: Record, now: int, error: string, marked: Record, bytes: nat, size: Record -> nat)
    requires IsValidRecord(r) && IsMarked(r, now, error, marked) && size(marked) > bytes
    ensures var dir: Directory := map[PathOf(r.recordId) := File(bytes, Some(r))];
            var after := Written(dir, marked, size(marked));
            && Matched(dir) && Within(dir, Limits(1, bytes))
            && MarkSpec(dir, r.recordId, error, now, size, Marked(marked), after)
            && !Within(after, Limits(1, bytes))
  {
    var dir: Directory := map[PathOf(r.recordId) := File(bytes, Some(r))];
    var after := Written(dir, marked, size(marked));
    ListedExactly(dir);
    ListedExactly(after);
    OneRecordSize(dir, r.recordId);
    OneRecordSize(after, r.recordId);
  }

  /** No outcome of MarkFailure exceeds the limits exactly if every record it may write, whatever
      the jitter, fits in place of the old one. */
  lemma MarkStaysWithinExactly(dir: Directory, recordId: string, error: string, now: int, limits: Limits, size: Record -> nat)
    requires Matched(dir) && Within(dir, limits)
    ensures (forall r, after :: MarkSpec(dir, recordId, error, now, size, r, after) ==> Within(after, limits)) <==>
            (recordId in Listed(dir) ==>
               forall m :: IsMarked(Listed(dir)[recordId], now, error, m) ==> Fits(dir, recordId, limits, size, m))
  {
    if recordId in Listed(dir) && forall r, after :: MarkSpec(dir, recordId, error, now, size, r, after) ==> Within(after, limits) {
      forall m | IsMarked(Listed(dir)[recordId], now, error, m) ensures Fits(dir, recordId, limits, size, m) {
        var after := Written(dir, m, size(m));
        assert MarkSpec(dir, recordId, error, now, size, Marked(m), after);
        OneMarkStaysWithin(dir, recordId, error, now, limits, size, Marked(m), after);
      }
    }
    if recordId in Listed(dir) ==> forall m :: IsMarked(Listed(dir)[recordId], now, error, m) ==> Fits(dir, recordId, limits, size, m) {
      forall r, after | MarkSpec(dir, recordId, error, now, size, r, after) ensures Within(after, limits) {
        OneMarkStaysWithin(dir, recordId, error, now, limits, size, r, after);
        if r.Marked? { assert IsMarked(Listed(dir)[recordId], now, error, r.record); }
      }
    }
  }

  /** The total with this record's encoding in place of the stored one is within the byte limit. */
  ghost predicate Fits(dir: Directory, recordId: string, limits: Limits, size: Record -> nat, m: Record) {
    recordId in Listed(dir) && TotalBytes(dir) - BytesOf(dir, Listed(dir)[recordId]) + size(m) <= limits.maxBytes
  }

  lemma OneMarkStaysWithin(dir: Directory, recordId: string, error: string, now: int, limits: Limits,
                           size: Record -> nat, r: MarkResult, after: Directory)
    requires Matched(dir) && Within(dir, limits) && MarkSpec(dir, recordId, error, now, size, r, after)
    ensures Within(after, limits) <==> r.MarkFailed? || Fits(dir, recordId, limits, size, r.record)
  {
    MarkListing(dir, recordId, error, now, size, r, after);
    MarkKeepsCount(dir, recordId, error, now, size, r, after);
    if r.Marked? {
      ListedAt(dir, recordId);
      assert r.record.recordId == recordId;
      ReplacedSize(dir, recordId, after);
    } else {
      SameFilesSameSize(dir, after, TmpPathOf(MarkTarget(dir, recordId)));
    }
  }

  lemma SameFilesSameSize(dir: Directory, after: Directory, name: Name)
    requires SameExcept(dir, after, name) && !name.Json? && Listed(after) == Listed(dir)
    ensures TotalBytes(after) == TotalBytes(dir)
  {
    forall r: Record ensures BytesOf(dir, r) == BytesOf(after, r) {
      var path := PathOf(r.recordId);
      assert path in dir <==> path in dir - {name};
      assert path in after <==> path in after - {name};
      assert path in dir ==> dir[path] == (dir - {name})[path] == after[path];
    }
    SameSizes(dir, after, Listed(dir).Keys);
  }

  /** Replacing one listed file changes the total by the difference of the two sizes. */
  lemma ReplacedSize(dir: Directory, id: string, after: Directory)
    requires Matched(dir) && Matched(after) && id in Listed(dir) && Listed(after).Keys == Listed(dir).Keys
    requires forall k :: k != id && PathOf(k) in dir ==> PathOf(k) in after && after[PathOf(k)] == dir[PathOf(k)]
    ensures TotalBytes(after) == TotalBytes(dir) - BytesOf(dir, Listed(dir)[id]) + BytesOf(after, Listed(after)[id])
  {
    var ids := Listed(dir).Keys;
    ListedExactly(dir);
    SizeOfWithout(dir, ids, id);
    SizeOfWithout(after, ids, id);
    SameSizes(dir, after, ids - {id});
  }

  lemma OneRecordSize(dir: Directory, id: string)
    requires forall k :: k in Listed(dir) <==> k == id
    ensures |Listed(dir)| == 1 && TotalBytes(dir) == BytesOf(dir, Listed(dir)[id])
  {
    assert Listed(dir).Keys == {id};
    SizeOfWithout(dir, {id}, id);
    assert {id} - {id} == {};
  }

  /** Names that do not match can keep the loop from ending: two copies of one record under
      foreign names exceed a limit of one, and removing the file named after it changes nothing. */
  lemma MismatchedDirectoryNeedNotDrain(r: Record, a: string, b: string)
    requires IsValidRecord(r) && a != b && r.recordId != a && r.recordId != b
    ensures var dir := map[PathOf(a) := File(1, Some(r)), PathOf(b) := File(1, Some(r))];
            !Drains(dir, Limits(1, 1000))
  {
    var dir := map[PathOf(a) := File(1, Some(r)), PathOf(b) := File(1, Some(r))];
    TwoFilesListing(r, a, b);
    assert IsOldestFile(dir, a) && Without(dir, r) == dir;
  }

  /** But they need not: with one copy in its own file the loop ends, and a mismatch is left. */
  lemma MismatchedDirectoryMayDrain(r: Record, a: string)
    requires IsValidRecord(r) && r.recordId != a
    ensures var dir := map[PathOf(a) := File(1, Some(r)), PathOf(r.recordId) := File(1, Some(r))];
            !Matched(dir) && !Within(dir, Limits(1, 1000)) && Drains(dir, Limits(1, 1000))
  {
    var dir: Directory := map[PathOf(a) := File(1, Some(r)), PathOf(r.recordId) := File(1, Some(r))];
    TwoFilesListing(r, a, r.recordId);
    var after := Without(dir, r);
    WithoutListing(dir, r);
    assert forall k :: k in Listed(after) <==> k == a;
    OneRecordSize(after, a);
    forall f | IsOldestFile(dir, f) ensures Listed(dir)[f] == r {}
  }

  lemma TwoFilesListing(r: Record, a: string, b: string)
    requires IsValidRecord(r) && a != b
    ensures var dir := map[PathOf(a) := File(1, Some(r)), PathOf(b) := File(1, Some(r))];
            Listed(dir) == map[a := r, b := r] && |Listed(dir)| == 2
  {
    var dir := map[PathOf(a) := File(1, Some(r)), PathOf(b) := File(1, Some(r))];
    ListedExactly(dir);
    assert Listed(dir).Keys == {a, b} && |{a, b}| == 2;
  }

  /** No dropped record is younger than one that stays. */
  lemma DropsAreOldest(dir: Directory, drops: seq<Record>, limits: Limits, i: nat, id: string)
    requires IsDropSequence(dir, drops, limits) && i < |drops| && id in Listed(dir) && id !in Ids(drops)
    ensures drops[i].createdAt <= Listed(dir)[id].createdAt
  {
    var left := Dropped(dir, drops[..i]);
    assert IsDrop(left, drops[i], limits);
    RemovalListing(dir, Ids(drops[..i]));
    assert id !in Ids(drops[..i]);
    assert id in Listed(left) && Listed(left)[id] == Listed(dir)[id];
  }

  // ----- replacing -----

  /** A save makes a pending result of another command disappear, not counting those the limits
      dropped. */
  ghost predicate ReplacesAnother(before: map<string, Record>, commandId: string, drops: seq<Record>, after: map<string, Record>) {
    exists id :: id in before && before[id].commandId != commandId && before[id] !in drops
      && !(id in after && after[id] == before[id])
  }

  /** It does exactly if its record id is already taken by another command. */
  lemma SaveReplacesExactly(dir: Directory, env: Envelope, now: int, limits: Limits, size: Record -> nat,
                            r: SaveResult, drops: seq<Record>, after: Directory)
    requires Matched(dir) && SaveSpec(dir, env, now, limits, size, r, drops, after) && (r.Saved? || r.LimitsFailed?)
    ensures CommandIdOf(env).Some?
    ensures var commandId := CommandIdOf(env).value; var id := SanitizeRecordId(commandId);
            ReplacesAnother(Listed(dir), commandId, drops, Listed(after)) <==> id in Listed(dir) && Listed(dir)[id].commandId != commandId
  {
    SanitizeKeepsCommandId(env);
    SavedIdentity(env, now);
    InstallReplacesExactly(dir, KeepRetryState(dir, NewRecord(env, now).record), limits, size, r, drops, after);
  }

  lemma SavedIdentity(env: Envelope, now: int)
    ensures NewRecord(env, now).Accepted? ==>
              var r := NewRecord(env, now).record;
              CommandIdOf(SanitizedEnvelope(env)) == Some(r.commandId) && r.recordId == SanitizeRecordId(r.commandId)
  {
  }

  lemma DropsAreListed(dir: Directory, drops: seq<Record>, limits: Limits, i: nat)
    requires Matched(dir) && IsDropSequence(dir, drops, limits) && i < |drops|
    ensures drops[i].recordId in Listed(dir) && Listed(dir)[drops[i].recordId] == drops[i]
  {
    var left := Dropped(dir, drops[..i]);
    assert IsDrop(left, drops[i], limits);
    RemovalListing(dir, Ids(drops[..i]));
    var f :| IsOldestFile(left, f) && Listed(left)[f] == drops[i];
  }

  lemma InstallReplacesExactly(dir: Directory, record: Record, limits: Limits, size: Record -> nat,
                               r: SaveResult, drops: seq<Record>, after: Directory)
    requires Matched(dir) && InstallSpec(dir, record, limits, size, r, drops, after) && !r.WriteFailed?
    ensures ReplacesAnother(Listed(dir), record.commandId, drops, Listed(after)) <==>
            record.recordId in Listed(dir) && Listed(dir)[record.recordId].commandId != record.commandId
  {
    var written := Written(dir, record, size(record));
    InstallListing(dir, record, limits, size, r, drops, after);
    WrittenListing(dir, record, size(record));
    WrittenStaysMatched(dir, record, size(record));
    forall i | 0 <= i < |drops|
      ensures drops[i].recordId in Listed(written) && Listed(written)[drops[i].recordId] == drops[i]
    {
      DropsAreListed(written, drops, limits, i);
    }
    ListingReplacesExactly(Listed(dir), record, drops, Listed(after));
  }

  lemma ListingReplacesExactly(before: map<string, Record>, record: Record, drops: seq<Record>, after: map<string, Record>)
    requires after == ListingWith(before, record) - Ids(drops)
    requires forall i :: 0 <= i < |drops| ==>
               drops[i].recordId in ListingWith(before, record) && ListingWith(before, record)[drops[i].recordId] == drops[i]
    requires forall id :: id in before ==> before[id].recordId == id
    ensures ReplacesAnother(before, record.commandId, drops, after) <==>
            record.recordId in before && before[record.recordId].commandId != record.commandId
  {
    if record.recordId in before && before[record.recordId].commandId != record.commandId {
      assert before[record.recordId] !in drops;
    }
    forall id | id in before && id != record.recordId && before[id] !in drops ensures id in after && after[id] == before[id] {
      assert id !in Ids(drops);
    }
  }

  // ----- scans -----

  lemma {:induction false} DueOfMembers(records: seq<Record>, now: int)
    ensures forall r :: r in DueOf(records, now) <==> r in records && IsDue(r, now)
    ensures IsSortedScan(records) ==> IsSortedScan(DueOf(records, now))
  {
    if records != [] {
      var m := |records| - 1;
      DueOfMembers(records[..m], now);
      assert records == records[..m] + [records[m]];
      var due := DueOf(records, now);
      var front := DueOf(records[..m], now);
      if IsSortedScan(records) {
        forall i, j | 0 <= i < j < |due|
          ensures due[i].createdAt <= due[j].createdAt && due[i].recordId != due[j].recordId
        {
          assert due[i] == front[i] && front[i] in front;
          var k :| 0 <= k < m && records[..m][k] == front[i];
          assert j == |front| ==> due[j] == records[m] && records[k] == due[i];
        }
      }
    }
  }

  /** What a dispatcher round gets: due, listed records in creation order, none twice, at most
      `limit`; and a due record is left out only if the round is full of records no younger. */
  lemma DueIsOldestDueRecords(dir: Directory, now: int, limit: int, due: seq<Record>)
    requires Matched(dir) && DueSpec(dir, now, limit, due)
    ensures IsSortedScan(due) && (limit > 0 ==> |due| <= limit)
    ensures forall r :: r in due ==> r.recordId in Listed(dir) && Listed(dir)[r.recordId] == r && IsDue(r, now)
    ensures forall id :: id in Listed(dir) && IsDue(Listed(dir)[id], now) && Listed(dir)[id] !in due ==>
              0 < limit == |due| && forall r :: r in due ==> r.createdAt <= Listed(dir)[id].createdAt
  {
    var scan :| IsListing(dir, scan) && due == TakeLimit(DueOf(scan, now), limit);
    MatchedScan(dir, scan);
    DueOfMembers(scan, now);
    var all := DueOf(scan, now);
    TakeLimitIsPrefix(all, limit);
    forall id | id in Listed(dir) && IsDue(Listed(dir)[id], now) && Listed(dir)[id] !in due
      ensures 0 < limit == |due| && forall r :: r in due ==> r.createdAt <= Listed(dir)[id].createdAt
    {
      LeftOutOfTake(all, limit, Listed(dir)[id]);
    }
  }

  lemma TakeLimitIsPrefix(all: seq<Record>, limit: int)
    ensures TakeLimit(all, limit) <= all && (limit > 0 ==> |TakeLimit(all, limit)| <= limit)
    ensures forall r :: r in TakeLimit(all, limit) ==> r in all
    ensures IsSortedScan(all) ==> IsSortedScan(TakeLimit(all, limit))
  {
  }

  lemma LeftOutOfTake(all: seq<Record>, limit: int, r: Record)
    requires IsSortedScan(all) && r in all && r !in TakeLimit(all, limit)
    ensures var take := TakeLimit(all, limit);
            0 < limit == |take| && forall x :: x in take ==> x.createdAt <= r.createdAt
  {
  }
}
