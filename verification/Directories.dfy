/** The outbox directory as a value: what counts as a listed record, what start-up recovery
    leaves behind, and what one atomic replacement or removal does to the listing. */
module Directories {
  import opened Sets
  import opened Protocol
  import opened Records

  /** A file: its length, and the record its bytes decode to, if they decode at all. */
  datatype File = File(bytes: nat, decoded: Option<Record>)

  type Directory = map<Name, File>

  predicate IsValidRecord(r: Record) {
    r.recordId != "" && r.commandId != "" && r.envelope.kind == Result
  }

  function ReadRecord(dir: Directory, name: Name): Option<Record> {
    if name in dir && dir[name].decoded.Some? && IsValidRecord(dir[name].decoded.value)
    then dir[name].decoded else None
  }

  /** The records an outbox scan finds, by the stem of their file name. */
  function Listed(dir: Directory): map<string, Record> {
    map name | name in dir && name.Json? && ReadRecord(dir, name).Some? ::
      name.stem := ReadRecord(dir, name).value
  }

  lemma ListedAt(dir: Directory, id: string)
    ensures id in Listed(dir) <==> ReadRecord(dir, PathOf(id)).Some?
    ensures id in Listed(dir) ==> Listed(dir)[id] == ReadRecord(dir, PathOf(id)).value
  {
  }

  /** Two directories that read alike under every record name list the same records. */
  lemma SameReadsListTheSame(a: Directory, b: Directory)
    requires forall id :: ReadRecord(a, PathOf(id)) == ReadRecord(b, PathOf(id))
    ensures Listed(a) == Listed(b)
  {
    forall id ensures id in Listed(a) <==> id in Listed(b)
              ensures id in Listed(a) ==> Listed(a)[id] == Listed(b)[id] {
      ListedAt(a, id);
      ListedAt(b, id);
      assert ReadRecord(a, PathOf(id)) == ReadRecord(b, PathOf(id));
    }
  }

  /** What a scan accepts: a record file whose contents decode to a record with both ids and a result
      envelope. */
  lemma ListedMeans(dir: Directory, id: string)
    ensures id in Listed(dir) <==>
            Json(id) in dir && dir[Json(id)].decoded.Some? &&
            var r := dir[Json(id)].decoded.value;
            |r.recordId| > 0 && |r.commandId| > 0 && r.envelope.kind.Result?
    ensures id in Listed(dir) ==> Some(Listed(dir)[id]) == dir[Json(id)].decoded
  {
    ListedAt(dir, id);
  }

  lemma ListedExactly(dir: Directory)
    ensures forall id :: id in Listed(dir) <==> ReadRecord(dir, PathOf(id)).Some?
    ensures forall id :: id in Listed(dir) ==> Listed(dir)[id] == ReadRecord(dir, PathOf(id)).value
  {
  }

  /** Every listed record lies in the file named after it. */
  ghost predicate Matched(dir: Directory) {
    forall id :: id in Listed(dir) ==> Listed(dir)[id].recordId == id
  }

  /** The two directories differ at most in one file. */
  ghost predicate SameExcept(a: Directory, b: Directory, name: Name) {
    a - {name} == b - {name}
  }

  /** The directory after a record was atomically put in place. */
  function Written(dir: Directory, r: Record, bytes: nat): Directory {
    (dir - {TmpPathOf(r.recordId)})[PathOf(r.recordId) := File(bytes, Some(r))]
  }

  /** File by file: the record's own file has its encoding, its temporary is gone, others stay. */
  lemma WrittenFiles(dir: Directory, r: Record, bytes: nat, name: Name)
    ensures var after := Written(dir, r, bytes);
            if name == Json(r.recordId) then name in after && after[name].decoded == Some(r) && after[name].bytes == bytes
            else if name == Tmp(Json(r.recordId)) then name !in after
            else (name in after <==> name in dir) && (name in dir ==> after[name] == dir[name])
  {
  }

  lemma SameExceptListsTheSame(a: Directory, b: Directory, name: Name)
    requires SameExcept(a, b, name) && !name.Json?
    ensures Listed(a) == Listed(b)
  {
    forall n | n != name ensures (n in a <==> n in b) && (n in a ==> a[n] == b[n]) {
      assert n in a <==> n in a - {name};
      assert n in b <==> n in b - {name};
      assert n in a ==> a[n] == (a - {name})[n];
      assert n in b ==> b[n] == (b - {name})[n];
    }
    SameReadsListTheSame(a, b);
  }

  /** An atomic write changes the listing in one place: a valid record replaces the file's
      entry, an invalid one (an empty command id) makes the entry disappear. */
  lemma WrittenListing(dir: Directory, r: Record, bytes: nat)
    ensures Listed(Written(dir, r, bytes)) ==
            if IsValidRecord(r) then Listed(dir)[r.recordId := r] else Listed(dir) - {r.recordId}
  {
    var after := Written(dir, r, bytes);
    var expected := if IsValidRecord(r) then Listed(dir)[r.recordId := r] else Listed(dir) - {r.recordId};
    forall id ensures id in Listed(after) <==> id in expected
              ensures id in expected ==> Listed(after)[id] == expected[id] {
      ListedAt(dir, id);
      ListedAt(after, id);
      WrittenReads(dir, r, bytes, id);
    }
  }

  lemma WrittenReads(dir: Directory, r: Record, bytes: nat, id: string)
    ensures ReadRecord(Written(dir, r, bytes), PathOf(id)) ==
            if id == r.recordId then (if IsValidRecord(r) then Some(r) else None) else ReadRecord(dir, PathOf(id))
  {
  }

  function Paths(ids: set<string>): set<Name> { set id | id in ids :: PathOf(id) }

  lemma RemovalListing(dir: Directory, ids: set<string>)
    ensures Listed(dir - Paths(ids)) == Listed(dir) - ids
  {
  }

  // ----- start-up recovery -----

  predicate IsCorrupt(dir: Directory, name: Name) {
    name in dir && name.Json? && ReadRecord(dir, name).None?
  }

  /** Recovery after visiting some of the entries: temporaries removed, undecodable or invalid
      records moved aside (over an older quarantined file), everything else left alone. */
  function RecoveredAfter(dir: Directory, visited: set<Name>): Directory {
    (dir - Gone(dir, visited)) + Quarantined(dir, visited)
  }

  function Gone(dir: Directory, visited: set<Name>): set<Name> {
    set name | name in visited && name in dir && (name.Tmp? || IsCorrupt(dir, name))
  }

  function Quarantined(dir: Directory, visited: set<Name>): Directory {
    map name | name in visited && name in dir && IsCorrupt(dir, name) :: BadPathOf(name) := dir[name]
  }

  function Recovered(dir: Directory): Directory { RecoveredAfter(dir, dir.Keys) }

  lemma RecoveredReads(dir: Directory, visited: set<Name>, id: string)
    ensures ReadRecord(RecoveredAfter(dir, visited), PathOf(id)) == ReadRecord(dir, PathOf(id))
  {
  }

  /** Recovery never changes which records are listed, however far it got. */
  lemma RecoveredListing(dir: Directory, visited: set<Name>)
    ensures Listed(RecoveredAfter(dir, visited)) == Listed(dir)
  {
    var after := RecoveredAfter(dir, visited);
    forall id ensures ReadRecord(after, PathOf(id)) == ReadRecord(dir, PathOf(id)) {
      RecoveredReads(dir, visited, id);
    }
    SameReadsListTheSame(after, dir);
  }

  /** Completed recovery leaves no temporary and no invalid record file, keeps every valid
      record file byte for byte, and is idempotent. */
  lemma RecoveryIsComplete(dir: Directory)
    ensures forall name :: name in Recovered(dir) ==> !name.Tmp? && !IsCorrupt(Recovered(dir), name)
    ensures forall name :: name in dir && name.Json? && ReadRecord(dir, name).Some? ==>
              name in Recovered(dir) && Recovered(dir)[name] == dir[name]
    ensures Recovered(Recovered(dir)) == Recovered(dir)
  {
  }

  /** File by file: a temporary is gone; a record file stays as it is if it is listed, and otherwise
      lies, byte for byte, under its name with ".bad" added; everything else stays. */
  lemma RecoveredFiles(dir: Directory, name: Name)
    ensures name.Tmp? ==> name !in Recovered(dir)
    ensures name.Json? && name in dir ==>
              if name.stem in Listed(dir) then name in Recovered(dir) && Recovered(dir)[name] == dir[name]
              else name !in Recovered(dir) && Bad(name) in Recovered(dir) && Recovered(dir)[Bad(name)] == dir[name]
    ensures name.Other? || (name.Bad? && !(name.base.Json? && name.base in dir && name.base.stem !in Listed(dir))) ==>
              (name in Recovered(dir) <==> name in dir) && (name in dir ==> Recovered(dir)[name] == dir[name])
  {
    if name.Json? { ListedAt(dir, name.stem); }
    if name.Bad? && name.base.Json? { ListedAt(dir, name.base.stem); }
  }

  // ----- sizes and limits -----

  datatype Limits = Limits(maxRecords: int, maxBytes: int)

  /** Bytes the size check attributes to a record: those of the file named after it, whichever
      file it was read from; nothing if there is no such file. */
  function BytesOf(dir: Directory, r: Record): nat {
    if PathOf(r.recordId) in dir then dir[PathOf(r.recordId)].bytes else 0
  }

  ghost function SizeOf(dir: Directory, ids: set<string>): nat
    requires ids <= Listed(dir).Keys
  {
    if ids == {} then 0
    else var id :| id in ids; BytesOf(dir, Listed(dir)[id]) + SizeOf(dir, ids - {id})
  }

  lemma {:induction false} SizeOfWithout(dir: Directory, ids: set<string>, id: string)
    requires id in ids && ids <= Listed(dir).Keys
    ensures SizeOf(dir, ids) == BytesOf(dir, Listed(dir)[id]) + SizeOf(dir, ids - {id})
    decreases |ids|
  {
    var pick :| pick in ids && SizeOf(dir, ids) == BytesOf(dir, Listed(dir)[pick]) + SizeOf(dir, ids - {pick});
    if pick != id {
      SizeOfWithout(dir, ids - {pick}, id);
      SizeOfWithout(dir, ids - {id}, pick);
      assert ids - {pick} - {id} == ids - {id} - {pick};
    }
  }

  lemma {:induction false} SameSizes(a: Directory, b: Directory, ids: set<string>)
    requires ids <= Listed(a).Keys && ids <= Listed(b).Keys
    requires forall id :: id in ids ==> BytesOf(a, Listed(a)[id]) == BytesOf(b, Listed(b)[id])
    ensures SizeOf(a, ids) == SizeOf(b, ids)
    decreases |ids|
  {
    if ids != {} {
      var id :| id in ids;
      SizeOfWithout(a, ids, id);
      SizeOfWithout(b, ids, id);
      SameSizes(a, b, ids - {id});
    }
  }

  /** The total as the size check computes it, over all listed records. */
  ghost function TotalBytes(dir: Directory): nat { SizeOf(dir, Listed(dir).Keys) }

  ghost predicate Within(dir: Directory, limits: Limits) {
    |Listed(dir)| <= limits.maxRecords && TotalBytes(dir) <= limits.maxBytes
  }

  /** A file whose record is at least as old as every listed one. */
  ghost predicate IsOldestFile(dir: Directory, f: string) {
    f in Listed(dir) && forall id :: id in Listed(dir) ==> Listed(dir)[f].createdAt <= Listed(dir)[id].createdAt
  }

  ghost predicate IsOldest(dir: Directory, r: Record) {
    exists f :: IsOldestFile(dir, f) && Listed(dir)[f] == r
  }

  function Ids(records: seq<Record>): set<string> { set r | r in records :: r.recordId }

  /** The directory after a sequence of records was dropped. */
  function Dropped(dir: Directory, drops: seq<Record>): Directory { dir - Paths(Ids(drops)) }

  /** Every drop takes an oldest record of what is then left, and only while a limit is
      exceeded: no proper prefix of the drops would have been enough. */
  ghost predicate IsDropSequence(dir: Directory, drops: seq<Record>, limits: Limits) {
    forall i :: 0 <= i < |drops| ==> IsDrop(Dropped(dir, drops[..i]), drops[i], limits)
  }

  ghost predicate IsDrop(left: Directory, r: Record, limits: Limits) {
    IsOldest(left, r) && !Within(left, limits)
  }

  lemma DropOneMore(dir: Directory, drops: seq<Record>, next: Record, limits: Limits)
    requires IsDropSequence(dir, drops, limits) && IsDrop(Dropped(dir, drops), next, limits)
    ensures IsDropSequence(dir, drops + [next], limits)
    ensures Dropped(dir, drops + [next]) == Dropped(dir, drops) - {PathOf(next.recordId)}
  {
    var more := drops + [next];
    forall i | 0 <= i < |more| ensures IsDrop(Dropped(dir, more[..i]), more[i], limits) {
      if i < |drops| {
        assert more[..i] == drops[..i];
      } else {
        assert more[..i] == drops;
      }
    }
    DroppedOneMore(dir, drops, next);
  }

  lemma DroppedOneMore(dir: Directory, drops: seq<Record>, next: Record)
    ensures Dropped(dir, drops + [next]) == Dropped(dir, drops) - {PathOf(next.recordId)}
  {
  }

  // ----- scans -----

  ghost predicate IsByAge(records: seq<Record>) {
    forall i, j :: 0 <= i < j < |records| ==> records[i].createdAt <= records[j].createdAt
  }

  /** By age, and no two with the same record id. */
  ghost predicate IsSortedScan(records: seq<Record>) {
    forall i, j :: 0 <= i < j < |records| ==>
      records[i].createdAt <= records[j].createdAt && records[i].recordId != records[j].recordId
  }

  /** The listed records outside `rest`, each read from the file with the stem at its position. */
  ghost predicate IsScan(dir: Directory, rest: set<Name>, records: seq<Record>, stems: seq<string>) {
    && IsByAge(records) && IsDistinct(stems) && AreReadFrom(Listed(dir), records, stems)
    && (forall id :: id in stems <==> id in Listed(dir) && PathOf(id) !in rest)
  }

  ghost predicate AreReadFrom(listing: map<string, Record>, records: seq<Record>, stems: seq<string>) {
    |stems| == |records| && forall i :: 0 <= i < |stems| ==> stems[i] in listing && records[i] == listing[stems[i]]
  }

  /** A scan in creation order; records created at the same instant come in any order. */
  ghost predicate IsListing(dir: Directory, records: seq<Record>) {
    exists stems :: IsScan(dir, {}, records, stems)
  }

  /** In a matched directory a scan has every listed record once, under its own id. */
  lemma MatchedScan(dir: Directory, records: seq<Record>)
    requires Matched(dir) && IsListing(dir, records)
    ensures IsSortedScan(records)
    ensures forall r :: r in records ==> r.recordId in Listed(dir) && Listed(dir)[r.recordId] == r
    ensures forall id :: id in Listed(dir) ==> Listed(dir)[id] in records
  {
    var stems :| IsScan(dir, {}, records, stems);
    forall i | 0 <= i < |records| ensures records[i].recordId == stems[i] {}
    forall id | id in Listed(dir) ensures Listed(dir)[id] in records {
      var i :| 0 <= i < |stems| && stems[i] == id;
    }
  }

  lemma {:induction false} DistinctIds(records: seq<Record>)
    requires IsSortedScan(records)
    ensures |Ids(records)| == |records|
  {
    if records != [] {
      DistinctIds(records[..|records| - 1]);
      LastIdIsNew(records);
    }
  }

  lemma LastIdIsNew(records: seq<Record>)
    requires records != [] && IsSortedScan(records)
    ensures var m := |records| - 1;
            Ids(records) == Ids(records[..m]) + {records[m].recordId} && records[m].recordId !in Ids(records[..m])
  {
  }

  /** A scan has as many records as are listed. */
  lemma ListingCounts(dir: Directory, records: seq<Record>)
    requires IsListing(dir, records)
    ensures |records| == |Listed(dir)|
  {
    var stems :| IsScan(dir, {}, records, stems);
    DistinctSize(stems);
    assert Elements(stems) == Listed(dir).Keys;
  }
}
