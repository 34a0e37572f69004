/** internal/commands/dedupe.go: the in-memory store that keeps a command id from being run
    twice, bounded in age by a TTL and in size by an entry limit. */
module Dedupe {
  import opened Sets
  import opened Protocol

  type Seen = map<string, int>

  datatype Config = Config(ttl: int, maxEntries: nat)

  const DEFAULT_TTL: int := 24 * 60 * MINUTE
  const DEFAULT_MAX_ENTRIES: nat := 1024

  /** The difference of two instants; it saturates at the ends of the duration type. */
  function Elapsed(now: int, at: int): int {
    if now - at > MAX_INT64 then MAX_INT64 else if now - at < MIN_INT64 then MIN_INT64 else now - at
  }

  predicate Expired(cfg: Config, now: int, at: int) { Elapsed(now, at) > cfg.ttl }

  /** Expired means older than the TTL in plain arithmetic.  Only a TTL of the largest duration makes
      a difference: then nothing ever expires. */
  lemma ExpiredExactly(cfg: Config, now: int, at: int)
    requires 0 < cfg.ttl <= MAX_INT64
    ensures Expired(cfg, now, at) <==> now - at > cfg.ttl && cfg.ttl < MAX_INT64
  {
  }

  function Pruned(cfg: Config, seen: Seen, now: int): Seen {
    map id | id in seen && !Expired(cfg, now, seen[id]) :: seen[id]
  }

  ghost predicate IsSubmap(a: Seen, b: Seen) {
    forall id :: id in a ==> id in b && a[id] == b[id]
  }

  /** Eviction down to the limit: only oldest entries go; ties are broken arbitrarily. */
  ghost predicate TrimSpec(cfg: Config, seen: Seen, after: Seen) {
    && IsSubmap(after, seen)
    && |after| == (if |seen| <= cfg.maxEntries then |seen| else cfg.maxEntries)
    && (forall gone, kept :: gone in seen && gone !in after && kept in after ==> seen[gone] <= seen[kept])
  }

  ghost predicate SeenSpec(cfg: Config, seen: Seen, id: string, now: int, hit: bool, after: Seen) {
    && hit == (id in seen && !Expired(cfg, now, seen[id]))
    && after == if id in seen && !hit then seen - {id} else seen
  }

  ghost predicate MarkSpec(cfg: Config, seen: Seen, id: string, prunedAt: int, now: int, after: Seen) {
    TrimSpec(cfg, Pruned(cfg, seen, prunedAt)[id := now], after)
  }

  ghost predicate ReserveSpec(cfg: Config, seen: Seen, id: string, now: int, ok: bool, after: Seen) {
    var live := Pruned(cfg, seen, now);
    && ok == (id !in live)
    && if ok then TrimSpec(cfg, live[id := now], after) else after == live
  }

  class DedupeStore {
    const cfg: Config
    var seen: Seen

    constructor (ttl: int, maxEntries: int)
      ensures seen == map[] && cfg.ttl > 0 && cfg.maxEntries > 0
      ensures cfg.ttl == if ttl > 0 then ttl else 86_400_000_000_000
      ensures cfg.maxEntries == if maxEntries > 0 then maxEntries else 1024
    {
      cfg := Config(if ttl <= 0 then DEFAULT_TTL else ttl,
                    if maxEntries <= 0 then DEFAULT_MAX_ENTRIES else maxEntries);
      seen := map[];
    }

    method HasSeen(id: string, now: int) returns (hit: bool)
      modifies this
      ensures SeenSpec(cfg, old(seen), id, now, hit, seen)
      ensures 0 < cfg.ttl < MAX_INT64 ==> (hit <==> id in old(seen) && now - old(seen)[id] <= cfg.ttl)
      ensures 0 < cfg.ttl < MAX_INT64 && id in old(seen) && now - old(seen)[id] > cfg.ttl ==> seen == old(seen) - {id}
    {
      if id !in seen {
        return false;
      }
      if Elapsed(now, seen[id]) > cfg.ttl {
        seen := seen - {id};
        return false;
      }
      return true;
    }

    method Mark(id: string, prunedAt: int, now: int)
      modifies this
      ensures MarkSpec(cfg, old(seen), id, prunedAt, now, seen)
    {
      PruneLocked(prunedAt);
      seen := seen[id := now];
      TrimLocked();
    }

    method Reserve(id: string, now: int) returns (ok: bool)
      modifies this
      ensures ReserveSpec(cfg, old(seen), id, now, ok, seen)
      ensures 0 < cfg.ttl < MAX_INT64 ==> (!ok <==> id in old(seen) && now - old(seen)[id] <= cfg.ttl)
      ensures cfg.ttl > 0 && ok && cfg.maxEntries > 0 && (forall other :: other in old(seen) ==> old(seen)[other] < now) ==>
                id in seen && seen[id] == now
    {
      PruneLocked(now);
      if id in seen {
        return false;
      }
      seen := seen[id := now];
      TrimLocked();
      return true;
    }

    /** Also the body of Prune, which only adds the lock. */
    method PruneLocked(now: int)
      modifies this
      ensures seen == Pruned(cfg, old(seen), now)
      ensures 0 < cfg.ttl < MAX_INT64 ==> forall id :: id in seen <==> id in old(seen) && now - old(seen)[id] <= cfg.ttl
    {
      var rest := seen.Keys;
      while rest != {}
        invariant rest <= old(seen).Keys
        invariant forall id :: id in seen <==> id in old(seen) && (id in rest || !Expired(cfg, now, old(seen)[id]))
        invariant IsSubmap(seen, old(seen))
        decreases |rest|
      {
        var id :| id in rest;
        if Elapsed(now, seen[id]) > cfg.ttl {
          seen := seen - {id};
        }
        rest := rest - {id};
      }
    }

    method TrimLocked()
      modifies this
      ensures TrimSpec(cfg, old(seen), seen)
    {
      while |seen| > cfg.maxEntries
        invariant IsSubmap(seen, old(seen))
        invariant |seen| >= cfg.maxEntries || seen == old(seen)
        invariant |seen| <= |old(seen)|
        invariant forall gone, kept :: gone in old(seen) && gone !in seen && kept in seen ==>
                    old(seen)[gone] <= old(seen)[kept]
        decreases |seen|
      {
        var oldest := Oldest();
        ghost var before := seen;
        seen := seen - {oldest};
        assert seen.Keys == before.Keys - {oldest};
        assert |seen| == |seen.Keys| && |before| == |before.Keys|;
      }
      if |old(seen)| <= cfg.maxEntries { SubmapOfSameSize(seen, old(seen)); }
    }

    method Oldest() returns (oldest: string)
      requires |seen| > 0
      ensures oldest in seen && forall id :: id in seen ==> seen[oldest] <= seen[id]
    {
      var rest := seen.Keys;
      assert rest != {};
      var first := true;
      var oldestAt := 0;
      oldest := "";
      while rest != {}
        invariant rest <= seen.Keys
        invariant first ==> rest == seen.Keys
        invariant !first ==> oldest in seen && oldestAt == seen[oldest]
        invariant !first ==> forall id :: id in seen && id !in rest ==> oldestAt <= seen[id]
        decreases |rest|
      {
        var id :| id in rest;
        if first || seen[id] < oldestAt {
          oldest, oldestAt, first := id, seen[id], false;
        }
        rest := rest - {id};
      }
    }
  }

  lemma SubmapOfSameSize(a: Seen, b: Seen)
    requires IsSubmap(a, b)
    ensures |a| <= |b|
    ensures |a| == |b| ==> a == b
  {
    assert a.Keys <= b.Keys;
    assert b.Keys == a.Keys + (b.Keys - a.Keys);
    assert |a| == |a.Keys| && |b| == |b.Keys|;
    if |a| == |b| { assert b.Keys - a.Keys == {}; }
  }

  // ----- runs -----

  /** One completed operation with its result.  Mark reads the clock twice. */
  datatype Op =
    | Reserve(id: string, now: int, ok: bool)
    | Mark(id: string, prunedAt: int, now: int)
    | Look(id: string, now: int, hit: bool)
    | Prune(now: int)

  function StartOf(op: Op): int { if op.Mark? then op.prunedAt else op.now }

  predicate Stamps(op: Op) { op.Mark? || (op.Reserve? && op.ok) }

  ghost predicate Next(cfg: Config, seen: Seen, op: Op, after: Seen) {
    match op
    case Reserve(id, now, ok) => ReserveSpec(cfg, seen, id, now, ok, after)
    case Mark(id, prunedAt, now) => MarkSpec(cfg, seen, id, prunedAt, now, after)
    case Look(id, now, hit) => SeenSpec(cfg, seen, id, now, hit, after)
    case Prune(now) => after == Pruned(cfg, seen, now)
  }

  /** A run from the empty store under a clock that never goes back. */
  ghost predicate IsRun(cfg: Config, states: seq<Seen>, ops: seq<Op>) {
    && |states| == |ops| + 1 && states[0] == map[]
    && (forall i: nat :: i < |ops| ==> StepAt(cfg, states, ops, i))
    && ClockIsMonotone(ops)
  }

  ghost predicate StepAt(cfg: Config, states: seq<Seen>, ops: seq<Op>, i: nat)
    requires |states| == |ops| + 1 && i < |ops|
  {
    Next(cfg, states[i], ops[i], states[i + 1])
  }

  ghost predicate ClockIsMonotone(ops: seq<Op>) {
    && (forall i :: 0 <= i < |ops| ==> StartOf(ops[i]) <= ops[i].now)
    && (forall i, j :: 0 <= i < j < |ops| ==> ops[i].now <= StartOf(ops[j]))
  }

  /** The ids stamped by one of the first n operations at a time in [from, to]. */
  ghost function StampedIn(ops: seq<Op>, n: nat, from: int, to: int): set<string>
    requires n <= |ops|
  {
    set k | 0 <= k < n && Stamps(ops[k]) && from <= ops[k].now <= to :: ops[k].id
  }

  /** Every entry was stamped by some operation. */
  ghost predicate HasHistory(ops: seq<Op>, n: nat, seen: Seen)
    requires n <= |ops|
  {
    forall id :: id in seen ==> exists k :: 0 <= k < n && Stamps(ops[k]) && ops[k].id == id && ops[k].now == seen[id]
  }

  /** The map before eviction, if the operation evicts at all. */
  function BeforeTrim(cfg: Config, seen: Seen, op: Op): Seen {
    match op
    case Reserve(id, now, ok) => if ok then Pruned(cfg, seen, now)[id := now] else Pruned(cfg, seen, now)
    case Mark(id, prunedAt, now) => Pruned(cfg, seen, prunedAt)[id := now]
    case Look(id, now, hit) => if id in seen && !hit then seen - {id} else seen
    case Prune(now) => Pruned(cfg, seen, now)
  }

  lemma HistoryStep(cfg: Config, ops: seq<Op>, n: nat, seen: Seen, after: Seen)
    requires n < |ops| && HasHistory(ops, n, seen) && Next(cfg, seen, ops[n], after)
    ensures HasHistory(ops, n + 1, BeforeTrim(cfg, seen, ops[n])) && HasHistory(ops, n + 1, after)
  {
  }

  /** After a reservation at time t1: the id is still stamped t1 or later, or the TTL has passed,
      or at least maxEntries other ids were stamped since. */
  ghost predicate Guarded(cfg: Config, ops: seq<Op>, n: nat, seen: Seen, id: string, t1: int)
    requires n <= |ops|
  {
    || (id in seen && seen[id] >= t1)
    || (n > 0 && Elapsed(ops[n - 1].now, t1) > cfg.ttl)
    || (n > 0 && |StampedIn(ops, n, t1, ops[n - 1].now) - {id}| >= cfg.maxEntries)
  }

  lemma StampedInGrows(ops: seq<Op>, n: nat, m: nat, from: int, to: int, to': int, id: string)
    requires n <= m <= |ops| && to <= to'
    ensures |StampedIn(ops, n, from, to) - {id}| <= |StampedIn(ops, m, from, to') - {id}|
  {
    SubsetSize(StampedIn(ops, n, from, to) - {id}, StampedIn(ops, m, from, to') - {id});
  }

  /** If eviction takes an entry stamped t1 or later, the entries it keeps are enough others. */
  lemma EvictionIsCrowded(cfg: Config, ops: seq<Op>, n: nat, mid: Seen, after: Seen, id: string, t1: int)
    requires n < |ops| && ClockIsMonotone(ops) && HasHistory(ops, n + 1, mid) && TrimSpec(cfg, mid, after)
    requires id in mid && mid[id] >= t1 && id !in after
    ensures |StampedIn(ops, n + 1, t1, ops[n].now) - {id}| >= cfg.maxEntries
  {
    forall kept | kept in after ensures kept in StampedIn(ops, n + 1, t1, ops[n].now) - {id} {
      KeptWasStampedLate(ops, n, mid, kept, t1);
    }
    SubsetSize(after.Keys, StampedIn(ops, n + 1, t1, ops[n].now) - {id});
    EvictionMeansFull(cfg, mid, after, id);
  }

  lemma KeptWasStampedLate(ops: seq<Op>, n: nat, mid: Seen, kept: string, t1: int)
    requires n < |ops| && ClockIsMonotone(ops) && HasHistory(ops, n + 1, mid) && kept in mid && mid[kept] >= t1
    ensures kept in StampedIn(ops, n + 1, t1, ops[n].now)
  {
  }

  lemma EvictionMeansFull(cfg: Config, mid: Seen, after: Seen, id: string)
    requires TrimSpec(cfg, mid, after) && id in mid && id !in after
    ensures |after| == cfg.maxEntries && |mid| > cfg.maxEntries
  {
    SubmapOfSameSize(after, mid);
  }

  /** An entry that an operation removes before evicting was expired. */
  lemma LostByExpiry(cfg: Config, seen: Seen, op: Op, after: Seen, id: string, t1: int)
    requires Next(cfg, seen, op, after) && StartOf(op) <= op.now && t1 <= op.now
    requires id in seen && seen[id] >= t1
    ensures (id in BeforeTrim(cfg, seen, op) && BeforeTrim(cfg, seen, op)[id] >= t1) || Elapsed(op.now, t1) > cfg.ttl
  {
  }

  lemma SurvivesOrCrowded(cfg: Config, ops: seq<Op>, n: nat, seen: Seen, after: Seen, id: string, t1: int)
    requires n < |ops| && ClockIsMonotone(ops) && HasHistory(ops, n, seen) && Next(cfg, seen, ops[n], after)
    requires id in BeforeTrim(cfg, seen, ops[n]) && BeforeTrim(cfg, seen, ops[n])[id] >= t1
    ensures Guarded(cfg, ops, n + 1, after, id, t1)
  {
    var mid := BeforeTrim(cfg, seen, ops[n]);
    if id !in after {
      HistoryStep(cfg, ops, n, seen, after);
      EvictionIsCrowded(cfg, ops, n, mid, after, id, t1);
    } else {
      assert after[id] == mid[id];
    }
  }

  lemma GuardedStep(cfg: Config, ops: seq<Op>, n: nat, seen: Seen, after: Seen, id: string, t1: int)
    requires n < |ops| && ClockIsMonotone(ops) && HasHistory(ops, n, seen) && Next(cfg, seen, ops[n], after)
    requires t1 <= ops[n].now && Guarded(cfg, ops, n, seen, id, t1)
    ensures Guarded(cfg, ops, n + 1, after, id, t1)
  {
    if id in seen && seen[id] >= t1 {
      LostByExpiry(cfg, seen, ops[n], after, id, t1);
      if Elapsed(ops[n].now, t1) <= cfg.ttl { SurvivesOrCrowded(cfg, ops, n, seen, after, id, t1); }
    } else {
      assert ops[n - 1].now <= StartOf(ops[n]) <= ops[n].now;
      StampedInGrows(ops, n, n + 1, t1, ops[n - 1].now, ops[n].now, id);
    }
  }

  lemma {:induction false} RunHistory(cfg: Config, states: seq<Seen>, ops: seq<Op>, n: nat)
    requires IsRun(cfg, states, ops) && n <= |ops|
    ensures HasHistory(ops, n, states[n])
  {
    if n > 0 {
      var i := n - 1;
      RunHistory(cfg, states, ops, i);
      assert StepAt(cfg, states, ops, i);
      HistoryStep(cfg, ops, i, states[i], states[i + 1]);
    }
  }

  lemma {:induction false} RunGuarded(cfg: Config, states: seq<Seen>, ops: seq<Op>, i: nat, n: nat)
    requires IsRun(cfg, states, ops) && i < n <= |ops| && Stamps(ops[i])
    ensures Guarded(cfg, ops, n, states[n], ops[i].id, ops[i].now)
  {
    var m := n - 1;
    RunHistory(cfg, states, ops, m);
    if m > i { RunGuarded(cfg, states, ops, i, m); }
    assert StepAt(cfg, states, ops, m);
    StampGuards(cfg, ops, i, m, states[m], states[m + 1]);
  }

  lemma StampGuards(cfg: Config, ops: seq<Op>, i: nat, m: nat, seen: Seen, after: Seen)
    requires i <= m < |ops| && ClockIsMonotone(ops) && HasHistory(ops, m, seen) && Next(cfg, seen, ops[m], after)
    requires Stamps(ops[i]) && (i < m ==> Guarded(cfg, ops, m, seen, ops[i].id, ops[i].now))
    ensures Guarded(cfg, ops, m + 1, after, ops[i].id, ops[i].now)
  {
    var id, t1 := ops[i].id, ops[i].now;
    if i < m {
      assert t1 <= StartOf(ops[m]) <= ops[m].now;
      GuardedStep(cfg, ops, m, seen, after, id, t1);
    } else {
      assert BeforeTrim(cfg, seen, ops[m])[id] == t1;
      SurvivesOrCrowded(cfg, ops, m, seen, after, id, t1);
    }
  }

  /** At most once: two successful reservations of one id lie more than the TTL apart, or at
      least maxEntries other ids were stamped in the closed time span between them. */
  lemma AtMostOnceWithinWindow(cfg: Config, states: seq<Seen>, ops: seq<Op>, i: nat, j: nat)
    requires IsRun(cfg, states, ops) && i < j < |ops|
    requires Stamps(ops[i]) && ops[j].Reserve? && ops[j].ok && ops[i].id == ops[j].id
    ensures var t1, t2 := ops[i].now, ops[j].now;
            t2 - t1 > cfg.ttl || |StampedIn(ops, j, t1, t2) - {ops[i].id}| >= cfg.maxEntries
  {
    var id, t1, t2 := ops[i].id, ops[i].now, ops[j].now;
    RunGuarded(cfg, states, ops, i, j);
    assert StepAt(cfg, states, ops, j);
    if |StampedIn(ops, j, t1, ops[j - 1].now) - {id}| >= cfg.maxEntries {
      StampedInGrows(ops, j, j, t1, ops[j - 1].now, t2, id);
    }
  }

  /** The store never holds more than maxEntries ids after an operation. */
  lemma {:induction false} SizeIsBounded(cfg: Config, states: seq<Seen>, ops: seq<Op>, n: nat)
    requires IsRun(cfg, states, ops) && n <= |ops|
    ensures |states[n]| <= cfg.maxEntries
  {
    if n > 0 {
      var i := n - 1;
      SizeIsBounded(cfg, states, ops, i);
      var before, op, after := states[i], ops[i], states[i + 1];
      assert StepAt(cfg, states, ops, i);
      if !Stamps(op) { SubmapOfSameSize(after, before); }
    }
  }

  /** The window is real: with room for one entry, reserving another id evicts the first, which
      can then be reserved again at once. */
  lemma EvictionAllowsASecondRun(cfg: Config, a: string, b: string, t: int)
    requires a != b && cfg.maxEntries == 1 && cfg.ttl > 0
    ensures ReserveSpec(cfg, map[], a, t, true, map[a := t])
    ensures ReserveSpec(cfg, map[a := t], b, t, true, map[b := t])
    ensures ReserveSpec(cfg, map[b := t], a, t, true, map[a := t])
  {
  }

  // ----- lazy and eager expiry -----

  /** Expired entries never push out a live one: if a live entry is evicted, there were more than
      maxEntries live entries. */
  lemma OnlyCrowdingEvictsLiveEntries(cfg: Config, seen: Seen, after: Seen, id: string, now: int)
    requires TrimSpec(cfg, seen, after) && id in seen && id !in after && !Expired(cfg, now, seen[id])
    ensures |Pruned(cfg, seen, now)| > cfg.maxEntries
  {
    EvictionMeansFull(cfg, seen, after, id);
    var live := Pruned(cfg, seen, now);
    forall kept | kept in after ensures kept in live {}
    SubsetSize(after.Keys + {id}, live.Keys);
    assert |after.Keys + {id}| == |after| + 1;
  }

  /** A fixed rule for which oldest entry goes first. */
  ghost predicate IsTieBreak(pick: Seen -> string) {
    forall seen: Seen {:trigger pick(seen)} :: |seen| > 0 ==>
      pick(seen) in seen && forall id :: id in seen ==> seen[pick(seen)] <= seen[id]
  }

  /** There is such a rule: pick any oldest entry. */
  ghost function SomeOldest(seen: Seen): (id: string)
    ensures |seen| > 0 ==> id in seen && forall other :: other in seen ==> seen[id] <= seen[other]
  {
    if |seen| == 0 then ""
    else
      OldestExists(seen, seen.Keys);
      var id :| id in seen && forall other :: other in seen ==> seen[id] <= seen[other];
      id
  }

  lemma {:induction false} OldestExists(seen: Seen, ids: set<string>)
    requires ids != {} && ids <= seen.Keys
    ensures exists id :: id in ids && forall other :: other in ids ==> seen[id] <= seen[other]
    decreases |ids|
  {
    var first :| first in ids;
    if ids != {first} {
      OldestExists(seen, ids - {first});
      var id :| id in ids - {first} && forall other :: other in ids - {first} ==> seen[id] <= seen[other];
      assert forall other :: other in ids ==> other == first || other in ids - {first};
      var oldest := if seen[id] < seen[first] then id else first;
      assert oldest in ids && forall other :: other in ids ==> seen[oldest] <= seen[other];
    }
  }

  lemma TieBreakExists()
    ensures IsTieBreak(SomeOldest)
  {
  }

  ghost function Trimmed(cfg: Config, seen: Seen, pick: Seen -> string): Seen
    requires IsTieBreak(pick)
    decreases |seen|
  {
    if |seen| <= cfg.maxEntries then seen
    else
      assert (seen - {pick(seen)}).Keys == seen.Keys - {pick(seen)};
      Trimmed(cfg, seen - {pick(seen)}, pick)
  }

  /** A call, its effect and its result under a fixed tie-break. */
  datatype Call = CallReserve(id: string, now: int) | CallMark(id: string, prunedAt: int, now: int)
                | CallSeen(id: string, now: int) | CallPrune(now: int)

  function StartOfCall(c: Call): int { if c.CallMark? then c.prunedAt else c.now }

  ghost function Effect(cfg: Config, pick: Seen -> string, seen: Seen, c: Call): Seen
    requires IsTieBreak(pick)
  {
    match c
    case CallReserve(id, now) =>
      var live := Pruned(cfg, seen, now);
      if id in live then live else Trimmed(cfg, live[id := now], pick)
    case CallMark(id, prunedAt, now) => Trimmed(cfg, Pruned(cfg, seen, prunedAt)[id := now], pick)
    case CallSeen(id, now) => if id in seen && Expired(cfg, now, seen[id]) then seen - {id} else seen
    case CallPrune(now) => Pruned(cfg, seen, now)
  }

  function Answer(cfg: Config, seen: Seen, c: Call): bool {
    match c
    case CallReserve(id, now) => id !in Pruned(cfg, seen, now)
    case CallSeen(id, now) => id in seen && !Expired(cfg, now, seen[id])
    case _ => true
  }

  /** Two stores agree when they hold the same entries that are live at `now`. */
  ghost predicate Agree(cfg: Config, a: Seen, b: Seen, now: int) {
    Pruned(cfg, a, now) == Pruned(cfg, b, now)
  }

  lemma PruneLater(cfg: Config, seen: Seen, now: int, later: int)
    requires now <= later
    ensures Pruned(cfg, Pruned(cfg, seen, now), later) == Pruned(cfg, seen, later)
  {
  }

  lemma AgreeLater(cfg: Config, a: Seen, b: Seen, now: int, later: int)
    requires Agree(cfg, a, b, now) && now <= later
    ensures Agree(cfg, a, b, later)
  {
    PruneLater(cfg, a, now, later);
    PruneLater(cfg, b, now, later);
  }

  /** Agreeing stores give the same answer to a call and agree afterwards; pruning only one of
      them makes no difference. */
  lemma CallsCannotTell(cfg: Config, pick: Seen -> string, a: Seen, b: Seen, now: int, c: Call)
    requires IsTieBreak(pick) && Agree(cfg, a, b, now) && now <= StartOfCall(c) <= c.now
    ensures Answer(cfg, a, c) == Answer(cfg, b, c)
    ensures Agree(cfg, Effect(cfg, pick, a, c), Effect(cfg, pick, b, c), c.now)
    ensures c.CallPrune? ==> Agree(cfg, a, Effect(cfg, pick, b, c), c.now)
  {
    AgreeLater(cfg, a, b, now, StartOfCall(c));
    if c.CallSeen? {
      var pa, pb := Pruned(cfg, a, c.now), Pruned(cfg, b, c.now);
      assert c.id in pa <==> c.id in a && !Expired(cfg, c.now, a[c.id]);
      assert c.id in pb <==> c.id in b && !Expired(cfg, c.now, b[c.id]);
      assert Pruned(cfg, Effect(cfg, pick, a, c), c.now) == pa;
      assert Pruned(cfg, Effect(cfg, pick, b, c), c.now) == pb;
    } else if c.CallPrune? {
      PruneLater(cfg, a, c.now, c.now);
      PruneLater(cfg, b, c.now, c.now);
    }
  }

  /** A schedule: calls, some of them marked as additional Prune calls. */
  datatype Entry = Entry(call: Call, extra: bool)

  ghost predicate IsSchedule(entries: seq<Entry>, now: int) {
    entries == [] ||
    var e := entries[0];
    && now <= StartOfCall(e.call) <= e.call.now && (e.extra ==> e.call.CallPrune?)
    && IsSchedule(entries[1..], e.call.now)
  }

  /** The answers to the original calls, with or without carrying out the additional prunes. */
  ghost function Answers(cfg: Config, pick: Seen -> string, seen: Seen, entries: seq<Entry>, eager: bool): seq<bool>
    requires IsTieBreak(pick)
    decreases |entries|
  {
    if entries == [] then []
    else
      var e := entries[0];
      if e.extra then Answers(cfg, pick, if eager then Effect(cfg, pick, seen, e.call) else seen, entries[1..], eager)
      else [Answer(cfg, seen, e.call)] + Answers(cfg, pick, Effect(cfg, pick, seen, e.call), entries[1..], eager)
  }

  lemma {:induction false} SchedulesAgree(cfg: Config, pick: Seen -> string, a: Seen, b: Seen, now: int, entries: seq<Entry>)
    requires IsTieBreak(pick) && Agree(cfg, a, b, now) && IsSchedule(entries, now)
    ensures Answers(cfg, pick, a, entries, false) == Answers(cfg, pick, b, entries, true)
    decreases |entries|
  {
    if entries != [] {
      var e := entries[0];
      CallsCannotTell(cfg, pick, a, b, now, e.call);
      if e.extra {
        SchedulesAgree(cfg, pick, a, Effect(cfg, pick, b, e.call), e.call.now, entries[1..]);
      } else {
        SchedulesAgree(cfg, pick, Effect(cfg, pick, a, e.call), Effect(cfg, pick, b, e.call), e.call.now, entries[1..]);
      }
    }
  }

  /** Inserting Prune calls anywhere changes no answer of Seen or Reserve. */
  lemma ExtraPrunesAreInvisible(cfg: Config, pick: Seen -> string, start: int, entries: seq<Entry>)
    requires IsTieBreak(pick) && IsSchedule(entries, start)
    ensures Answers(cfg, pick, map[], entries, false) == Answers(cfg, pick, map[], entries, true)
  {
    SchedulesAgree(cfg, pick, map[], map[], start, entries);
  }

  /** The fixed tie-break is one of the evictions the store may perform. */
  lemma {:induction false} TrimmedIsATrim(cfg: Config, seen: Seen, pick: Seen -> string)
    requires IsTieBreak(pick)
    ensures TrimSpec(cfg, seen, Trimmed(cfg, seen, pick))
    decreases |seen|
  {
    if |seen| > cfg.maxEntries {
      var oldest := pick(seen);
      var rest := seen - {oldest};
      assert rest.Keys == seen.Keys - {oldest};
      assert |rest| == |rest.Keys| && |seen| == |seen.Keys|;
      TrimmedIsATrim(cfg, rest, pick);
      var after := Trimmed(cfg, rest, pick);
      assert Trimmed(cfg, seen, pick) == after;
      forall gone, kept | gone in seen && gone !in after && kept in after ensures seen[gone] <= seen[kept] {
        assert kept in rest && rest[kept] == seen[kept];
        if gone != oldest { assert gone in rest && rest[gone] == seen[gone]; }
      }
    }
  }

  /** So every call under it is one of the steps the store may take. */
  lemma EffectIsAStep(cfg: Config, pick: Seen -> string, seen: Seen, c: Call)
    requires IsTieBreak(pick)
    ensures var after := Effect(cfg, pick, seen, c);
            match c
            case CallReserve(id, now) => Next(cfg, seen, Reserve(id, now, Answer(cfg, seen, c)), after)
            case CallMark(id, prunedAt, now) => Next(cfg, seen, Mark(id, prunedAt, now), after)
            case CallSeen(id, now) => Next(cfg, seen, Look(id, now, Answer(cfg, seen, c)), after)
            case CallPrune(now) => Next(cfg, seen, Prune(now), after)
  {
    match c
    case CallReserve(id, now) => TrimmedIsATrim(cfg, Pruned(cfg, seen, now)[id := now], pick);
    case CallMark(id, prunedAt, now) => TrimmedIsATrim(cfg, Pruned(cfg, seen, prunedAt)[id := now], pick);
    case _ =>
  }
}
