/** The dedupe window exactly: under a clock that always advances, what the store remembers is
    determined by the history of stamps alone, and so is every answer of Reserve. */
module DedupeWindow {
  import opened Sets
  import opened Protocol
  import opened Dedupe

  /** Every operation starts later than the one before it ended. */
  ghost predicate ClockAdvances(ops: seq<Op>) {
    && (forall i :: 0 <= i < |ops| ==> StartOf(ops[i]) <= ops[i].now)
    && (forall i, j :: 0 <= i < j < |ops| ==> ops[i].now < StartOf(ops[j]))
  }

  /** The last of the first n operations that stamped this id. */
  ghost predicate IsLastStamp(ops: seq<Op>, k: nat, n: nat, id: string) {
    && k < n <= |ops| && Stamps(ops[k]) && ops[k].id == id
    && id !in StampedSince(ops, k, n)
  }

  /** The ids stamped after operation k. */
  ghost function StampedSince(ops: seq<Op>, k: nat, n: nat): set<string>
    requires n <= |ops|
  {
    set m | k < m < n && Stamps(ops[m]) :: ops[m].id
  }

  /** Fewer than maxEntries ids were stamped since. */
  ghost predicate HasRoom(cfg: Config, ops: seq<Op>, k: nat, n: nat)
    requires n <= |ops|
  {
    |StampedSince(ops, k, n)| < cfg.maxEntries
  }

  ghost predicate IsRemembered(cfg: Config, ops: seq<Op>, n: nat, seen: Seen, id: string)
    requires n <= |ops|
  {
    exists k: nat :: IsLastStamp(ops, k, n, id) && id in seen && seen[id] == ops[k].now && HasRoom(cfg, ops, k, n)
  }

  /** What is in the store carries its last stamp and has not been crowded out; what is not has
      been crowded out or has expired. */
  ghost predicate Window(cfg: Config, ops: seq<Op>, n: nat, seen: Seen)
    requires n <= |ops|
  {
    && (forall id :: id in seen ==> IsRemembered(cfg, ops, n, seen, id))
    && (forall k: nat, id :: IsLastStamp(ops, k, n, id) && HasRoom(cfg, ops, k, n) && id !in seen ==>
          Expired(cfg, ops[n - 1].now, ops[k].now))
  }

  lemma {:induction false} LastStampAfter(ops: seq<Op>, m: nat, n: nat) returns (k: nat)
    requires m < n <= |ops| && Stamps(ops[m])
    ensures m <= k && IsLastStamp(ops, k, n, ops[m].id)
    decreases n - m
  {
    var id := ops[m].id;
    if id in StampedSince(ops, m, n) {
      var later :| m < later < n && Stamps(ops[later]) && ops[later].id == id;
      k := LastStampAfter(ops, later, n);
    } else {
      k := m;
    }
  }

  lemma LastStampIsUnique(ops: seq<Op>, k: nat, l: nat, n: nat, id: string)
    requires IsLastStamp(ops, k, n, id) && IsLastStamp(ops, l, n, id)
    ensures k == l
  {
  }

  lemma ExpiresForGood(cfg: Config, now: int, later: int, at: int, earlier: int)
    requires now <= later && earlier <= at
    ensures Expired(cfg, now, at) ==> Expired(cfg, later, earlier)
  {
  }

  // ----- operations that stamp nothing -----

  lemma NoStampKeepsHistory(ops: seq<Op>, n: nat, k: nat)
    requires n < |ops| && !Stamps(ops[n])
    ensures StampedSince(ops, k, n + 1) == StampedSince(ops, k, n)
    ensures forall id :: IsLastStamp(ops, k, n + 1, id) <==> IsLastStamp(ops, k, n, id)
  {
  }

  lemma NoStampStep(cfg: Config, ops: seq<Op>, n: nat, seen: Seen, after: Seen)
    requires n < |ops| && !Stamps(ops[n]) && ClockAdvances(ops) && Window(cfg, ops, n, seen) && Next(cfg, seen, ops[n], after)
    ensures Window(cfg, ops, n + 1, after)
  {
    forall id | id in after ensures IsRemembered(cfg, ops, n + 1, after, id) {
      assert id in seen && seen[id] == after[id];
      StillRemembered(cfg, ops, n, seen, after, id);
    }
    forall k: nat, id | IsLastStamp(ops, k, n + 1, id) && HasRoom(cfg, ops, k, n + 1) && id !in after
      ensures Expired(cfg, ops[n].now, ops[k].now)
    {
      NoStampKeepsHistory(ops, n, k);
      LostByTime(cfg, ops, n, seen, after, id, k);
    }
  }

  lemma StillRemembered(cfg: Config, ops: seq<Op>, n: nat, seen: Seen, after: Seen, id: string)
    requires n < |ops| && !Stamps(ops[n]) && Window(cfg, ops, n, seen) && id in seen && id in after && seen[id] == after[id]
    ensures IsRemembered(cfg, ops, n + 1, after, id)
  {
    assert IsRemembered(cfg, ops, n, seen, id);
    var k: nat :| IsLastStamp(ops, k, n, id) && seen[id] == ops[k].now && HasRoom(cfg, ops, k, n);
    NoStampKeepsHistory(ops, n, k);
  }

  /** A remembered id that an operation loses before evicting has expired, and stays so. */
  lemma LostByTime(cfg: Config, ops: seq<Op>, n: nat, seen: Seen, after: Seen, id: string, k: nat)
    requires n < |ops| && ClockAdvances(ops) && Window(cfg, ops, n, seen) && Next(cfg, seen, ops[n], after)
    requires id !in BeforeTrim(cfg, seen, ops[n]) && IsLastStamp(ops, k, n, id) && HasRoom(cfg, ops, k, n)
    ensures Expired(cfg, ops[n].now, ops[k].now)
  {
    if id in seen {
      SeenStamp(cfg, ops, n, seen, id, k);
      LostByExpiry(cfg, seen, ops[n], after, id, ops[k].now);
    } else {
      assert ops[n - 1].now < StartOf(ops[n]) <= ops[n].now;
      ExpiresForGood(cfg, ops[n - 1].now, ops[n].now, ops[k].now, ops[k].now);
    }
  }

  lemma SeenStamp(cfg: Config, ops: seq<Op>, n: nat, seen: Seen, id: string, k: nat)
    requires n <= |ops| && Window(cfg, ops, n, seen) && id in seen && IsLastStamp(ops, k, n, id)
    ensures seen[id] == ops[k].now
  {
    assert IsRemembered(cfg, ops, n, seen, id);
    var l: nat :| IsLastStamp(ops, l, n, id) && seen[id] == ops[l].now;
    LastStampIsUnique(ops, k, l, n, id);
  }

  // ----- operations that stamp an id -----

  lemma StampHistory(ops: seq<Op>, n: nat, k: nat)
    requires k < n < |ops| && Stamps(ops[n])
    ensures StampedSince(ops, k, n + 1) == StampedSince(ops, k, n) + {ops[n].id}
    ensures StampedSince(ops, n, n + 1) == {}
    ensures forall id :: id != ops[n].id ==> (IsLastStamp(ops, k, n + 1, id) <==> IsLastStamp(ops, k, n, id))
  {
    assert StampedSince(ops, k, n + 1) == StampedSince(ops, k, n) + {ops[n].id};
  }

  /** The map before eviction holds last stamps, all different. */
  lemma MidStamp(cfg: Config, ops: seq<Op>, n: nat, seen: Seen, after: Seen, id: string) returns (k: nat)
    requires n < |ops| && Stamps(ops[n]) && Window(cfg, ops, n, seen) && Next(cfg, seen, ops[n], after)
    requires id in BeforeTrim(cfg, seen, ops[n])
    ensures IsLastStamp(ops, k, n + 1, id) && BeforeTrim(cfg, seen, ops[n])[id] == ops[k].now
    ensures id == ops[n].id <==> k == n
    ensures k < n ==> IsLastStamp(ops, k, n, id) && id in seen && !Expired(cfg, StartOf(ops[n]), ops[k].now) && HasRoom(cfg, ops, k, n)
  {
    if id == ops[n].id {
      k := n;
    } else {
      assert IsRemembered(cfg, ops, n, seen, id);
      k :| IsLastStamp(ops, k, n, id) && seen[id] == ops[k].now && HasRoom(cfg, ops, k, n);
      StampHistory(ops, n, k);
    }
  }

  /** Whoever was stamped after a live, remembered id is itself live and remembered. */
  lemma YoungerIsThere(cfg: Config, ops: seq<Op>, n: nat, seen: Seen, k: nat, id: string, y: string) returns (l: nat)
    requires n < |ops| && ClockAdvances(ops) && Window(cfg, ops, n, seen) && IsLastStamp(ops, k, n, id) && HasRoom(cfg, ops, k, n)
    requires !Expired(cfg, StartOf(ops[n]), ops[k].now) && y in StampedSince(ops, k, n)
    ensures k < l && IsLastStamp(ops, l, n, y) && y in seen && seen[y] == ops[l].now > ops[k].now
    ensures !Expired(cfg, StartOf(ops[n]), ops[l].now)
  {
    var m :| k < m < n && Stamps(ops[m]) && ops[m].id == y;
    l := LastStampAfter(ops, m, n);
    assert ops[k].now < StartOf(ops[l]) <= ops[l].now;
    assert StampedSince(ops, l, n) <= StampedSince(ops, k, n) - {y};
    SubsetSize(StampedSince(ops, l, n), StampedSince(ops, k, n) - {y});
    ExpiresForGood(cfg, StartOf(ops[n]), StartOf(ops[n]), ops[l].now, ops[k].now);
    if y !in seen {
      assert ops[n - 1].now < StartOf(ops[n]);
      ExpiresForGood(cfg, ops[n - 1].now, StartOf(ops[n]), ops[l].now, ops[k].now);
    } else {
      SeenStamp(cfg, ops, n, seen, y, l);
    }
  }

  /** What eviction keeps has not been crowded out. */
  lemma KeptHasRoom(cfg: Config, ops: seq<Op>, n: nat, seen: Seen, after: Seen, id: string)
    requires n < |ops| && Stamps(ops[n]) && ClockAdvances(ops) && Window(cfg, ops, n, seen) && cfg.maxEntries > 0
    requires Next(cfg, seen, ops[n], after) && id in after
    ensures IsRemembered(cfg, ops, n + 1, after, id)
  {
    var mid := BeforeTrim(cfg, seen, ops[n]);
    var k := MidStamp(cfg, ops, n, seen, after, id);
    if k < n {
      StampHistory(ops, n, k);
      var crowd := StampedSince(ops, k, n + 1);
      forall y | y in crowd ensures y in after.Keys - {id} {
        CrowdIsKept(cfg, ops, n, seen, after, k, id, y);
      }
      SubsetSize(crowd, after.Keys - {id});
      assert |after.Keys - {id}| == |after| - 1;
    } else {
      assert StampedSince(ops, n, n + 1) == {};
    }
    assert after[id] == mid[id] && HasRoom(cfg, ops, k, n + 1);
  }

  lemma CrowdIsKept(cfg: Config, ops: seq<Op>, n: nat, seen: Seen, after: Seen, k: nat, id: string, y: string)
    requires n < |ops| && Stamps(ops[n]) && ClockAdvances(ops) && Window(cfg, ops, n, seen) && Next(cfg, seen, ops[n], after)
    requires id in after && k < n && IsLastStamp(ops, k, n, id) && HasRoom(cfg, ops, k, n) && id != ops[n].id
    requires BeforeTrim(cfg, seen, ops[n])[id] == ops[k].now && !Expired(cfg, StartOf(ops[n]), ops[k].now)
    requires y in StampedSince(ops, k, n) + {ops[n].id}
    ensures y in after && y != id
  {
    var mid := BeforeTrim(cfg, seen, ops[n]);
    assert ops[k].now < StartOf(ops[n]) <= ops[n].now;
    if y != ops[n].id {
      var l := YoungerIsThere(cfg, ops, n, seen, k, id, y);
      assert y in mid && mid[y] == ops[l].now;
    }
    assert mid[y] > mid[id];
  }

  /** What eviction drops has been crowded out. */
  lemma EvictedHasNoRoom(cfg: Config, ops: seq<Op>, n: nat, seen: Seen, after: Seen, id: string, k: nat)
    requires n < |ops| && Stamps(ops[n]) && ClockAdvances(ops) && Window(cfg, ops, n, seen) && cfg.maxEntries > 0
    requires Next(cfg, seen, ops[n], after) && id in BeforeTrim(cfg, seen, ops[n]) && id !in after
    requires IsLastStamp(ops, k, n + 1, id)
    ensures !HasRoom(cfg, ops, k, n + 1)
  {
    var mid := BeforeTrim(cfg, seen, ops[n]);
    var k' := MidStamp(cfg, ops, n, seen, after, id);
    LastStampIsUnique(ops, k, k', n + 1, id);
    EvictionMeansFull(cfg, mid, after, id);
    forall y | y in after ensures y in StampedSince(ops, k, n + 1) {
      var l := MidStamp(cfg, ops, n, seen, after, y);
      StampOrder(ops, k, l);
      assert mid[id] <= mid[y] && l != k;
    }
    SubsetSize(after.Keys, StampedSince(ops, k, n + 1));
  }

  lemma StampOrder(ops: seq<Op>, k: nat, l: nat)
    requires ClockAdvances(ops) && k < |ops| && l < |ops|
    ensures l < k ==> ops[l].now < ops[k].now
  {
  }

  lemma StampStep(cfg: Config, ops: seq<Op>, n: nat, seen: Seen, after: Seen)
    requires n < |ops| && Stamps(ops[n]) && ClockAdvances(ops) && Window(cfg, ops, n, seen) && cfg.maxEntries > 0
    requires Next(cfg, seen, ops[n], after)
    ensures Window(cfg, ops, n + 1, after)
  {
    forall id | id in after ensures IsRemembered(cfg, ops, n + 1, after, id) {
      KeptHasRoom(cfg, ops, n, seen, after, id);
    }
    forall k: nat, id | IsLastStamp(ops, k, n + 1, id) && HasRoom(cfg, ops, k, n + 1) && id !in after
      ensures Expired(cfg, ops[n].now, ops[k].now)
    {
      MissingIsExpired(cfg, ops, n, seen, after, id, k);
    }
  }

  lemma MissingIsExpired(cfg: Config, ops: seq<Op>, n: nat, seen: Seen, after: Seen, id: string, k: nat)
    requires n < |ops| && Stamps(ops[n]) && ClockAdvances(ops) && Window(cfg, ops, n, seen) && cfg.maxEntries > 0
    requires Next(cfg, seen, ops[n], after) && IsLastStamp(ops, k, n + 1, id) && HasRoom(cfg, ops, k, n + 1) && id !in after
    ensures Expired(cfg, ops[n].now, ops[k].now)
  {
    if id in BeforeTrim(cfg, seen, ops[n]) {
      EvictedHasNoRoom(cfg, ops, n, seen, after, id, k);
    } else {
      StampHistory(ops, n, k);
      SubsetSize(StampedSince(ops, k, n), StampedSince(ops, k, n + 1));
      LostByTime(cfg, ops, n, seen, after, id, k);
    }
  }

  // ----- runs -----

  lemma {:induction false} RunWindow(cfg: Config, states: seq<Seen>, ops: seq<Op>, n: nat)
    requires IsRun(cfg, states, ops) && ClockAdvances(ops) && n <= |ops| && cfg.maxEntries > 0
    ensures Window(cfg, ops, n, states[n])
  {
    if n > 0 {
      var i := n - 1;
      RunWindow(cfg, states, ops, i);
      assert StepAt(cfg, states, ops, i);
      if Stamps(ops[i]) {
        StampStep(cfg, ops, i, states[i], states[i + 1]);
      } else {
        NoStampStep(cfg, ops, i, states[i], states[i + 1]);
      }
    }
  }

  /** In every run under an advancing clock, Reserve refuses an id exactly if its last stamp is
      within the TTL and fewer than maxEntries other ids were stamped since. */
  lemma ReserveFailsExactly(cfg: Config, states: seq<Seen>, ops: seq<Op>, j: nat)
    requires IsRun(cfg, states, ops) && ClockAdvances(ops) && cfg.maxEntries > 0
    requires j < |ops| && ops[j].Reserve?
    ensures !ops[j].ok <==>
            exists k: nat :: IsLastStamp(ops, k, j, ops[j].id) && !Expired(cfg, ops[j].now, ops[k].now) && HasRoom(cfg, ops, k, j)
  {
    RunWindow(cfg, states, ops, j);
    assert StepAt(cfg, states, ops, j);
    var seen, id, now := states[j], ops[j].id, ops[j].now;
    if !ops[j].ok {
      assert IsRemembered(cfg, ops, j, seen, id);
    }
    if k: nat :| IsLastStamp(ops, k, j, id) && !Expired(cfg, now, ops[k].now) && HasRoom(cfg, ops, k, j) {
      RefusedWhileRemembered(cfg, ops, j, seen, k);
    }
  }

  /** The same in plain arithmetic: with a finite TTL, Reserve refuses an id exactly if its last stamp
      is at most the TTL old and fewer than maxEntries other ids were stamped since. */
  lemma ReserveFailsByTimeExactly(cfg: Config, states: seq<Seen>, ops: seq<Op>, j: nat)
    requires IsRun(cfg, states, ops) && ClockAdvances(ops) && cfg.maxEntries > 0 && 0 < cfg.ttl < MAX_INT64
    requires j < |ops| && ops[j].Reserve?
    ensures !ops[j].ok <==>
            exists k: nat :: IsLastStamp(ops, k, j, ops[j].id) && ops[j].now - ops[k].now <= cfg.ttl
              && |StampedSince(ops, k, j)| < cfg.maxEntries
  {
    ReserveFailsExactly(cfg, states, ops, j);
    forall k: nat | k < j ensures Expired(cfg, ops[j].now, ops[k].now) <==> ops[j].now - ops[k].now > cfg.ttl {
      ExpiredExactly(cfg, ops[j].now, ops[k].now);
    }
    if k: nat :| IsLastStamp(ops, k, j, ops[j].id) && ops[j].now - ops[k].now <= cfg.ttl
                 && |StampedSince(ops, k, j)| < cfg.maxEntries {
      assert HasRoom(cfg, ops, k, j);
    }
  }

  /** Whatever else happened, an id all of whose stamps are more than the TTL old can be reserved. */
  lemma OldStampCanBeReserved(cfg: Config, states: seq<Seen>, ops: seq<Op>, j: nat)
    requires IsRun(cfg, states, ops) && 0 < cfg.ttl < MAX_INT64 && j < |ops| && ops[j].Reserve?
    requires forall k :: 0 <= k < j && Stamps(ops[k]) && ops[k].id == ops[j].id ==> ops[j].now - ops[k].now > cfg.ttl
    ensures ops[j].ok
  {
    RunHistory(cfg, states, ops, j);
    assert StepAt(cfg, states, ops, j);
    var id := ops[j].id;
    if id in states[j] {
      var k :| 0 <= k < j && Stamps(ops[k]) && ops[k].id == id && ops[k].now == states[j][id];
      ExpiredExactly(cfg, ops[j].now, ops[k].now);
    }
  }

  lemma RefusedWhileRemembered(cfg: Config, ops: seq<Op>, j: nat, seen: Seen, k: nat)
    requires j < |ops| && ops[j].Reserve? && ClockAdvances(ops) && Window(cfg, ops, j, seen)
    requires IsLastStamp(ops, k, j, ops[j].id) && !Expired(cfg, ops[j].now, ops[k].now) && HasRoom(cfg, ops, k, j)
    ensures ops[j].id in Pruned(cfg, seen, ops[j].now)
  {
    var id := ops[j].id;
    if id in seen {
      SeenStamp(cfg, ops, j, seen, id, k);
    } else {
      assert ops[j - 1].now < StartOf(ops[j]);
      ExpiresForGood(cfg, ops[j - 1].now, ops[j].now, ops[k].now, ops[k].now);
    }
  }
}
