/** Termination of limit enforcement (internal/outbox/store.go) on arbitrary directories.  The
    loop removes the file NAMED AFTER an oldest record, which need not be the file that record was
    read from; so whether it ends depends on the directory. */
module Draining {
  import opened Records
  import opened Directories
  import opened Sets

  function Without(dir: Directory, r: Record): Directory { dir - {PathOf(r.recordId)} }

  lemma WithoutListing(dir: Directory, r: Record)
    ensures Listed(Without(dir, r)) == Listed(dir) - {r.recordId}
  {
    assert Paths({r.recordId}) == {PathOf(r.recordId)};
    RemovalListing(dir, {r.recordId});
  }

  /** Removing a record that lies in its own file shortens the listing. */
  lemma SelfNamedShrinks(dir: Directory, f: string)
    requires f in Listed(dir) && Listed(dir)[f].recordId == f
    ensures |Listed(Without(dir, Listed(dir)[f]))| < |Listed(dir)|
  {
    WithoutListing(dir, Listed(dir)[f]);
    var after := Listed(Without(dir, Listed(dir)[f]));
    assert after.Keys == Listed(dir).Keys - {f};
    assert |after| == |after.Keys| && |Listed(dir)| == |Listed(dir).Keys|;
  }

  /** An oldest record in a foreign file is still there after its removal, still oldest, and
      removing it again changes nothing. */
  lemma ForeignStays(dir: Directory, f: string)
    requires IsOldestFile(dir, f) && Listed(dir)[f].recordId != f
    ensures var after := Without(dir, Listed(dir)[f]);
            && IsOldestFile(after, f) && Listed(after)[f] == Listed(dir)[f]
            && Without(after, Listed(after)[f]) == after
  {
    WithoutListing(dir, Listed(dir)[f]);
  }

  /** The limits are reached: at once, or by dropping oldest records that lie in their own files,
      or by one last removal for an oldest record that does not.  For any choice among oldest. */
  ghost predicate Drains(dir: Directory, limits: Limits)
    decreases |Listed(dir)|
  {
    || Within(dir, limits) || |Listed(dir)| == 0
    || forall f :: IsOldestFile(dir, f) ==>
         if Listed(dir)[f].recordId == f
         then SelfNamedShrinks(dir, f); Drains(Without(dir, Listed(dir)[f]), limits)
         else Within(Without(dir, Listed(dir)[f]), limits)
  }

  // ----- the loop as a step relation -----

  /** One more turn of the loop: a limit is exceeded, and some oldest record's file is removed. */
  ghost predicate Turn(dir: Directory, limits: Limits, after: Directory) {
    && !Within(dir, limits) && |Listed(dir)| > 0
    && exists f :: IsOldestFile(dir, f) && after == Without(dir, Listed(dir)[f])
  }

  ghost predicate IsAfterDrop(dir: Directory, limits: Limits, after: Directory) {
    exists r: Record :: IsDrop(dir, r, limits) && after == Without(dir, r)
  }

  /** The drops of the store are turns of this loop, and the only ones. */
  lemma TurnIsADrop(dir: Directory, limits: Limits, after: Directory)
    requires |Listed(dir)| > 0
    ensures Turn(dir, limits, after) <==> IsAfterDrop(dir, limits, after)
  {
    if Turn(dir, limits, after) {
      var f :| IsOldestFile(dir, f) && after == Without(dir, Listed(dir)[f]);
      assert IsDrop(dir, Listed(dir)[f], limits);
    }
  }

  ghost predicate TurnAt(run: nat -> Directory, limits: Limits, n: nat) { Turn(run(n), limits, run(n + 1)) }

  ghost predicate IsEndless(dir: Directory, limits: Limits, run: nat -> Directory) {
    run(0) == dir && forall n: nat :: TurnAt(run, limits, n)
  }

  ghost predicate AlwaysEnds(dir: Directory, limits: Limits) { forall run :: !IsEndless(dir, limits, run) }

  lemma {:induction false} DrainingEnds(limits: Limits, run: nat -> Directory, k: nat)
    requires Drains(run(k), limits) && forall n: nat :: TurnAt(run, limits, n)
    ensures false
    decreases |Listed(run(k))|
  {
    assert TurnAt(run, limits, k) && TurnAt(run, limits, k + 1);
    TurnDrains(run(k), limits, run(k + 1));
    DrainingEnds(limits, run, k + 1);
  }

  /** After one turn that is not the last, the rest drains and is shorter. */
  lemma TurnDrains(dir: Directory, limits: Limits, after: Directory)
    requires Drains(dir, limits) && Turn(dir, limits, after) && !Within(after, limits)
    ensures Drains(after, limits) && |Listed(after)| < |Listed(dir)|
  {
    var f :| IsOldestFile(dir, f) && after == Without(dir, Listed(dir)[f]);
    DrainTurn(dir, limits, Listed(dir)[f]);
  }

  /** Where the condition fails, some turn leads to a directory where it fails again. */
  lemma StuckTurn(dir: Directory, limits: Limits)
    requires !Drains(dir, limits)
    ensures exists after :: Turn(dir, limits, after) && !Drains(after, limits)
  {
    var f :| IsOldestFile(dir, f) &&
      !(if Listed(dir)[f].recordId == f then (SelfNamedShrinks(dir, f); Drains(Without(dir, Listed(dir)[f]), limits))
        else Within(Without(dir, Listed(dir)[f]), limits));
    var after := Without(dir, Listed(dir)[f]);
    if Listed(dir)[f].recordId != f {
      ForeignStays(dir, f);
      assert !Drains(after, limits);
    }
    assert Turn(dir, limits, after);
  }

  ghost function StuckRun(dir: Directory, limits: Limits, n: nat): (d: Directory)
    requires !Drains(dir, limits)
    ensures !Drains(d, limits)
  {
    if n == 0 then dir
    else
      var d := StuckRun(dir, limits, n - 1);
      StuckTurn(d, limits);
      var after :| Turn(d, limits, after) && !Drains(after, limits);
      after
  }

  lemma StuckRunIsEndless(dir: Directory, limits: Limits) returns (run: nat -> Directory)
    requires !Drains(dir, limits)
    ensures IsEndless(dir, limits, run)
  {
    run := (n: nat) => if Drains(dir, limits) then dir else StuckRun(dir, limits, n);
    forall n: nat ensures TurnAt(run, limits, n) {
      var d, after := StuckRun(dir, limits, n), StuckRun(dir, limits, n + 1);
      assert Turn(d, limits, after);
    }
  }

  /** Limit enforcement ends on a directory, however ties are resolved, if and only if the
      directory drains. */
  lemma LoopEndsExactly(dir: Directory, limits: Limits)
    ensures Drains(dir, limits) <==> AlwaysEnds(dir, limits)
  {
    if Drains(dir, limits) {
      forall run ensures !IsEndless(dir, limits, run) {
        if IsEndless(dir, limits, run) { DrainingEnds(limits, run, 0); }
      }
    } else {
      var run := StuckRunIsEndless(dir, limits);
    }
  }

  /** A matched directory always drains. */
  lemma {:induction false} MatchedDrains(dir: Directory, limits: Limits)
    requires Matched(dir)
    ensures Drains(dir, limits)
    decreases |Listed(dir)|
  {
    forall f | IsOldestFile(dir, f) ensures Drains(Without(dir, Listed(dir)[f]), limits) {
      SelfNamedShrinks(dir, f);
      WithoutListing(dir, Listed(dir)[f]);
      MatchedDrains(Without(dir, Listed(dir)[f]), limits);
    }
  }

  /** Each turn on a directory that drains brings the end closer. */
  lemma DrainTurn(dir: Directory, limits: Limits, r: Record)
    requires Drains(dir, limits) && !Within(dir, limits) && IsOldest(dir, r)
    ensures var after := Without(dir, r);
            && Drains(after, limits) && |Listed(after)| <= |Listed(dir)|
            && (|Listed(after)| < |Listed(dir)| || Within(after, limits))
  {
    var f :| IsOldestFile(dir, f) && Listed(dir)[f] == r;
    WithoutListing(dir, r);
    SubsetSize(Listed(Without(dir, r)).Keys, Listed(dir).Keys);
    if r.recordId == f { SelfNamedShrinks(dir, f); }
  }

  // ----- without ties -----

  /** No two listed records were created at the same time, so the order of drops is determined. */
  ghost predicate HasNoTies(dir: Directory) {
    forall a, b :: a in Listed(dir) && b in Listed(dir) && a != b ==> Listed(dir)[a].createdAt != Listed(dir)[b].createdAt
  }

  /** Each drop is an oldest record of what is left, lying in its own file. */
  ghost predicate AreOwnDrops(dir: Directory, drops: seq<Record>)
    decreases |drops|
  {
    drops == [] ||
    (&& IsOldestFile(dir, drops[0].recordId) && Listed(dir)[drops[0].recordId] == drops[0]
     && AreOwnDrops(Without(dir, drops[0]), drops[1..]))
  }

  function AfterDrops(dir: Directory, drops: seq<Record>): Directory
    decreases |drops|
  {
    if drops == [] then dir else AfterDrops(Without(dir, drops[0]), drops[1..])
  }

  /** The limits hold, or do after one more removal for an oldest record in a foreign file. */
  ghost predicate EndsHere(dir: Directory, limits: Limits) {
    || Within(dir, limits) || |Listed(dir)| == 0
    || exists f :: IsOldestFile(dir, f) && Listed(dir)[f].recordId != f && Within(Without(dir, Listed(dir)[f]), limits)
  }

  ghost predicate EndsAfter(dir: Directory, limits: Limits, drops: seq<Record>) {
    AreOwnDrops(dir, drops) && EndsHere(AfterDrops(dir, drops), limits)
  }

  lemma {:induction false} OldestExists(dir: Directory, ids: set<string>) returns (f: string)
    requires ids != {} && ids <= Listed(dir).Keys
    ensures f in ids && forall id :: id in ids ==> Listed(dir)[f].createdAt <= Listed(dir)[id].createdAt
    decreases |ids|
  {
    f :| f in ids;
    if ids != {f} {
      var g := OldestExists(dir, ids - {f});
      if Listed(dir)[g].createdAt < Listed(dir)[f].createdAt { f := g; }
    }
  }

  lemma DrainsStep(dir: Directory, limits: Limits, f: string)
    requires HasNoTies(dir) && IsOldestFile(dir, f) && !Within(dir, limits)
    ensures Drains(dir, limits) <==>
            if Listed(dir)[f].recordId == f then SelfNamedShrinks(dir, f); Drains(Without(dir, Listed(dir)[f]), limits)
            else Within(Without(dir, Listed(dir)[f]), limits)
  {
    assert |Listed(dir)| > 0 by { assert f in Listed(dir).Keys; }
    forall g | IsOldestFile(dir, g) ensures g == f {}
    if Listed(dir)[f].recordId == f { SelfNamedShrinks(dir, f); }
  }

  lemma WithoutHasNoTies(dir: Directory, r: Record)
    requires HasNoTies(dir)
    ensures HasNoTies(Without(dir, r))
  {
    WithoutListing(dir, r);
  }

  lemma {:induction false} DroppingDrains(dir: Directory, limits: Limits, drops: seq<Record>)
    requires HasNoTies(dir) && EndsAfter(dir, limits, drops)
    ensures Drains(dir, limits)
    decreases |drops|
  {
    if drops == [] {
      if f :| IsOldestFile(dir, f) && Listed(dir)[f].recordId != f && Within(Without(dir, Listed(dir)[f]), limits) {
        if !Within(dir, limits) { DrainsStep(dir, limits, f); }
      }
    } else {
      WithoutHasNoTies(dir, drops[0]);
      DroppingDrains(Without(dir, drops[0]), limits, drops[1..]);
      if !Within(dir, limits) { DrainsStep(dir, limits, drops[0].recordId); }
    }
  }

  lemma {:induction false} DrainingDrops(dir: Directory, limits: Limits) returns (drops: seq<Record>)
    requires HasNoTies(dir) && Drains(dir, limits)
    ensures EndsAfter(dir, limits, drops)
    decreases |Listed(dir)|
  {
    drops := [];
    if !Within(dir, limits) && |Listed(dir)| > 0 {
      var f := OldestExists(dir, Listed(dir).Keys);
      DrainsStep(dir, limits, f);
      var r := Listed(dir)[f];
      if r.recordId == f {
        SelfNamedShrinks(dir, f);
        WithoutHasNoTies(dir, r);
        var rest := DrainingDrops(Without(dir, r), limits);
        drops := [r] + rest;
        assert drops[1..] == rest;
      }
    }
  }

  /** Without ties, limit enforcement ends if and only if the limits hold at some point while
      dropping oldest records from their own files, or after one more removal for the first oldest
      record that lies in a foreign file. */
  lemma LoopEndsByDroppingExactly(dir: Directory, limits: Limits)
    requires HasNoTies(dir)
    ensures AlwaysEnds(dir, limits) <==>
            exists drops :: EndsAfter(dir, limits, drops)
  {
    LoopEndsExactly(dir, limits);
    if Drains(dir, limits) { var drops := DrainingDrops(dir, limits); }
    if drops :| EndsAfter(dir, limits, drops) { DroppingDrains(dir, limits, drops); }
  }
}
