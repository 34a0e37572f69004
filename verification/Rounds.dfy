/** DispatchOnce as one round of deliveries over the real store, and how many rounds it takes to
    attempt everything that is due. */
module Rounds {
  import opened Sets
  import opened Protocol
  import opened Records
  import opened Directories
  import opened Retry
  import opened Outbox
  import opened OutboxLaws
  import opened Dispatcher
  import opened Traces

  type Listing = map<string, Record>

  /** One delivery attempt: acknowledged, or failed with an error at some time. */
  datatype Outcome = Acknowledged | Failed(error: string, at: int)

  datatype Channel = OverWebSocket(conn: nat) | OverPull

  /** What the network does with the i-th delivery of a round over a channel. */
  type Network = (Channel, nat) -> Outcome

  /** The WebSocket sender goes first. */
  function InUse(webSocket: Option<nat>, pull: bool): Option<Channel> {
    if webSocket.Some? then Some(OverWebSocket(webSocket.value)) else if pull then Some(OverPull) else None
  }

  /** Why a round ended. */
  datatype Exit = Finished | Cancelled | NoSender | StoreError

  /** What a round did: the scan (nothing, if it failed), the records it dealt with, and its end. */
  datatype Round = Round(scanned: bool, due: seq<Record>, handled: seq<Record>, exit: Exit)

  /** One tick of the periodic loop. */
  datatype Tick = Tick(now: int, network: Network, cancelled: nat -> bool)

  function Times(ticks: seq<Tick>): (times: seq<int>)
    ensures |times| == |ticks| && forall i :: 0 <= i < |ticks| ==> times[i] == ticks[i].now
  {
    seq(|ticks|, i requires 0 <= i < |ticks| => ticks[i].now)
  }

  /** Deliveries fail no earlier than the scan of their round. */
  ghost predicate ClockGoesOn(now: int, network: Network) {
    forall c, i :: network(c, i).Failed? ==> network(c, i).at >= now
  }

  /** What a scan for at most `limit` due records of a listing returns. */
  ghost predicate IsDueBatch(listing: Listing, now: int, limit: nat, due: seq<Record>) {
    && IsSortedScan(due) && |due| <= limit
    && (forall r :: r in due ==> r.recordId in listing && listing[r.recordId] == r && IsDue(r, now))
    && (forall id :: id in listing && IsDue(listing[id], now) && listing[id] !in due ==> |due| == limit)
  }

  /** An acknowledged record is gone, a failed one is kept with its retry state advanced. */
  ghost predicate IsOutcome(before: Listing, id: string, outcome: Outcome, after: Listing) {
    match outcome
    case Acknowledged => id !in after
    case Failed(error, at) => id in before && id in after && IsMarked(before[id], at, error, after[id])
  }

  /** Each record went the way of its own outcome, and all others are untouched. */
  ghost predicate DeliveredAs(before: Listing, records: seq<Record>, channel: Channel, network: Network, after: Listing) {
    && (forall id :: id in after ==> id in before)
    && (forall id :: id in before && id !in Ids(records) ==> id in after && after[id] == before[id])
    && (forall i :: 0 <= i < |records| ==> IsOutcome(before, records[i].recordId, network(channel, i), after))
  }

  lemma DeliveredOneMore(before: Listing, records: seq<Record>, channel: Channel, network: Network, mid: Listing, r: Record, after: Listing)
    requires DeliveredAs(before, records, channel, network, mid) && r.recordId !in Ids(records)
    requires match network(channel, |records|)
             case Acknowledged => after == mid - {r.recordId}
             case Failed(error, at) => r.recordId in mid && r.recordId in after && after == mid[r.recordId := after[r.recordId]]
                                       && IsMarked(mid[r.recordId], at, error, after[r.recordId])
    ensures DeliveredAs(before, records + [r], channel, network, after)
  {
    IdsAppend(records, r);
    var more := records + [r];
    forall i | 0 <= i < |more| ensures IsOutcome(before, more[i].recordId, network(channel, i), after) {
      if i < |records| {
        assert more[i] == records[i] && more[i].recordId in Ids(records);
        assert IsOutcome(before, records[i].recordId, network(channel, i), mid);
      }
    }
  }

  lemma IdsAppend(records: seq<Record>, r: Record)
    ensures Ids(records + [r]) == Ids(records) + {r.recordId}
  {
  }

  /** What one round promises; `faulty` says that some disk operation failed.  On a directory with
      foreign file names it still ends, and deals with a first part of what it scanned. */
  ghost predicate RoundSpec(before: Directory, now: int, channel: Option<Channel>, network: Network, cancelled: nat -> bool,
                            round: Round, after: Directory, faulty: bool)
  {
    && round.handled <= round.due
    && (faulty ==> round.exit.StoreError?)
    && (!round.scanned || Matched(before) ==> (faulty <==> round.exit.StoreError?))
    && (round.scanned ==> DueSpec(before, now, BATCH_SIZE, round.due))
    && (!round.scanned ==> round.due == [] && round.exit.StoreError? && after == before)
    && ExitIsTrue(round, channel, cancelled)
    && (forall i :: 0 <= i < Tries(round) ==> !cancelled(i))
    && (Matched(before) ==>
          && Matched(after)
          && (round.scanned ==> IsDueBatch(Listed(before), now, BATCH_SIZE, round.due))
          && (channel.Some? ==> DeliveredAs(Listed(before), round.handled, channel.value, network, Listed(after)))
          && (channel.None? ==> round.handled == [] && Listed(after) == Listed(before)))
  }

  ghost predicate ExitIsTrue(round: Round, channel: Option<Channel>, cancelled: nat -> bool) {
    !round.scanned || EndsTruly(round.exit, |round.handled|, |round.due|, channel, cancelled)
  }

  /** Having dealt with n of `all` records, there was reason to end this way. */
  ghost predicate EndsTruly(exit: Exit, n: nat, all: nat, channel: Option<Channel>, cancelled: nat -> bool) {
    match exit
    case Finished => n == all
    case Cancelled => n < all && cancelled(n)
    case NoSender => n < all && channel.None?
    case StoreError => n < all && channel.Some?
  }

  /** How many deliveries of the round were tried: those dealt with, and the one a store error hit. */
  function Tries(round: Round): nat {
    |round.handled| + if round.scanned && round.exit.StoreError? then 1 else 0
  }

  /** The log has the scan and, in order, the first n scanned records tried with their outcomes. */
  ghost predicate Tried(log: seq<Event>, due: seq<Record>, n: nat, channel: Option<Channel>, network: Network) {
    && n <= |due| && log != [] && log[0] == Read(0, due)
    && Started(log) == due[..n] && |Acks(log)| == n && (n > 0 ==> channel.Some?)
    && (forall i :: 0 <= i < n ==> Acks(log)[i] == network(channel.value, i).Acknowledged?)
    && (forall i :: 0 <= i < |log| && IsSend(log[i]) ==> channel.Some? && IsOver(log[i].via, channel.value))
  }

  lemma TriedOverFirstSender(log: seq<Event>, round: Round, webSocket: Option<nat>, pull: bool, network: Network)
    requires if round.scanned then Tried(log, round.due, Tries(round), InUse(webSocket, pull), network) else log == []
    ensures forall i :: 0 <= i < |log| && IsSend(log[i]) ==>
              if webSocket.Some? then log[i].via.WebSocket? && log[i].via.conn == webSocket.value else log[i].via.Pull? && pull
    ensures forall i :: 0 <= i < |Acks(log)| ==>
              Acks(log)[i] == network(if webSocket.Some? then OverWebSocket(webSocket.value) else OverPull, i).Acknowledged?
  {
  }

  predicate IsOver(via: Via, channel: Channel) {
    match channel
    case OverWebSocket(conn) => via.WebSocket? && via.conn == conn
    case OverPull => via.Pull?
  }

  lemma NothingTried(due: seq<Record>, channel: Option<Channel>, network: Network)
    ensures Tried([Read(0, due)], due, 0, channel, network)
  {
    LogAppend([], Read(0, due));
    assert [] + [Read(0, due)] == [Read(0, due)];
  }

  lemma OneTryMore(log: seq<Event>, due: seq<Record>, n: nat, channel: Channel, network: Network, via: Via, log': seq<Event>)
    requires Tried(log, due, n, Some(channel), network) && n < |due| && IsOver(via, channel)
    requires var tried := log + [SendStarted(0, due[n], via)]
               + [if network(channel, n).Acknowledged? then SendSucceeded(0, due[n], via) else SendFailed(0, due[n], via)];
             IsQuiet(tried, log')
    ensures Tried(log', due, n + 1, Some(channel), network)
  {
    LogAppend(log, SendStarted(0, due[n], via));
    LogAppend(log + [SendStarted(0, due[n], via)],
              if network(channel, n).Acknowledged? then SendSucceeded(0, due[n], via) else SendFailed(0, due[n], via));
    assert due[..n + 1] == due[..n] + [due[n]];
    forall i | 0 <= i < |log'| && IsSend(log'[i]) ensures IsOver(log'[i].via, channel) {
      if i < |log| { assert log'[i] == log[i]; }
    }
  }

  class ResultDispatcher {
    const store: Store
    var webSocket: Option<nat>
    var pull: bool
    var sending: bool

    constructor (store: Store)
      ensures this.store == store && webSocket.None? && !pull && !sending
    {
      this.store := store;
      webSocket, pull, sending := None, false, false;
    }

    method SetWebSocketSender(conn: Option<nat>)
      modifies this`webSocket
      ensures webSocket == conn
    {
      webSocket := conn;
    }

    method SetPullSender(available: bool)
      modifies this`pull
      ensures pull == available
    {
      pull := available;
    }

    function Setting(): Config
      reads this
    {
      Config(store.limits, store.size)
    }

    /** This object as a state of the step machine, with no thread past the gate. */
    function Resting(): State
      reads this, store.disk
    {
      State(store.disk.files, store.disk.files, false, webSocket, pull, map[], [])
    }

    /** Saving a result and then one round; if it could not be saved, no round. */
    method Enqueue(env: Envelope, now: int, scanAt: int, network: Network, cancelled: nat -> bool)
      returns (ok: bool, ghost saved: SaveResult, ghost drops: seq<Record>, ghost mid: Directory, ghost round: Round)
      requires SaveEnds(store.disk.files, env, now, store.limits, store.size)
      requires store.limits.maxRecords > 0 && store.limits.maxBytes > 0
      modifies this`sending, store.disk
      ensures SaveSpec(old(store.disk.files), env, now, store.limits, store.size, saved, drops, mid)
      ensures !saved.Saved? ==> !ok && store.disk.files == mid && sending == old(sending)
      ensures !saved.Saved? ==> (saved.SaveRefused? <==> store.disk.faults == old(store.disk.faults))
      ensures saved.Saved? && old(sending) ==>
        ok && sending && store.disk.files == mid && store.disk.faults == old(store.disk.faults)
      ensures saved.Saved? && !old(sending) ==>
        && !sending && ok == !round.exit.StoreError?
        && RoundSpec(mid, scanAt, InUse(webSocket, pull), network, cancelled, round, store.disk.files,
                     store.disk.faults != old(store.disk.faults))
    {
      var r;
      r, drops := store.Save(env, now);
      saved, mid := r, store.disk.files;
      round := Round(false, [], [], StoreError);
      if !r.Saved? {
        return false, saved, drops, mid, round;
      }
      ghost var trace;
      ok, round, trace := DispatchOnce(scanAt, network, cancelled);
    }

    /** One round without interference.  A call while another is under way changes nothing; any
        other call clears the flag, is a run of the step machine that tries the scanned records in
        order with the network's outcomes, and reports an error exactly if a store operation failed. */
    method DispatchOnce(now: int, network: Network, cancelled: nat -> bool)
      returns (ok: bool, ghost round: Round, ghost trace: Trace)
      modifies this`sending, store.disk
      ensures old(store.disk.faults) <= store.disk.faults
      ensures old(sending) ==>
        ok && sending && store.disk.files == old(store.disk.files) && store.disk.faults == old(store.disk.faults)
      ensures !old(sending) ==>
        && !sending && ok == !round.exit.StoreError?
        && var kept := RoundSpec(old(store.disk.files), now, InUse(webSocket, pull), network, cancelled, round,
                                 store.disk.files, store.disk.faults != old(store.disk.faults));
           kept
      ensures !old(sending) ==>
        && IsTrace(Setting(), trace) && trace.states[0] == old(Resting())
        && End(trace) == old(Resting()).(dir := store.disk.files, log := End(trace).log)
        && (if round.scanned then Tried(End(trace).log, round.due, Tries(round), InUse(webSocket, pull), network)
            else End(trace).log == [])
      // the connection's sender while there is one, the pull sender only without
      ensures !old(sending) ==> var log := End(trace).log;
        && (forall i :: 0 <= i < |log| && IsSend(log[i]) ==>
              if webSocket.Some? then log[i].via.WebSocket? && log[i].via.conn == webSocket.value else log[i].via.Pull? && pull)
        && (forall i :: 0 <= i < |Acks(log)| ==>
              Acks(log)[i] == network(if webSocket.Some? then OverWebSocket(webSocket.value) else OverPull, i).Acknowledged?)
    {
      round, trace := Round(false, [], [], StoreError), Trace([], []);
      if sending {
        return true, round, trace;
      }
      ghost var first := Resting();
      sending := true;
      trace := Entering(Setting(), first);
      ghost var pc;
      ok, round, trace, pc := DrainBatch(now, network, cancelled, first, trace);
      sending := false;
      TriedOverFirstSender(End(trace).log, round, webSocket, pull, network);
      trace := LeavingGate(Setting(), trace, first, store.disk.files, pc);
    }

    /** The part past the gate. */
    method DrainBatch(now: int, network: Network, cancelled: nat -> bool, ghost first: State, ghost entered: Trace)
      returns (ok: bool, ghost round: Round, ghost trace: Trace, ghost pc: Pc)
      requires Reaches(Setting(), entered, first, store.disk.files, Gated) && first.ws == webSocket && first.pull == pull
      requires End(entered).log == []
      modifies store.disk
      ensures old(store.disk.faults) <= store.disk.faults && ok == !round.exit.StoreError?
      ensures var kept := RoundSpec(old(store.disk.files), now, InUse(webSocket, pull), network, cancelled, round,
                                    store.disk.files, store.disk.faults != old(store.disk.faults));
              kept
      ensures var run := IsRunOf(Setting(), trace, first, store.disk.files, pc, round, InUse(webSocket, pull), network);
              run
    {
      ghost var before := store.disk.files;
      var channel := InUse(webSocket, pull);
      var scanned, records := store.Due(now, BATCH_SIZE);
      if !scanned {
        FailedScan(before, now, channel, network, cancelled);
        return false, Round(false, [], [], StoreError), entered, Gated;
      }
      ghost var n, exit, dirs;
      ok, n, exit, dirs := DeliverAll(records, channel, network, cancelled);
      round := Round(true, records, records[..n], exit);
      trace, pc := BatchDone(Setting(), entered, first, now, records, channel, network, cancelled, n, ok, exit, dirs,
                             store.disk.faults != old(store.disk.faults));
    }

    /** The loop over the scanned records, with its early exits: it deals with the first n, and
        passes through `dirs`. */
    method DeliverAll(records: seq<Record>, channel: Option<Channel>, network: Network, cancelled: nat -> bool)
      returns (ok: bool, ghost n: nat, ghost exit: Exit, ghost dirs: seq<Directory>)
      requires channel == InUse(webSocket, pull)
      modifies store.disk
      ensures n <= |records| && ok == !exit.StoreError? && EndsTruly(exit, n, |records|, channel, cancelled)
      ensures forall i :: 0 <= i < |dirs| - 1 ==> !cancelled(i)
      ensures IsChain(dirs, records, n, ok, channel, network, store.size)
      ensures dirs[0] == old(store.disk.files) && dirs[|dirs| - 1] == store.disk.files
      ensures old(store.disk.faults) <= store.disk.faults && (ok ==> store.disk.faults == old(store.disk.faults))
      ensures !ok ==> store.disk.faults > old(store.disk.faults) || records[n].recordId !in Listed(dirs[n])
    {
      n, ok, exit, dirs := 0, true, Finished, [store.disk.files];
      for i := 0 to |records|
        invariant n == i && ok && exit.Finished? && store.disk.faults == old(store.disk.faults)
        invariant IsChain(dirs, records, i, true, channel, network, store.size)
        invariant forall k :: 0 <= k < i ==> !cancelled(k)
        invariant dirs[0] == old(store.disk.files) && dirs[i] == store.disk.files
      {
        if cancelled(i) {
          exit := Exit.Cancelled;
          break;
        }
        if channel.None? {
          exit := NoSender;
          break;
        }
        ok := Deliver(records[i], network(channel.value, i));
        ChainOneMore(dirs, records, i, ok, channel, network, store.size, store.disk.files);
        dirs := dirs + [store.disk.files];
        if !ok {
          exit := StoreError;
          break;
        }
        n := i + 1;
      }
    }

    /** One delivery and the store operation that follows it. */
    method Deliver(r: Record, outcome: Outcome) returns (ok: bool)
      modifies store.disk
      ensures DeliverySpec(old(store.disk.files), r, outcome, store.size, ok, store.disk.files)
      ensures old(store.disk.faults) <= store.disk.faults && (ok ==> store.disk.faults == old(store.disk.faults))
      ensures !ok ==> store.disk.faults > old(store.disk.faults) || r.recordId !in Listed(old(store.disk.files))
    {
      if outcome.Failed? {
        var marked := store.MarkFailure(r.recordId, outcome.error, outcome.at);
        ok := marked.Marked?;
      } else {
        ok := store.Delete(r.recordId);
      }
    }

    /** The periodic loop: one round per tick, errors ignored.  With a sender, no cancellation and
        no disk fault, ticks that are close together and enough for all stored records attempt
        every record due at the first tick, none twice: it is gone, or waits for a retry at least
        4 s after that tick; all other records are as they were. */
    method Run(ticks: seq<Tick>) returns (ghost rounds: seq<Round>, ghost dirs: seq<Directory>, ghost faulty: seq<bool>)
      requires !sending
      modifies this`sending, store.disk
      ensures !sending && old(store.disk.faults) <= store.disk.faults
      ensures AreRoundsOf(ticks, InUse(webSocket, pull), rounds, dirs, faulty)
      ensures dirs[0] == old(store.disk.files) && dirs[|ticks|] == store.disk.files
      ensures store.disk.faults == old(store.disk.faults) <==> NoneSet(faulty)
      ensures Matched(old(store.disk.files)) && InUse(webSocket, pull).Some? && GoesWell(ticks)
              && store.disk.faults == old(store.disk.faults) ==>
                IsFair(Listed(old(store.disk.files)), Times(ticks), Batches(rounds), BATCH_SIZE, Listed(store.disk.files))
    {
      rounds, dirs, faulty := [], [store.disk.files], [];
      for k := 0 to |ticks|
        invariant !sending && old(store.disk.faults) <= store.disk.faults
        invariant AreRoundsOf(ticks[..k], InUse(webSocket, pull), rounds, dirs, faulty)
        invariant dirs[0] == old(store.disk.files) && dirs[k] == store.disk.files
        invariant store.disk.faults == old(store.disk.faults) <==> NoneSet(faulty)
      {
        ghost var faults := store.disk.faults;
        var ok;
        ghost var round, trace;
        ok, round, trace := DispatchOnce(ticks[k].now, ticks[k].network, ticks[k].cancelled);
        OneTickMore(ticks, k, InUse(webSocket, pull), rounds, dirs, faulty, round, store.disk.files, store.disk.faults != faults);
        OneFlagMore(faulty, store.disk.faults != faults);
        rounds, dirs, faulty := rounds + [round], dirs + [store.disk.files], faulty + [store.disk.faults != faults];
      }
      assert ticks[..|ticks|] == ticks;
      if Matched(old(store.disk.files)) && InUse(webSocket, pull).Some? && GoesWell(ticks)
         && store.disk.faults == old(store.disk.faults) {
        TicksAreFair(ticks, InUse(webSocket, pull).value, rounds, dirs, faulty);
      }
    }
  }

  // ----- the periodic loop -----

  /** One round per tick, each from where the one before left the directory. */
  ghost predicate AreRoundsOf(ticks: seq<Tick>, channel: Option<Channel>, rounds: seq<Round>, dirs: seq<Directory>, faulty: seq<bool>) {
    && |rounds| == |ticks| && |faulty| == |ticks| && |dirs| == |ticks| + 1
    && (forall k {:trigger rounds[k]} :: 0 <= k < |ticks| ==>
          RoundSpec(dirs[k], ticks[k].now, channel, ticks[k].network, ticks[k].cancelled, rounds[k], dirs[k + 1], faulty[k]))
  }

  predicate NoneSet(flags: seq<bool>) { forall k :: 0 <= k < |flags| ==> !flags[k] }

  lemma OneFlagMore(flags: seq<bool>, flag: bool)
    ensures NoneSet(flags + [flag]) <==> NoneSet(flags) && !flag
  {
    if NoneSet(flags + [flag]) {
      forall k | 0 <= k < |flags| ensures !flags[k] { assert (flags + [flag])[k] == flags[k]; }
      assert (flags + [flag])[|flags|] == flag;
    }
  }

  lemma OneTickMore(ticks: seq<Tick>, k: nat, channel: Option<Channel>, rounds: seq<Round>, dirs: seq<Directory>,
                    faulty: seq<bool>, round: Round, after: Directory, fault: bool)
    requires k < |ticks| && AreRoundsOf(ticks[..k], channel, rounds, dirs, faulty)
    requires RoundSpec(dirs[k], ticks[k].now, channel, ticks[k].network, ticks[k].cancelled, round, after, fault)
    ensures AreRoundsOf(ticks[..k + 1], channel, rounds + [round], dirs + [after], faulty + [fault])
  {
    var rounds', dirs', faulty', now := rounds + [round], dirs + [after], faulty + [fault], ticks[..k + 1];
    forall l | 0 <= l < k + 1
      ensures RoundSpec(dirs'[l], now[l].now, channel, now[l].network, now[l].cancelled, rounds'[l], dirs'[l + 1], faulty'[l])
    {
      if l < k {
        assert rounds'[l] == rounds[l] && dirs'[l] == dirs[l] && dirs'[l + 1] == dirs[l + 1] && faulty'[l] == faulty[l];
        assert now[l] == ticks[..k][l];
      }
    }
  }

  function Batches(rounds: seq<Round>): (batches: seq<seq<Record>>)
    ensures |batches| == |rounds| && forall k :: 0 <= k < |rounds| ==> batches[k] == rounds[k].due
  {
    seq(|rounds|, k requires 0 <= k < |rounds| => rounds[k].due)
  }

  function Listings(dirs: seq<Directory>): (listings: seq<Listing>)
    ensures |listings| == |dirs| && forall k :: 0 <= k < |dirs| ==> listings[k] == Listed(dirs[k])
  {
    seq(|dirs|, k requires 0 <= k < |dirs| => Listed(dirs[k]))
  }

  /** Ticks within 4 s of the first, nothing cancelled, and a clock that goes on. */
  ghost predicate GoesWell(ticks: seq<Tick>) {
    && TimesClose(Times(ticks))
    && (forall k, i :: 0 <= k < |ticks| && i >= 0 ==> !ticks[k].cancelled(i))
    && (forall k :: 0 <= k < |ticks| ==> ClockGoesOn(ticks[k].now, ticks[k].network))
  }

  lemma {:induction false} RoundsStayMatched(ticks: seq<Tick>, channel: Channel, rounds: seq<Round>, dirs: seq<Directory>, faulty: seq<bool>, k: nat)
    requires AreRoundsOf(ticks, Some(channel), rounds, dirs, faulty) && Matched(dirs[0]) && k <= |ticks|
    ensures Matched(dirs[k])
  {
    if k > 0 {
      RoundsStayMatched(ticks, channel, rounds, dirs, faulty, k - 1);
      assert RoundSpec(dirs[k - 1], ticks[k - 1].now, Some(channel), ticks[k - 1].network, ticks[k - 1].cancelled,
                       rounds[k - 1], dirs[k - 1 + 1], faulty[k - 1]);
    }
  }

  /** A round scans sixteen records; a due one is left out only if sixteen others were scanned. */
  lemma BatchIsSixteen(before: Directory, now: int, records: seq<Record>)
    requires Matched(before) && DueSpec(before, now, BATCH_SIZE, records)
    ensures |records| <= 16
    ensures forall id :: id in Listed(before) && IsDue(Listed(before)[id], now) && Listed(before)[id] !in records ==> |records| == 16
  {
    DueIsOldestDueRecords(before, now, BATCH_SIZE, records);
  }

  /** A round without fault or cancellation deals with its whole batch. */
  lemma RoundIsWhole(before: Directory, tick: Tick, channel: Channel, round: Round, after: Directory)
    requires RoundSpec(before, tick.now, Some(channel), tick.network, tick.cancelled, round, after, false)
    requires Matched(before) && (forall i :: i >= 0 ==> !tick.cancelled(i)) && ClockGoesOn(tick.now, tick.network)
    ensures IsDueBatch(Listed(before), tick.now, BATCH_SIZE, round.due)
    ensures Handled(Listed(before), tick.now, Ids(round.due), Listed(after))
  {
    assert ExitIsTrue(round, Some(channel), tick.cancelled);
    assert round.exit.Finished? && round.scanned;
    RoundIsHandled(Listed(before), tick.now, Some(channel), tick.network, round.due, Listed(after));
  }

  lemma TicksAreFair(ticks: seq<Tick>, channel: Channel, rounds: seq<Round>, dirs: seq<Directory>, faulty: seq<bool>)
    requires AreRoundsOf(ticks, Some(channel), rounds, dirs, faulty) && Matched(dirs[0]) && GoesWell(ticks)
    requires NoneSet(faulty)
    ensures IsFair(Listed(dirs[0]), Times(ticks), Batches(rounds), BATCH_SIZE, Listed(dirs[|ticks|]))
  {
    var listings, times, batches := Listings(dirs), Times(ticks), Batches(rounds);
    forall k | 0 <= k < |ticks|
      ensures IsDueBatch(listings[k], times[k], BATCH_SIZE, batches[k])
      ensures Handled(listings[k], times[k], Ids(batches[k]), listings[k + 1])
    {
      RoundsStayMatched(ticks, channel, rounds, dirs, faulty, k);
      assert RoundSpec(dirs[k], ticks[k].now, Some(channel), ticks[k].network, ticks[k].cancelled, rounds[k], dirs[k + 1], faulty[k]);
      RoundIsWhole(dirs[k], ticks[k], channel, rounds[k], dirs[k + 1]);
    }
    RoundsAreFair(listings, times, batches, BATCH_SIZE);
  }

  /** A round under way over a matched directory. */
  ghost predicate Progress(before: Listing, handled: seq<Record>, channel: Option<Channel>, network: Network, files: Directory) {
    && Matched(files)
    && (channel.Some? ==> DeliveredAs(before, handled, channel.value, network, Listed(files)))
    && (channel.None? ==> handled == [] && Listed(files) == before)
  }

  /** A failed delivery, and the mark that follows it. */
  lemma AfterMark(cfg: Config, offered: Trace, first: State, files: Directory, readAt: nat, before: Listing, matched: bool,
                  records: seq<Record>, i: nat, channel: Option<Channel>, network: Network, marked: MarkResult, after: Directory)
    returns (t: Trace)
    requires i < |records| && channel.Some? && network(channel.value, i).Failed? && channel == InUse(first.ws, first.pull)
    requires matched ==> IsSortedScan(records) && records[i].recordId in before
    requires OnCourse(cfg, offered, first, files, Batch(records[i..], readAt), before, matched, records, i, i, channel, network)
    requires MarkSpec(files, records[i].recordId, network(channel.value, i).error, network(channel.value, i).at, cfg.size, marked, after)
    ensures var pc := if marked.Marked? then Batch(records[i + 1..], readAt) else Leaving;
            OnCourse(cfg, t, first, after, pc, before, matched, records, if marked.Marked? then i + 1 else i, i + 1, channel, network)
    ensures matched ==> records[i].recordId in Listed(files)
  {
    var r, todo, outcome := records[i], records[i + 1..], network(channel.value, i);
    assert records[i..][0] == r && records[i..][1..] == todo;
    var via;
    t, via := Offering(cfg, offered, first, files, records[i..], readAt);
    t := Failing(cfg, t, first, files, r, via, todo, readAt);
    t := Marking(cfg, t, first, files, r, todo, readAt, outcome.error, outcome.at, marked, after);
    OneTryMore(End(offered).log, records, i, channel.value, network, via, End(t).log);
    if matched {
      TakeOneMore(records, i);
      NewIdInScan(records, i);
      MarkListing(files, r.recordId, outcome.error, outcome.at, cfg.size, marked, after);
      if marked.Marked? { DeliveredOneMore(before, records[..i], channel.value, network, Listed(files), r, Listed(after)); }
    }
  }

  /** An acknowledged delivery, and the delete that follows it. */
  lemma AfterDelete(cfg: Config, offered: Trace, first: State, files: Directory, readAt: nat, before: Listing, matched: bool,
                    records: seq<Record>, i: nat, channel: Option<Channel>, network: Network, ok: bool, after: Directory)
    returns (t: Trace)
    requires i < |records| && channel.Some? && network(channel.value, i).Acknowledged? && channel == InUse(first.ws, first.pull)
    requires matched ==> IsSortedScan(records) && records[i].recordId in before
    requires OnCourse(cfg, offered, first, files, Batch(records[i..], readAt), before, matched, records, i, i, channel, network)
    requires DeleteSpec(files, records[i].recordId, ok, after)
    ensures var pc := if ok then Batch(records[i + 1..], readAt) else Leaving;
            OnCourse(cfg, t, first, after, pc, before, matched, records, if ok then i + 1 else i, i + 1, channel, network)
  {
    var r, todo := records[i], records[i + 1..];
    assert records[i..][0] == r && records[i..][1..] == todo;
    var via, sentAt;
    t, via := Offering(cfg, offered, first, files, records[i..], readAt);
    t, sentAt := Acknowledging(cfg, t, first, files, r, via, todo, readAt);
    t := Deleting(cfg, t, first, files, r, via, todo, readAt, sentAt, ok, after);
    OneTryMore(End(offered).log, records, i, channel.value, network, via, End(t).log);
    if matched {
      TakeOneMore(records, i);
      NewIdInScan(records, i);
      DeleteListing(files, r.recordId, ok, after);
      if ok { DeliveredOneMore(before, records[..i], channel.value, network, Listed(files), r, Listed(after)); }
    }
  }

  /** A run that has come to `pc` with the first i records dealt with and the first `tries` tried. */
  ghost predicate OnCourse(cfg: Config, t: Trace, first: State, files: Directory, pc: Pc, before: Listing, matched: bool,
                           records: seq<Record>, i: nat, tries: nat, channel: Option<Channel>, network: Network)
    requires i <= |records|
  {
    && Reaches(cfg, t, first, files, pc)
    && (matched ==> Progress(before, records[..i], channel, network, files))
    && Tried(End(t).log, records, tries, channel, network)
  }

  lemma FailedScan(before: Directory, now: int, channel: Option<Channel>, network: Network, cancelled: nat -> bool)
    ensures RoundSpec(before, now, channel, network, cancelled, Round(false, [], [], StoreError), before, true)
  {
    if channel.Some? { NothingDelivered(Listed(before), channel.value, network); }
  }

  // ----- the loop as a chain of store operations -----

  /** A failed delivery is marked, an acknowledged one deleted. */
  ghost predicate DeliverySpec(dir: Directory, r: Record, outcome: Outcome, size: Record -> nat, ok: bool, after: Directory) {
    match outcome
    case Failed(error, at) => exists m :: MarkSpec(dir, r.recordId, error, at, size, m, after) && ok == m.Marked?
    case Acknowledged => DeleteSpec(dir, r.recordId, ok, after)
  }

  /** The first n deliveries succeeded in the store; unless ok, one more was tried and did not. */
  ghost predicate IsChain(dirs: seq<Directory>, records: seq<Record>, n: nat, ok: bool, channel: Option<Channel>,
                          network: Network, size: Record -> nat)
  {
    var tries := if ok then n else n + 1;
    && tries <= |records| && |dirs| == tries + 1 && (tries > 0 ==> channel.Some?)
    && forall i: nat :: i < tries ==> IsLink(dirs, records, n, i, channel, network, size)
  }

  ghost predicate IsLink(dirs: seq<Directory>, records: seq<Record>, n: nat, i: nat, channel: Option<Channel>,
                         network: Network, size: Record -> nat)
  {
    && i + 1 < |dirs| && i < |records| && channel.Some?
    && DeliverySpec(dirs[i], records[i], network(channel.value, i), size, i < n, dirs[i + 1])
  }

  lemma ChainOneMore(dirs: seq<Directory>, records: seq<Record>, n: nat, ok: bool, channel: Option<Channel>,
                     network: Network, size: Record -> nat, after: Directory)
    requires IsChain(dirs, records, n, true, channel, network, size) && n < |records| && channel.Some?
    requires DeliverySpec(dirs[n], records[n], network(channel.value, n), size, ok, after)
    ensures IsChain(dirs + [after], records, if ok then n + 1 else n, ok, channel, network, size)
  {
    var more, m := dirs + [after], if ok then n + 1 else n;
    forall i: nat | i < n + 1 ensures IsLink(more, records, m, i, channel, network, size) {
      if i < n {
        assert IsLink(dirs, records, n, i, channel, network, size);
        assert more[i] == dirs[i] && more[i + 1] == dirs[i + 1];
      }
    }
  }

  /** After the scan nothing is dealt with or tried yet. */
  lemma ScanStarts(cfg: Config, entered: Trace, first: State, files: Directory, now: int, records: seq<Record>,
                   channel: Option<Channel>, network: Network) returns (t: Trace, readAt: nat)
    requires Reaches(cfg, entered, first, files, Gated) && End(entered).log == [] && DueSpec(files, now, BATCH_SIZE, records)
    ensures OnCourse(cfg, t, first, files, Batch(records, readAt), Listed(files), Matched(files), records, 0, 0, channel, network)
    ensures Matched(files) ==>
              IsDueBatch(Listed(files), now, BATCH_SIZE, records) && forall r :: r in records ==> r.recordId in Listed(files)
  {
    t, readAt := Scanning(cfg, entered, first, files, now, records);
    assert End(t).log == [Read(0, records)];
    NothingTried(records, channel, network);
    if Matched(files) { DueIsOldestDueRecords(files, now, BATCH_SIZE, records); }
    if channel.Some? { NothingDelivered(Listed(files), channel.value, network); }
  }

  /** A link of the chain is three steps of the machine. */
  lemma LinkRuns(cfg: Config, t: Trace, first: State, dirs: seq<Directory>, readAt: nat, before: Listing, matched: bool,
                 records: seq<Record>, n: nat, i: nat, channel: Option<Channel>, network: Network) returns (t': Trace)
    requires i < |records| && i + 1 < |dirs| && channel.Some? && channel == InUse(first.ws, first.pull)
    requires matched ==> IsSortedScan(records) && records[i].recordId in before
    requires OnCourse(cfg, t, first, dirs[i], Batch(records[i..], readAt), before, matched, records, i, i, channel, network)
    requires IsLink(dirs, records, n, i, channel, network, cfg.size)
    ensures var pc := if i < n then Batch(records[i + 1..], readAt) else Leaving;
            OnCourse(cfg, t', first, dirs[i + 1], pc, before, matched, records, if i < n then i + 1 else i, i + 1, channel, network)
    ensures matched ==> records[i].recordId in Listed(dirs[i])
  {
    var outcome := network(channel.value, i);
    if outcome.Failed? {
      var m :| MarkSpec(dirs[i], records[i].recordId, outcome.error, outcome.at, cfg.size, m, dirs[i + 1]) && (i < n) == m.Marked?;
      t' := AfterMark(cfg, t, first, dirs[i], readAt, before, matched, records, i, channel, network, m, dirs[i + 1]);
    } else {
      t' := AfterDelete(cfg, t, first, dirs[i], readAt, before, matched, records, i, channel, network, i < n, dirs[i + 1]);
    }
  }

  lemma {:induction false} ChainRuns(cfg: Config, t: Trace, first: State, dirs: seq<Directory>, readAt: nat, before: Listing,
                                     matched: bool, records: seq<Record>, n: nat, i: nat, channel: Option<Channel>, network: Network)
    returns (t': Trace)
    requires i <= n && IsChain(dirs, records, n, true, channel, network, cfg.size) && channel == InUse(first.ws, first.pull)
    requires matched ==> IsSortedScan(records) && forall r :: r in records ==> r.recordId in before
    requires OnCourse(cfg, t, first, dirs[0], Batch(records, readAt), before, matched, records, 0, 0, channel, network)
    ensures OnCourse(cfg, t', first, dirs[i], Batch(records[i..], readAt), before, matched, records, i, i, channel, network)
  {
    assert records[0..] == records;
    t' := t;
    if i > 0 {
      var k := i - 1;
      t' := ChainRuns(cfg, t, first, dirs, readAt, before, matched, records, n, k, channel, network);
      assert IsLink(dirs, records, n, k, channel, network, cfg.size) && records[k] in records;
      t' := LinkRuns(cfg, t', first, dirs, readAt, before, matched, records, n, k, channel, network);
    }
  }

  /** A run of the machine past the gate that did what the round says. */
  ghost predicate IsRunOf(cfg: Config, t: Trace, first: State, files: Directory, pc: Pc, round: Round,
                          channel: Option<Channel>, network: Network)
  {
    && Reaches(cfg, t, first, files, pc) && (pc.Gated? || pc.Batch? || pc.Leaving?)
    && (if round.scanned then Tried(End(t).log, round.due, Tries(round), channel, network) else End(t).log == [])
  }

  /** The whole batch as a run: scan, then the chain. */
  lemma BatchRuns(cfg: Config, entered: Trace, first: State, now: int, records: seq<Record>, channel: Option<Channel>,
                  network: Network, n: nat, ok: bool, dirs: seq<Directory>) returns (t: Trace, pc: Pc)
    requires IsChain(dirs, records, n, ok, channel, network, cfg.size) && channel == InUse(first.ws, first.pull)
    requires Reaches(cfg, entered, first, dirs[0], Gated) && End(entered).log == [] && DueSpec(dirs[0], now, BATCH_SIZE, records)
    ensures Reaches(cfg, t, first, dirs[|dirs| - 1], pc) && (pc.Batch? || pc.Leaving?)
    ensures Tried(End(t).log, records, |dirs| - 1, channel, network)
    ensures Matched(dirs[0]) ==>
              && IsDueBatch(Listed(dirs[0]), now, BATCH_SIZE, records)
              && Progress(Listed(dirs[0]), records[..n], channel, network, dirs[|dirs| - 1])
              && (!ok ==> records[n].recordId in Listed(dirs[n]))
  {
    var readAt;
    t, readAt := ScanStarts(cfg, entered, first, dirs[0], now, records, channel, network);
    ChainPrefix(dirs, records, n, ok, channel, network, cfg.size);
    t := ChainRuns(cfg, t, first, dirs[..n + 1], readAt, Listed(dirs[0]), Matched(dirs[0]), records, n, n, channel, network);
    pc := Batch(records[n..], readAt);
    if !ok {
      t, pc := LastLinkRuns(cfg, t, first, dirs, readAt, Listed(dirs[0]), Matched(dirs[0]), records, n, channel, network);
    }
  }

  /** What a scanned batch and the chain of its deliveries come to. */
  lemma BatchDone(cfg: Config, entered: Trace, first: State, now: int, records: seq<Record>, channel: Option<Channel>,
                  network: Network, cancelled: nat -> bool, n: nat, ok: bool, exit: Exit, dirs: seq<Directory>, faulty: bool)
    returns (t: Trace, pc: Pc)
    requires IsChain(dirs, records, n, ok, channel, network, cfg.size) && channel == InUse(first.ws, first.pull)
    requires Reaches(cfg, entered, first, dirs[0], Gated) && End(entered).log == [] && DueSpec(dirs[0], now, BATCH_SIZE, records)
    requires ok == !exit.StoreError? && EndsTruly(exit, n, |records|, channel, cancelled)
    requires forall i :: 0 <= i < |dirs| - 1 ==> !cancelled(i)
    requires (faulty ==> !ok) && (!ok ==> faulty || records[n].recordId !in Listed(dirs[n]))
    ensures RoundSpec(dirs[0], now, channel, network, cancelled, Round(true, records, records[..n], exit), dirs[|dirs| - 1], faulty)
    ensures IsRunOf(cfg, t, first, dirs[|dirs| - 1], pc, Round(true, records, records[..n], exit), channel, network)
  {
    t, pc := BatchRuns(cfg, entered, first, now, records, channel, network, n, ok, dirs);
    RoundDone(dirs[0], now, channel, network, cancelled, Round(true, records, records[..n], exit), n, dirs[|dirs| - 1], faulty);
  }

  /** The delivery that a store error hit. */
  lemma LastLinkRuns(cfg: Config, t: Trace, first: State, dirs: seq<Directory>, readAt: nat, before: Listing, matched: bool,
                     records: seq<Record>, n: nat, channel: Option<Channel>, network: Network) returns (t': Trace, pc: Pc)
    requires IsChain(dirs, records, n, false, channel, network, cfg.size) && channel == InUse(first.ws, first.pull)
    requires matched ==> IsSortedScan(records) && forall r :: r in records ==> r.recordId in before
    requires OnCourse(cfg, t, first, dirs[n], Batch(records[n..], readAt), before, matched, records, n, n, channel, network)
    ensures pc == Leaving && OnCourse(cfg, t', first, dirs[n + 1], pc, before, matched, records, n, n + 1, channel, network)
    ensures matched ==> records[n].recordId in Listed(dirs[n])
  {
    assert IsLink(dirs, records, n, n, channel, network, cfg.size) && records[n] in records;
    t' := LinkRuns(cfg, t, first, dirs, readAt, before, matched, records, n, n, channel, network);
    pc := Leaving;
  }

  lemma ChainPrefix(dirs: seq<Directory>, records: seq<Record>, n: nat, ok: bool, channel: Option<Channel>,
                    network: Network, size: Record -> nat)
    requires IsChain(dirs, records, n, ok, channel, network, size)
    ensures n + 1 <= |dirs| && IsChain(dirs[..n + 1], records, n, true, channel, network, size)
  {
    var part := dirs[..n + 1];
    forall i: nat | i < n ensures IsLink(part, records, n, i, channel, network, size) {
      assert IsLink(dirs, records, n, i, channel, network, size);
    }
  }

  lemma RoundDone(before: Directory, now: int, channel: Option<Channel>, network: Network, cancelled: nat -> bool,
                  round: Round, n: nat, after: Directory, faulty: bool)
    requires round.scanned && n <= |round.due| && round.handled == round.due[..n] && DueSpec(before, now, BATCH_SIZE, round.due)
    requires EndsTruly(round.exit, n, |round.due|, channel, cancelled) && (faulty ==> round.exit.StoreError?)
    requires forall i :: 0 <= i < Tries(round) ==> !cancelled(i)
    requires Matched(before) ==>
               && IsDueBatch(Listed(before), now, BATCH_SIZE, round.due) && (round.exit.StoreError? ==> faulty)
               && Progress(Listed(before), round.handled, channel, network, after)
    ensures RoundSpec(before, now, channel, network, cancelled, round, after, faulty)
  {
  }

  lemma NothingDelivered(before: Listing, channel: Channel, network: Network)
    ensures DeliveredAs(before, [], channel, network, before)
  {
  }

  lemma TakeOneMore(records: seq<Record>, i: nat)
    requires i < |records|
    ensures records[..i + 1] == records[..i] + [records[i]] && records[i] in records
  {
  }

  lemma NewIdInScan(records: seq<Record>, i: nat)
    requires IsSortedScan(records) && i < |records|
    ensures records[i].recordId !in Ids(records[..i])
  {
  }

  // ----- fairness -----

  /** What remains after the given records were handled at or after `now`: each is gone, or kept
      for a retry at least 4 s later; all other records are untouched. */
  ghost predicate Handled(before: Listing, now: int, handled: set<string>, after: Listing) {
    && (forall id :: id in after ==> id in before)
    && (forall id :: id in before && id !in handled ==> id in after && after[id] == before[id])
    && (forall id :: id in after && id in handled ==> after[id].nextRetryAt >= now + 4 * SECOND)
  }

  lemma RoundIsHandled(before: Listing, now: int, channel: Option<Channel>, network: Network, records: seq<Record>, after: Listing)
    requires channel.Some? ==> DeliveredAs(before, records, channel.value, network, after)
    requires channel.None? ==> records == [] && after == before
    requires ClockGoesOn(now, network)
    ensures Handled(before, now, Ids(records), after)
  {
    forall id | id in after && id in Ids(records) ensures after[id].nextRetryAt >= now + 4 * SECOND {
      var i :| 0 <= i < |records| && records[i].recordId == id;
      assert IsOutcome(before, id, network(channel.value, i), after);
      assert RetryDelay(before[id].attempts + 1) >= 5 * SECOND;
    }
  }

  /** Every record due at the first time was attempted if the rounds could hold all records, no
      record was attempted twice, and what was attempted is gone or waits. */
  ghost predicate IsFair(before: Listing, times: seq<int>, batches: seq<seq<Record>>, limit: nat, after: Listing)
    requires times != [] && |batches| == |times|
  {
    && Handled(before, times[0], Attempted(batches, |times|), after)
    && (forall a, b :: 0 <= a < b < |batches| ==> Ids(batches[a]) !! Ids(batches[b]))
    && (limit * |times| >= |before| ==>
          forall id :: id in before && IsDue(before[id], times[0]) ==> id in Attempted(batches, |times|))
  }

  /** Consecutive complete rounds without saves in between: listing, scan time and batch of each. */
  ghost predicate AreRounds(listings: seq<Listing>, times: seq<int>, batches: seq<seq<Record>>, limit: nat) {
    && |listings| == |times| + 1 && |batches| == |times|
    && (forall i {:trigger batches[i]} :: 0 <= i < |times| ==>
          && IsDueBatch(listings[i], times[i], limit, batches[i])
          && Handled(listings[i], times[i], Ids(batches[i]), listings[i + 1]))
  }

  function Attempted(batches: seq<seq<Record>>, n: nat): set<string>
    requires n <= |batches|
  {
    if n == 0 then {} else Attempted(batches, n - 1) + Ids(batches[n - 1])
  }

  ghost predicate TimesClose(times: seq<int>) {
    times != [] && times[0] >= 0 && forall i :: 0 <= i < |times| ==> times[0] <= times[i] < times[0] + 4 * SECOND
  }

  /** After n rounds: what was attempted is gone or not due any more, the rest is as it was. */
  lemma {:induction false} RoundsProgress(listings: seq<Listing>, times: seq<int>, batches: seq<seq<Record>>, limit: nat, n: nat)
    requires AreRounds(listings, times, batches, limit) && TimesClose(times) && n <= |times|
    ensures Handled(listings[0], times[0], Attempted(batches, n), listings[n])
  {
    if n > 0 {
      var i := n - 1;
      RoundsProgress(listings, times, batches, limit, i);
      assert Handled(listings[i], times[i], Ids(batches[i]), listings[i + 1]);
    }
  }

  /** No record is attempted twice. */
  lemma NoRecordTwice(listings: seq<Listing>, times: seq<int>, batches: seq<seq<Record>>, limit: nat, n: nat)
    requires AreRounds(listings, times, batches, limit) && TimesClose(times) && n < |times|
    ensures Attempted(batches, n) !! Ids(batches[n])
    ensures Ids(batches[n]) <= listings[0].Keys
  {
    RoundsProgress(listings, times, batches, limit, n);
    assert IsDueBatch(listings[n], times[n], limit, batches[n]);
  }

  /** A round that passes over an initially due, unattempted record is full. */
  lemma StarvedRoundIsFull(listings: seq<Listing>, times: seq<int>, batches: seq<seq<Record>>, limit: nat, i: nat, id: string)
    requires AreRounds(listings, times, batches, limit) && TimesClose(times) && i < |times|
    requires id in listings[0] && listings[0][id].recordId == id && IsDue(listings[0][id], times[0])
    requires id !in Attempted(batches, i) && id !in Ids(batches[i])
    ensures |Ids(batches[i])| == limit
  {
    RoundsProgress(listings, times, batches, limit, i);
    assert IsDueBatch(listings[i], times[i], limit, batches[i]);
    var r, batch := listings[i][id], batches[i];
    assert r == listings[0][id] && IsDue(r, times[i]);
    assert r in batch ==> r.recordId in Ids(batch);
    DistinctIds(batch);
  }

  /** So while such a record waits, the number of attempted records grows by a full batch. */
  lemma {:induction false} StarvationFillsRounds(listings: seq<Listing>, times: seq<int>, batches: seq<seq<Record>>,
                                                 limit: nat, n: nat, id: string)
    requires AreRounds(listings, times, batches, limit) && TimesClose(times) && n <= |times|
    requires id in listings[0] && listings[0][id].recordId == id && IsDue(listings[0][id], times[0])
    requires id !in Attempted(batches, n)
    ensures |Attempted(batches, n)| == limit * n
    ensures Attempted(batches, n) <= listings[0].Keys - {id}
  {
    if n > 0 {
      var i := n - 1;
      var earlier, now := Attempted(batches, i), Ids(batches[i]);
      StarvationFillsRounds(listings, times, batches, limit, i, id);
      NoRecordTwice(listings, times, batches, limit, i);
      StarvedRoundIsFull(listings, times, batches, limit, i, id);
      OneFullBatchMore(earlier, now, limit, i);
    }
  }

  lemma OneFullBatchMore(earlier: set<string>, now: set<string>, limit: nat, i: nat)
    requires |earlier| == limit * i && |now| == limit && earlier !! now
    ensures |earlier + now| == limit * (i + 1)
  {
  }

  /** Bounded-round fairness: with no saves in between, as many full rounds as it takes to hold
      all stored records, all scanning within 4 s of the first, attempt every record that was due
      at the start. */
  lemma EveryDueRecordIsAttempted(listings: seq<Listing>, times: seq<int>, batches: seq<seq<Record>>, limit: nat, id: string)
    requires AreRounds(listings, times, batches, limit) && TimesClose(times)
    requires limit * |times| >= |listings[0]|
    requires forall k :: k in listings[0] ==> listings[0][k].recordId == k
    requires id in listings[0] && IsDue(listings[0][id], times[0])
    ensures id in Attempted(batches, |times|)
  {
    if id !in Attempted(batches, |times|) {
      StarvationFillsRounds(listings, times, batches, limit, |times|, id);
      SubsetSize(Attempted(batches, |times|), listings[0].Keys - {id});
    }
  }

  lemma {:induction false} AttemptedHasBatch(batches: seq<seq<Record>>, a: nat, n: nat)
    requires a < n <= |batches|
    ensures Ids(batches[a]) <= Attempted(batches, n)
  {
    if a < n - 1 { AttemptedHasBatch(batches, a, n - 1); }
  }

  lemma RoundsAreFair(listings: seq<Listing>, times: seq<int>, batches: seq<seq<Record>>, limit: nat)
    requires AreRounds(listings, times, batches, limit) && TimesClose(times)
    requires forall k :: k in listings[0] ==> listings[0][k].recordId == k
    ensures IsFair(listings[0], times, batches, limit, listings[|times|])
  {
    RoundsProgress(listings, times, batches, limit, |times|);
    forall a, b | 0 <= a < b < |batches| ensures Ids(batches[a]) !! Ids(batches[b]) {
      AttemptedHasBatch(batches, a, b);
      NoRecordTwice(listings, times, batches, limit, b);
    }
    if limit * |times| >= |listings[0]| {
      forall id | id in listings[0] && IsDue(listings[0][id], times[0]) ensures id in Attempted(batches, |times|) {
        EveryDueRecordIsAttempted(listings, times, batches, limit, id);
      }
    }
  }
}
