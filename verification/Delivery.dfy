/** The dispatcher and the WebSocket connections together: a delivery over a connection is a
    message with its own reply channel, and the dispatcher sees success exactly when
    sendOutboundWait returns it. */
module Delivery {
  import opened Records
  import D = Dispatcher
  import O = Outbound

  datatype State = State(d: D.State, conns: map<nat, O.Conn>)

  datatype Step =
    | OnDispatcher(step: D.Step)
    | OnConnection(c: nat, wire: O.Step)
    | Connect(c: nat, capacity: nat)

  /** Dispatcher deliveries own the even tickets of a connection, all other senders (hello,
      heartbeat, acks, errors) the odd ones. */
  function TicketOf(via: D.Via): nat
    requires via.WebSocket?
  {
    2 * via.ticket
  }

  function NewConn(capacity: nat): O.Conn {
    O.Conn(capacity, false, [], O.Idle, map[], map[], [], [], [], [], false)
  }

  ghost predicate Init(s: State) { D.Init(s.d) && s.d.ws.None? && s.conns == map[] }

  /** What a dispatcher step does to, and requires of, the connections. */
  ghost predicate ConnectionsFollow(s: State, step: D.Step, s': State) {
    if step.StartSend? && D.Sender(s.d).Some? && D.Sender(s.d).value.WebSocket? then
      var via := D.Sender(s.d).value;
      && via.conn in s.conns && via.conn in s'.conns && step.t in s.d.threads && s.d.threads[step.t].Batch?
      && s.d.threads[step.t].todo != []
      && s'.conns == s.conns[via.conn := s'.conns[via.conn]]
      && O.Next(s.conns[via.conn], O.Offer(TicketOf(via), s.d.threads[step.t].todo[0].envelope, true), s'.conns[via.conn])
    else if step.EndSend? && step.t in s.d.threads && s.d.threads[step.t].Sending?
            && s.d.threads[step.t].via.WebSocket? then
      var via := s.d.threads[step.t].via;
      && s'.conns == s.conns && via.conn in s.conns && TicketOf(via) in s.conns[via.conn].waiters
      && s.conns[via.conn].waiters[TicketOf(via)].Returned?
      && s.conns[via.conn].waiters[TicketOf(via)].ok == step.ok
    else
      s'.conns == s.conns && (step.SetWebSocket? && step.conn.Some? ==> step.conn.value in s.conns)
  }

  ghost predicate Next(cfg: D.Config, s: State, step: Step, s': State) {
    match step
    case OnDispatcher(ds) => D.Next(cfg, s.d, ds, s'.d) && ConnectionsFollow(s, ds, s')
    case OnConnection(c, wire) =>
      && s'.d == s.d && c in s.conns && c in s'.conns && s'.conns == s.conns[c := s'.conns[c]]
      && O.Next(s.conns[c], wire, s'.conns[c]) && (wire.Offer? ==> wire.ticket % 2 == 1)
    case Connect(c, capacity) =>
      s'.d == s.d && c !in s.conns && capacity > 0 && s'.conns == s.conns[c := NewConn(capacity)]
  }

  // ----- invariant -----

  /** The connection has a waiter for this delivery that asked for confirmation. */
  ghost predicate IsWaitedFor(conns: map<nat, O.Conn>, via: D.Via, rec: Record)
    requires via.WebSocket?
  {
    && via.conn in conns && TicketOf(via) in conns[via.conn].waiters
    && var w := conns[via.conn].waiters[TicketOf(via)];
       w.env == rec.envelope && (w.Awaiting? || w.confirm)
  }

  ghost predicate IsOnWire(conns: map<nat, O.Conn>, via: D.Via, rec: Record)
    requires via.WebSocket?
  {
    via.conn in conns && O.IsWritten(conns[via.conn], TicketOf(via), rec.envelope)
  }

  ghost predicate Inv(s: State) { D.Inv(s.d) && Linked(s) }

  /** Connections and dispatcher agree about the deliveries in flight and those confirmed. */
  ghost predicate Linked(s: State) {
    && ConnectionsOk(s.conns, |s.d.log|)
    && (s.d.ws.Some? ==> s.d.ws.value in s.conns)
    && InFlight(s.conns, s.d.threads)
    && OnWire(s.conns, s.d.log)
  }

  ghost predicate ConnectionsOk(conns: map<nat, O.Conn>, used: nat) {
    && (forall c :: c in conns ==> O.Inv(conns[c]))
    && (forall c, t :: c in conns && t in conns[c].waiters && t % 2 == 0 ==> t < 2 * used)
  }

  ghost predicate InFlight(conns: map<nat, O.Conn>, threads: map<nat, D.Pc>) {
    forall t :: t in threads && threads[t].Sending? && threads[t].via.WebSocket? ==>
      IsWaitedFor(conns, threads[t].via, threads[t].rec)
  }

  ghost predicate OnWire(conns: map<nat, O.Conn>, log: seq<D.Event>) {
    forall i :: 0 <= i < |log| && log[i].SendSucceeded? && log[i].via.WebSocket? ==>
      IsOnWire(conns, log[i].via, log[i].rec)
  }

  /** A connection only moves forward: waiters keep their message and confirmation mode, and
      what is written stays written. */
  ghost predicate Evolves(c: O.Conn, c': O.Conn) {
    && c.wire <= c'.wire
    && (forall t :: t in c.waiters ==>
          && t in c'.waiters && c'.waiters[t].env == c.waiters[t].env
          && (c.waiters[t].Awaiting? || c.waiters[t].confirm ==> c'.waiters[t].Awaiting? || c'.waiters[t].confirm))
  }

  lemma OneEvolves(conns: map<nat, O.Conn>, conns': map<nat, O.Conn>, c: nat, threads: map<nat, D.Pc>, log: seq<D.Event>)
    requires c in conns' && conns' == conns[c := conns'[c]] && (c in conns ==> Evolves(conns[c], conns'[c]))
    ensures InFlight(conns, threads) ==> InFlight(conns', threads)
    ensures OnWire(conns, log) ==> OnWire(conns', log)
  {
  }

  lemma InitInv(s: State)
    requires Init(s)
    ensures Inv(s)
  {
  }

  lemma ConnectionStepEvolves(c: O.Conn, wire: O.Step, c': O.Conn)
    requires O.Next(c, wire, c')
    ensures Evolves(c, c')
    ensures forall t :: t in c'.waiters && t !in c.waiters ==> wire.Offer? && t == wire.ticket
  {
  }

  lemma ConnectionStepLinked(cfg: D.Config, s: State, step: Step, s': State)
    requires Linked(s) && Next(cfg, s, step, s') && step.OnConnection?
    ensures Linked(s')
  {
    ConnectionStepEvolves(s.conns[step.c], step.wire, s'.conns[step.c]);
    O.InvStep(s.conns[step.c], step.wire, s'.conns[step.c]);
    OneEvolves(s.conns, s'.conns, step.c, s.d.threads, s.d.log);
  }

  lemma ConnectLinked(cfg: D.Config, s: State, step: Step, s': State)
    requires Linked(s) && Next(cfg, s, step, s') && step.Connect?
    ensures Linked(s')
  {
    O.InitInv(NewConn(step.capacity));
    OneEvolves(s.conns, s'.conns, step.c, s.d.threads, s.d.log);
  }

  /** A dispatcher step only adds an event, and a success event only for a confirmed delivery. */
  lemma NewSuccessIsWritten(cfg: D.Config, s: State, ds: D.Step, s': State, i: nat)
    requires Linked(s) && Next(cfg, s, OnDispatcher(ds), s')
    requires |s.d.log| <= i < |s'.d.log| && s'.d.log[i].SendSucceeded? && s'.d.log[i].via.WebSocket?
    ensures IsOnWire(s.conns, s'.d.log[i].via, s'.d.log[i].rec) && ds.EndSend?
  {
    var p := i - |s.d.log|;
    assert s'.d.log[i] == D.NewEvents(s.d, ds)[p];
    D.SaveEventsShape(s.d, ds, p);
    var pc := s.d.threads[ds.t];
    assert IsWaitedFor(s.conns, pc.via, pc.rec);
    assert O.Confirmed(s.conns[pc.via.conn]);
  }

  lemma StartSendLinked(cfg: D.Config, s: State, ds: D.Step, s': State)
    requires Linked(s) && Next(cfg, s, OnDispatcher(ds), s') && ds.StartSend?
    ensures Linked(s')
  {
    var via := D.Sender(s.d).value;
    if via.WebSocket? {
      var wire := O.Offer(TicketOf(via), s.d.threads[ds.t].todo[0].envelope, true);
      ConnectionStepEvolves(s.conns[via.conn], wire, s'.conns[via.conn]);
      O.InvStep(s.conns[via.conn], wire, s'.conns[via.conn]);
      OneEvolves(s.conns, s'.conns, via.conn, s.d.threads, s.d.log);
    }
    assert |s'.d.log| == |s.d.log| + 1 && s'.d.log[|s.d.log|].SendStarted?;
    assert forall i :: 0 <= i < |s.d.log| ==> s'.d.log[i] == s.d.log[i];
  }

  lemma OtherStepLinked(cfg: D.Config, s: State, ds: D.Step, s': State)
    requires Linked(s) && Next(cfg, s, OnDispatcher(ds), s') && !ds.StartSend?
    ensures Linked(s')
  {
    assert s'.conns == s.conns && |s'.d.log| >= |s.d.log|;
    forall i | 0 <= i < |s'.d.log| && s'.d.log[i].SendSucceeded? && s'.d.log[i].via.WebSocket?
      ensures IsOnWire(s'.conns, s'.d.log[i].via, s'.d.log[i].rec)
    {
      if i < |s.d.log| {
        assert s'.d.log[i] == s.d.log[i];
      } else {
        NewSuccessIsWritten(cfg, s, ds, s', i);
      }
    }
  }

  lemma LinkedStep(cfg: D.Config, s: State, step: Step, s': State)
    requires Linked(s) && Next(cfg, s, step, s')
    ensures Linked(s')
  {
    match step
    case OnConnection(_, _) => ConnectionStepLinked(cfg, s, step, s');
    case Connect(_, _) => ConnectLinked(cfg, s, step, s');
    case OnDispatcher(ds) =>
      if ds.StartSend? { StartSendLinked(cfg, s, ds, s'); } else { OtherStepLinked(cfg, s, ds, s'); }
  }

  lemma InvStep(cfg: D.Config, s: State, step: Step, s': State)
    requires Inv(s) && Next(cfg, s, step, s')
    ensures Inv(s')
  {
    LinkedStep(cfg, s, step, s');
    if step.OnDispatcher? { D.InvStep(cfg, s.d, step.step, s'.d); }
  }

  ghost predicate IsRun(cfg: D.Config, states: seq<State>, steps: seq<Step>) {
    && |states| == |steps| + 1 && Init(states[0])
    && forall i {:trigger steps[i]} :: 0 <= i < |steps| ==> Next(cfg, states[i], steps[i], states[i + 1])
  }

  lemma {:induction false} RunInv(cfg: D.Config, states: seq<State>, steps: seq<Step>, n: nat)
    requires IsRun(cfg, states, steps) && n < |states|
    ensures Inv(states[n])
  {
    if n == 0 {
      InitInv(states[0]);
    } else {
      var i := n - 1;
      RunInv(cfg, states, steps, i);
      var s, step, s' := states[i], steps[i], states[i + 1];
      InvStep(cfg, s, step, s');
    }
  }

  /** At-least-once delivery: whenever a record was deleted after a WebSocket delivery, its
      envelope had been written to that connection, in every interleaving of dispatcher threads,
      senders, write loops, cancellations, reconnects and restarts. */
  lemma DeletedOverWebSocketWasWritten(cfg: D.Config, states: seq<State>, steps: seq<Step>, n: nat, j: nat)
    requires IsRun(cfg, states, steps) && n < |states|
    requires j < |states[n].d.log| && states[n].d.log[j].Deleted? && states[n].d.log[j].via.WebSocket?
    ensures IsOnWire(states[n].conns, states[n].d.log[j].via, states[n].d.log[j].rec)
  {
    RunInv(cfg, states, steps, n);
    var s := states[n];
    var e := s.d.log[j];
    assert D.DeleteIsJustified(s.d.log, j);
    assert s.d.log[e.sentAt] == D.SendSucceeded(e.thread, e.rec, e.via);
  }

  /** The ticket a delivery needs is always free, so no delivery is blocked by the bookkeeping. */
  lemma TicketIsFree(cfg: D.Config, states: seq<State>, steps: seq<Step>, n: nat)
    requires IsRun(cfg, states, steps) && n < |states|
    requires D.Sender(states[n].d).Some? && D.Sender(states[n].d).value.WebSocket?
    ensures var via := D.Sender(states[n].d).value;
            via.conn in states[n].conns && TicketOf(via) !in states[n].conns[via.conn].waiters
  {
    RunInv(cfg, states, steps, n);
    SenderTicketIsFree(states[n]);
  }

  lemma SenderTicketIsFree(s: State)
    requires Linked(s) && D.Sender(s.d).Some? && D.Sender(s.d).value.WebSocket?
    ensures var via := D.Sender(s.d).value; via.conn in s.conns && TicketOf(via) !in s.conns[via.conn].waiters
  {
  }
}
