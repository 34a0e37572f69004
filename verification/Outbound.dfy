/** internal/transport/ws_client.go, outbound half: senders put messages into a bounded channel,
    one write loop takes them out and writes them to the connection, and a sender that asked for
    confirmation waits for the write loop's verdict or for cancellation. */
module Outbound {
  import opened Protocol

  /** A message in the channel; `ticket` identifies the sender's one-slot reply channel. */
  datatype Msg = Msg(ticket: nat, env: Envelope, confirm: bool)

  datatype Waiter =
    | Offering(env: Envelope, confirm: bool)
    | Awaiting(env: Envelope)
    | Returned(env: Envelope, ok: bool, confirm: bool)

  datatype Writer =
    | Idle
    | Holding(msg: Msg)
    | Wrote(msg: Msg)
    | Refused(msg: Msg, stop: bool)
    | Stopped

  /** One connection.  `accepted` lists everything that ever entered the channel, in order, and
      `finished` what the write loop is done with and whether it reported success.  `wire` is what
      the connection took, `failed` what could not be encoded or written, and `broken` tells that a
      write failed: these three change by the writes themselves, not by what is reported. */
  datatype Conn = Conn(
    capacity: nat,
    cancelled: bool,
    queue: seq<Msg>,
    writer: Writer,
    replies: map<nat, bool>,
    waiters: map<nat, Waiter>,
    accepted: seq<Msg>,
    finished: seq<(Msg, bool)>,
    wire: seq<Msg>,
    failed: seq<Msg>,
    broken: bool)

  datatype Step =
    | Offer(ticket: nat, env: Envelope, confirm: bool)
    | Accept(ticket: nat)
    | GiveUp(ticket: nat)
    | Receive(ticket: nat)
    | Take
    | MarshalFails
    | WriteSucceeds
    | WriteFails
    | Complete
    | WriterStops
    | Cancel

  predicate Init(c: Conn) {
    && c.capacity > 0 && !c.cancelled && c.queue == [] && c.writer == Idle
    && c.replies == map[] && c.waiters == map[] && c.accepted == [] && c.finished == []
    && c.wire == [] && c.failed == [] && !c.broken
  }

  /** The non-blocking send into the one-slot reply channel. */
  function Reply(c: Conn, msg: Msg, ok: bool): Conn {
    if msg.confirm && msg.ticket !in c.replies then c.(replies := c.replies[msg.ticket := ok]) else c
  }

  ghost predicate Next(c: Conn, step: Step, c': Conn) {
    match step
    case Offer(t, env, confirm) => // sendOutbound or sendOutboundWait is called
      t !in c.waiters && c' == c.(waiters := c.waiters[t := Offering(env, confirm)])
    case Accept(t) => // there is room in the channel
      && t in c.waiters && c.waiters[t].Offering? && |c.queue| < c.capacity
      && var w := c.waiters[t];
         var msg := Msg(t, w.env, w.confirm);
         c' == c.(queue := c.queue + [msg], accepted := c.accepted + [msg],
                  waiters := c.waiters[t := if w.confirm then Awaiting(w.env) else Returned(w.env, true, false)])
    case GiveUp(t) => // the context is done; allowed also when the other select case is ready
      && c.cancelled && t in c.waiters && (c.waiters[t].Offering? || c.waiters[t].Awaiting?)
      && c' == c.(waiters := c.waiters[t := Returned(c.waiters[t].env, false,
                                                     c.waiters[t].Awaiting? || c.waiters[t].confirm)])
    case Receive(t) =>
      && t in c.waiters && c.waiters[t].Awaiting? && t in c.replies
      && c' == c.(waiters := c.waiters[t := Returned(c.waiters[t].env, c.replies[t], true)])
    case Take =>
      && c.writer.Idle? && c.queue != []
      && c' == c.(writer := Holding(c.queue[0]), queue := c.queue[1..])
    case MarshalFails =>
      c.writer.Holding? && c' == c.(writer := Refused(c.writer.msg, false), failed := c.failed + [c.writer.msg])
    case WriteSucceeds =>
      c.writer.Holding? && c' == c.(writer := Wrote(c.writer.msg), wire := c.wire + [c.writer.msg])
    case WriteFails =>
      && c.writer.Holding?
      && c' == c.(writer := Refused(c.writer.msg, true), failed := c.failed + [c.writer.msg], broken := true)
    case Complete =>
      && (c.writer.Wrote? || c.writer.Refused?)
      && var ok := c.writer.Wrote?;
         c' == Reply(c, c.writer.msg, ok).(
                 finished := c.finished + [(c.writer.msg, ok)],
                 writer := if c.writer.Refused? && c.writer.stop then Stopped else Idle)
    case WriterStops =>
      c.cancelled && c.writer.Idle? && c' == c.(writer := Stopped)
    case Cancel => c' == c.(cancelled := true)
  }

  // ----- what holds in every state -----

  function Messages(finished: seq<(Msg, bool)>): seq<Msg> {
    seq(|finished|, i requires 0 <= i < |finished| => finished[i].0)
  }

  function InHand(w: Writer): seq<Msg> {
    if w.Holding? || w.Wrote? || w.Refused? then [w.msg] else []
  }

  /** The connection took this message: the write call returned without error. */
  ghost predicate IsWritten(c: Conn, ticket: nat, env: Envelope) {
    exists i :: 0 <= i < |c.wire| && c.wire[i].ticket == ticket && c.wire[i].env == env
  }

  /** It could not be encoded, or its write returned an error. */
  ghost predicate IsFailed(c: Conn, ticket: nat, env: Envelope) {
    exists i :: 0 <= i < |c.failed| && c.failed[i].ticket == ticket && c.failed[i].env == env
  }

  /** The messages reported with this verdict, in order. */
  function Reported(finished: seq<(Msg, bool)>, verdict: bool): seq<Msg> {
    if finished == [] then []
    else
      var m := |finished| - 1;
      Reported(finished[..m], verdict) + if finished[m].1 == verdict then [finished[m].0] else []
  }

  /** Verdicts tell the truth: reported written is exactly what the connection took, in order, and
      reported failed exactly what failed. */
  ghost predicate Truthful(c: Conn) {
    && c.wire == Reported(c.finished, true) + (if c.writer.Wrote? then [c.writer.msg] else [])
    && c.failed == Reported(c.finished, false) + (if c.writer.Refused? then [c.writer.msg] else [])
    && (c.broken ==> c.writer.Stopped? || (c.writer.Refused? && c.writer.stop))
    && (c.writer.Stopped? ==> c.broken || c.cancelled)
    && (c.writer.Refused? && c.writer.stop ==> c.broken)
  }

  /** The channel is a FIFO, and nothing is lost or duplicated on the way through it. */
  ghost predicate Fifo(c: Conn) {
    && |c.queue| <= c.capacity
    && c.accepted == Messages(c.finished) + InHand(c.writer) + c.queue
    && (forall i, j :: 0 <= i < j < |c.accepted| ==> c.accepted[i].ticket != c.accepted[j].ticket)
  }

  /** Every accepted message belongs to the waiter that sent it. */
  ghost predicate Owned(c: Conn) {
    && (forall m :: m in c.accepted ==> IsOwned(c, m))
    && (forall t :: t in c.replies ==> t in c.waiters)
  }

  predicate IsOwned(c: Conn, m: Msg) {
    && m.ticket in c.waiters
    && var w := c.waiters[m.ticket];
       w.env == m.env && !w.Offering? && (m.confirm ==> w.Awaiting? || w.confirm)
  }

  /** A reply is positive if the message was written and negative if it failed; so is a confirmed
      return, unless it gave up.  An unconfirmed return says whether the channel took the message. */
  ghost predicate Confirmed(c: Conn) {
    && (forall t :: t in c.replies && t in c.waiters ==>
          if c.replies[t] then IsWritten(c, t, c.waiters[t].env) else IsFailed(c, t, c.waiters[t].env))
    && (forall t :: t in c.waiters && c.waiters[t].Returned? ==> ReturnIsTrue(c, t, c.waiters[t]))
  }

  ghost predicate ReturnIsTrue(c: Conn, t: nat, w: Waiter)
    requires w.Returned?
  {
    if w.confirm then (if w.ok then IsWritten(c, t, w.env) else c.cancelled || IsFailed(c, t, w.env))
    else (if w.ok then Msg(t, w.env, false) in c.accepted else c.cancelled && forall m :: m in c.accepted ==> m.ticket != t)
  }

  ghost predicate Inv(c: Conn) { Fifo(c) && Owned(c) && Truthful(c) && Confirmed(c) }

  lemma InitInv(c: Conn)
    requires Init(c)
    ensures Inv(c)
  {
  }

  lemma WrittenStays(c: Conn, c': Conn, t: nat, env: Envelope)
    requires IsWritten(c, t, env) && c.wire <= c'.wire
    ensures IsWritten(c', t, env)
  {
    var i :| 0 <= i < |c.wire| && c.wire[i].ticket == t && c.wire[i].env == env;
    assert c'.wire[i] == c.wire[i];
  }

  lemma FailedStays(c: Conn, c': Conn, t: nat, env: Envelope)
    requires IsFailed(c, t, env) && c.failed <= c'.failed
    ensures IsFailed(c', t, env)
  {
    var i :| 0 <= i < |c.failed| && c.failed[i].ticket == t && c.failed[i].env == env;
    assert c'.failed[i] == c.failed[i];
  }

  lemma FifoStep(c: Conn, step: Step, c': Conn)
    requires Fifo(c) && Owned(c) && Next(c, step, c')
    ensures Fifo(c')
  {
    match step
    case Accept(t) => AcceptFifo(c, t, c');
    case Take => WriterFifo(c, step, c');
    case Complete => WriterFifo(c, step, c');
    case _ => assert InHand(c'.writer) == InHand(c.writer);
  }

  lemma WriterFifo(c: Conn, step: Step, c': Conn)
    requires Fifo(c) && Next(c, step, c') && (step.Take? || step.Complete?)
    ensures Fifo(c')
  {
    if step.Take? {
      assert InHand(c'.writer) + c'.queue == c.queue;
    } else {
      assert Messages(c'.finished) == Messages(c.finished) + [c.writer.msg];
    }
  }

  lemma AcceptFifo(c: Conn, t: nat, c': Conn)
    requires Fifo(c) && Owned(c) && Next(c, Accept(t), c')
    ensures Fifo(c')
  {
    var msg := Msg(t, c.waiters[t].env, c.waiters[t].confirm);
    assert c'.accepted == c.accepted + [msg] && c'.queue == c.queue + [msg];
    forall i | 0 <= i < |c.accepted| ensures c.accepted[i].ticket != t {
      assert IsOwned(c, c.accepted[i]);
    }
    assert Messages(c.finished) + InHand(c.writer) + c'.queue == c'.accepted;
  }

  lemma HandIsOwned(c: Conn)
    requires Fifo(c) && Owned(c) && InHand(c.writer) != []
    ensures IsOwned(c, c.writer.msg)
  {
  }

  lemma OwnedStep(c: Conn, step: Step, c': Conn)
    requires Fifo(c) && Owned(c) && Next(c, step, c')
    ensures Owned(c')
  {
    forall m | m in c'.accepted ensures IsOwned(c', m) {
      if m in c.accepted { assert IsOwned(c, m); }
    }
    if step.Complete? { HandIsOwned(c); }
  }

  lemma ReportedOneMore(finished: seq<(Msg, bool)>, m: Msg, ok: bool, verdict: bool)
    ensures Reported(finished + [(m, ok)], verdict) == Reported(finished, verdict) + if ok == verdict then [m] else []
  {
    assert (finished + [(m, ok)])[..|finished|] == finished;
  }

  lemma TruthfulStep(c: Conn, step: Step, c': Conn)
    requires Truthful(c) && Next(c, step, c')
    ensures Truthful(c')
  {
    match step
    case WriteSucceeds => assert c'.wire == Reported(c'.finished, true) + [c.writer.msg];
    case MarshalFails => assert c'.failed == Reported(c'.finished, false) + [c.writer.msg];
    case WriteFails => assert c'.failed == Reported(c'.finished, false) + [c.writer.msg];
    case Complete =>
      ReportedOneMore(c.finished, c.writer.msg, c.writer.Wrote?, true);
      ReportedOneMore(c.finished, c.writer.msg, c.writer.Wrote?, false);
      assert c'.wire == Reported(c'.finished, true) + [] && c'.failed == Reported(c'.finished, false) + [];
    case _ => assert c'.wire == c.wire && c'.failed == c.failed && c'.finished == c.finished;
  }

  lemma ConfirmedStep(c: Conn, step: Step, c': Conn)
    requires Inv(c) && Next(c, step, c')
    ensures Confirmed(c')
  {
    forall u, env | IsWritten(c, u, env) ensures IsWritten(c', u, env) { WrittenStays(c, c', u, env); }
    forall u, env | IsFailed(c, u, env) ensures IsFailed(c', u, env) { FailedStays(c, c', u, env); }
    if step.Complete? {
      CompleteReplies(c, c');
    } else {
      forall t | t in c'.waiters && c'.waiters[t].Returned? ensures ReturnIsTrue(c', t, c'.waiters[t]) {
        ReturnStep(c, step, c', t);
      }
    }
  }

  /** A verdict the write loop is about to report is already a fact. */
  lemma CompleteReplies(c: Conn, c': Conn)
    requires Inv(c) && Next(c, Complete, c')
    ensures Confirmed(c')
  {
    HandIsOwned(c);
    var m := c.writer.msg;
    if c.writer.Wrote? {
      assert c.wire[|c.wire| - 1] == m;
      assert IsWritten(c', m.ticket, m.env);
    } else {
      assert c.failed[|c.failed| - 1] == m;
      assert IsFailed(c', m.ticket, m.env);
    }
    forall u, env | IsWritten(c, u, env) ensures IsWritten(c', u, env) { WrittenStays(c, c', u, env); }
    forall u, env | IsFailed(c, u, env) ensures IsFailed(c', u, env) { FailedStays(c, c', u, env); }
    forall t | t in c'.waiters && c'.waiters[t].Returned? ensures ReturnIsTrue(c', t, c'.waiters[t]) {
      assert ReturnIsTrue(c, t, c.waiters[t]);
    }
  }

  lemma ReturnStep(c: Conn, step: Step, c': Conn, t: nat)
    requires Inv(c) && Next(c, step, c') && t in c'.waiters && c'.waiters[t].Returned?
    requires forall u: nat, env: Envelope :: IsWritten(c, u, env) ==> IsWritten(c', u, env)
    requires forall u: nat, env: Envelope :: IsFailed(c, u, env) ==> IsFailed(c', u, env)
    ensures ReturnIsTrue(c', t, c'.waiters[t])
  {
    if t in c.waiters && c.waiters[t].Returned? {
      assert ReturnIsTrue(c, t, c.waiters[t]) && c'.waiters[t] == c.waiters[t];
      assert forall m :: m in c'.accepted ==> m in c.accepted || m.ticket != t;
    } else if step.GiveUp? && !c'.waiters[t].confirm {
      forall m | m in c.accepted ensures m.ticket != t { assert IsOwned(c, m); }
    } else if step.Accept? {
      assert c'.accepted[|c.accepted|] == Msg(t, c.waiters[t].env, false);
    }
  }

  lemma InvStep(c: Conn, step: Step, c': Conn)
    requires Inv(c) && Next(c, step, c')
    ensures Inv(c')
  {
    FifoStep(c, step, c');
    OwnedStep(c, step, c');
    TruthfulStep(c, step, c');
    ConfirmedStep(c, step, c');
  }

  ghost predicate IsRun(states: seq<Conn>, steps: seq<Step>) {
    && |states| == |steps| + 1 && Init(states[0])
    && forall i {:trigger steps[i]} :: 0 <= i < |steps| ==> Next(states[i], steps[i], states[i + 1])
  }

  lemma {:induction false} RunInv(states: seq<Conn>, steps: seq<Step>, n: nat)
    requires IsRun(states, steps) && n < |states|
    ensures Inv(states[n])
  {
    if n == 0 {
      InitInv(states[0]);
    } else {
      var i := n - 1;
      RunInv(states, steps, i);
      var c, step, c' := states[i], steps[i], states[i + 1];
      InvStep(c, step, c');
    }
  }

  /** sendOutboundWait reports success only if the connection took that very envelope, and an
      error, unless the context is done, only if encoding or writing it failed, over all
      interleavings of senders, write loop and cancellation. */
  lemma ConfirmedMeansWritten(states: seq<Conn>, steps: seq<Step>, n: nat, t: nat)
    requires IsRun(states, steps) && n < |states|
    requires t in states[n].waiters && states[n].waiters[t].Returned? && states[n].waiters[t].confirm
    ensures var c := states[n]; var w := c.waiters[t];
            if w.ok then IsWritten(c, t, w.env) else c.cancelled || IsFailed(c, t, w.env)
  {
    RunInv(states, steps, n);
    assert ReturnIsTrue(states[n], t, states[n].waiters[t]);
  }

  /** No message is both on the wire and failed, so a reply is positive exactly if its message is on
      the wire. */
  lemma ReplyIsTrueExactly(states: seq<Conn>, steps: seq<Step>, n: nat, t: nat)
    requires IsRun(states, steps) && n < |states| && t in states[n].replies
    ensures var c := states[n];
            t in c.waiters && (c.replies[t] <==> IsWritten(c, t, c.waiters[t].env))
            && (!c.replies[t] <==> IsFailed(c, t, c.waiters[t].env))
  {
    RunInv(states, steps, n);
    NotBoth(states[n], t, states[n].waiters[t].env);
  }

  lemma {:induction false} ReportedAt(finished: seq<(Msg, bool)>, verdict: bool, m: Msg) returns (k: nat)
    requires m in Reported(finished, verdict)
    ensures k < |finished| && finished[k] == (m, verdict)
  {
    k := |finished| - 1;
    if finished[k] != (m, verdict) { k := ReportedAt(finished[..k], verdict, m); }
  }

  /** A message of the wire or of the failures sits at a position of the channel's history. */
  lemma VerdictAt(c: Conn, verdict: bool, m: Msg) returns (k: nat)
    requires Fifo(c) && Truthful(c) && m in (if verdict then c.wire else c.failed)
    ensures k < |c.accepted| && c.accepted[k] == m
    ensures if k < |c.finished| then c.finished[k] == (m, verdict)
            else k == |c.finished| && if verdict then c.writer == Wrote(m) else c.writer.Refused? && c.writer.msg == m
  {
    if m in Reported(c.finished, verdict) {
      k := ReportedAt(c.finished, verdict, m);
    } else {
      k := |c.finished|;
    }
  }

  lemma NotBoth(c: Conn, t: nat, env: Envelope)
    requires Inv(c)
    ensures !(IsWritten(c, t, env) && IsFailed(c, t, env))
  {
    if IsWritten(c, t, env) && IsFailed(c, t, env) {
      var i :| 0 <= i < |c.wire| && c.wire[i].ticket == t;
      var j :| 0 <= j < |c.failed| && c.failed[j].ticket == t;
      var k := VerdictAt(c, true, c.wire[i]);
      var l := VerdictAt(c, false, c.failed[j]);
    }
  }

  /** The channel took a message with this ticket. */
  ghost predicate IsAccepted(c: Conn, t: nat) {
    exists i :: 0 <= i < |c.accepted| && c.accepted[i].ticket == t
  }

  /** sendOutbound reports success exactly if the channel took the message, and gives up only when
      the context is done. */
  lemma UnconfirmedMeansAccepted(states: seq<Conn>, steps: seq<Step>, n: nat, t: nat)
    requires IsRun(states, steps) && n < |states|
    requires t in states[n].waiters && states[n].waiters[t].Returned? && !states[n].waiters[t].confirm
    ensures var c := states[n]; var w := c.waiters[t];
            (w.ok <==> IsAccepted(c, t)) && (!w.ok ==> c.cancelled)
  {
    RunInv(states, steps, n);
    assert ReturnIsTrue(states[n], t, states[n].waiters[t]);
    var c := states[n];
    if c.waiters[t].ok {
      var i :| 0 <= i < |c.accepted| && c.accepted[i] == Msg(t, c.waiters[t].env, false);
    }
    assert forall i :: 0 <= i < |c.accepted| ==> c.accepted[i] in c.accepted;
  }

  /** After a failed write nothing more is written; and the write loop ends only for that or for a
      cancelled context, not for a message that cannot be encoded. */
  lemma BrokenStaysSilent(states: seq<Conn>, steps: seq<Step>, n: nat)
    requires IsRun(states, steps) && n < |steps|
    ensures states[n].broken ==> states[n + 1].broken && states[n + 1].wire == states[n].wire
    ensures states[n].writer.Stopped? ==> states[n].broken || states[n].cancelled
  {
    RunInv(states, steps, n);
    assert Next(states[n], steps[n], states[n + 1]);
  }

  /** The wire sees messages in channel order, each at most once: what is finished, in hand and
      queued is exactly what was accepted, and the wire is what of it was written. */
  lemma WireKeepsChannelOrder(states: seq<Conn>, steps: seq<Step>, n: nat)
    requires IsRun(states, steps) && n < |states|
    ensures var c := states[n];
            && Messages(c.finished) <= c.accepted
            && c.wire == Reported(c.finished, true) + (if c.writer.Wrote? then [c.writer.msg] else [])
            && |c.accepted| == |c.finished| + |InHand(c.writer)| + |c.queue| && |c.queue| <= c.capacity
            && forall i, j :: 0 <= i < j < |c.finished| ==> c.finished[i].0.ticket != c.finished[j].0.ticket
  {
    RunInv(states, steps, n);
    var c := states[n];
    forall i | 0 <= i < |c.finished| ensures c.accepted[i] == c.finished[i].0 {}
  }
}
