/** internal/transport/ws_client.go, inbound half: the read loop turns command envelopes into
    queued jobs, rejected results or errors; workers take jobs from the bounded queue, run the
    handler and hand the result to the dispatcher. */
module Jobs {
  import opened Protocol

  const ENVELOPE_VERSION := "1"

  /** A command that arrived with the right version and a decodable payload, numbered by arrival. */
  datatype Job = Job(number: nat, command: CommandPayload)

  datatype Worker = Idle | Handling(job: Job) | Reporting(job: Job) | Exited

  /** Where the read loop is between two reads. */
  datatype Reader = Reading | Acking(job: Job) | Rejecting(job: Job) | SendingError | Closed

  /** Error codes of results the read loop produces itself. */
  datatype Rejection = DeviceMismatch | QueueFull

  datatype Origin = FromHandler | FromReader(code: Rejection)

  datatype Conn = Conn(
    deviceId: string,
    capacity: nat,
    cancelled: bool,
    reader: Reader,
    queue: seq<Job>,
    workers: seq<Worker>,
    active: int,
    arrived: seq<Job>,
    admitted: seq<Job>,
    taken: seq<Job>,
    acks: seq<Job>,
    results: seq<(Job, Origin)>)

  datatype Step =
    | Receive(env: Envelope, decoded: Option<CommandPayload>)
    | AckSent
    | ReaderContinues
    | ReaderFails
    | TakeJob(w: nat)
    | HandlerReturns(w: nat)
    | ReportDone(w: nat)
    | WorkerExits(w: nat)
    | Cancel

  predicate Init(c: Conn) {
    && c.capacity > 0 && |c.workers| > 0 && !c.cancelled && c.reader == Reading && c.queue == []
    && (forall w :: 0 <= w < |c.workers| ==> c.workers[w] == Idle) && c.active == 0
    && c.arrived == [] && c.admitted == [] && c.taken == [] && c.acks == [] && c.results == []
  }

  /** handleCommandEnvelope up to its first blocking call. */
  function Received(c: Conn, env: Envelope, decoded: Option<CommandPayload>): Conn {
    if env.version != ENVELOPE_VERSION || decoded.None? then c.(reader := SendingError)
    else
      var job := Job(|c.arrived|, decoded.value);
      var c1 := c.(arrived := c.arrived + [job]);
      if env.deviceId != c.deviceId then
        c1.(results := c.results + [(job, FromReader(DeviceMismatch))], reader := Rejecting(job))
      else if |c.queue| < c.capacity then
        c1.(queue := c.queue + [job], admitted := c.admitted + [job], reader := Acking(job))
      else
        c1.(results := c.results + [(job, FromReader(QueueFull))], reader := Rejecting(job))
  }

  predicate Next(c: Conn, step: Step, c': Conn) {
    match step
    case Receive(env, decoded) =>
      c.reader.Reading? && env.kind == Command && c' == Received(c, env, decoded)
    case AckSent =>
      c.reader.Acking? && c' == c.(acks := c.acks + [c.reader.job], reader := Reading)
    case ReaderContinues =>
      (c.reader.Rejecting? || c.reader.SendingError?) && c' == c.(reader := Reading)
    case ReaderFails => // read error, failed send or failed save: the loop reports and returns
      c' == c.(reader := Closed)
    case TakeJob(w) =>
      && w < |c.workers| && c.workers[w].Idle? && c.queue != []
      && c' == c.(workers := c.workers[w := Handling(c.queue[0])], queue := c.queue[1..],
                  taken := c.taken + [c.queue[0]], active := c.active + 1)
    case HandlerReturns(w) =>
      && w < |c.workers| && c.workers[w].Handling?
      && c' == c.(workers := c.workers[w := Reporting(c.workers[w].job)], active := c.active - 1,
                  results := c.results + [(c.workers[w].job, FromHandler)])
    case ReportDone(w) =>
      w < |c.workers| && c.workers[w].Reporting? && c' == c.(workers := c.workers[w := Idle])
    case WorkerExits(w) =>
      c.cancelled && w < |c.workers| && c.workers[w].Idle? && c' == c.(workers := c.workers[w := Exited])
    case Cancel => c' == c.(cancelled := true)
  }

  // ----- accounting -----

  /** How many workers handle this very job, and how many handle any job. */
  function Running(workers: seq<Worker>, job: Job): (n: nat)
    ensures n <= Busy(workers)
  {
    if workers == [] then 0
    else var m := |workers| - 1; Running(workers[..m], job) + if workers[m] == Handling(job) then 1 else 0
  }

  function Busy(workers: seq<Worker>): (n: nat)
    ensures n <= |workers|
  {
    if workers == [] then 0
    else var m := |workers| - 1; Busy(workers[..m]) + if workers[m].Handling? then 1 else 0
  }

  function CountOf(jobs: seq<Job>, job: Job): nat {
    if jobs == [] then 0
    else var m := |jobs| - 1; CountOf(jobs[..m], job) + if jobs[m] == job then 1 else 0
  }

  lemma {:induction false} CountedMeansIn(jobs: seq<Job>, job: Job)
    ensures CountOf(jobs, job) > 0 <==> job in jobs
  {
    if jobs != [] {
      var m := |jobs| - 1;
      CountedMeansIn(jobs[..m], job);
      assert jobs == jobs[..m] + [jobs[m]];
    }
  }

  function JobsOf(results: seq<(Job, Origin)>): (jobs: seq<Job>)
    ensures |jobs| == |results| && forall i :: 0 <= i < |jobs| ==> jobs[i] == results[i].0
  {
    seq(|results|, i requires 0 <= i < |results| => results[i].0)
  }

  lemma {:induction false} WorkerMoves(workers: seq<Worker>, w: nat, pc: Worker, job: Job)
    requires w < |workers|
    ensures Running(workers[w := pc], job) ==
            Running(workers, job) - (if workers[w] == Handling(job) then 1 else 0) + (if pc == Handling(job) then 1 else 0)
    ensures Busy(workers[w := pc]) ==
            Busy(workers) - (if workers[w].Handling? then 1 else 0) + (if pc.Handling? then 1 else 0)
  {
    var m := |workers| - 1;
    var after := workers[w := pc];
    if w == m {
      assert after[..m] == workers[..m];
    } else {
      assert after[..m] == workers[..m][w := pc];
      WorkerMoves(workers[..m], w, pc, job);
    }
  }

  lemma {:induction false} NobodyRuns(workers: seq<Worker>, job: Job)
    requires forall w :: 0 <= w < |workers| ==> workers[w] == Idle
    ensures Running(workers, job) == 0 && Busy(workers) == 0
  {
    if workers != [] { NobodyRuns(workers[..|workers| - 1], job); }
  }

  lemma {:induction false} CountAppend(jobs: seq<Job>, more: seq<Job>, job: Job)
    ensures CountOf(jobs + more, job) == CountOf(jobs, job) + CountOf(more, job)
    decreases |more|
  {
    if more == [] {
      assert jobs + more == jobs;
    } else {
      var m := |more| - 1;
      assert (jobs + more)[..|jobs| + m] == jobs + more[..m];
      CountAppend(jobs, more[..m], job);
    }
  }

  lemma CountOne(jobs: seq<Job>, j: Job, job: Job)
    ensures CountOf(jobs + [j], job) == CountOf(jobs, job) + if j == job then 1 else 0
  {
  }

  lemma CountResult(results: seq<(Job, Origin)>, j: Job, origin: Origin, job: Job)
    ensures CountOf(JobsOf(results + [(j, origin)]), job) == CountOf(JobsOf(results), job) + if j == job then 1 else 0
  {
    assert JobsOf(results + [(j, origin)]) == JobsOf(results) + [j];
    CountOne(JobsOf(results), j, job);
  }

  /** How often a job occurs in the queue, in the workers and in the results, taken together. */
  function Places(c: Conn, job: Job): nat {
    CountOf(c.queue, job) + Running(c.workers, job) + CountOf(JobsOf(c.results), job)
  }

  /** Every arrived command is in exactly one place: queue, worker, or results. */
  ghost predicate Accounted(c: Conn) {
    && (forall job :: CountOf(c.arrived, job) == Places(c, job))
    && c.active == Busy(c.workers)
  }

  /** The queue is bounded and served in order; acknowledgements follow admission one by one. */
  ghost predicate Ordered(c: Conn) {
    && (forall i :: 0 <= i < |c.arrived| ==> c.arrived[i].number == i)
    && |c.queue| <= c.capacity
    && c.admitted == c.taken + c.queue
    && c.acks <= c.admitted && |c.admitted| <= |c.acks| + 1
    && (c.reader.Acking? ==> c.admitted == c.acks + [c.reader.job])
    && (c.reader.Reading? || c.reader.Rejecting? || c.reader.SendingError? ==> c.admitted == c.acks)
  }

  ghost predicate Inv(c: Conn) { Accounted(c) && Ordered(c) }

  lemma InitInv(c: Conn)
    requires Init(c)
    ensures Inv(c)
  {
    forall job ensures CountOf(c.arrived, job) == Places(c, job) { NobodyRuns(c.workers, job); }
    NobodyRuns(c.workers, Job(0, CommandPayload("", "", map[], None)));
  }

  lemma AccountedStep(c: Conn, step: Step, c': Conn)
    requires Accounted(c) && Next(c, step, c')
    ensures Accounted(c')
  {
    forall job ensures CountOf(c'.arrived, job) == Places(c', job) && c'.active == Busy(c'.workers) {
      assert CountOf(c.arrived, job) == Places(c, job);
      PlacesStep(c, step, c', job);
    }
    PlacesStep(c, step, c', Job(0, CommandPayload("", "", map[], None)));
  }

  /** A step moves a job from one place to the next, or adds an arrival to exactly one place. */
  lemma PlacesStep(c: Conn, step: Step, c': Conn, job: Job)
    requires Next(c, step, c')
    ensures Places(c', job) - Places(c, job) == CountOf(c'.arrived, job) - CountOf(c.arrived, job)
    ensures c'.active - c.active == Busy(c'.workers) - Busy(c.workers)
  {
    match step
    case Receive(env, decoded) => ReceivePlaces(c, env, decoded, job);
    case TakeJob(w) =>
      WorkerMoves(c.workers, w, Handling(c.queue[0]), job);
      assert c.queue == [c.queue[0]] + c'.queue;
      CountAppend([c.queue[0]], c'.queue, job);
    case HandlerReturns(w) =>
      WorkerMoves(c.workers, w, Reporting(c.workers[w].job), job);
      CountResult(c.results, c.workers[w].job, FromHandler, job);
    case ReportDone(w) => WorkerMoves(c.workers, w, Idle, job);
    case WorkerExits(w) => WorkerMoves(c.workers, w, Exited, job);
    case _ =>
  }

  lemma ReceivePlaces(c: Conn, env: Envelope, decoded: Option<CommandPayload>, job: Job)
    ensures var c' := Received(c, env, decoded);
            && Places(c', job) - Places(c, job) == CountOf(c'.arrived, job) - CountOf(c.arrived, job)
            && c'.active == c.active && c'.workers == c.workers
  {
    if env.version == ENVELOPE_VERSION && decoded.Some? {
      var j := Job(|c.arrived|, decoded.value);
      CountOne(c.arrived, j, job);
      if env.deviceId != c.deviceId {
        CountResult(c.results, j, FromReader(DeviceMismatch), job);
      } else if |c.queue| < c.capacity {
        CountOne(c.queue, j, job);
      } else {
        CountResult(c.results, j, FromReader(QueueFull), job);
      }
    }
  }

  lemma OrderedStep(c: Conn, step: Step, c': Conn)
    requires Ordered(c) && Next(c, step, c')
    ensures Ordered(c')
  {
    match step
    case Receive(env, decoded) =>
      assert c'.queue != c.queue ==> c'.admitted == c.taken + c'.queue;
    case TakeJob(w) =>
      assert c'.taken + c'.queue == c.taken + c.queue;
    case _ =>
  }

  lemma InvStep(c: Conn, step: Step, c': Conn)
    requires Inv(c) && Next(c, step, c')
    ensures Inv(c')
  {
    AccountedStep(c, step, c');
    OrderedStep(c, step, c');
  }

  ghost predicate IsRun(states: seq<Conn>, steps: seq<Step>) {
    && |states| == |steps| + 1 && Init(states[0])
    && forall i {:trigger steps[i]} :: 0 <= i < |steps| ==> Next(states[i], steps[i], states[i + 1])
  }

  lemma {:induction false} RunInv(states: seq<Conn>, steps: seq<Step>, n: nat)
    requires IsRun(states, steps) && n < |states|
    ensures Inv(states[n])
  {
    if n == 0 {
      InitInv(states[0]);
    } else {
      var i := n - 1;
      RunInv(states, steps, i);
      var c, step, c' := states[i], steps[i], states[i + 1];
      InvStep(c, step, c');
    }
  }

  lemma {:induction false} NumberedOnce(jobs: seq<Job>, k: nat)
    requires (forall i :: 0 <= i < |jobs| ==> jobs[i].number == i) && k < |jobs|
    ensures CountOf(jobs, jobs[k]) == 1
  {
    var m := |jobs| - 1;
    var front := jobs[..m];
    assert jobs == front + [jobs[m]];
    CountAppend(front, [jobs[m]], jobs[k]);
    if k < m {
      NumberedOnce(front, k);
    } else {
      assert forall j :: j in front ==> j.number < m;
      CountedMeansIn(front, jobs[m]);
    }
  }

  /** In every reachable state each arrived command is in exactly one of the queue, a worker, or
      the results handed to the dispatcher. */
  lemma EachCommandIsInOnePlace(states: seq<Conn>, steps: seq<Step>, n: nat, k: nat)
    requires IsRun(states, steps) && n < |states| && k < |states[n].arrived|
    ensures var c := states[n]; var job := c.arrived[k];
            CountOf(c.queue, job) + Running(c.workers, job) + CountOf(JobsOf(c.results), job) == 1
  {
    RunInv(states, steps, n);
    var c := states[n];
    NumberedOnce(c.arrived, k);
    assert CountOf(c.arrived, c.arrived[k]) == Places(c, c.arrived[k]);
  }

  /** And nothing else is in any of these places. */
  lemma NothingElseIsAnywhere(states: seq<Conn>, steps: seq<Step>, n: nat, job: Job)
    requires IsRun(states, steps) && n < |states|
    ensures var c := states[n];
            job in c.queue || Running(c.workers, job) > 0 || job in JobsOf(c.results) <==> job in c.arrived
  {
    RunInv(states, steps, n);
    var c := states[n];
    assert CountOf(c.arrived, job) == Places(c, job);
    CountedMeansIn(c.queue, job);
    CountedMeansIn(c.arrived, job);
    CountedMeansIn(JobsOf(c.results), job);
  }

  /** The queue never exceeds its capacity, no more jobs run than there are workers, jobs start
      in the order of admission, and every accepting ack is for an admitted command. */
  lemma QueueIsBoundedAndFair(states: seq<Conn>, steps: seq<Step>, n: nat)
    requires IsRun(states, steps) && n < |states|
    ensures var c := states[n];
            && |c.queue| <= c.capacity && 0 <= c.active <= |c.workers|
            && c.taken <= c.admitted && c.acks <= c.admitted && |c.admitted| <= |c.acks| + 1
            && (forall i :: 0 <= i < |c.acks| ==> c.acks[i] in c.taken || c.acks[i] in c.queue)
  {
    RunInv(states, steps, n);
    var c := states[n];
    forall i | 0 <= i < |c.acks| ensures c.acks[i] in c.taken || c.acks[i] in c.queue {
      assert c.acks[i] == c.admitted[i] && c.admitted[i] in c.taken + c.queue;
    }
  }

  // ----- which command goes where -----

  /** What one envelope does: it counts as an arrival exactly if version and payload are good; the
      command is queued exactly if it is also addressed to this device and there is room; otherwise
      it is rejected, for a foreign device or for a full queue; a bad envelope only gets an error. */
  lemma ReceiveExactly(c: Conn, env: Envelope, decoded: Option<CommandPayload>, c': Conn)
    requires Next(c, Receive(env, decoded), c')
    ensures var good := env.version == "1" && decoded.Some?;
            && (c'.arrived != c.arrived <==> good)
            && (c'.admitted != c.admitted <==> good && env.deviceId == c.deviceId && |c.queue| < c.capacity)
            && (c'.results != c.results <==> good && (env.deviceId != c.deviceId || |c.queue| >= c.capacity))
            && (!good ==> c' == c.(reader := SendingError))
    ensures env.version == "1" && decoded.Some? ==>
              var job := Job(|c.arrived|, decoded.value);
              && c'.arrived == c.arrived + [job]
              && (if env.deviceId != c.deviceId then c'.results == c.results + [(job, FromReader(DeviceMismatch))] && c'.reader == Rejecting(job)
                  else if |c.queue| >= c.capacity then c'.results == c.results + [(job, FromReader(QueueFull))] && c'.reader == Rejecting(job)
                  else c'.queue == c.queue + [job] && c'.admitted == c.admitted + [job] && c'.reader == Acking(job))
  {
    assert |c.arrived| < |c.arrived + [Job(|c.arrived|, if decoded.Some? then decoded.value else CommandPayload("", "", map[], None))]|;
  }

  datatype Arrival = Arrival(deviceId: string, command: CommandPayload)

  /** The good command envelopes received, with the device they name. */
  function Arrivals(steps: seq<Step>): seq<Arrival> {
    if steps == [] then []
    else
      var last := steps[|steps| - 1];
      Arrivals(steps[..|steps| - 1]) +
      if last.Receive? && last.env.version == "1" && last.decoded.Some?
      then [Arrival(last.env.deviceId, last.decoded.value)] else []
  }

  lemma ArrivalsOneMore(steps: seq<Step>, i: nat)
    requires i < |steps|
    ensures Arrivals(steps[..i + 1]) == Arrivals(steps[..i]) +
            if steps[i].Receive? && steps[i].env.version == "1" && steps[i].decoded.Some?
            then [Arrival(steps[i].env.deviceId, steps[i].decoded.value)] else []
  {
    assert steps[..i + 1][..i] == steps[..i];
  }

  /** The rejection, if the command that arrived k-th went there. */
  predicate IsRejected(c: Conn, k: nat, code: Rejection)
    requires k < |c.arrived|
  {
    (c.arrived[k], FromReader(code)) in c.results
  }

  /** Commands for this device are queued or find the queue full, all others are mismatches. */
  ghost predicate Sorted(c: Conn, arrivals: seq<Arrival>) {
    && |c.arrived| == |arrivals|
    && (forall k :: 0 <= k < |arrivals| ==> c.arrived[k] == Job(k, arrivals[k].command))
    && (forall k :: 0 <= k < |arrivals| ==>
          if arrivals[k].deviceId == c.deviceId then c.arrived[k] in c.admitted || IsRejected(c, k, QueueFull)
          else IsRejected(c, k, DeviceMismatch))
    && (forall job :: job in c.admitted ==> job.number < |arrivals| && arrivals[job.number].deviceId == c.deviceId)
    && (forall r :: r in c.results ==> IsSorted(c, arrivals, r.0, r.1))
  }

  /** A result has the origin its command deserves. */
  predicate IsSorted(c: Conn, arrivals: seq<Arrival>, job: Job, origin: Origin) {
    match origin
    case FromHandler => job in c.taken
    case FromReader(DeviceMismatch) => job.number < |arrivals| && arrivals[job.number].deviceId != c.deviceId
    case FromReader(QueueFull) => job.number < |arrivals| && arrivals[job.number].deviceId == c.deviceId
  }

  ghost predicate HandsTaken(c: Conn) {
    forall w :: 0 <= w < |c.workers| && c.workers[w].Handling? ==> c.workers[w].job in c.taken
  }

  lemma ReceiveSorts(c: Conn, env: Envelope, decoded: Option<CommandPayload>, c': Conn, arrivals: seq<Arrival>)
    requires Sorted(c, arrivals) && Ordered(c) && Next(c, Receive(env, decoded), c')
    requires env.version == "1" && decoded.Some?
    ensures Sorted(c', arrivals + [Arrival(env.deviceId, decoded.value)])
  {
    ReceiveExactly(c, env, decoded, c');
    var more := arrivals + [Arrival(env.deviceId, decoded.value)];
    var job := Job(|c.arrived|, decoded.value);
    assert c'.deviceId == c.deviceId && c'.taken == c.taken;
    forall k | 0 <= k < |more|
      ensures c'.arrived[k] == Job(k, more[k].command)
      ensures if more[k].deviceId == c.deviceId then c'.arrived[k] in c'.admitted || IsRejected(c', k, QueueFull)
              else IsRejected(c', k, DeviceMismatch)
    {
      if k == |c.arrived| {
        assert c'.arrived[k] == job;
        if env.deviceId != c.deviceId || |c.queue| >= c.capacity { assert c'.results[|c.results|].0 == job; }
        else { assert c'.admitted[|c.admitted|] == job; }
      } else {
        assert c'.arrived[k] == c.arrived[k] && more[k] == arrivals[k];
      }
    }
    forall j | j in c'.admitted ensures j.number < |more| && more[j.number].deviceId == c.deviceId {
      if j in c.admitted { assert more[j.number] == arrivals[j.number]; }
    }
    forall r | r in c'.results ensures IsSorted(c', more, r.0, r.1) {
      if r in c.results { assert IsSorted(c, arrivals, r.0, r.1); }
    }
  }

  /** No other step changes where commands were sent. */
  lemma OtherStepsKeepSorted(c: Conn, step: Step, c': Conn, arrivals: seq<Arrival>)
    requires Sorted(c, arrivals) && HandsTaken(c) && Next(c, step, c')
    requires !(step.Receive? && step.env.version == "1" && step.decoded.Some?)
    ensures Sorted(c', arrivals)
  {
    if step.Receive? { ReceiveExactly(c, step.env, step.decoded, c'); }
    assert c'.arrived == c.arrived && c'.admitted == c.admitted && c'.deviceId == c.deviceId;
    assert forall r :: r in c.results ==> r in c'.results;
    forall r | r in c'.results ensures IsSorted(c', arrivals, r.0, r.1) {
      if r in c.results { assert IsSorted(c, arrivals, r.0, r.1); }
    }
  }

  lemma HandsTakenStep(c: Conn, step: Step, c': Conn)
    requires HandsTaken(c) && Next(c, step, c')
    ensures HandsTaken(c')
  {
    if step.TakeJob? { assert c'.taken[|c.taken|] == c.queue[0]; }
  }

  lemma {:induction false} RunIsSorted(states: seq<Conn>, steps: seq<Step>, n: nat)
    requires IsRun(states, steps) && n < |states|
    ensures Sorted(states[n], Arrivals(steps[..n])) && HandsTaken(states[n])
  {
    if n > 0 {
      var i := n - 1;
      RunIsSorted(states, steps, i);
      RunInv(states, steps, i);
      var c, step, c' := states[i], steps[i], states[i + 1];
      assert Next(c, step, c');
      ArrivalsOneMore(steps, i);
      HandsTakenStep(c, step, c');
      if step.Receive? && step.env.version == "1" && step.decoded.Some? {
        ReceiveSorts(c, step.env, step.decoded, c', Arrivals(steps[..i]));
      } else {
        OtherStepsKeepSorted(c, step, c', Arrivals(steps[..i]));
      }
    }
  }

  /** In every reachable state: the arrivals are exactly the good envelopes; those addressed to this
      device were queued or rejected for a full queue, all others rejected as mismatches; and each
      result of the read loop is of that kind. */
  lemma CommandsAreSorted(states: seq<Conn>, steps: seq<Step>, n: nat)
    requires IsRun(states, steps) && n < |states|
    ensures Sorted(states[n], Arrivals(steps[..n]))
  {
    RunIsSorted(states, steps, n);
  }

  /** Hence every command that a worker ever took, and every accepting ack, was addressed to this
      device. */
  lemma OnlyOwnCommandsRun(states: seq<Conn>, steps: seq<Step>, n: nat, job: Job)
    requires IsRun(states, steps) && n < |states| && (job in states[n].taken || job in states[n].acks)
    ensures var arrivals := Arrivals(steps[..n]);
            job.number < |arrivals| && arrivals[job.number] == Arrival(states[n].deviceId, job.command)
  {
    RunIsSorted(states, steps, n);
    RunInv(states, steps, n);
    var c := states[n];
    if job in c.acks {
      var i :| 0 <= i < |c.acks| && c.acks[i] == job;
      assert c.admitted[i] == job;
    }
    assert job in c.admitted;
    AdmittedArrived(states, steps, n, job);
  }

  lemma {:induction false} AdmittedArrived(states: seq<Conn>, steps: seq<Step>, n: nat, job: Job)
    requires IsRun(states, steps) && n < |states| && job in states[n].admitted
    ensures job in states[n].arrived && job.number < |states[n].arrived| && states[n].arrived[job.number] == job
  {
    RunInv(states, steps, n);
    if n > 0 {
      var i := n - 1;
      var c, step, c' := states[i], steps[i], states[i + 1];
      assert Next(c, step, c');
      if job in c.admitted {
        AdmittedArrived(states, steps, i, job);
        assert c.arrived <= c'.arrived;
      } else {
        assert c'.arrived[|c.arrived|] == job;
      }
    }
  }
}
