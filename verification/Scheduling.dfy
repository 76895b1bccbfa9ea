/** Connections, their readers, the job queue and the workers of one scheduler, interleaved at
    the granularity of one lock, channel or counter operation (src/server/runtime.rs). */
module Scheduling {
  import opened Wrappers
  import opened WireGrammar
  import opened Runtime
  import opened JobRegistry

  /** Where a connection's reader is. From `Registered` to `Rejected` it holds its job. */
  datatype Reader =
    | AtLoop
    | Decoded(id: RequestId)
    | Registered(job: Job)
    | Submitting(job: Job)
    | Refused(job: Job)
    | Uncounted(job: Job)
    | Rejected(job: Job)
    | Replying(frame: Frame)
    | Ended

  /** Where a worker is. From `Received` to `Closing` its job's id is in the request table. */
  datatype Worker =
    | Waiting
    | Received(job: Job)
    | Dequeued(job: Job)
    | Running(job: Job, life: Lifecycle)
    | Closing(job: Job, life: Lifecycle)
    | Removed(job: Job)
    | Deactivated(job: Job)

  datatype Conn = Conn(active: map<RequestId, Token>, disconnected: bool, wire: seq<Frame>, reader: Reader)

  datatype Stats = Stats(queued: int, active: int, completed: int, rejected: int)

  datatype Config = Config(maxActive: nat, queueDepth: nat)

  /** `submitted` counts the calls of `Scheduler::submit`; it is not a counter of the source. */
  datatype State = State(
    config: Config,
    conns: map<ConnId, Conn>,
    workers: map<WorkerId, Worker>,
    queue: seq<Job>,
    stats: Stats,
    nextToken: Token,
    cancelled: set<Token>,
    submitted: int)

  datatype Step =
    | Decode(c: ConnId, id: RequestId)
    | BreakOff(c: ConnId, notice: bool, size: nat)
    | EndOfInput(c: ConnId)
    | CancelTarget(c: ConnId, target: RequestId, size: nat)
    | RefuseTimeout(c: ConnId, size: nat)
    | Register(c: ConnId, notice: bool, size: nat)
    | RefuseContext(c: ConnId, size: nat)
    | BeginSubmit(c: ConnId)
    | TrySend(c: ConnId, receiverGone: bool)
    | UncountRefused(c: ConnId)
    | CountRejected(c: ConnId)
    | RemoveRejected(c: ConnId, size: nat)
    | Reply(c: ConnId, delivered: bool)
    | Take(w: WorkerId)
    | Uncount(w: WorkerId)
    | Activate(w: WorkerId)
    | Send(w: WorkerId, frame: Frame)
    | Terminate(w: WorkerId, delivered: bool, size: nat)
    | Remove(w: WorkerId)
    | Deactivate(w: WorkerId)
    | Complete(w: WorkerId)
    | Drop(c: ConnId)

  function Init(config: Config, conns: set<ConnId>, workers: set<WorkerId>): State {
    State(config, map c | c in conns :: Conn(map[], false, [], AtLoop), map w | w in workers :: Waiting,
          [], Stats(0, 0, 0, 0), 0, {}, 0)
  }

  function Notice(size: nat): Frame {
    Frame(ErrorFrame, None, 0, size, Bare)
  }

  function Enqueue(conn: Conn, f: Frame): Conn {
    conn.(wire := conn.wire + [f])
  }

  /** An uncorrelated error, if it still fits in the channel, and a forced disconnect. */
  function Abort(conn: Conn, notice: bool, size: nat): Conn {
    (if notice then Enqueue(conn, Notice(size)) else conn).(disconnected := true, reader := Ended)
  }

  function Refuse(conn: Conn, id: RequestId, size: nat): Conn {
    conn.(reader := Replying(Frame(ErrorFrame, Some(id), 0, size, Bare)))
  }

  function Unregister(conn: Conn, id: RequestId): Conn {
    conn.(active := conn.active - {id})
  }

  predicate MayRegister(conn: Conn, maxActive: nat) {
    conn.reader.Decoded? && Admits(conn.active, conn.reader.id, maxActive)
  }

  predicate Accepts(conn: Conn, step: Step, room: bool) {
    conn.reader.Submitting? && step.TrySend? && !step.receiverGone && room
  }

  /** A connection after a step of its reader or an external disconnect. `room` says that the
      job queue is not full, `token` is the token a registration would create. */
  function ConnAfter(conn: Conn, step: Step, maxActive: nat, room: bool, token: Token): Conn {
    match step
    case Decode(_, id) =>
      // An id that is active is answered by BreakOff.
      if conn.reader.AtLoop? && id !in conn.active then conn.(reader := Decoded(id)) else conn
    case BreakOff(_, notice, size) => if conn.reader.AtLoop? then Abort(conn, notice, size) else conn
    case EndOfInput(_) => if conn.reader.AtLoop? then conn.(disconnected := true, reader := Ended) else conn
    case CancelTarget(_, _, size) =>
      if conn.reader.Decoded? then conn.(reader := Replying(Frame(ResultFrame, Some(conn.reader.id), 0, size, Bare)))
      else conn
    case RefuseTimeout(_, size) => if conn.reader.Decoded? then Refuse(conn, conn.reader.id, size) else conn
    case Register(c, notice, size) =>
      if MayRegister(conn, maxActive) then
        conn.(reader := Registered(Job(c, conn.reader.id, token)), active := conn.active[conn.reader.id := token])
      else if conn.reader.Decoded? then Abort(conn, notice, size)
      else conn
    case RefuseContext(_, size) =>
      if conn.reader.Registered? then Refuse(Unregister(conn, conn.reader.job.id), conn.reader.job.id, size) else conn
    case BeginSubmit(_) => if conn.reader.Registered? then conn.(reader := Submitting(conn.reader.job)) else conn
    case TrySend(_, _) =>
      if Accepts(conn, step, room) then conn.(reader := AtLoop)
      else if conn.reader.Submitting? then conn.(reader := Refused(conn.reader.job))
      else conn
    case UncountRefused(_) => if conn.reader.Refused? then conn.(reader := Uncounted(conn.reader.job)) else conn
    case CountRejected(_) => if conn.reader.Uncounted? then conn.(reader := Rejected(conn.reader.job)) else conn
    case RemoveRejected(_, size) =>
      if conn.reader.Rejected? then Refuse(Unregister(conn, conn.reader.job.id), conn.reader.job.id, size) else conn
    case Reply(_, delivered) =>
      if !conn.reader.Replying? then conn
      else if delivered then Enqueue(conn, conn.reader.frame).(reader := AtLoop)
      else conn.(disconnected := true, reader := Ended)
    case Drop(_) => conn.(disconnected := true)
    case _ => conn
  }

  function ReaderStats(stats: Stats, reader: Reader, step: Step): Stats {
    if reader.Registered? && step.BeginSubmit? then stats.(queued := stats.queued + 1)
    else if reader.Refused? && step.UncountRefused? then stats.(queued := stats.queued - 1)
    else if reader.Uncounted? && step.CountRejected? then stats.(rejected := stats.rejected + 1)
    else stats
  }

  /** The tokens cancelled by a step that turned `conn` into `after`. */
  function Cancels(conn: Conn, after: Conn, step: Step): set<Token> {
    if step.Drop? || (after.reader.Ended? && !conn.reader.Ended?) then conn.active.Values
    else if conn.reader.Decoded? && step.CancelTarget? && step.target in conn.active then {conn.active[step.target]}
    else {}
  }

  function ReaderNext(s: State, c: ConnId, step: Step): State
    requires c in s.conns
  {
    var conn, room := s.conns[c], |s.queue| < s.config.queueDepth;
    var after := ConnAfter(conn, step, s.config.maxActive, room, s.nextToken);
    State(s.config, s.conns[c := after], s.workers,
          if Accepts(conn, step, room) then s.queue + [conn.reader.job] else s.queue,
          ReaderStats(s.stats, conn.reader, step),
          if step.Register? && MayRegister(conn, s.config.maxActive) then s.nextToken + 1 else s.nextToken,
          s.cancelled + Cancels(conn, after, step),
          if conn.reader.Registered? && step.BeginSubmit? then s.submitted + 1 else s.submitted)
  }

  /** A worker after one of its steps; `queue` is the job queue before the step. */
  function WorkerAfter(worker: Worker, step: Step, queue: seq<Job>): Worker {
    match step
    case Take(_) => if worker.Waiting? && queue != [] then Received(queue[0]) else worker
    case Uncount(_) => if worker.Received? then Dequeued(worker.job) else worker
    case Activate(_) => if worker.Dequeued? then Running(worker.job, NotStarted) else worker
    case Send(_, f) =>
      if worker.Running? && Validate(worker.life, worker.job.id, f).Ok? then
        Running(worker.job, Validate(worker.life, worker.job.id, f).value)
      else worker
    case Terminate(_, delivered, _) =>
      if worker.Running? then Closing(worker.job, if delivered then Terminal else worker.life) else worker
    case Remove(_) => if worker.Closing? then Removed(worker.job) else worker
    case Deactivate(_) => if worker.Removed? then Deactivated(worker.job) else worker
    case Complete(_) => if worker.Deactivated? then Waiting else worker
    case _ => worker
  }

  /** The job's connection after a step of the worker that runs it. */
  function ConnUnder(conn: Conn, worker: Worker, step: Step): Conn {
    match step
    case Send(_, f) =>
      if worker.Running? && Validate(worker.life, worker.job.id, f).Ok? then Enqueue(conn, f) else conn
    case Terminate(_, delivered, size) =>
      if !worker.Running? || worker.life.Terminal? then conn
      else if delivered then Enqueue(conn, TerminalFrame(worker.life, worker.job.id, size))
      else conn.(disconnected := true)
    case Remove(_) => if worker.Closing? then Unregister(conn, worker.job.id) else conn
    case _ => conn
  }

  function WorkerStats(stats: Stats, worker: Worker, step: Step): Stats {
    if worker.Received? && step.Uncount? then stats.(queued := stats.queued - 1)
    else if worker.Dequeued? && step.Activate? then stats.(active := stats.active + 1)
    else if worker.Removed? && step.Deactivate? then stats.(active := stats.active - 1)
    else if worker.Deactivated? && step.Complete? then stats.(completed := stats.completed + 1)
    else stats
  }

  function WorkerJob(worker: Worker): Option<Job> {
    match worker
    case Received(job) => Some(job)
    case Dequeued(job) => Some(job)
    case Running(job, _) => Some(job)
    case Closing(job, _) => Some(job)
    case _ => None
  }

  predicate Touches(s: State, worker: Worker) {
    WorkerJob(worker).Some? && WorkerJob(worker).value.conn in s.conns
  }

  function WorkerNext(s: State, w: WorkerId, step: Step): State
    requires w in s.workers
  {
    var worker := s.workers[w];
    var touched := Touches(s, worker);
    var c := if touched then WorkerJob(worker).value.conn else 0;
    s.(workers := s.workers[w := WorkerAfter(worker, step, s.queue)],
       conns := if touched then s.conns[c := ConnUnder(s.conns[c], worker, step)] else s.conns,
       queue := if step.Take? && worker.Waiting? && s.queue != [] then s.queue[1..] else s.queue,
       stats := WorkerStats(s.stats, worker, step),
       cancelled := if touched && worker.Running? && !worker.life.Terminal? && step.Terminate? && !step.delivered
                    then s.cancelled + s.conns[c].active.Values else s.cancelled)
  }

  predicate IsWorkerStep(step: Step) {
    step.Take? || step.Uncount? || step.Activate? || step.Send? || step.Terminate? || step.Remove?
    || step.Deactivate? || step.Complete?
  }

  /** One step; a step that is not enabled changes nothing. */
  function Next(s: State, step: Step): State {
    if IsWorkerStep(step) then (if step.w in s.workers then WorkerNext(s, step.w, step) else s)
    else if step.c in s.conns then ReaderNext(s, step.c, step) else s
  }

  function Exec(s: State, steps: seq<Step>): State
    decreases |steps|
  {
    if steps == [] then s else Exec(Next(s, steps[0]), steps[1..])
  }

  // ------------------------------------------------------------------ who holds a job

  function ReaderJob(reader: Reader): Option<Job> {
    match reader
    case Registered(job) => Some(job)
    case Submitting(job) => Some(job)
    case Refused(job) => Some(job)
    case Uncounted(job) => Some(job)
    case Rejected(job) => Some(job)
    case _ => None
  }

  /** The registered job at a place, if any. */
  function HeldAt(s: State, p: Place): Option<Job> {
    match p
    case AtReader(c) => if c in s.conns then ReaderJob(s.conns[c].reader) else None
    case InQueue(i) => if i < |s.queue| then Some(s.queue[i]) else None
    case AtWorker(w) => if w in s.workers then WorkerJob(s.workers[w]) else None
  }

  function Holders(s: State): Holding {
    p => HeldAt(s, p)
  }

  function TablesOf(s: State): Tables {
    map c | c in s.conns :: s.conns[c].active
  }

  ghost predicate ReadersHoldOwn(s: State) {
    forall c | c in s.conns && ReaderJob(s.conns[c].reader).Some? :: ReaderJob(s.conns[c].reader).value.conn == c
  }

  ghost predicate TableBounded(s: State) {
    forall c | c in s.conns :: |s.conns[c].active| <= s.config.maxActive
  }

  predicate ReplyFree(conn: Conn) {
    && (conn.reader.Decoded? ==> conn.reader.id !in conn.active)
    && (conn.reader.Replying? ==>
          && conn.reader.frame.id.Some? && conn.reader.frame.id.value !in conn.active
          && Feed(Closed, conn.reader.frame) == Closed)
  }

  /** The reader answers an id itself only while no job is registered under it. */
  ghost predicate RepliesFree(s: State) {
    forall c | c in s.conns :: ReplyFree(s.conns[c])
  }

  ghost predicate LivesBounded(s: State) {
    forall w | w in s.workers && s.workers[w].Running? && s.workers[w].life.Streaming? ::
      s.workers[w].life.next <= U32_MAX
  }

  /** A job whose dispatch is over has a closed response, or no connection any more. */
  ghost predicate ClosedOrGone(s: State) {
    forall w | w in s.workers && s.workers[w].Closing? && s.workers[w].job.conn in s.conns ::
      s.workers[w].life == Terminal || s.conns[s.workers[w].job.conn].disconnected
  }

  ghost predicate Ownership(s: State) {
    && Consistent(Holders(s), TablesOf(s), s.nextToken) && ReadersHoldOwn(s)
    && TableBounded(s) && RepliesFree(s) && LivesBounded(s) && ClosedOrGone(s)
  }

  // ------------------------------------------------------------------ ownership is kept

  /** Between `s` and `s'` no job changed its place and no table changed. */
  ghost predicate SameHolders(s: State, s': State) {
    && s'.config == s.config && s'.queue == s.queue && s'.nextToken == s.nextToken
    && s'.conns.Keys == s.conns.Keys && s'.workers.Keys == s.workers.Keys
    && (forall c | c in s.conns ::
          s'.conns[c].active == s.conns[c].active && ReaderJob(s'.conns[c].reader) == ReaderJob(s.conns[c].reader))
    && (forall w | w in s.workers :: WorkerJob(s'.workers[w]) == WorkerJob(s.workers[w]))
  }

  ghost predicate Registry(s: State) {
    Consistent(Holders(s), TablesOf(s), s.nextToken) && ReadersHoldOwn(s) && TableBounded(s)
  }

  lemma SameHoldersKeepRegistry(s: State, s': State)
    requires Registry(s) && SameHolders(s, s')
    ensures Registry(s')
  {
    assert TablesOf(s') == TablesOf(s);
    forall p ensures Holders(s')(p) == Holders(s)(p) {
    }
    MoveKeeps(Holders(s), Holders(s'), TablesOf(s), s.nextToken, p => p, p => p);
  }

  predicate MovesJob(step: Step) {
    step.Register? || step.RefuseContext? || step.TrySend? || step.RemoveRejected? || step.Take? || step.Remove?
  }

  lemma OtherReaderSteps(conn: Conn, step: Step, maxActive: nat, room: bool, token: Token)
    requires !MovesJob(step)
    ensures var after := ConnAfter(conn, step, maxActive, room, token);
            after.active == conn.active && ReaderJob(after.reader) == ReaderJob(conn.reader)
  {
  }

  lemma OtherReaderStepsKeepHolders(s: State, step: Step)
    requires !MovesJob(step) && !IsWorkerStep(step) && step.c in s.conns
    ensures SameHolders(s, ReaderNext(s, step.c, step))
  {
    OtherReaderSteps(s.conns[step.c], step, s.config.maxActive, |s.queue| < s.config.queueDepth, s.nextToken);
  }

  lemma OtherWorkerSteps(worker: Worker, conn: Conn, step: Step, queue: seq<Job>)
    requires !MovesJob(step)
    ensures WorkerJob(WorkerAfter(worker, step, queue)) == WorkerJob(worker)
    ensures ConnUnder(conn, worker, step).active == conn.active && ConnUnder(conn, worker, step).reader == conn.reader
  {
  }

  lemma OtherWorkerStepsKeepHolders(s: State, step: Step)
    requires !MovesJob(step) && IsWorkerStep(step) && step.w in s.workers
    ensures SameHolders(s, WorkerNext(s, step.w, step))
  {
    var worker := s.workers[step.w];
    forall c | c in s.conns {
      OtherWorkerSteps(worker, s.conns[c], step, s.queue);
    }
    OtherWorkerSteps(worker, Conn(map[], false, [], AtLoop), step, s.queue);
  }

  lemma RegisterPlaces(s: State, s': State, job: Job)
    requires job.conn in s.conns && ReaderJob(s.conns[job.conn].reader) == None
    requires s'.queue == s.queue && s'.workers == s.workers
    requires s'.conns == s.conns[job.conn := s.conns[job.conn].(reader := Registered(job),
                                   active := s.conns[job.conn].active[job.id := job.token])]
    ensures forall p :: Holders(s')(p) == if p == AtReader(job.conn) then Some(job) else Holders(s)(p)
    ensures TablesOf(s') == Inserted(TablesOf(s), job)
  {
  }

  lemma RegisteredKeeps(s: State, s': State, job: Job)
    requires Registry(s) && job.conn in s.conns && ReaderJob(s.conns[job.conn].reader) == None
    requires job.id !in s.conns[job.conn].active && |s.conns[job.conn].active| < s.config.maxActive
    requires job.token == s.nextToken && s'.nextToken == s.nextToken + 1
    requires s'.config == s.config && s'.queue == s.queue && s'.workers == s.workers
    requires s'.conns == s.conns[job.conn := s.conns[job.conn].(reader := Registered(job),
                                   active := s.conns[job.conn].active[job.id := job.token])]
    ensures Registry(s')
  {
    RegisterPlaces(s, s', job);
    InsertKeeps(Holders(s), Holders(s'), TablesOf(s), TablesOf(s'), s.nextToken, AtReader(job.conn), job);
  }

  lemma NotRegistering(conn: Conn, step: Step, maxActive: nat, room: bool, token: Token)
    requires step.Register? && !MayRegister(conn, maxActive)
    ensures var after := ConnAfter(conn, step, maxActive, room, token);
            after.active == conn.active && ReaderJob(after.reader) == ReaderJob(conn.reader)
  {
  }

  lemma RegisterKeepsRegistry(s: State, step: Step)
    requires Registry(s) && RepliesFree(s) && step.Register? && step.c in s.conns
    ensures Registry(ReaderNext(s, step.c, step))
  {
    var s', c := ReaderNext(s, step.c, step), step.c;
    if MayRegister(s.conns[c], s.config.maxActive) {
      RegisteredKeeps(s, s', Job(c, s.conns[c].reader.id, s.nextToken));
    } else {
      NotRegistering(s.conns[c], step, s.config.maxActive, |s.queue| < s.config.queueDepth, s.nextToken);
      SameHoldersKeepRegistry(s, s');
    }
  }

  lemma QueuedPlaces(s: State, s': State, c: ConnId)
    requires c in s.conns && s.conns[c].reader.Submitting?
    requires s'.workers == s.workers && s'.queue == s.queue + [s.conns[c].reader.job]
    requires s'.conns == s.conns[c := s.conns[c].(reader := AtLoop)]
    ensures forall p :: Holders(s')(p) ==
              if p == AtReader(c) then None
              else if p == InQueue(|s.queue|) then Holders(s)(AtReader(c)) else Holders(s)(p)
    ensures Holders(s)(InQueue(|s.queue|)) == None
    ensures TablesOf(s') == TablesOf(s)
  {
  }

  lemma QueuedKeeps(s: State, s': State, c: ConnId)
    requires Registry(s) && c in s.conns && s.conns[c].reader.Submitting?
    requires s'.config == s.config && s'.nextToken == s.nextToken
    requires s'.workers == s.workers && s'.queue == s.queue + [s.conns[c].reader.job]
    requires s'.conns == s.conns[c := s.conns[c].(reader := AtLoop)]
    ensures Registry(s')
  {
    QueuedPlaces(s, s', c);
    MoveOneKeeps(Holders(s), Holders(s'), TablesOf(s), s.nextToken, AtReader(c), InQueue(|s.queue|));
  }

  lemma TrySendKeepsRegistry(s: State, step: Step)
    requires Registry(s) && step.TrySend? && step.c in s.conns
    ensures Registry(ReaderNext(s, step.c, step))
  {
    var s', c := ReaderNext(s, step.c, step), step.c;
    if Accepts(s.conns[c], step, |s.queue| < s.config.queueDepth) {
      QueuedKeeps(s, s', c);
    } else {
      SameHoldersKeepRegistry(s, s');
    }
  }

  lemma TakenPlaces(s: State, s': State, w: WorkerId)
    requires w in s.workers && s.workers[w].Waiting? && s.queue != []
    requires s'.workers == s.workers[w := Received(s.queue[0])] && s'.queue == s.queue[1..]
    requires s'.conns == s.conns
    ensures forall p :: Holders(s')(p) ==
              Holders(s)(BeforeTake(w, p))
    ensures Holders(s)(AtWorker(w)) == None
    ensures TablesOf(s') == TablesOf(s)
  {
  }

  lemma TakeKeepsRegistry(s: State, step: Step)
    requires Registry(s) && step.Take? && step.w in s.workers
    ensures Registry(WorkerNext(s, step.w, step))
  {
    var s', w := WorkerNext(s, step.w, step), step.w;
    if s.workers[w].Waiting? && s.queue != [] {
      TakenPlaces(s, s', w);
      TakeHeadKeeps(Holders(s), Holders(s'), TablesOf(s), s.nextToken, w);
    } else {
      SameHoldersKeepRegistry(s, s');
    }
  }

  lemma RefusedPlaces(s: State, s': State, c: ConnId, job: Job, size: nat)
    requires c in s.conns && ReaderJob(s.conns[c].reader) == Some(job) && job.conn == c
    requires s'.queue == s.queue && s'.workers == s.workers
    requires s'.conns == s.conns[c := Refuse(Unregister(s.conns[c], job.id), job.id, size)]
    ensures forall p :: Holders(s')(p) == if p == AtReader(c) then None else Holders(s)(p)
    ensures Holders(s)(AtReader(c)) == Some(job)
    ensures TablesOf(s') == Deleted(TablesOf(s), job)
  {
  }

  lemma RemoveShrinks(m: map<RequestId, Token>, id: RequestId)
    ensures |m - {id}| <= |m|
  {
    assert (m - {id}).Keys == m.Keys - {id};
    if id in m {
      assert m.Keys == (m - {id}).Keys + {id};
    } else {
      assert m - {id} == m;
    }
  }

  lemma RefusedKeeps(s: State, s': State, c: ConnId, job: Job, size: nat)
    requires Registry(s) && c in s.conns && ReaderJob(s.conns[c].reader) == Some(job)
    requires s'.config == s.config && s'.nextToken == s.nextToken && s'.queue == s.queue && s'.workers == s.workers
    requires s'.conns == s.conns[c := Refuse(Unregister(s.conns[c], job.id), job.id, size)]
    ensures Registry(s')
  {
    assert job.conn == c;
    RefusedPlaces(s, s', c, job, size);
    DeleteKeeps(Holders(s), Holders(s'), TablesOf(s), TablesOf(s'), s.nextToken, AtReader(c));
    RemoveShrinks(s.conns[c].active, job.id);
  }

  lemma RefusalKeepsRegistry(s: State, step: Step)
    requires Registry(s) && (step.RefuseContext? || step.RemoveRejected?) && step.c in s.conns
    ensures Registry(ReaderNext(s, step.c, step))
  {
    var s', c := ReaderNext(s, step.c, step), step.c;
    var reader := s.conns[c].reader;
    if (step.RefuseContext? && reader.Registered?) || (step.RemoveRejected? && reader.Rejected?) {
      assert ReaderJob(reader) == Some(reader.job);
      RefusedKeeps(s, s', c, reader.job, step.size);
    } else {
      assert s'.conns == s.conns;
      SameHoldersKeepRegistry(s, s');
    }
  }

  lemma RemovedPlaces(s: State, s': State, w: WorkerId)
    requires w in s.workers && s.workers[w].Closing? && s.workers[w].job.conn in s.conns
    requires var job := s.workers[w].job;
             && s'.queue == s.queue && s'.workers == s.workers[w := Removed(job)]
             && s'.conns == s.conns[job.conn := s.conns[job.conn].(active := s.conns[job.conn].active - {job.id})]
    ensures forall p :: Holders(s')(p) == if p == AtWorker(w) then None else Holders(s)(p)
    ensures Holders(s)(AtWorker(w)) == Some(s.workers[w].job)
    ensures TablesOf(s') == Deleted(TablesOf(s), s.workers[w].job)
  {
  }

  lemma RemovedKeeps(s: State, s': State, w: WorkerId)
    requires Registry(s) && w in s.workers && s.workers[w].Closing? && s.workers[w].job.conn in s.conns
    requires s'.config == s.config && s'.nextToken == s.nextToken
    requires var job := s.workers[w].job;
             && s'.queue == s.queue && s'.workers == s.workers[w := Removed(job)]
             && s'.conns == s.conns[job.conn := s.conns[job.conn].(active := s.conns[job.conn].active - {job.id})]
    ensures Registry(s')
  {
    var job := s.workers[w].job;
    RemovedPlaces(s, s', w);
    DeleteKeeps(Holders(s), Holders(s'), TablesOf(s), TablesOf(s'), s.nextToken, AtWorker(w));
    RemoveShrinks(s.conns[job.conn].active, job.id);
  }

  lemma RemoveKeepsRegistry(s: State, step: Step)
    requires Registry(s) && step.Remove? && step.w in s.workers
    ensures Registry(WorkerNext(s, step.w, step))
  {
    var s', w := WorkerNext(s, step.w, step), step.w;
    if s.workers[w].Closing? {
      assert HeldAt(s, AtWorker(w)) == Some(s.workers[w].job);
      assert Owns(TablesOf(s), Holders(s)(AtWorker(w)).value);
      RemovedKeeps(s, s', w);
    } else {
      assert WorkerAfter(s.workers[w], step, s.queue) == s.workers[w];
      SameHoldersKeepRegistry(s, s');
    }
  }

  lemma OtherWorkerStepsKeepRegistry(s: State, step: Step)
    requires Registry(s) && !MovesJob(step) && IsWorkerStep(step) && step.w in s.workers
    ensures Registry(WorkerNext(s, step.w, step))
  {
    OtherWorkerStepsKeepHolders(s, step);
    SameHoldersKeepRegistry(s, WorkerNext(s, step.w, step));
  }

  lemma OtherReaderStepsKeepRegistry(s: State, step: Step)
    requires Registry(s) && !MovesJob(step) && !IsWorkerStep(step) && step.c in s.conns
    ensures Registry(ReaderNext(s, step.c, step))
  {
    OtherReaderStepsKeepHolders(s, step);
    SameHoldersKeepRegistry(s, ReaderNext(s, step.c, step));
  }

  lemma WorkerKeepsRegistry(s: State, step: Step)
    requires Registry(s) && IsWorkerStep(step) && step.w in s.workers
    ensures Registry(WorkerNext(s, step.w, step))
  {
    if step.Take? {
      TakeKeepsRegistry(s, step);
    } else if step.Remove? {
      RemoveKeepsRegistry(s, step);
    } else {
      OtherWorkerStepsKeepRegistry(s, step);
    }
  }

  lemma ReaderKeepsRegistry(s: State, step: Step)
    requires Registry(s) && RepliesFree(s) && !IsWorkerStep(step) && step.c in s.conns
    ensures Registry(ReaderNext(s, step.c, step))
  {
    if step.Register? {
      RegisterKeepsRegistry(s, step);
    } else if step.TrySend? {
      TrySendKeepsRegistry(s, step);
    } else if step.RefuseContext? || step.RemoveRejected? {
      RefusalKeepsRegistry(s, step);
    } else {
      OtherReaderStepsKeepRegistry(s, step);
    }
  }

  lemma KeepsRegistry(s: State, step: Step)
    requires Registry(s) && RepliesFree(s)
    ensures Registry(Next(s, step))
  {
    if IsWorkerStep(step) {
      if step.w in s.workers {
        WorkerKeepsRegistry(s, step);
      }
    } else if step.c in s.conns {
      ReaderKeepsRegistry(s, step);
    }
  }

  lemma ReaderRepliesFree(conn: Conn, step: Step, maxActive: nat, room: bool, token: Token)
    requires ReplyFree(conn)
    ensures ReplyFree(ConnAfter(conn, step, maxActive, room, token))
  {
  }

  lemma WorkerRepliesFree(conn: Conn, worker: Worker, step: Step)
    requires ReplyFree(conn)
    ensures ReplyFree(ConnUnder(conn, worker, step))
  {
  }

  lemma KeepsRepliesFree(s: State, step: Step)
    requires RepliesFree(s)
    ensures RepliesFree(Next(s, step))
  {
    if IsWorkerStep(step) && step.w in s.workers {
      var worker := s.workers[step.w];
      if Touches(s, worker) {
        WorkerRepliesFree(s.conns[WorkerJob(worker).value.conn], worker, step);
      }
    } else if !IsWorkerStep(step) && step.c in s.conns {
      ReaderRepliesFree(s.conns[step.c], step, s.config.maxActive, |s.queue| < s.config.queueDepth, s.nextToken);
    }
  }

  lemma ReaderStaysDisconnected(conn: Conn, step: Step, maxActive: nat, room: bool, token: Token)
    requires conn.disconnected
    ensures ConnAfter(conn, step, maxActive, room, token).disconnected
  {
  }

  lemma WorkerStaysDisconnected(conn: Conn, worker: Worker, step: Step)
    requires conn.disconnected
    ensures ConnUnder(conn, worker, step).disconnected
  {
  }

  lemma StaysDisconnectedByReader(s: State, step: Step, c: ConnId)
    requires c in s.conns && !IsWorkerStep(step) && step.c in s.conns
    ensures var s' := ReaderNext(s, step.c, step);
            c in s'.conns && (s.conns[c].disconnected ==> s'.conns[c].disconnected)
  {
    if c == step.c && s.conns[c].disconnected {
      ReaderStaysDisconnected(s.conns[c], step, s.config.maxActive, |s.queue| < s.config.queueDepth, s.nextToken);
    }
  }

  lemma StaysDisconnectedByWorker(s: State, step: Step, c: ConnId)
    requires c in s.conns && IsWorkerStep(step) && step.w in s.workers
    ensures var s' := WorkerNext(s, step.w, step);
            c in s'.conns && (s.conns[c].disconnected ==> s'.conns[c].disconnected)
  {
    if s.conns[c].disconnected {
      WorkerStaysDisconnected(s.conns[c], s.workers[step.w], step);
    }
  }

  lemma StaysDisconnected(s: State, step: Step, c: ConnId)
    requires c in s.conns
    ensures c in Next(s, step).conns && (s.conns[c].disconnected ==> Next(s, step).conns[c].disconnected)
  {
    if IsWorkerStep(step) {
      if step.w in s.workers {
        StaysDisconnectedByWorker(s, step, c);
      }
    } else if step.c in s.conns {
      StaysDisconnectedByReader(s, step, c);
    }
  }

  lemma WorkerLives(worker: Worker, conn: Conn, step: Step, queue: seq<Job>)
    requires worker.Running? && worker.life.Streaming? ==> worker.life.next <= U32_MAX
    requires worker.Closing? ==> worker.life == Terminal || conn.disconnected
    ensures var after := WorkerAfter(worker, step, queue);
            && (after.Running? && after.life.Streaming? ==> after.life.next <= U32_MAX)
            && (after.Closing? ==> after.life == Terminal || ConnUnder(conn, worker, step).disconnected)
            && (after.Closing? || after.Running? ==> WorkerJob(after) == WorkerJob(worker))
  {
  }

  /** What the two predicates on running and closing workers say of one worker. */
  predicate LifeFits(worker: Worker, conns: map<ConnId, Conn>) {
    && (worker.Running? && worker.life.Streaming? ==> worker.life.next <= U32_MAX)
    && (worker.Closing? && worker.job.conn in conns ==> worker.life == Terminal || conns[worker.job.conn].disconnected)
  }

  lemma MovedWorkerFits(s: State, step: Step)
    requires IsWorkerStep(step) && step.w in s.workers && LifeFits(s.workers[step.w], s.conns)
    ensures var s' := WorkerNext(s, step.w, step); LifeFits(s'.workers[step.w], s'.conns)
  {
    var s', worker := WorkerNext(s, step.w, step), s.workers[step.w];
    var after := s'.workers[step.w];
    if after.Closing? && after.job.conn in s.conns {
      WorkerLives(worker, s.conns[after.job.conn], step, s.queue);
      StaysDisconnectedByWorker(s, step, after.job.conn);
    } else {
      WorkerLives(worker, Conn(map[], true, [], AtLoop), step, s.queue);
    }
  }

  lemma KeepsLives(s: State, step: Step)
    requires LivesBounded(s) && ClosedOrGone(s)
    ensures LivesBounded(Next(s, step)) && ClosedOrGone(Next(s, step))
  {
    var s' := Next(s, step);
    forall w | w in s'.workers
      ensures LifeFits(s'.workers[w], s'.conns)
    {
      assert LifeFits(s.workers[w], s.conns);
      if IsWorkerStep(step) && w == step.w {
        MovedWorkerFits(s, step);
      } else {
        assert s'.workers[w] == s.workers[w];
        if s.workers[w].Closing? && s.workers[w].job.conn in s.conns {
          StaysDisconnected(s, step, s.workers[w].job.conn);
        }
      }
    }
  }

  lemma OwnershipPreserved(s: State, step: Step)
    requires Ownership(s)
    ensures Ownership(Next(s, step))
  {
    KeepsRegistry(s, step);
    KeepsRepliesFree(s, step);
    KeepsLives(s, step);
  }
}
