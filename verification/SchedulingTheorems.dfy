/** What clients and operators of the server see, for every interleaving of readers and workers. */
module SchedulingTheorems {
  import opened Wrappers
  import opened WireGrammar
  import opened Runtime
  import opened JobRegistry
  import opened Scheduling

  // ------------------------------------------------------------------ the wire of one request id

  predicate Streams(worker: Worker, c: ConnId, id: RequestId) {
    worker.Running? && worker.job.conn == c && worker.job.id == id
  }

  /** A response in progress on the wire belongs to the worker that runs the id, and has got as
      far as that worker's sink says. */
  ghost predicate WireMatches(workers: map<WorkerId, Worker>, c: ConnId, id: RequestId, track: Track) {
    && (forall w | w in workers && Streams(workers[w], c, id) :: track == Progress(workers[w].life))
    && (track != Closed ==> exists w :: w in workers && Streams(workers[w], c, id))
  }

  function IdTrack(s: State, c: ConnId, id: RequestId): Track
    requires c in s.conns
  {
    TrackOf(Only(s.conns[c].wire, id))
  }

  ghost predicate WireFollowsWorkers(s: State) {
    forall c, id | c in s.conns && !s.conns[c].disconnected :: WireMatches(s.workers, c, id, IdTrack(s, c, id))
  }

  /** The entry of the table decides who may hold an id. */
  lemma OneHolder(s: State, p: Place, q: Place)
    requires Ownership(s) && HeldAt(s, p).Some? && HeldAt(s, q).Some?
    requires HeldAt(s, p).value.conn == HeldAt(s, q).value.conn && HeldAt(s, p).value.id == HeldAt(s, q).value.id
    ensures p == q
  {
    assert Owns(TablesOf(s), Holders(s)(p).value) && Owns(TablesOf(s), Holders(s)(q).value);
  }

  lemma HolderIsActive(s: State, p: Place)
    requires Ownership(s) && HeldAt(s, p).Some?
    ensures var job := HeldAt(s, p).value;
            job.conn in s.conns && job.id in s.conns[job.conn].active && s.conns[job.conn].active[job.id] == job.token
  {
    assert Owns(TablesOf(s), Holders(s)(p).value);
  }

  lemma InactiveIdIsQuiet(s: State, c: ConnId, id: RequestId)
    requires Ownership(s) && WireFollowsWorkers(s)
    requires c in s.conns && !s.conns[c].disconnected && id !in s.conns[c].active
    ensures IdTrack(s, c, id) == Closed
    ensures forall w | w in s.workers :: !Streams(s.workers[w], c, id)
  {
    forall w | w in s.workers ensures !Streams(s.workers[w], c, id) {
      if Streams(s.workers[w], c, id) {
        HolderIsActive(s, AtWorker(w));
      }
    }
    assert WireMatches(s.workers, c, id, IdTrack(s, c, id));
  }

  lemma ReaderWire(conn: Conn, step: Step, maxActive: nat, room: bool, token: Token)
    ensures var after := ConnAfter(conn, step, maxActive, room, token);
            && (conn.disconnected ==> after.disconnected)
            && (after.disconnected || after.wire == conn.wire
                || (conn.reader.Replying? && after.wire == conn.wire + [conn.reader.frame]))
  {
  }

  lemma ReaderKeepsWire(s: State, step: Step)
    requires Ownership(s) && WireFollowsWorkers(s) && !IsWorkerStep(step) && step.c in s.conns
    ensures WireFollowsWorkers(ReaderNext(s, step.c, step))
  {
    var s', d := ReaderNext(s, step.c, step), step.c;
    ReaderWire(s.conns[d], step, s.config.maxActive, |s.queue| < s.config.queueDepth, s.nextToken);
    forall c, id | c in s'.conns && !s'.conns[c].disconnected
      ensures WireMatches(s'.workers, c, id, IdTrack(s', c, id))
    {
      assert WireMatches(s.workers, c, id, IdTrack(s, c, id));
      if s'.conns[c].wire != s.conns[c].wire {
        var f := s.conns[c].reader.frame;
        EnqueueTracks(s.conns[c].wire, f, id);
        if f.id == Some(id) {
          InactiveIdIsQuiet(s, c, id);
        }
      }
    }
  }

  lemma UntouchedMatches(workers: map<WorkerId, Worker>, w: WorkerId, worker: Worker, c: ConnId, id: RequestId,
                         track: Track)
    requires w in workers && WireMatches(workers, c, id, track)
    requires !Streams(workers[w], c, id) && !Streams(worker, c, id)
    ensures WireMatches(workers[w := worker], c, id, track)
  {
    if track != Closed {
      var v :| v in workers && Streams(workers[v], c, id);
      assert v in workers[w := worker] && Streams(workers[w := worker][v], c, id);
    }
  }

  /** The only worker of an id after its step: what it has written is what its sink says. */
  lemma OwnerMatches(s: State, w: WorkerId, worker: Worker, track: Track)
    requires Ownership(s) && w in s.workers && WorkerJob(s.workers[w]).Some?
    requires worker.Running? ==> worker.job == WorkerJob(s.workers[w]).value && track == Progress(worker.life)
    requires !worker.Running? ==> track == Closed
    ensures var job := WorkerJob(s.workers[w]).value; WireMatches(s.workers[w := worker], job.conn, job.id, track)
  {
    var job := WorkerJob(s.workers[w]).value;
    var after := s.workers[w := worker];
    forall v | v in after && v != w ensures !Streams(after[v], job.conn, job.id) {
      if Streams(after[v], job.conn, job.id) {
        OneHolder(s, AtWorker(v), AtWorker(w));
      }
    }
    if track != Closed {
      assert w in after && Streams(after[w], job.conn, job.id);
    }
  }

  /** What a worker's step does to its own id on its connection. */
  lemma WorkerWire(conn: Conn, worker: Worker, step: Step, queue: seq<Job>, track: Track)
    requires WorkerJob(worker).Some?
    requires worker.Running? ==>
              track == Progress(worker.life) && (worker.life.Streaming? ==> worker.life.next <= U32_MAX)
    requires !worker.Running? ==> track == Closed
    requires track == TrackOf(Only(conn.wire, WorkerJob(worker).value.id))
    ensures var after, conn' := WorkerAfter(worker, step, queue), ConnUnder(conn, worker, step);
            var id := WorkerJob(worker).value.id;
            conn'.disconnected ||
            (&& (after.Running? ==>
                   after.job == WorkerJob(worker).value && TrackOf(Only(conn'.wire, id)) == Progress(after.life))
             && (!after.Running? ==> TrackOf(Only(conn'.wire, id)) == Closed))
  {
    var id := WorkerJob(worker).value.id;
    if worker.Running? {
      match step
      case Send(_, f) =>
        EnqueueTracks(conn.wire, f, id);
        ValidateIsGrammar(worker.life, id, f);
      case Terminate(_, _, size) =>
        if !worker.life.Terminal? {
          EnqueueTracks(conn.wire, TerminalFrame(worker.life, id, size), id);
          TerminalFrameCloses(worker.life, id, size);
        }
      case _ =>
    }
  }

  lemma WorkerWireOthers(conn: Conn, worker: Worker, step: Step, id: RequestId)
    requires WorkerJob(worker).Some? && WorkerJob(worker).value.id != id
    requires worker.Running? && worker.life.Streaming? ==> worker.life.next <= U32_MAX
    ensures TrackOf(Only(ConnUnder(conn, worker, step).wire, id)) == TrackOf(Only(conn.wire, id))
    ensures conn.disconnected ==> ConnUnder(conn, worker, step).disconnected
  {
    match step
    case Send(_, f) =>
      EnqueueTracks(conn.wire, f, id);
      if worker.Running? {
        ValidateIsGrammar(worker.life, worker.job.id, f);
      }
    case Terminate(_, _, size) =>
      if worker.Running? && !worker.life.Terminal? {
        EnqueueTracks(conn.wire, TerminalFrame(worker.life, worker.job.id, size), id);
        TerminalFrameCloses(worker.life, worker.job.id, size);
      }
    case _ =>
  }

  lemma OwnerTrack(s: State, w: WorkerId)
    requires Ownership(s) && WireFollowsWorkers(s) && w in s.workers && Touches(s, s.workers[w])
    requires !s.conns[WorkerJob(s.workers[w]).value.conn].disconnected
    ensures var job := WorkerJob(s.workers[w]).value;
            IdTrack(s, job.conn, job.id) == if s.workers[w].Running? then Progress(s.workers[w].life) else Closed
  {
    var job := WorkerJob(s.workers[w]).value;
    assert WireMatches(s.workers, job.conn, job.id, IdTrack(s, job.conn, job.id));
    if s.workers[w].Running? {
      assert Streams(s.workers[w], job.conn, job.id);
    } else {
      forall v | v in s.workers ensures !Streams(s.workers[v], job.conn, job.id) {
        if Streams(s.workers[v], job.conn, job.id) {
          OneHolder(s, AtWorker(v), AtWorker(w));
        }
      }
    }
  }

  lemma IdleWorkerStays(worker: Worker, step: Step, queue: seq<Job>)
    requires WorkerJob(worker).None?
    ensures !WorkerAfter(worker, step, queue).Running?
  {
  }

  lemma SameJobAfter(worker: Worker, step: Step, queue: seq<Job>)
    requires WorkerJob(worker).Some?
    ensures WorkerAfter(worker, step, queue).Running? ==>
              WorkerAfter(worker, step, queue).job == WorkerJob(worker).value
  {
  }

  lemma WorkerKeepsWireOf(s: State, step: Step, c: ConnId, id: RequestId)
    requires Ownership(s) && WireFollowsWorkers(s) && IsWorkerStep(step) && step.w in s.workers
    requires c in s.conns && !WorkerNext(s, step.w, step).conns[c].disconnected
    ensures WireMatches(WorkerNext(s, step.w, step).workers, c, id, IdTrack(WorkerNext(s, step.w, step), c, id))
  {
    var s', w := WorkerNext(s, step.w, step), step.w;
    var worker, after := s.workers[w], s'.workers[w];
    if WorkerJob(worker).None? {
      IdleWorkerStays(worker, step, s.queue);
      UntouchedMatches(s.workers, w, after, c, id, IdTrack(s, c, id));
    } else {
      var job := WorkerJob(worker).value;
      HolderIsActive(s, AtWorker(w));
      SameJobAfter(worker, step, s.queue);
      StaysDisconnected(s, step, c);
      if c == job.conn && id == job.id {
        OwnerTrack(s, w);
        WorkerWire(s.conns[c], worker, step, s.queue, IdTrack(s, c, id));
        OwnerMatches(s, w, after, IdTrack(s', c, id));
      } else {
        if c == job.conn {
          WorkerWireOthers(s.conns[c], worker, step, id);
        }
        UntouchedMatches(s.workers, w, after, c, id, IdTrack(s, c, id));
      }
    }
  }

  lemma WirePreserved(s: State, step: Step)
    requires Ownership(s) && WireFollowsWorkers(s)
    ensures WireFollowsWorkers(Next(s, step))
  {
    if IsWorkerStep(step) && step.w in s.workers {
      var s' := Next(s, step);
      forall c, id | c in s'.conns && !s'.conns[c].disconnected
        ensures WireMatches(s'.workers, c, id, IdTrack(s', c, id))
      {
        WorkerKeepsWireOf(s, step, c, id);
      }
    } else if !IsWorkerStep(step) && step.c in s.conns {
      ReaderKeepsWire(s, step);
    }
  }

  // ------------------------------------------------------------------ conservation of jobs

  function Matching<T>(m: map<nat, T>, f: T -> bool): set<nat> {
    set k | k in m && f(m[k])
  }

  function Tally<T>(m: map<nat, T>, f: T -> bool): nat {
    |Matching(m, f)|
  }

  lemma TallyUpdate<T>(m: map<nat, T>, k: nat, v: T, f: T -> bool)
    requires k in m
    ensures Tally(m[k := v], f) == Tally(m, f) - (if f(m[k]) then 1 else 0) + (if f(v) then 1 else 0)
  {
    var before, after := Matching(m, f), Matching(m[k := v], f);
    assert after == before - {k} + (if f(v) then {k} else {});
    if k in before {
      assert before == before - {k} + {k};
    } else {
      assert before == before - {k};
    }
  }

  lemma TallyNone<T>(m: map<nat, T>, f: T -> bool)
    requires forall k | k in m :: !f(m[k])
    ensures Tally(m, f) == 0
  {
    assert Matching(m, f) == {};
  }

  lemma TallyHas<T>(m: map<nat, T>, f: T -> bool, k: nat)
    requires k in m && f(m[k])
    ensures Tally(m, f) > 0
  {
    assert k in Matching(m, f);
  }

  /** The reader has counted its job as queued and not yet handed it over or uncounted it. */
  predicate Offering(conn: Conn) {
    conn.reader.Submitting? || conn.reader.Refused?
  }

  /** The reader is inside `submit`. */
  predicate InSubmit(conn: Conn) {
    Offering(conn) || conn.reader.Uncounted?
  }

  predicate JustReceived(worker: Worker) {
    worker.Received?
  }

  predicate CountedActive(worker: Worker) {
    worker.Running? || worker.Closing? || worker.Removed?
  }

  predicate Busy(worker: Worker) {
    !worker.Waiting?
  }

  /** The counters of the scheduler, exact at every micro-step. */
  ghost predicate JobsConserved(s: State) {
    && s.stats.queued == Tally(s.conns, Offering) + |s.queue| + Tally(s.workers, JustReceived)
    && s.stats.active == Tally(s.workers, CountedActive)
    && s.submitted == Tally(s.conns, InSubmit) + s.stats.rejected + |s.queue| + Tally(s.workers, Busy)
       + s.stats.completed
    && 0 <= s.stats.rejected && 0 <= s.stats.completed
  }

  function One(b: bool): int {
    if b then 1 else 0
  }

  lemma ReaderCounts(conn: Conn, stats: Stats, step: Step, maxActive: nat, room: bool, token: Token)
    ensures var after, stats' := ConnAfter(conn, step, maxActive, room, token), ReaderStats(stats, conn.reader, step);
            var accepted, submits := One(Accepts(conn, step, room)), One(conn.reader.Registered? && step.BeginSubmit?);
            && stats'.queued - stats.queued == One(Offering(after)) - One(Offering(conn)) + accepted
            && stats'.active == stats.active && stats'.completed == stats.completed
            && submits == One(InSubmit(after)) - One(InSubmit(conn)) + accepted + stats'.rejected - stats.rejected
            && stats.rejected <= stats'.rejected
  {
  }

  lemma WorkerCounts(worker: Worker, conn: Conn, stats: Stats, step: Step, queue: seq<Job>)
    ensures var after, stats' := WorkerAfter(worker, step, queue), WorkerStats(stats, worker, step);
            var taken := One(step.Take? && worker.Waiting? && queue != []);
            && stats'.queued - stats.queued == One(JustReceived(after)) - One(JustReceived(worker)) - taken
            && stats'.active - stats.active == One(CountedActive(after)) - One(CountedActive(worker))
            && stats'.rejected == stats.rejected && stats.completed <= stats'.completed
            && 0 == One(Busy(after)) - One(Busy(worker)) - taken + stats'.completed - stats.completed
    ensures ConnUnder(conn, worker, step).reader == conn.reader
  {
  }

  lemma ReaderKeepsJobs(s: State, step: Step)
    requires JobsConserved(s) && !IsWorkerStep(step) && step.c in s.conns
    ensures JobsConserved(ReaderNext(s, step.c, step))
  {
    var s', c := ReaderNext(s, step.c, step), step.c;
    var after := s'.conns[c];
    ReaderCounts(s.conns[c], s.stats, step, s.config.maxActive, |s.queue| < s.config.queueDepth, s.nextToken);
    TallyUpdate(s.conns, c, after, Offering);
    TallyUpdate(s.conns, c, after, InSubmit);
    assert |s'.queue| == |s.queue| + One(Accepts(s.conns[c], step, |s.queue| < s.config.queueDepth));
  }

  lemma WorkerLeavesReaders(s: State, step: Step)
    requires IsWorkerStep(step) && step.w in s.workers
    ensures var s' := WorkerNext(s, step.w, step);
            Tally(s'.conns, Offering) == Tally(s.conns, Offering)
                && Tally(s'.conns, InSubmit) == Tally(s.conns, InSubmit)
  {
    var worker := s.workers[step.w];
    if Touches(s, worker) {
      var c := WorkerJob(worker).value.conn;
      var after := ConnUnder(s.conns[c], worker, step);
      WorkerCounts(worker, s.conns[c], s.stats, step, s.queue);
      TallyUpdate(s.conns, c, after, Offering);
      TallyUpdate(s.conns, c, after, InSubmit);
    }
  }

  lemma WorkerKeepsJobs(s: State, step: Step)
    requires JobsConserved(s) && IsWorkerStep(step) && step.w in s.workers
    ensures JobsConserved(WorkerNext(s, step.w, step))
  {
    var s', worker := WorkerNext(s, step.w, step), s.workers[step.w];
    var after := WorkerAfter(worker, step, s.queue);
    WorkerLeavesReaders(s, step);
    WorkerCounts(worker, Conn(map[], false, [], AtLoop), s.stats, step, s.queue);
    TallyUpdate(s.workers, step.w, after, JustReceived);
    TallyUpdate(s.workers, step.w, after, CountedActive);
    TallyUpdate(s.workers, step.w, after, Busy);
  }

  lemma JobsPreserved(s: State, step: Step)
    requires JobsConserved(s)
    ensures JobsConserved(Next(s, step))
  {
    if IsWorkerStep(step) && step.w in s.workers {
      WorkerKeepsJobs(s, step);
    } else if !IsWorkerStep(step) && step.c in s.conns {
      ReaderKeepsJobs(s, step);
    }
  }

  // ------------------------------------------------------------------ whole runs

  ghost predicate Inv(s: State) {
    Ownership(s) && WireFollowsWorkers(s) && JobsConserved(s)
  }

  lemma InitInv(config: Config, conns: set<ConnId>, workers: set<WorkerId>)
    ensures Inv(Init(config, conns, workers))
  {
    var s := Init(config, conns, workers);
    forall p ensures Holders(s)(p) == None {
    }
    TallyNone(s.conns, Offering);
    TallyNone(s.conns, InSubmit);
    TallyNone(s.workers, JustReceived);
    TallyNone(s.workers, CountedActive);
    TallyNone(s.workers, Busy);
  }

  lemma {:induction false} RunKeepsInv(s: State, steps: seq<Step>)
    requires Inv(s)
    ensures Inv(Exec(s, steps))
    decreases |steps|
  {
    if steps == [] {
    } else {
      OwnershipPreserved(s, steps[0]);
      WirePreserved(s, steps[0]);
      JobsPreserved(s, steps[0]);
      RunKeepsInv(Next(s, steps[0]), steps[1..]);
    }
  }

  lemma ReachableInv(config: Config, conns: set<ConnId>, workers: set<WorkerId>, steps: seq<Step>)
    ensures Inv(Exec(Init(config, conns, workers), steps))
  {
    InitInv(config, conns, workers);
    RunKeepsInv(Init(config, conns, workers), steps);
  }

  /** Wire legality: on a connection that is not disconnected, the frames enqueued for any id
      are complete responses followed by at most one unfinished one, however readers and
      workers interleave and however often the id is reused. */
  lemma WireIsLegal(config: Config, conns: set<ConnId>, workers: set<WorkerId>, steps: seq<Step>, c: ConnId,
                    id: RequestId)
    ensures var s := Exec(Init(config, conns, workers), steps);
            c in s.conns && !s.conns[c].disconnected ==> Legal(Only(s.conns[c].wire, id))
  {
    ReachableInv(config, conns, workers, steps);
    var s := Exec(Init(config, conns, workers), steps);
    if c in s.conns && !s.conns[c].disconnected {
      var track := IdTrack(s, c, id);
      assert WireMatches(s.workers, c, id, track);
      if track != Closed {
        var w :| w in s.workers && Streams(s.workers[w], c, id);
      }
      LegalIffNotBroken(Only(s.conns[c].wire, id));
    }
  }

  /** An id that is not in the request table has only complete responses on the wire, so its
      next use starts a new one. */
  lemma ReleasedIdIsComplete(config: Config, conns: set<ConnId>, workers: set<WorkerId>, steps: seq<Step>, c: ConnId,
                             id: RequestId)
    ensures var s := Exec(Init(config, conns, workers), steps);
            c in s.conns && !s.conns[c].disconnected && id !in s.conns[c].active ==>
              TrackOf(Only(s.conns[c].wire, id)) == Closed
  {
    ReachableInv(config, conns, workers, steps);
    var s := Exec(Init(config, conns, workers), steps);
    if c in s.conns && !s.conns[c].disconnected && id !in s.conns[c].active {
      InactiveIdIsQuiet(s, c, id);
    }
  }

  /** Conservation of jobs: every submission is rejected, queued, in a worker's hands or
      completed, no counter is ever negative, and when nobody is in the middle of a step the
      published counters say so exactly. */
  lemma JobsAreConserved(config: Config, conns: set<ConnId>, workers: set<WorkerId>, steps: seq<Step>)
    ensures var s := Exec(Init(config, conns, workers), steps);
            && JobsConserved(s)
            && 0 <= s.stats.queued && 0 <= s.stats.active
            && ((forall c | c in s.conns :: !InSubmit(s.conns[c]))
                && (forall w | w in s.workers :: s.workers[w].Waiting?)
                ==>
                  && s.stats.queued == |s.queue| && s.stats.active == 0
                  && s.submitted == s.stats.rejected + |s.queue| + s.stats.completed)
  {
    ReachableInv(config, conns, workers, steps);
    var s := Exec(Init(config, conns, workers), steps);
    if (forall c | c in s.conns :: !InSubmit(s.conns[c])) && (forall w | w in s.workers :: s.workers[w].Waiting?) {
      TallyNone(s.conns, InSubmit);
      TallyNone(s.conns, Offering);
      TallyNone(s.workers, JustReceived);
      TallyNone(s.workers, CountedActive);
      TallyNone(s.workers, Busy);
    }
  }

  /** No counter is decremented at zero. */
  lemma DecrementsFindJobs(s: State, c: ConnId, w: WorkerId)
    requires Inv(s)
    ensures c in s.conns && s.conns[c].reader.Refused? ==> s.stats.queued > 0
    ensures w in s.workers && s.workers[w].Received? ==> s.stats.queued > 0
    ensures w in s.workers && s.workers[w].Removed? ==> s.stats.active > 0
  {
    if c in s.conns && s.conns[c].reader.Refused? {
      TallyHas(s.conns, Offering, c);
    }
    if w in s.workers && s.workers[w].Received? {
      TallyHas(s.workers, JustReceived, w);
    }
    if w in s.workers && s.workers[w].Removed? {
      TallyHas(s.workers, CountedActive, w);
    }
  }

  predicate Holds(s: State, p: Place, c: ConnId, id: RequestId) {
    HeldAt(s, p).Some? && HeldAt(s, p).value.conn == c && HeldAt(s, p).value.id == id
  }

  lemma {:induction false} RunKeepsConfig(s: State, steps: seq<Step>)
    ensures Exec(s, steps).config == s.config
    decreases |steps|
  {
    if steps == [] {
    } else {
      RunKeepsConfig(Next(s, steps[0]), steps[1..]);
    }
  }

  lemma HolderOf(s: State, c: ConnId, id: RequestId) returns (p: Place)
    requires Ownership(s) && c in s.conns && id in s.conns[c].active
    ensures HeldAt(s, p) == Some(Job(c, id, s.conns[c].active[id]))
  {
    assert TablesOf(s)[c] == s.conns[c].active;
    assert JobRegistry.Held(Holders(s), Job(c, id, TablesOf(s)[c][id]));
    p :| Holders(s)(p) == Some(Job(c, id, TablesOf(s)[c][id]));
  }

  /** The table of a connection lists exactly the ids being registered, queued or run, at most
      `maxActive` of them, and each of them has exactly one holder. */
  lemma TableIsExact(config: Config, conns: set<ConnId>, workers: set<WorkerId>, steps: seq<Step>, c: ConnId,
                     id: RequestId)
    ensures var s := Exec(Init(config, conns, workers), steps);
            c in s.conns ==>
              && |s.conns[c].active| <= config.maxActive
              && (id in s.conns[c].active <==> exists p :: Holds(s, p, c, id))
              && (forall p, q | Holds(s, p, c, id) && Holds(s, q, c, id) :: p == q)
  {
    ReachableInv(config, conns, workers, steps);
    var s := Exec(Init(config, conns, workers), steps);
    RunKeepsConfig(Init(config, conns, workers), steps);
    if c in s.conns {
      if id in s.conns[c].active {
        var p := HolderOf(s, c, id);
        assert Holds(s, p, c, id);
      }
      forall p | Holds(s, p, c, id) ensures id in s.conns[c].active {
        HolderIsActive(s, p);
      }
      forall p, q | Holds(s, p, c, id) && Holds(s, q, c, id) ensures p == q {
        OneHolder(s, p, q);
      }
    }
  }

  /** Removing an id when a job ends removes the entry that very job registered, and by then its
      response is closed or its connection is gone. */
  lemma EndedJobRemovesItself(config: Config, conns: set<ConnId>, workers: set<WorkerId>, steps: seq<Step>, w: WorkerId)
    ensures var s := Exec(Init(config, conns, workers), steps);
            w in s.workers && s.workers[w].Closing? ==>
              var job := s.workers[w].job;
              && job.conn in s.conns && job.id in s.conns[job.conn].active
              && s.conns[job.conn].active[job.id] == job.token
              && (s.workers[w].life == Terminal || s.conns[job.conn].disconnected)
  {
    ReachableInv(config, conns, workers, steps);
    var s := Exec(Init(config, conns, workers), steps);
    if w in s.workers && s.workers[w].Closing? {
      HolderIsActive(s, AtWorker(w));
    }
  }

  /** The same for a job that the reader takes back before or after offering it. */
  lemma RefusedJobRemovesItself(config: Config, conns: set<ConnId>, workers: set<WorkerId>, steps: seq<Step>, c: ConnId)
    ensures var s := Exec(Init(config, conns, workers), steps);
            c in s.conns && ReaderJob(s.conns[c].reader).Some? ==>
              var job := ReaderJob(s.conns[c].reader).value;
              job.conn == c && job.id in s.conns[c].active && s.conns[c].active[job.id] == job.token
  {
    ReachableInv(config, conns, workers, steps);
    var s := Exec(Init(config, conns, workers), steps);
    if c in s.conns && ReaderJob(s.conns[c].reader).Some? {
      HolderIsActive(s, AtReader(c));
    }
  }

  lemma CancelAdds(s: State, c: ConnId, target: RequestId, size: nat)
    requires c in s.conns && s.conns[c].reader.Decoded?
    ensures Next(s, CancelTarget(c, target, size)).cancelled ==
            s.cancelled + if target in s.conns[c].active then {s.conns[c].active[target]} else {}
  {
  }

  lemma SameTokenSamePlace(s: State, p: Place, q: Place)
    requires Ownership(s) && HeldAt(s, p).Some? && HeldAt(s, q).Some?
    ensures HeldAt(s, p).value.token == HeldAt(s, q).value.token ==> p == q
  {
    assert Holders(s)(p).Some? && Holders(s)(q).Some?;
  }

  /** Cancelling an id cancels the one job registered under it on that connection, and no other
      job anywhere. */
  lemma CancelHitsItsTarget(s: State, c: ConnId, target: RequestId, size: nat, p: Place)
    requires Ownership(s) && c in s.conns && s.conns[c].reader.Decoded? && HeldAt(s, p).Some?
    requires HeldAt(s, p).value.token !in s.cancelled
    ensures HeldAt(s, p).value.token in Next(s, CancelTarget(c, target, size)).cancelled <==> Holds(s, p, c, target)
  {
    CancelAdds(s, c, target, size);
    if target in s.conns[c].active {
      var q := HolderOf(s, c, target);
      SameTokenSamePlace(s, p, q);
      if Holds(s, p, c, target) {
        OneHolder(s, p, q);
      }
    } else if Holds(s, p, c, target) {
      HolderIsActive(s, p);
    }
  }
}
