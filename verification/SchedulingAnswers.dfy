/** Every request of a connection that stays connected is answered exactly once, and only a
    cancel request or a disconnect cancels a job. */
module SchedulingAnswers {
  import opened Wrappers
  import opened WireGrammar
  import opened Runtime
  import opened JobRegistry
  import opened Scheduling
  import opened SchedulingTheorems

  // ------------------------------------------------------------------ counting responses

  /** The frame ends a response. */
  predicate Ends(f: Frame) {
    f.kind == ResultFrame || f.kind == ErrorFrame || f.kind == EndFrame
  }

  function Answers(fs: seq<Frame>): nat {
    if fs == [] then 0 else Answers(fs[..|fs| - 1]) + if Ends(fs[|fs| - 1]) then 1 else 0
  }

  lemma AnswersAppend(fs: seq<Frame>, f: Frame)
    ensures Answers(fs + [f]) == Answers(fs) + if Ends(f) then 1 else 0
  {
    assert (fs + [f])[..|fs|] == fs;
  }

  lemma {:induction false} AnswersConcat(a: seq<Frame>, b: seq<Frame>)
    ensures Answers(a + b) == Answers(a) + Answers(b)
  {
    if b == [] {
      assert a + b == a;
    } else {
      assert (a + b)[..|a + b| - 1] == a + b[..|b| - 1];
      AnswersConcat(a, b[..|b| - 1]);
    }
  }

  lemma {:induction false} StreamAnswersNothing(fs: seq<Frame>)
    requires Stream(fs)
    ensures Answers(fs) == 0
  {
    if |fs| > 1 {
      StreamAnswersNothing(fs[..|fs| - 1]);
    } else {
      assert fs[..0] == [];
    }
  }

  lemma CompleteAnswersOnce(fs: seq<Frame>)
    requires WireGrammar.Complete(fs)
    ensures Answers(fs) == 1
  {
    if |fs| == 1 {
      assert fs[..0] == [];
    } else {
      StreamAnswersNothing(fs[..|fs| - 1]);
    }
  }

  /** On a legal wire the frames that end a response count the complete responses. */
  lemma {:induction false} AnswersCountResponses(fs: seq<Frame>, parts: seq<seq<Frame>>, rest: seq<Frame>)
    requires Decomposes(fs, parts, rest)
    ensures Answers(fs) == |parts|
    decreases |parts|
  {
    AnswersConcat(Flatten(parts), rest);
    if rest != [] {
      StreamAnswersNothing(rest);
    }
    if parts != [] {
      var last := |parts| - 1;
      AnswersConcat(Flatten(parts[..last]), parts[last]);
      CompleteAnswersOnce(parts[last]);
      assert Flatten(parts[..last]) == Flatten(parts[..last]) + [];
      AnswersCountResponses(Flatten(parts[..last]), parts[..last], []);
    }
  }

  // ------------------------------------------------------------------ requests and what is owed

  predicate Connected(s: State, c: ConnId) {
    c in s.conns && !s.conns[c].disconnected
  }

  predicate ReaderOwes(reader: Reader, id: RequestId) {
    (reader.Decoded? && reader.id == id) || (reader.Replying? && reader.frame.id == Some(id))
  }

  /** The worker has answered the job it still holds. */
  predicate HasAnswered(worker: Worker) {
    worker.Closing? || (worker.Running? && worker.life.Terminal?)
  }

  predicate Serves(worker: Worker, c: ConnId, id: RequestId) {
    WorkerJob(worker).Some? && WorkerJob(worker).value.conn == c && WorkerJob(worker).value.id == id
  }

  ghost predicate AnsweredByWorker(s: State, c: ConnId, id: RequestId) {
    exists w :: w in s.workers && Serves(s.workers[w], c, id) && HasAnswered(s.workers[w])
  }

  predicate OwedBy(conn: Conn, id: RequestId, answered: bool) {
    ReaderOwes(conn.reader, id) || (id in conn.active && !answered)
  }

  /** A request with this id has been decoded and its response is not complete yet. */
  ghost predicate Owed(s: State, c: ConnId, id: RequestId)
    requires c in s.conns
  {
    OwedBy(s.conns[c], id, AnsweredByWorker(s, c, id))
  }

  /** The step decodes a request with this id on this connection. */
  predicate Decodes(s: State, step: Step, c: ConnId, id: RequestId) {
    step == Decode(c, id) && c in s.conns && s.conns[c].reader.AtLoop? && id !in s.conns[c].active
  }

  /** How many requests with this id a run decodes. */
  function Requested(s: State, steps: seq<Step>, c: ConnId, id: RequestId): nat
    decreases |steps|
  {
    if steps == [] then 0
    else (if Decodes(s, steps[0], c, id) then 1 else 0) + Requested(Next(s, steps[0]), steps[1..], c, id)
  }

  /** Complete responses and the one that is owed, if one is. */
  function Balance(conn: Conn, id: RequestId, answered: bool): nat {
    Answers(Only(conn.wire, id)) + if OwedBy(conn, id, answered) then 1 else 0
  }

  lemma EnqueueAnswers(wire: seq<Frame>, f: Frame, id: RequestId)
    ensures Answers(Only(wire + [f], id)) == Answers(Only(wire, id)) + if f.id == Some(id) && Ends(f) then 1 else 0
  {
    OnlyAppend(wire, f, id);
    AnswersAppend(Only(wire, id), f);
    assert Only(wire, id) + [] == Only(wire, id);
  }

  predicate StaysPut(conn: Conn, after: Conn) {
    after.reader == conn.reader && after.active == conn.active
  }

  /** The reader has decoded a request. */
  predicate Begins(conn: Conn, step: Step, after: Conn) {
    && step.Decode? && conn.reader.AtLoop? && step.id !in conn.active
    && after.reader == Decoded(step.id) && after.active == conn.active
  }

  /** The reader has its request in hand as before, in another state. */
  predicate MovesOn(conn: Conn, after: Conn) {
    || (conn.reader.Decoded? && after.reader.Replying? && after.reader.frame.id == Some(conn.reader.id)
        && after.active == conn.active)
    || (conn.reader.Decoded? && ReaderJob(after.reader).Some? && ReaderJob(after.reader).value.id == conn.reader.id
        && after.active.Keys == conn.active.Keys + {conn.reader.id})
    || (ReaderJob(conn.reader).Some? && after.reader.Replying?
        && after.reader.frame.id == Some(ReaderJob(conn.reader).value.id)
        && after.active == conn.active - {ReaderJob(conn.reader).value.id})
    || (ReaderJob(conn.reader).Some? && after.active == conn.active
        && (after.reader.AtLoop? || ReaderJob(after.reader) == ReaderJob(conn.reader)))
  }

  /** What a reader step that sends nothing does to the request it has in hand. */
  predicate QuietReader(conn: Conn, step: Step, after: Conn) {
    || after.disconnected
    || (after.wire == conn.wire && (StaysPut(conn, after) || Begins(conn, step, after) || MovesOn(conn, after)))
  }

  lemma DecodedEffects(conn: Conn, step: Step, maxActive: nat, room: bool, token: Token)
    requires conn.reader.Decoded?
    ensures QuietReader(conn, step, ConnAfter(conn, step, maxActive, room, token))
  {
  }

  lemma HoldingEffects(conn: Conn, step: Step, maxActive: nat, room: bool, token: Token)
    requires ReaderJob(conn.reader).Some?
    ensures QuietReader(conn, step, ConnAfter(conn, step, maxActive, room, token))
  {
  }

  lemma FreeEffects(conn: Conn, step: Step, maxActive: nat, room: bool, token: Token)
    requires conn.reader.AtLoop? || conn.reader.Ended? || (conn.reader.Replying? && !step.Reply?)
    ensures QuietReader(conn, step, ConnAfter(conn, step, maxActive, room, token))
  {
  }

  lemma ReaderEffects(conn: Conn, step: Step, maxActive: nat, room: bool, token: Token)
    requires !(step.Reply? && conn.reader.Replying?)
    ensures QuietReader(conn, step, ConnAfter(conn, step, maxActive, room, token))
  {
    if conn.reader.Decoded? {
      DecodedEffects(conn, step, maxActive, room, token);
    } else if ReaderJob(conn.reader).Some? {
      HoldingEffects(conn, step, maxActive, room, token);
    } else {
      FreeEffects(conn, step, maxActive, room, token);
    }
  }

  lemma MovingOnOwes(conn: Conn, after: Conn, id: RequestId, answered: bool)
    requires MovesOn(conn, after) && ReplyFree(conn) && (answered ==> id in conn.active)
    requires ReaderJob(conn.reader).Some? ==>
               var job := ReaderJob(conn.reader).value; job.id in conn.active && (answered ==> job.id != id)
    ensures OwedBy(after, id, answered) == OwedBy(conn, id, answered)
  {
  }

  lemma ReplyBalance(conn: Conn, step: Step, maxActive: nat, room: bool, token: Token, id: RequestId, answered: bool)
    requires ReplyFree(conn) && step.Reply? && conn.reader.Replying?
    ensures var after := ConnAfter(conn, step, maxActive, room, token);
            after.disconnected || Balance(after, id, answered) == Balance(conn, id, answered)
  {
    EnqueueAnswers(conn.wire, conn.reader.frame, id);
  }

  /** A step of the reader: a decoded request is owed until its reply is on the wire. */
  lemma ReaderBalance(conn: Conn, step: Step, maxActive: nat, room: bool, token: Token, id: RequestId, answered: bool)
    requires ReplyFree(conn) && (answered ==> id in conn.active)
    requires ReaderJob(conn.reader).Some? ==>
               var job := ReaderJob(conn.reader).value; job.id in conn.active && (answered ==> job.id != id)
    ensures var after := ConnAfter(conn, step, maxActive, room, token);
            after.disconnected ||
            Balance(after, id, answered) == Balance(conn, id, answered)
              + if step.Decode? && step.id == id && conn.reader.AtLoop? && id !in conn.active then 1 else 0
  {
    var after := ConnAfter(conn, step, maxActive, room, token);
    if step.Reply? && conn.reader.Replying? {
      ReplyBalance(conn, step, maxActive, room, token, id, answered);
    } else {
      ReaderEffects(conn, step, maxActive, room, token);
      if !after.disconnected && MovesOn(conn, after) {
        MovingOnOwes(conn, after, id, answered);
      }
    }
  }

  predicate SendsFrame(worker: Worker, step: Step) {
    step.Send? && worker.Running? && Validate(worker.life, worker.job.id, step.frame).Ok?
  }

  predicate SendsTerminal(worker: Worker, step: Step) {
    step.Terminate? && step.delivered && worker.Running? && !worker.life.Terminal?
  }

  lemma SendEffects(conn: Conn, worker: Worker, step: Step, queue: seq<Job>)
    requires SendsFrame(worker, step)
    ensures var life' := Validate(worker.life, worker.job.id, step.frame).value;
            && WorkerAfter(worker, step, queue) == Running(worker.job, life')
            && ConnUnder(conn, worker, step) == Enqueue(conn, step.frame)
            && step.frame.id == Some(worker.job.id) && !worker.life.Terminal?
            && (life'.Terminal? <==> Ends(step.frame))
  {
  }

  lemma TerminalEffects(conn: Conn, worker: Worker, step: Step, queue: seq<Job>)
    requires SendsTerminal(worker, step)
    ensures var f := TerminalFrame(worker.life, worker.job.id, step.size);
            && WorkerAfter(worker, step, queue) == Closing(worker.job, Terminal)
            && ConnUnder(conn, worker, step) == Enqueue(conn, f)
            && f.id == Some(worker.job.id) && Ends(f)
  {
  }

  lemma QuietEffects(conn: Conn, worker: Worker, step: Step, queue: seq<Job>)
    requires WorkerJob(worker).Some? && !SendsFrame(worker, step) && !SendsTerminal(worker, step)
    ensures var after, conn' := WorkerAfter(worker, step, queue), ConnUnder(conn, worker, step);
            || conn'.disconnected
            || (conn'.wire == conn.wire && conn'.reader == conn.reader
                && if step.Remove? && worker.Closing? then conn'.active == conn.active - {worker.job.id}
                   else conn'.active == conn.active && HasAnswered(after) == HasAnswered(worker))
  {
  }

  lemma EnqueueBalance(conn: Conn, f: Frame, id: RequestId, before: bool, after: bool)
    requires f.id == Some(id) && id in conn.active && !ReaderOwes(conn.reader, id) && !before
    requires after <==> Ends(f)
    ensures Balance(Enqueue(conn, f), id, after) == Balance(conn, id, before)
  {
    EnqueueAnswers(conn.wire, f, id);
  }

  /** A step of the worker that holds a job, on that job's connection. */
  lemma WorkerBalance(conn: Conn, worker: Worker, step: Step, queue: seq<Job>)
    requires WorkerJob(worker).Some? && ReplyFree(conn) && WorkerJob(worker).value.id in conn.active
    ensures var after, conn' := WorkerAfter(worker, step, queue), ConnUnder(conn, worker, step);
            var id := WorkerJob(worker).value.id;
            conn'.disconnected ||
            Balance(conn', id, HasAnswered(after)) == Balance(conn, id, HasAnswered(worker))
  {
    var id := WorkerJob(worker).value.id;
    if SendsFrame(worker, step) {
      SendEffects(conn, worker, step, queue);
      EnqueueBalance(conn, step.frame, id, false, Ends(step.frame));
    } else if SendsTerminal(worker, step) {
      TerminalEffects(conn, worker, step, queue);
      EnqueueBalance(conn, TerminalFrame(worker.life, id, step.size), id, false, true);
    } else {
      QuietEffects(conn, worker, step, queue);
    }
  }

  lemma WorkerKeepsReader(conn: Conn, worker: Worker, step: Step)
    requires WorkerJob(worker).Some?
    ensures var conn' := ConnUnder(conn, worker, step);
            && conn'.reader == conn.reader
            && (conn'.active == conn.active || conn'.active == conn.active - {WorkerJob(worker).value.id})
  {
  }

  /** What a worker's step puts on the wire carries the id of its job. */
  lemma WorkerAdds(conn: Conn, worker: Worker, step: Step) returns (added: seq<Frame>)
    requires WorkerJob(worker).Some?
    ensures ConnUnder(conn, worker, step).wire == conn.wire + added
    ensures forall i | 0 <= i < |added| :: added[i].id == Some(WorkerJob(worker).value.id)
  {
    added := [];
    assert conn.wire + [] == conn.wire;
    if SendsFrame(worker, step) {
      added := [step.frame];
    } else if SendsTerminal(worker, step) {
      added := [TerminalFrame(worker.life, worker.job.id, step.size)];
    }
  }

  lemma WorkerWritesOwn(conn: Conn, worker: Worker, step: Step, id: RequestId)
    requires WorkerJob(worker).Some? && WorkerJob(worker).value.id != id
    ensures Only(ConnUnder(conn, worker, step).wire, id) == Only(conn.wire, id)
  {
    var added := WorkerAdds(conn, worker, step);
    OthersAreNotOnly(conn.wire, added, id);
  }

  lemma WorkerBalanceOthers(conn: Conn, worker: Worker, step: Step, id: RequestId, answered: bool)
    requires WorkerJob(worker).Some? && WorkerJob(worker).value.id != id
    ensures Balance(ConnUnder(conn, worker, step), id, answered) == Balance(conn, id, answered)
  {
    WorkerWritesOwn(conn, worker, step, id);
    WorkerKeepsReader(conn, worker, step);
  }

  /** Only the holder of an id decides whether its request has been answered. */
  lemma AnsweredIsHolders(s: State, c: ConnId, id: RequestId, w: WorkerId)
    requires Ownership(s) && w in s.workers && Serves(s.workers[w], c, id)
    ensures AnsweredByWorker(s, c, id) <==> HasAnswered(s.workers[w])
  {
    forall v | v in s.workers && Serves(s.workers[v], c, id) ensures v == w {
      OneHolder(s, AtWorker(v), AtWorker(w));
    }
  }

  lemma ReaderStepBalance(s: State, step: Step, c: ConnId, id: RequestId)
    requires Ownership(s) && !IsWorkerStep(step) && step.c in s.conns && c in s.conns
    requires Connected(Next(s, step), c)
    ensures var s' := Next(s, step);
            Balance(s'.conns[c], id, AnsweredByWorker(s', c, id)) ==
            Balance(s.conns[c], id, AnsweredByWorker(s, c, id)) + if Decodes(s, step, c, id) then 1 else 0
  {
    var conn, answered := s.conns[c], AnsweredByWorker(s, c, id);
    assert AnsweredByWorker(Next(s, step), c, id) == answered;
    if c == step.c {
      if answered {
        var w :| w in s.workers && Serves(s.workers[w], c, id) && HasAnswered(s.workers[w]);
        HolderIsActive(s, AtWorker(w));
        if ReaderJob(conn.reader).Some? && ReaderJob(conn.reader).value.id == id {
          OneHolder(s, AtReader(c), AtWorker(w));
        }
      }
      if ReaderJob(conn.reader).Some? {
        HolderIsActive(s, AtReader(c));
      }
      ReaderBalance(conn, step, s.config.maxActive, |s.queue| < s.config.queueDepth, s.nextToken, id, answered);
    }
  }

  lemma OtherJobsStay(s: State, step: Step, c: ConnId, id: RequestId)
    requires IsWorkerStep(step) && step.w in s.workers
    requires !Serves(s.workers[step.w], c, id)
    ensures AnsweredByWorker(Next(s, step), c, id) == AnsweredByWorker(s, c, id)
  {
    var s', w := Next(s, step), step.w;
    assert Serves(s'.workers[w], c, id) ==> !HasAnswered(s'.workers[w]);
    if AnsweredByWorker(s, c, id) {
      var v :| v in s.workers && Serves(s.workers[v], c, id) && HasAnswered(s.workers[v]);
      assert s'.workers[v] == s.workers[v];
    }
    if AnsweredByWorker(s', c, id) {
      var v :| v in s'.workers && Serves(s'.workers[v], c, id) && HasAnswered(s'.workers[v]);
      assert v != w && s.workers[v] == s'.workers[v];
    }
  }

  /** After its own step, a worker is still the only one that can hold its job. */
  lemma AnsweredAfterOwnStep(s: State, step: Step, c: ConnId, id: RequestId)
    requires Ownership(s) && IsWorkerStep(step) && step.w in s.workers && Serves(s.workers[step.w], c, id)
    ensures var s' := Next(s, step);
            AnsweredByWorker(s', c, id) <==> Serves(s'.workers[step.w], c, id) && HasAnswered(s'.workers[step.w])
  {
    var s', w := Next(s, step), step.w;
    forall v | v in s'.workers && v != w ensures !Serves(s'.workers[v], c, id) {
      if Serves(s'.workers[v], c, id) {
        OneHolder(s, AtWorker(v), AtWorker(w));
      }
    }
  }

  lemma WorkerStepBalance(s: State, step: Step, c: ConnId, id: RequestId)
    requires Ownership(s) && IsWorkerStep(step) && step.w in s.workers && c in s.conns
    requires Connected(Next(s, step), c)
    ensures var s' := Next(s, step);
            Balance(s'.conns[c], id, AnsweredByWorker(s', c, id)) ==
            Balance(s.conns[c], id, AnsweredByWorker(s, c, id))
  {
    var s', w := Next(s, step), step.w;
    var worker := s.workers[w];
    if Serves(worker, c, id) {
      HolderIsActive(s, AtWorker(w));
      AnsweredIsHolders(s, c, id, w);
      AnsweredAfterOwnStep(s, step, c, id);
      WorkerBalance(s.conns[c], worker, step, s.queue);
    } else {
      OtherJobsStay(s, step, c, id);
      if WorkerJob(worker).Some? && WorkerJob(worker).value.conn == c {
        WorkerBalanceOthers(s.conns[c], worker, step, id, AnsweredByWorker(s, c, id));
      }
    }
  }

  lemma {:induction false} RunBalances(s: State, steps: seq<Step>, c: ConnId, id: RequestId)
    requires Inv(s) && c in s.conns
    ensures c in Exec(s, steps).conns
    ensures s.conns[c].disconnected ==> Exec(s, steps).conns[c].disconnected
    ensures var last := Exec(s, steps);
            last.conns[c].disconnected ||
            Balance(last.conns[c], id, AnsweredByWorker(last, c, id)) ==
            Balance(s.conns[c], id, AnsweredByWorker(s, c, id)) + Requested(s, steps, c, id)
    decreases |steps|
  {
    if steps == [] {
    } else {
      var step := steps[0];
      StaysDisconnected(s, step, c);
      RunKeepsInv(s, [step]);
      assert Exec(s, [step]) == Next(s, step);
      RunBalances(Next(s, step), steps[1..], c, id);
      if !Next(s, step).conns[c].disconnected {
        if IsWorkerStep(step) {
          if step.w in s.workers {
            WorkerStepBalance(s, step, c, id);
          }
        } else if step.c in s.conns {
          ReaderStepBalance(s, step, c, id);
        }
      }
    }
  }

  /** Conservation of requests: on a connection that is not disconnected, the complete responses on
      the wire for an id and the one still owed, if any, are as many as the requests decoded with
      that id, however readers and workers interleave. */
  lemma EveryRequestIsAnsweredOnce(config: Config, conns: set<ConnId>, workers: set<WorkerId>, steps: seq<Step>,
                                   c: ConnId, id: RequestId)
    requires c in conns
    ensures var s := Exec(Init(config, conns, workers), steps);
            c in s.conns && (!s.conns[c].disconnected ==>
              && Requested(Init(config, conns, workers), steps, c, id) ==
                 Answers(Only(s.conns[c].wire, id)) + (if Owed(s, c, id) then 1 else 0)
              && exists parts, rest :: Decomposes(Only(s.conns[c].wire, id), parts, rest)
                                       && |parts| == Answers(Only(s.conns[c].wire, id)))
  {
    var s0 := Init(config, conns, workers);
    InitInv(config, conns, workers);
    RunBalances(s0, steps, c, id);
    var s := Exec(s0, steps);
    if !s.conns[c].disconnected {
      WireIsLegal(config, conns, workers, steps, c, id);
      var parts, rest :| Decomposes(Only(s.conns[c].wire, id), parts, rest);
      AnswersCountResponses(Only(s.conns[c].wire, id), parts, rest);
    }
  }

  // ------------------------------------------------------------------ one job, one response

  /** How far the response of a job has got while a worker holds it; a job that sends nothing is
      answered with one error. */
  predicate Served(worker: Worker, job: Job, resp: seq<Frame>, silent: bool) {
    && WorkerJob(worker) == Some(job)
    && match worker
       case Running(_, Streaming(next)) => Stream(resp) && |resp| == next && !silent
       case Running(_, Terminal) => WireGrammar.Complete(resp) && !silent
       case Closing(_, _) => WireGrammar.Complete(resp) && (silent ==> |resp| == 1 && resp[0].kind == ErrorFrame)
       case _ => resp == []
  }

  ghost predicate Following(s: State, w: WorkerId, job: Job, base: seq<Frame>, silent: bool) {
    && w in s.workers && job.conn in s.conns
    && exists resp :: Served(s.workers[w], job, resp, silent) && Only(s.conns[job.conn].wire, job.id) == base + resp
  }

  /** Nobody holds the token, and nobody will get it again. */
  ghost predicate Gone(s: State, token: Token) {
    token < s.nextToken && forall p :: HeldAt(s, p).Some? ==> HeldAt(s, p).value.token != token
  }

  lemma ReaderJobsKept(conn: Conn, step: Step, maxActive: nat, room: bool, token: Token)
    ensures var job := ReaderJob(ConnAfter(conn, step, maxActive, room, token).reader);
            job.None? || job == ReaderJob(conn.reader) || (step.Register? && MayRegister(conn, maxActive)
                                                           && job.value.token == token)
  {
  }

  lemma WorkerJobsKept(worker: Worker, step: Step, queue: seq<Job>)
    ensures var job := WorkerJob(WorkerAfter(worker, step, queue));
            job.None? || job == WorkerJob(worker) || (queue != [] && job.value == queue[0])
  {
  }

  lemma ReaderTokens(s: State, step: Step, c: ConnId, token: Token)
    requires Gone(s, token) && c in s.conns && !IsWorkerStep(step) && step.c == c
    ensures var job := ReaderJob(Next(s, step).conns[c].reader); job.Some? ==> job.value.token != token
  {
    assert HeldAt(s, AtReader(c)) == ReaderJob(s.conns[c].reader);
    ReaderJobsKept(s.conns[c], step, s.config.maxActive, |s.queue| < s.config.queueDepth, s.nextToken);
  }

  lemma OtherReadersStay(s: State, step: Step, c: ConnId)
    requires c in s.conns && (IsWorkerStep(step) || step.c != c)
    ensures c in Next(s, step).conns && Next(s, step).conns[c].reader == s.conns[c].reader
  {
    if IsWorkerStep(step) && step.w in s.workers {
      WorkerCounts(s.workers[step.w], s.conns[c], s.stats, step, s.queue);
    }
  }

  lemma QueueKept(s: State, step: Step, i: nat)
    requires i < |Next(s, step).queue|
    ensures var job := Next(s, step).queue[i];
            || (i < |s.queue| && job == s.queue[i]) || (i + 1 < |s.queue| && job == s.queue[i + 1])
            || (!IsWorkerStep(step) && step.c in s.conns && ReaderJob(s.conns[step.c].reader) == Some(job))
  {
  }

  lemma QueueTokens(s: State, step: Step, i: nat, token: Token)
    requires Gone(s, token) && i < |Next(s, step).queue|
    ensures Next(s, step).queue[i].token != token
  {
    QueueKept(s, step, i);
    assert i < |s.queue| ==> HeldAt(s, InQueue(i)) == Some(s.queue[i]);
    assert i + 1 < |s.queue| ==> HeldAt(s, InQueue(i + 1)) == Some(s.queue[i + 1]);
    if !IsWorkerStep(step) && step.c in s.conns {
      assert HeldAt(s, AtReader(step.c)) == ReaderJob(s.conns[step.c].reader);
    }
  }

  lemma WorkerTokens(s: State, step: Step, w: WorkerId, token: Token)
    requires Gone(s, token) && w in s.workers
    ensures var job := WorkerJob(Next(s, step).workers[w]); job.Some? ==> job.value.token != token
  {
    assert HeldAt(s, AtWorker(w)) == WorkerJob(s.workers[w]);
    assert s.queue != [] ==> HeldAt(s, InQueue(0)) == Some(s.queue[0]);
    WorkerJobsKept(s.workers[w], step, s.queue);
  }

  /** A job that is held after a step was held before, or has a fresh token. */
  lemma NoTokenReturns(s: State, step: Step, p: Place, token: Token)
    requires Gone(s, token)
    ensures HeldAt(Next(s, step), p).Some? ==> HeldAt(Next(s, step), p).value.token != token
  {
    match p
    case AtReader(c) =>
      if c in s.conns {
        if IsWorkerStep(step) || step.c != c {
          OtherReadersStay(s, step, c);
          assert HeldAt(s, p) == ReaderJob(s.conns[c].reader);
        } else {
          ReaderTokens(s, step, c, token);
        }
      }
    case InQueue(i) =>
      if i < |Next(s, step).queue| {
        QueueTokens(s, step, i, token);
      }
    case AtWorker(w) =>
      if w in s.workers {
        WorkerTokens(s, step, w, token);
      }
  }

  lemma TokensGrow(s: State, step: Step)
    ensures s.nextToken <= Next(s, step).nextToken
  {
  }

  lemma GoneStays(s: State, step: Step, token: Token)
    requires Gone(s, token)
    ensures Gone(Next(s, step), token)
  {
    TokensGrow(s, step);
    forall p | HeldAt(Next(s, step), p).Some? ensures HeldAt(Next(s, step), p).value.token != token {
      NoTokenReturns(s, step, p, token);
    }
  }

  lemma RemoveFrees(s: State, step: Step)
    requires step.Remove? && step.w in s.workers && s.workers[step.w].Closing?
    requires s.workers[step.w].job.conn in s.conns
    ensures Next(s, step).nextToken == s.nextToken
    ensures forall p :: HeldAt(Next(s, step), p) == if p == AtWorker(step.w) then None else HeldAt(s, p)
  {
    RemovedPlaces(s, Next(s, step), step.w);
    assert forall p :: Holders(s)(p) == HeldAt(s, p) && Holders(Next(s, step))(p) == HeldAt(Next(s, step), p);
  }

  lemma OnlyHolder(s: State, w: WorkerId, job: Job, p: Place)
    requires Ownership(s) && HeldAt(s, AtWorker(w)) == Some(job) && p != AtWorker(w) && HeldAt(s, p).Some?
    ensures HeldAt(s, p).value.token != job.token
  {
    SameTokenSamePlace(s, p, AtWorker(w));
  }

  lemma RemovedIsGone(s: State, step: Step, job: Job)
    requires Ownership(s) && step.Remove? && step.w in s.workers && s.workers[step.w].Closing?
    requires s.workers[step.w].job == job
    ensures Gone(Next(s, step), job.token)
  {
    HolderIsActive(s, AtWorker(step.w));
    assert Holders(s)(AtWorker(step.w)) == Some(job);
    RemoveFrees(s, step);
    forall p | p != AtWorker(step.w) && HeldAt(s, p).Some? ensures HeldAt(s, p).value.token != job.token {
      OnlyHolder(s, step.w, job, p);
    }
  }

  lemma ResponseStarts(resp: seq<Frame>, life: Lifecycle)
    requires !life.Terminal?
    requires if life.NotStarted? then resp == [] else Stream(resp) && |resp| == life.next
    ensures (resp == [] || Stream(resp)) && Progress(life) == Rest(resp)
  {
  }

  /** One more frame of a response, as the sink of its worker accepts it. */
  lemma ResponseGrows(resp: seq<Frame>, life: Lifecycle, id: RequestId, f: Frame)
    requires !life.Terminal? && (life.Streaming? ==> life.next <= U32_MAX)
    requires if life.NotStarted? then resp == [] else Stream(resp) && |resp| == life.next
    requires Validate(life, id, f).Ok?
    ensures var life' := Validate(life, id, f).value;
            && !life'.NotStarted?
            && (life'.Streaming? ==> Stream(resp + [f]) && |resp + [f]| == life'.next)
            && (life'.Terminal? ==> WireGrammar.Complete(resp + [f]))
  {
    ResponseStarts(resp, life);
    ValidateIsGrammar(life, id, f);
    if Validate(life, id, f).value.Streaming? {
      StreamGrows(resp, f);
    } else {
      ResponseCloses(resp, f);
    }
  }

  lemma TerminalCompletes(resp: seq<Frame>, life: Lifecycle, id: RequestId, size: nat)
    requires !life.Terminal?
    requires if life.NotStarted? then resp == [] else Stream(resp) && |resp| == life.next
    ensures WireGrammar.Complete(resp + [TerminalFrame(life, id, size)])
    ensures life.NotStarted? ==> (resp + [TerminalFrame(life, id, size)])[0].kind == ErrorFrame
  {
    ResponseStarts(resp, life);
    TerminalFrameCloses(life, id, size);
    ResponseCloses(resp, TerminalFrame(life, id, size));
  }

  /** A frame appended to the response so far is appended on the wire. */
  lemma WireGrows(conn: Conn, f: Frame, id: RequestId, base: seq<Frame>, resp: seq<Frame>)
    requires f.id == Some(id) && Only(conn.wire, id) == base + resp
    ensures Only(Enqueue(conn, f).wire, id) == base + (resp + [f])
  {
    OnlyAppend(conn.wire, f, id);
    assert base + resp + [f] == base + (resp + [f]);
  }

  lemma SendServes(worker: Worker, step: Step, job: Job, resp: seq<Frame>)
    requires SendsFrame(worker, step) && Served(worker, job, resp, false)
    requires worker.life.Streaming? ==> worker.life.next <= U32_MAX
    ensures Served(Running(job, Validate(worker.life, job.id, step.frame).value), job, resp + [step.frame], false)
  {
    ResponseGrows(resp, worker.life, job.id, step.frame);
  }

  lemma TerminalServes(worker: Worker, step: Step, job: Job, resp: seq<Frame>, silent: bool)
    requires SendsTerminal(worker, step) && Served(worker, job, resp, silent)
    ensures Served(Closing(job, Terminal), job, resp + [TerminalFrame(worker.life, job.id, step.size)], silent)
  {
    TerminalCompletes(resp, worker.life, job.id, step.size);
  }

  lemma QuietStepServes(conn: Conn, worker: Worker, step: Step, queue: seq<Job>, job: Job, resp: seq<Frame>,
                        silent: bool)
    requires Served(worker, job, resp, silent) && !(step.Remove? && worker.Closing?)
    requires !SendsFrame(worker, step) && !SendsTerminal(worker, step)
    ensures ConnUnder(conn, worker, step).disconnected ||
            (Served(WorkerAfter(worker, step, queue), job, resp, silent)
             && ConnUnder(conn, worker, step).wire == conn.wire)
  {
  }

  /** The frames a worker's own step adds to the response of its job. */
  lemma OwnStepServes(conn: Conn, worker: Worker, step: Step, queue: seq<Job>, job: Job, base: seq<Frame>,
                      resp: seq<Frame>, silent: bool)
    returns (resp': seq<Frame>)
    requires Served(worker, job, resp, silent) && Only(conn.wire, job.id) == base + resp
    requires worker.Running? && worker.life.Streaming? ==> worker.life.next <= U32_MAX
    requires !(silent && step.Send?) && !(step.Remove? && worker.Closing?)
    ensures var conn' := ConnUnder(conn, worker, step);
            conn'.disconnected ||
            (Served(WorkerAfter(worker, step, queue), job, resp', silent) && Only(conn'.wire, job.id) == base + resp')
  {
    if SendsFrame(worker, step) {
      SendEffects(conn, worker, step, queue);
      SendServes(worker, step, job, resp);
      WireGrows(conn, step.frame, job.id, base, resp);
      resp' := resp + [step.frame];
    } else if SendsTerminal(worker, step) {
      var f := TerminalFrame(worker.life, job.id, step.size);
      TerminalEffects(conn, worker, step, queue);
      TerminalServes(worker, step, job, resp, silent);
      WireGrows(conn, f, job.id, base, resp);
      resp' := resp + [f];
    } else {
      QuietStepServes(conn, worker, step, queue, job, resp, silent);
      resp' := resp;
    }
  }

  /** The steps of everybody else add nothing to the frames of an id that a worker holds. */
  lemma OthersAddNothing(s: State, step: Step, w: WorkerId, job: Job)
    requires Ownership(s) && w in s.workers && WorkerJob(s.workers[w]) == Some(job) && job.conn in s.conns
    requires !(IsWorkerStep(step) && step.w == w) && Connected(Next(s, step), job.conn)
    ensures Only(Next(s, step).conns[job.conn].wire, job.id) == Only(s.conns[job.conn].wire, job.id)
  {
    var c := job.conn;
    var conn := s.conns[c];
    HolderIsActive(s, AtWorker(w));
    if IsWorkerStep(step) {
      if step.w in s.workers && WorkerJob(s.workers[step.w]).Some? && WorkerJob(s.workers[step.w]).value.conn == c {
        if WorkerJob(s.workers[step.w]).value.id == job.id {
          OneHolder(s, AtWorker(step.w), AtWorker(w));
        }
        WorkerWritesOwn(conn, s.workers[step.w], step, job.id);
      }
    } else if step.c == c {
      ReaderWire(conn, step, s.config.maxActive, |s.queue| < s.config.queueDepth, s.nextToken);
      if conn.reader.Replying? {
        OnlyAppend(conn.wire, conn.reader.frame, job.id);
      }
    }
  }

  ghost predicate Watched(s: State, w: WorkerId, job: Job, base: seq<Frame>, silent: bool) {
    && job.conn in s.conns
    && (s.conns[job.conn].disconnected || Following(s, w, job, base, silent) || Gone(s, job.token))
  }

  lemma OwnStepKeepsFollowing(s: State, step: Step, w: WorkerId, job: Job, base: seq<Frame>, resp: seq<Frame>,
                              silent: bool)
    requires Ownership(s) && w in s.workers && job.conn in s.conns
    requires Served(s.workers[w], job, resp, silent) && Only(s.conns[job.conn].wire, job.id) == base + resp
    requires IsWorkerStep(step) && step.w == w && !(silent && step.Send?)
    requires !(step.Remove? && s.workers[w].Closing?) && Connected(Next(s, step), job.conn)
    ensures Following(Next(s, step), w, job, base, silent)
  {
    var resp' := OwnStepServes(s.conns[job.conn], s.workers[w], step, s.queue, job, base, resp, silent);
    var s' := Next(s, step);
    assert s'.conns[job.conn] == ConnUnder(s.conns[job.conn], s.workers[w], step);
    assert Served(s'.workers[w], job, resp', silent) && Only(s'.conns[job.conn].wire, job.id) == base + resp';
  }

  lemma OtherStepKeepsFollowing(s: State, step: Step, w: WorkerId, job: Job, base: seq<Frame>, resp: seq<Frame>,
                                silent: bool)
    requires Ownership(s) && w in s.workers && job.conn in s.conns
    requires Served(s.workers[w], job, resp, silent) && Only(s.conns[job.conn].wire, job.id) == base + resp
    requires !(IsWorkerStep(step) && step.w == w) && Connected(Next(s, step), job.conn)
    ensures Following(Next(s, step), w, job, base, silent)
  {
    OthersAddNothing(s, step, w, job);
    assert Next(s, step).workers[w] == s.workers[w];
  }

  lemma ResponseSoFar(s: State, w: WorkerId, job: Job, base: seq<Frame>, silent: bool) returns (resp: seq<Frame>)
    requires Following(s, w, job, base, silent)
    ensures Served(s.workers[w], job, resp, silent) && Only(s.conns[job.conn].wire, job.id) == base + resp
    ensures s.workers[w].Closing? ==> s.workers[w].job == job
  {
    resp :| Served(s.workers[w], job, resp, silent) && Only(s.conns[job.conn].wire, job.id) == base + resp;
  }

  lemma StepKeepsFollowing(s: State, step: Step, w: WorkerId, job: Job, base: seq<Frame>, silent: bool)
    requires Ownership(s) && Following(s, w, job, base, silent) && !(silent && step.Send? && step.w == w)
    requires Connected(Next(s, step), job.conn)
    ensures Following(Next(s, step), w, job, base, silent) || Gone(Next(s, step), job.token)
  {
    var resp := ResponseSoFar(s, w, job, base, silent);
    if !(IsWorkerStep(step) && step.w == w) {
      OtherStepKeepsFollowing(s, step, w, job, base, resp, silent);
    } else if step.Remove? && s.workers[w].Closing? {
      RemovedIsGone(s, step, job);
    } else {
      OwnStepKeepsFollowing(s, step, w, job, base, resp, silent);
    }
  }

  /** No step of the run is a send of worker `w`. */
  predicate SendsNothing(steps: seq<Step>, w: WorkerId) {
    forall i | 0 <= i < |steps| :: steps[i].Send? ==> steps[i].w != w
  }

  lemma {:induction false} RunKeepsWatched(s: State, steps: seq<Step>, w: WorkerId, job: Job, base: seq<Frame>,
                                           silent: bool)
    requires Inv(s) && Watched(s, w, job, base, silent) && (silent ==> SendsNothing(steps, w))
    ensures Inv(Exec(s, steps)) && Watched(Exec(s, steps), w, job, base, silent)
    decreases |steps|
  {
    if steps == [] {
    } else {
      var step, c := steps[0], job.conn;
      RunKeepsInv(s, [step]);
      assert Exec(s, [step]) == Next(s, step);
      StaysDisconnected(s, step, c);
      if !Next(s, step).conns[c].disconnected {
        if Gone(s, job.token) {
          GoneStays(s, step, job.token);
        } else {
          assert silent ==> !(steps[0].Send? && steps[0].w == w);
          StepKeepsFollowing(s, step, w, job, base, silent);
        }
      }
      assert SendsNothing(steps, w) ==> SendsNothing(steps[1..], w);
      RunKeepsWatched(Next(s, step), steps[1..], w, job, base, silent);
    }
  }

  /** `added` is one complete response; if nothing was sent for the job, it is a single error. */
  predicate OneResponse(added: seq<Frame>, silent: bool) {
    WireGrammar.Complete(added) && (silent ==> |added| == 1 && added[0].kind == ErrorFrame)
  }

  /** The worker has finished the job, and the job's connection is connected. */
  predicate Finished(s: State, w: WorkerId, job: Job) {
    w in s.workers && s.workers[w].Closing? && s.workers[w].job == job && Connected(s, job.conn)
  }

  /** Between the two states exactly one complete response was enqueued under the job's id. */
  ghost predicate AnsweredBetween(s: State, s': State, job: Job, silent: bool)
    requires job.conn in s.conns && job.conn in s'.conns
  {
    exists added :: OneResponse(added, silent)
                    && Only(s'.conns[job.conn].wire, job.id) == Only(s.conns[job.conn].wire, job.id) + added
  }

  lemma ReceivedIsAnswered(s: State, rest: seq<Step>, w: WorkerId, job: Job)
    requires Inv(s) && w in s.workers && s.workers[w] == Received(job) && Finished(Exec(s, rest), w, job)
    ensures job.conn in s.conns && AnsweredBetween(s, Exec(s, rest), job, SendsNothing(rest, w))
  {
    var silent := SendsNothing(rest, w);
    HolderIsActive(s, AtWorker(w));
    var base := Only(s.conns[job.conn].wire, job.id);
    assert Served(s.workers[w], job, [], silent) && base == base + [];
    RunKeepsWatched(s, rest, w, job, base, silent);
    var s' := Exec(s, rest);
    assert HeldAt(s', AtWorker(w)) == Some(job);
    var resp := ResponseSoFar(s', w, job, base, silent);
    assert OneResponse(resp, silent);
  }

  /** A job is answered exactly once: between the moment a worker receives it and any moment at
      which that worker has finished it on a connection that is still connected, exactly one complete
      response has been enqueued under its id; a job that sent nothing itself is answered with one
      error frame. */
  lemma JobIsAnsweredOnce(config: Config, conns: set<ConnId>, workers: set<WorkerId>, first: seq<Step>, rest: seq<Step>,
                          w: WorkerId, job: Job)
    requires var s := Exec(Init(config, conns, workers), first); w in s.workers && s.workers[w] == Received(job)
    requires Finished(Exec(Exec(Init(config, conns, workers), first), rest), w, job)
    ensures var s := Exec(Init(config, conns, workers), first);
            job.conn in s.conns && AnsweredBetween(s, Exec(s, rest), job, SendsNothing(rest, w))
  {
    ReachableInv(config, conns, workers, first);
    ReceivedIsAnswered(Exec(Init(config, conns, workers), first), rest, w, job);
  }

  // ------------------------------------------------------------------ replies of the reader

  /** The reader is about to answer the request `id` itself, with a frame of the given kind, and
      the frames of that id are still `base`. */
  predicate Replies(conn: Conn, id: RequestId, kind: Kind, base: seq<Frame>) {
    && Only(conn.wire, id) == base
    && match conn.reader
       case Refused(job) => job.id == id && kind == ErrorFrame
       case Uncounted(job) => job.id == id && kind == ErrorFrame
       case Rejected(job) => job.id == id && kind == ErrorFrame
       case Replying(f) => f.id == Some(id) && f.kind == kind && WireGrammar.Complete([f])
       case _ => false
  }

  /** The reader is back at its loop and has added one complete response of the given kind. */
  predicate Replied(conn: Conn, id: RequestId, kind: Kind, base: seq<Frame>) {
    && conn.reader.AtLoop? && |Only(conn.wire, id)| == |base| + 1
    && Only(conn.wire, id)[..|base|] == base
    && WireGrammar.Complete(Only(conn.wire, id)[|base|..]) && Only(conn.wire, id)[|base|].kind == kind
  }

  lemma ReplyTurn(conn: Conn, step: Step, maxActive: nat, room: bool, token: Token, id: RequestId, kind: Kind,
                  base: seq<Frame>)
    requires Replies(conn, id, kind, base)
    ensures var after := ConnAfter(conn, step, maxActive, room, token);
            after.disconnected || Replies(after, id, kind, base) || Replied(after, id, kind, base)
  {
    if conn.reader.Replying? {
      OnlyAppend(conn.wire, conn.reader.frame, id);
      var now := base + [conn.reader.frame];
      assert now[..|base|] == base && now[|base|..] == [conn.reader.frame];
    }
  }

  /** Nobody else writes under an id that the reader is answering. */
  lemma NobodyElseReplies(s: State, step: Step, c: ConnId, id: RequestId, kind: Kind, base: seq<Frame>)
    requires Ownership(s) && c in s.conns && Replies(s.conns[c], id, kind, base)
    requires IsWorkerStep(step) || step.c != c
    ensures c in Next(s, step).conns && Replies(Next(s, step).conns[c], id, kind, base)
  {
    if IsWorkerStep(step) && step.w in s.workers && Touches(s, s.workers[step.w])
       && WorkerJob(s.workers[step.w]).value.conn == c {
      var worker := s.workers[step.w];
      HolderIsActive(s, AtWorker(step.w));
      if WorkerJob(worker).value.id == id && ReaderJob(s.conns[c].reader).Some? {
        OneHolder(s, AtWorker(step.w), AtReader(c));
      }
      assert ReplyFree(s.conns[c]);
      WorkerWritesOwn(s.conns[c], worker, step, id);
      WorkerCounts(worker, s.conns[c], s.stats, step, s.queue);
    }
  }

  /** After `n` steps the reader has replied. */
  predicate RepliedAt(s: State, steps: seq<Step>, n: nat, c: ConnId, id: RequestId, kind: Kind, base: seq<Frame>) {
    && n <= |steps| && c in Exec(s, steps[..n]).conns
    && Replied(Exec(s, steps[..n]).conns[c], id, kind, base)
  }

  lemma RepliedLater(s: State, steps: seq<Step>, n: nat, c: ConnId, id: RequestId, kind: Kind, base: seq<Frame>)
    requires steps != [] && RepliedAt(Next(s, steps[0]), steps[1..], n, c, id, kind, base)
    ensures RepliedAt(s, steps, n + 1, c, id, kind, base)
  {
    assert steps[..n + 1][1..] == steps[1..][..n];
  }

  lemma RepliedNow(s: State, c: ConnId, steps: seq<Step>, id: RequestId, kind: Kind, base: seq<Frame>)
    requires c in s.conns && Replied(s.conns[c], id, kind, base)
    ensures RepliedAt(s, steps, 0, c, id, kind, base)
  {
    assert steps[..0] == [];
  }

  /** Whatever the others do, the reader goes on answering until the connection is gone or it has
      added exactly one complete response of that kind and is back at its loop. */
  lemma {:induction false} ReaderRepliesOnce(s: State, steps: seq<Step>, c: ConnId, id: RequestId, kind: Kind,
                                             base: seq<Frame>)
    requires Inv(s) && c in s.conns && Replies(s.conns[c], id, kind, base)
    ensures var last := Exec(s, steps);
            c in last.conns &&
            (last.conns[c].disconnected || Replies(last.conns[c], id, kind, base)
             || exists n: nat :: RepliedAt(s, steps, n, c, id, kind, base))
    decreases |steps|
  {
    if steps == [] {
    } else {
      var step, s' := steps[0], Next(s, steps[0]);
      RunKeepsInv(s, [step]);
      assert Exec(s, [step]) == s';
      if IsWorkerStep(step) || step.c != c {
        NobodyElseReplies(s, step, c, id, kind, base);
      } else {
        ReplyTurn(s.conns[c], step, s.config.maxActive, |s.queue| < s.config.queueDepth, s.nextToken, id, kind, base);
      }
      RunBalances(s', steps[1..], c, id);
      if Replies(s'.conns[c], id, kind, base) {
        ReaderRepliesOnce(s', steps[1..], c, id, kind, base);
        if n: nat :| RepliedAt(s', steps[1..], n, c, id, kind, base) {
          RepliedLater(s, steps, n, c, id, kind, base);
        }
      } else if !s'.conns[c].disconnected {
        RepliedNow(s', c, steps[1..], id, kind, base);
        RepliedLater(s, steps, 0, c, id, kind, base);
      }
    }
  }

  /** The reader answers a request itself: a cancel request with a result, and with an error a
      request whose timeout or context is refused or whose job the queue does not take. */
  lemma ReplyStarts(s: State, step: Step)
    requires Inv(s) && !IsWorkerStep(step) && step.c in s.conns
    ensures var conn, after := s.conns[step.c], Next(s, step).conns[step.c];
            && (step.CancelTarget? && conn.reader.Decoded? ==>
                  Replies(after, conn.reader.id, ResultFrame, Only(conn.wire, conn.reader.id)))
            && (step.RefuseTimeout? && conn.reader.Decoded? ==>
                  Replies(after, conn.reader.id, ErrorFrame, Only(conn.wire, conn.reader.id)))
            && (step.RefuseContext? && conn.reader.Registered? ==>
                  Replies(after, conn.reader.job.id, ErrorFrame, Only(conn.wire, conn.reader.job.id)))
            && (step.TrySend? && conn.reader.Submitting?
                && (step.receiverGone || |s.queue| >= s.config.queueDepth) ==>
                  Replies(after, conn.reader.job.id, ErrorFrame, Only(conn.wire, conn.reader.job.id)))
  {
  }

  lemma HeldTokenIsOld(s: State, p: Place)
    requires Ownership(s) && HeldAt(s, p).Some?
    ensures HeldAt(s, p).value.token < s.nextToken
  {
    assert Holders(s)(p).Some?;
  }

  lemma FreshTokenIsNew(s: State, c: ConnId)
    requires Ownership(s) && c in s.conns
    ensures s.nextToken !in s.conns[c].active.Values
  {
    forall id | id in s.conns[c].active ensures s.conns[c].active[id] < s.nextToken {
      var p := HolderOf(s, c, id);
      HeldTokenIsOld(s, p);
    }
  }

  lemma RegisterEffects(conn: Conn, step: Step, maxActive: nat, room: bool, token: Token)
    requires step.Register? && conn.reader.Decoded? && conn.reader.id !in conn.active
    ensures var after := ConnAfter(conn, step, maxActive, room, token);
            if |conn.active| < maxActive then
              && after.active == conn.active[conn.reader.id := token] && after.disconnected == conn.disconnected
              && ReaderJob(after.reader) == Some(Job(step.c, conn.reader.id, token))
            else after.disconnected && after.active == conn.active
  {
  }

  /** A decoded request is registered under a fresh token exactly when the table has room; if not,
      the connection is given up. */
  lemma RegistrationNeedsRoom(s: State, step: Step)
    requires Inv(s) && step.Register? && step.c in s.conns && s.conns[step.c].reader.Decoded?
    ensures var conn, after := s.conns[step.c], Next(s, step).conns[step.c];
            if |conn.active| < s.config.maxActive then
              && after.active == conn.active[conn.reader.id := s.nextToken] && s.nextToken !in conn.active.Values
              && ReaderJob(after.reader) == Some(Job(step.c, conn.reader.id, s.nextToken))
              && after.disconnected == conn.disconnected
            else after.disconnected && after.active == conn.active
  {
    assert ReplyFree(s.conns[step.c]);
    FreshTokenIsNew(s, step.c);
    RegisterEffects(s.conns[step.c], step, s.config.maxActive, |s.queue| < s.config.queueDepth, s.nextToken);
  }

  /** The queue takes an offered job exactly when it has room and a receiver: then the job is the
      last of the queue and the reader is back at its loop. */
  lemma OfferIsTakenExactly(s: State, step: Step)
    requires Inv(s) && step.TrySend? && step.c in s.conns && s.conns[step.c].reader.Submitting?
    ensures var job, s' := s.conns[step.c].reader.job, Next(s, step);
            if !step.receiverGone && |s.queue| < s.config.queueDepth then
              s'.queue == s.queue + [job] && s'.conns[step.c].reader.AtLoop?
            else
              s'.queue == s.queue && Replies(s'.conns[step.c], job.id, ErrorFrame, Only(s.conns[step.c].wire, job.id))
  {
    ReplyStarts(s, step);
  }

  // ------------------------------------------------------------------ the queue

  lemma {:induction false} RunKeepsQueueBounded(s: State, steps: seq<Step>)
    requires |s.queue| <= s.config.queueDepth
    ensures |Exec(s, steps).queue| <= Exec(s, steps).config.queueDepth
    decreases |steps|
  {
    if steps == [] {
    } else {
      RunKeepsQueueBounded(Next(s, steps[0]), steps[1..]);
    }
  }

  /** The queue never holds more jobs than its depth. */
  lemma QueueIsBounded(config: Config, conns: set<ConnId>, workers: set<WorkerId>, steps: seq<Step>)
    ensures |Exec(Init(config, conns, workers), steps).queue| <= config.queueDepth
  {
    RunKeepsQueueBounded(Init(config, conns, workers), steps);
    RunKeepsConfig(Init(config, conns, workers), steps);
  }

  // ------------------------------------------------------------------ who is cancelled

  /** The step is a cancel request for the job held at `p`. */
  predicate CancelRequestFor(s: State, step: Step, p: Place) {
    && step.CancelTarget? && step.c in s.conns && s.conns[step.c].reader.Decoded?
    && Holds(s, p, step.c, step.target)
  }

  lemma ReaderCancels(conn: Conn, step: Step, maxActive: nat, room: bool, token: Token)
    ensures var after := ConnAfter(conn, step, maxActive, room, token);
            && Cancels(conn, after, step) <= conn.active.Values
            && (after.disconnected && !conn.disconnected ==> Cancels(conn, after, step) == conn.active.Values)
            && (Cancels(conn, after, step) != {} && !after.disconnected ==>
                  step.CancelTarget? && conn.reader.Decoded? && step.target in conn.active
                  && Cancels(conn, after, step) == {conn.active[step.target]})
  {
  }

  lemma TokenInTable(s: State, c: ConnId, token: Token, p: Place)
    requires Ownership(s) && c in s.conns && HeldAt(s, p).Some? && HeldAt(s, p).value.token == token
    ensures token in s.conns[c].active.Values <==> HeldAt(s, p).value.conn == c
  {
    HolderIsActive(s, p);
    if token in s.conns[c].active.Values {
      var id :| id in s.conns[c].active && s.conns[c].active[id] == token;
      var q := HolderOf(s, c, id);
      SameTokenSamePlace(s, p, q);
    }
  }

  lemma WorkerCancels(s: State, step: Step, p: Place)
    requires Ownership(s) && HeldAt(s, p).Some? && HeldAt(s, p).value.token !in s.cancelled
    requires IsWorkerStep(step) && step.w in s.workers && Touches(s, s.workers[step.w])
    ensures var s', c := Next(s, step), HeldAt(s, p).value.conn;
            && c in s.conns && c in s'.conns
            && (s'.conns[c].disconnected && !s.conns[c].disconnected ==> HeldAt(s, p).value.token in s'.cancelled)
            && (!s'.conns[c].disconnected ==> HeldAt(s, p).value.token !in s'.cancelled)
  {
    var c, worker := WorkerJob(s.workers[step.w]).value.conn, s.workers[step.w];
    HolderIsActive(s, p);
    TokenInTable(s, c, HeldAt(s, p).value.token, p);
  }

  lemma ReaderStepCancels(s: State, step: Step, p: Place)
    requires Ownership(s) && HeldAt(s, p).Some? && HeldAt(s, p).value.token !in s.cancelled
    requires !IsWorkerStep(step) && step.c in s.conns
    ensures var s', c := Next(s, step), HeldAt(s, p).value.conn;
            && c in s.conns && c in s'.conns
            && (s'.conns[c].disconnected && !s.conns[c].disconnected ==> HeldAt(s, p).value.token in s'.cancelled)
            && (!s'.conns[c].disconnected && !(step.CancelTarget? && s.conns[step.c].reader.Decoded?) ==>
                  HeldAt(s, p).value.token !in s'.cancelled)
  {
    HolderIsActive(s, p);
    TokenInTable(s, step.c, HeldAt(s, p).value.token, p);
    ReaderCancels(s.conns[step.c], step, s.config.maxActive, |s.queue| < s.config.queueDepth, s.nextToken);
  }

  lemma IdleStepCancels(s: State, step: Step)
    requires if IsWorkerStep(step) then step.w !in s.workers || !Touches(s, s.workers[step.w]) else step.c !in s.conns
    ensures Next(s, step).conns == s.conns && Next(s, step).cancelled == s.cancelled
  {
  }

  /** The job at `p` is cancelled if the step disconnects its connection; if that stays connected, it
      is cancelled exactly by a cancel request for it. */
  predicate CancelledRightly(s: State, step: Step, p: Place, token: Token, c: ConnId)
    requires c in s.conns
  {
    && c in Next(s, step).conns
    && (Next(s, step).conns[c].disconnected && !s.conns[c].disconnected ==> token in Next(s, step).cancelled)
    && (!Next(s, step).conns[c].disconnected ==>
          (token in Next(s, step).cancelled <==> CancelRequestFor(s, step, p)))
  }

  lemma CancelRequestCancels(s: State, step: Step, p: Place)
    requires Ownership(s) && HeldAt(s, p).Some? && HeldAt(s, p).value.token !in s.cancelled
    requires step.CancelTarget? && step.c in s.conns && s.conns[step.c].reader.Decoded?
    ensures HeldAt(s, p).value.token in Next(s, step).cancelled <==> CancelRequestFor(s, step, p)
  {
    CancelHitsItsTarget(s, step.c, step.target, step.size, p);
  }

  lemma WorkerStepIsRight(s: State, step: Step, p: Place, token: Token, c: ConnId)
    requires Ownership(s) && HeldAt(s, p).Some? && HeldAt(s, p).value.token == token && token !in s.cancelled
    requires HeldAt(s, p).value.conn == c && c in s.conns && IsWorkerStep(step)
    ensures CancelledRightly(s, step, p, token, c)
  {
    if step.w in s.workers && Touches(s, s.workers[step.w]) {
      WorkerCancels(s, step, p);
    } else {
      IdleStepCancels(s, step);
    }
  }

  lemma ReaderStepIsRight(s: State, step: Step, p: Place, token: Token, c: ConnId)
    requires Ownership(s) && HeldAt(s, p).Some? && HeldAt(s, p).value.token == token && token !in s.cancelled
    requires HeldAt(s, p).value.conn == c && c in s.conns && !IsWorkerStep(step)
    ensures CancelledRightly(s, step, p, token, c)
  {
    if step.c in s.conns {
      ReaderStepCancels(s, step, p);
      if step.CancelTarget? && s.conns[step.c].reader.Decoded? {
        CancelRequestCancels(s, step, p);
      }
    } else {
      IdleStepCancels(s, step);
    }
  }

  /** A step that disconnects a connection cancels every job registered on it; as long as the
      connection stays connected, a step cancels a job exactly if it is a cancel request for it. */
  lemma CancelledExactly(s: State, step: Step, p: Place)
    requires Ownership(s) && HeldAt(s, p).Some? && HeldAt(s, p).value.token !in s.cancelled
    ensures HeldAt(s, p).value.conn in s.conns
    ensures CancelledRightly(s, step, p, HeldAt(s, p).value.token, HeldAt(s, p).value.conn)
  {
    HolderIsActive(s, p);
    if IsWorkerStep(step) {
      WorkerStepIsRight(s, step, p, HeldAt(s, p).value.token, HeldAt(s, p).value.conn);
    } else {
      ReaderStepIsRight(s, step, p, HeldAt(s, p).value.token, HeldAt(s, p).value.conn);
    }
  }

  ghost predicate EndedIsGone(s: State) {
    forall c | c in s.conns && s.conns[c].reader.Ended? :: s.conns[c].disconnected
  }

  lemma ReaderEnds(conn: Conn, step: Step, maxActive: nat, room: bool, token: Token)
    requires conn.reader.Ended? ==> conn.disconnected
    ensures var after := ConnAfter(conn, step, maxActive, room, token); after.reader.Ended? ==> after.disconnected
  {
  }

  lemma StepKeepsEndedGone(s: State, step: Step)
    requires EndedIsGone(s)
    ensures EndedIsGone(Next(s, step))
  {
    forall c | c in Next(s, step).conns && Next(s, step).conns[c].reader.Ended?
      ensures Next(s, step).conns[c].disconnected
    {
      if IsWorkerStep(step) || step.c != c {
        OtherReadersStay(s, step, c);
        StaysDisconnected(s, step, c);
      } else {
        ReaderEnds(s.conns[c], step, s.config.maxActive, |s.queue| < s.config.queueDepth, s.nextToken);
      }
    }
  }

  lemma {:induction false} RunKeepsEndedGone(s: State, steps: seq<Step>)
    requires EndedIsGone(s)
    ensures EndedIsGone(Exec(s, steps))
    decreases |steps|
  {
    if steps == [] {
    } else {
      StepKeepsEndedGone(s, steps[0]);
      RunKeepsEndedGone(Next(s, steps[0]), steps[1..]);
    }
  }

  /** A reader leaves its loop only after its connection has been disconnected. */
  lemma EndedReadersDisconnect(config: Config, conns: set<ConnId>, workers: set<WorkerId>, steps: seq<Step>, c: ConnId)
    ensures var s := Exec(Init(config, conns, workers), steps);
            c in s.conns && s.conns[c].reader.Ended? ==> s.conns[c].disconnected
  {
    RunKeepsEndedGone(Init(config, conns, workers), steps);
  }
}
