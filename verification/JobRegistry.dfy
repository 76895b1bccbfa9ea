/** Who owns an entry of a request table: an abstract account of jobs, the places that hold
    them, and the tables `active` of all connections. */
module JobRegistry {
  import opened Wrappers
  import opened WireGrammar
  import opened Runtime

  type ConnId = nat
  type WorkerId = nat

  datatype Job = Job(conn: ConnId, id: RequestId, token: Token)

  datatype Place = AtReader(c: ConnId) | InQueue(i: nat) | AtWorker(w: WorkerId)

  type Holding = Place -> Option<Job>

  type Tables = map<ConnId, map<RequestId, Token>>

  function Inserted(tables: Tables, job: Job): Tables
    requires job.conn in tables
  {
    var table: map<RequestId, Token> := tables[job.conn];
    tables[job.conn := table[job.id := job.token]]
  }

  function Deleted(tables: Tables, job: Job): Tables
    requires job.conn in tables
  {
    tables[job.conn := tables[job.conn] - {job.id}]
  }

  predicate Owns(tables: Tables, job: Job) {
    job.conn in tables && job.id in tables[job.conn] && tables[job.conn][job.id] == job.token
  }

  ghost predicate Held(h: Holding, job: Job) {
    exists p :: h(p) == Some(job)
  }

  /** Every holder owns the entry it registered, no two places hold the same registration, and
      every entry is held somewhere. */
  ghost predicate Consistent(h: Holding, tables: Tables, bound: Token) {
    && (forall p | h(p).Some? :: Owns(tables, h(p).value) && h(p).value.token < bound)
    && (forall p, q | h(p).Some? && h(q).Some? && h(p).value.token == h(q).value.token :: p == q)
    && (forall c, id | c in tables && id in tables[c] :: Held(h, Job(c, id, tables[c][id])))
  }

  /** Jobs only changed places. */
  lemma MoveKeeps(h: Holding, h': Holding, tables: Tables, bound: Token, back: Place -> Place, forth: Place -> Place)
    requires Consistent(h, tables, bound)
    requires forall p | h'(p).Some? :: h'(p) == h(back(p))
    requires forall p, q | h'(p).Some? && h'(q).Some? && back(p) == back(q) :: p == q
    requires forall p | h(p).Some? :: h'(forth(p)) == h(p)
    ensures Consistent(h', tables, bound)
  {
    forall c, id | c in tables && id in tables[c] ensures Held(h', Job(c, id, tables[c][id])) {
      assert Held(h, Job(c, id, tables[c][id]));
      var p :| h(p) == Some(Job(c, id, tables[c][id]));
      assert h'(forth(p)) == h(p);
    }
  }

  /** One job moved to an empty place. */
  lemma MoveOneKeeps(h: Holding, h': Holding, tables: Tables, bound: Token, from: Place, to: Place)
    requires Consistent(h, tables, bound) && from != to && h(to) == None
    requires forall p :: h'(p) == if p == from then None else if p == to then h(from) else h(p)
    ensures Consistent(h', tables, bound)
  {
    MoveKeeps(h, h', tables, bound, p => if p == to then from else p, p => if p == from then to else p);
  }

  /** Where the job at `p` was before worker `w` took the head of the queue. */
  function BeforeTake(w: WorkerId, p: Place): Place {
    if p == AtWorker(w) then InQueue(0) else if p.InQueue? then InQueue(p.i + 1) else p
  }

  function AfterTake(w: WorkerId, p: Place): Place {
    if p == InQueue(0) then AtWorker(w) else if p.InQueue? then InQueue(p.i - 1) else p
  }

  lemma TakeMovesBack(w: WorkerId, p: Place, q: Place)
    ensures p != AtWorker(w) ==> BeforeTake(w, AfterTake(w, p)) == p
    ensures BeforeTake(w, p) == BeforeTake(w, q) ==> p == q
  {
  }

  /** The head of the queue moved to an idle worker. */
  lemma TakeHeadKeeps(h: Holding, h': Holding, tables: Tables, bound: Token, w: WorkerId)
    requires Consistent(h, tables, bound) && h(AtWorker(w)) == None
    requires forall p :: h'(p) == h(BeforeTake(w, p))
    ensures Consistent(h', tables, bound)
  {
    forall p | h(p).Some? ensures h'(AfterTake(w, p)) == h(p) {
      TakeMovesBack(w, p, p);
    }
    forall p, q | h'(p).Some? && h'(q).Some? && BeforeTake(w, p) == BeforeTake(w, q) ensures p == q {
      TakeMovesBack(w, p, q);
    }
    MoveKeeps(h, h', tables, bound, p => BeforeTake(w, p), p => AfterTake(w, p));
  }

  /** A new registration under a fresh token at a place that held nothing. */
  lemma InsertKeeps(h: Holding, h': Holding, tables: Tables, tables': Tables, bound: Token, at: Place, job: Job)
    requires Consistent(h, tables, bound)
    requires job.conn in tables && job.id !in tables[job.conn] && job.token == bound
    requires tables' == Inserted(tables, job)
    requires h(at) == None
    requires forall p :: h'(p) == if p == at then Some(job) else h(p)
    ensures Consistent(h', tables', bound + 1)
  {
    forall c, id | c in tables' && id in tables'[c] ensures Held(h', Job(c, id, tables'[c][id])) {
      if c == job.conn && id == job.id {
        assert h'(at) == Some(job);
      } else {
        assert Held(h, Job(c, id, tables[c][id]));
        var p :| h(p) == Some(Job(c, id, tables[c][id]));
        assert h'(p) == h(p);
      }
    }
  }

  /** The job at `at` leaves together with the entry under its id: that entry is its own. */
  lemma DeleteKeeps(h: Holding, h': Holding, tables: Tables, tables': Tables, bound: Token, at: Place)
    requires Consistent(h, tables, bound)
    requires h(at).Some?
    requires tables' == Deleted(tables, h(at).value)
    requires forall p :: h'(p) == if p == at then None else h(p)
    ensures Consistent(h', tables', bound)
  {
    var job := h(at).value;
    forall p | h'(p).Some? ensures Owns(tables', h'(p).value) {
      assert h'(p) == h(p) && p != at;
      assert h(p).value.token != job.token;
    }
    forall c, id | c in tables' && id in tables'[c] ensures Held(h', Job(c, id, tables'[c][id])) {
      assert Held(h, Job(c, id, tables[c][id]));
      var p :| h(p) == Some(Job(c, id, tables[c][id]));
      assert p != at;
      assert h'(p) == h(p);
    }
  }
}
