/** The per-request output machine and the per-connection request table
    (src/server/runtime.rs). */
module Runtime {
  import opened Wrappers
  import opened WireGrammar

  const U32_MAX: nat := 0xFFFF_FFFF

  /** The identity of a cancellation token: one is created for every registration. */
  type Token = nat

  datatype Lifecycle = NotStarted | Streaming(next: nat) | Terminal

  datatype SendError = LifecycleViolation | SequenceOverflow | FrameTooLarge | Cancelled | Disconnected

  /** What one round of the sending loop meets; at `PeerGone` another thread has disconnected the
      connection since the last round. */
  datatype Offer = PolicyFails | PeerGone | Full | Accepted | ReceiverGone

  // ------------------------------------------------------------------ lifecycle

  function Validate(life: Lifecycle, id: RequestId, f: Frame): Result<Lifecycle, SendError> {
    match life
    case Terminal => Err(LifecycleViolation)
    case NotStarted =>
      if f.id != Some(id) || f.seq_ != 0 then Err(LifecycleViolation)
      else if f.kind == ResultFrame || f.kind == ErrorFrame then Ok(Terminal)
      else if f.kind == BeginFrame then Ok(Streaming(1))
      else Err(LifecycleViolation)
    case Streaming(next) =>
      if f.id != Some(id) || f.seq_ != next then Err(LifecycleViolation)
      else if f.kind == ChunkFrame then (if next == U32_MAX then Err(SequenceOverflow) else Ok(Streaming(next + 1)))
      else if f.kind == EndFrame then Ok(Terminal)
      else Err(LifecycleViolation)
  }

  /** The frame that closes a response that has not been closed. */
  function TerminalFrame(life: Lifecycle, id: RequestId, size: nat): Frame
    requires !life.Terminal?
  {
    match life
    case NotStarted => Frame(ErrorFrame, Some(id), 0, size, Bare)
    case Streaming(next) => Frame(EndFrame, Some(id), next, size, Bare)
  }

  /** The lifecycle as the reader of the wire sees it. */
  function Progress(life: Lifecycle): Track {
    match life
    case Streaming(next) => Open(next)
    case _ => Closed
  }

  /** The lifecycle machine accepts a frame exactly when it is for this request, the response
      is not over, and the grammar (below the sequence limit) allows it next. */
  lemma ValidateIsGrammar(life: Lifecycle, id: RequestId, f: Frame)
    requires life.Streaming? ==> life.next <= U32_MAX
    ensures Validate(life, id, f).Ok? <==>
            && !life.Terminal? && f.id == Some(id) && Feed(Progress(life), f) != Broken
            && !(life == Streaming(U32_MAX) && f.kind == ChunkFrame)
    ensures Validate(life, id, f) == Err(SequenceOverflow) <==>
            life == Streaming(U32_MAX) && f.id == Some(id) && f.seq_ == U32_MAX && f.kind == ChunkFrame
    ensures Validate(life, id, f).Ok? ==> Progress(Validate(life, id, f).value) == Feed(Progress(life), f)
  {
  }

  lemma TerminalFrameCloses(life: Lifecycle, id: RequestId, size: nat)
    requires !life.Terminal?
    ensures TerminalFrame(life, id, size).id == Some(id)
    ensures TerminalFrame(life, id, size).kind == ErrorFrame <==> life.NotStarted?
    ensures !TerminalFrame(life, id, size).payload.Totals? && TerminalFrame(life, id, size).size == size
    ensures Feed(Progress(life), TerminalFrame(life, id, size)) == Closed
  {
  }

  /** `limit` bounds the line with its newline. */
  predicate Fits(f: Frame, limit: nat) {
    f.size <= if limit == 0 then 0 else limit - 1
  }

  /** The first round that is not a full channel decides; running out of rounds is the deadline. */
  function Await(offers: seq<Offer>): (offer: Offer)
    ensures offer != Full
  {
    if offers == [] then PolicyFails
    else if offers[0] == Full then Await(offers[1..])
    else offers[0]
  }

  /** The same for a required terminal, which consults no policy and gives up by itself. */
  function AwaitTerminal(offers: seq<Offer>): Offer {
    if offers == [] then ReceiverGone
    else if offers[0] == Full || offers[0] == PolicyFails then AwaitTerminal(offers[1..])
    else offers[0]
  }

  /** The offer that decides a send, after rounds that only found the channel full. */
  predicate DecidesAt(offers: seq<Offer>, k: nat) {
    k < |offers| && offers[k] != Full && forall j | 0 <= j < k :: offers[j] == Full
  }

  /** The same for a required terminal, which a failing policy does not stop either. */
  predicate DecidesTerminalAt(offers: seq<Offer>, k: nat) {
    && k < |offers| && offers[k] != Full && offers[k] != PolicyFails
    && forall j | 0 <= j < k :: offers[j] == Full || offers[j] == PolicyFails
  }

  lemma {:induction false} AwaitExactly(offers: seq<Offer>, k: nat)
    ensures DecidesAt(offers, k) ==> Await(offers) == offers[k]
    ensures (forall j | 0 <= j < |offers| :: offers[j] == Full) ==> Await(offers) == PolicyFails
  {
    if offers != [] && offers[0] == Full {
      AwaitExactly(offers[1..], if k == 0 then 0 else k - 1);
    }
  }

  lemma {:induction false} AwaitTerminalExactly(offers: seq<Offer>, k: nat)
    ensures DecidesTerminalAt(offers, k) ==> AwaitTerminal(offers) == offers[k]
    ensures (forall j | 0 <= j < |offers| :: offers[j] == Full || offers[j] == PolicyFails) ==>
              AwaitTerminal(offers) == ReceiverGone
  {
    if offers != [] && (offers[0] == Full || offers[0] == PolicyFails) {
      AwaitTerminalExactly(offers[1..], if k == 0 then 0 else k - 1);
    }
  }

  /** The connection is gone: this thread finds the receiver gone, or another one disconnects. */
  predicate Breaks(offer: Offer) {
    offer.PeerGone? || offer.ReceiverGone?
  }

  // ------------------------------------------------------------------ the request table

  /** An id may be registered if it is inactive and the table is not full. */
  predicate Admits(active: map<RequestId, Token>, id: RequestId, maxActive: nat) {
    id !in active && |active| < maxActive
  }

  class Connection {
    const maxActive: nat
    var active: map<RequestId, Token>
    var disconnected: bool
    var cancelled: set<Token>

    constructor (maxActive: nat)
      ensures this.maxActive == maxActive && active == map[] && !disconnected && cancelled == {}
    {
      this.maxActive := maxActive;
      active, disconnected, cancelled := map[], false, {};
    }

    /** Registration is refused for an active id and for a full table, and then changes nothing. */
    method Register(id: RequestId, token: Token) returns (ok: bool)
      modifies this`active
      ensures ok <==> Admits(old(active), id, maxActive)
      ensures ok <==> id !in old(active) && |old(active)| < maxActive
      ensures active == if ok then old(active)[id := token] else old(active)
      ensures |old(active)| <= maxActive ==> |active| <= maxActive
    {
      ok := id !in active && |active| < maxActive;
      if ok {
        active := active[id := token];
      }
    }

    method Cancel(id: RequestId) returns (found: bool)
      modifies this`cancelled
      ensures found <==> id in active
      ensures cancelled == if found then old(cancelled) + {active[id]} else old(cancelled)
    {
      found := id in active;
      if found {
        cancelled := cancelled + {active[id]};
      }
    }

    method Remove(id: RequestId)
      modifies this`active
      ensures active == old(active) - {id}
    {
      active := active - {id};
    }

    method Disconnect()
      modifies this`disconnected, this`cancelled
      ensures disconnected && cancelled == old(cancelled) + active.Values
    {
      disconnected := true;
      cancelled := cancelled + active.Values;
    }
  }

  /** The bounded FIFO channel to the connection's writer: what has been enqueued, in order. */
  class Channel {
    var sent: seq<Frame>

    constructor ()
      ensures sent == []
    {
      sent := [];
    }
  }

  // ------------------------------------------------------------------ the output sink

  /** An accepted frame is the next of its request on the wire. */
  lemma SentKeepsTrack(wire: seq<Frame>, f: Frame, life: Lifecycle, id: RequestId)
    requires (life.Streaming? ==> life.next <= U32_MAX) && Validate(life, id, f).Ok?
    ensures Only(wire + [f], id) == Only(wire, id) + [f]
    ensures TrackOf(Only(wire, id)) == Progress(life) ==>
              TrackOf(Only(wire + [f], id)) == Progress(Validate(life, id, f).value)
  {
    OnlyAppend(wire, f, id);
    EnqueueTracks(wire, f, id);
    ValidateIsGrammar(life, id, f);
  }

  class OutputSink {
    const requestId: RequestId
    const frameLimit: nat
    const connection: Connection
    const channel: Channel
    var lifecycle: Lifecycle

    ghost predicate Valid()
      reads this
    {
      lifecycle.Streaming? ==> 1 <= lifecycle.next <= U32_MAX
    }

    constructor (requestId: RequestId, frameLimit: nat, connection: Connection, channel: Channel)
      ensures Valid() && lifecycle == NotStarted
      ensures this.requestId == requestId && this.frameLimit == frameLimit
      ensures this.connection == connection && this.channel == channel
    {
      this.requestId, this.frameLimit := requestId, frameLimit;
      this.connection, this.channel := connection, channel;
      lifecycle := NotStarted;
    }

    /** The rounds of `send_frame`: whether the channel takes the frame before the query is
        cancelled or the connection is gone. */
    method AwaitRoom(offers: seq<Offer>) returns (r: Result<(), SendError>)
      modifies connection`disconnected, connection`cancelled
      ensures r.Ok? <==> !old(connection.disconnected) && Await(offers) == Accepted
      ensures r == Err(Cancelled) <==>
              if old(connection.disconnected) then offers == [] || offers[0] == PolicyFails
              else Await(offers) == PolicyFails
      ensures r.Err? ==> r.error == Cancelled || r.error == Disconnected
      ensures connection.disconnected <==> old(connection.disconnected) || Breaks(Await(offers))
      ensures connection.cancelled == old(connection.cancelled)
                                      + if connection.disconnected && !old(connection.disconnected)
                                        then connection.active.Values else {}
    {
      var i := 0;
      while i < |offers| && !connection.disconnected && offers[i] == Full
        invariant 0 <= i <= |offers| && (connection.disconnected ==> i == 0)
        invariant Await(offers[i..]) == Await(offers)
      {
        i := i + 1;
      }
      assert i < |offers| ==> offers[i..][0] == offers[i];
      if i == |offers| || offers[i] == PolicyFails {
        return Err(Cancelled);
      }
      if connection.disconnected {
        return Err(Disconnected);
      }
      match offers[i]
      case PeerGone =>
        // Another thread disconnects, and this one notices.
        connection.Disconnect();
        return Err(Disconnected);
      case ReceiverGone =>
        connection.Disconnect();
        return Err(Disconnected);
      case Accepted =>
        return Ok(());
    }

    /** A frame is enqueued and the lifecycle advanced, or neither. Meanwhile other threads have
        enqueued `others`. */
    method SendFrame(f: Frame, offers: seq<Offer>, others: seq<Frame>) returns (r: Result<(), SendError>)
      requires Valid() && Foreign(others, requestId)
      modifies this`lifecycle, channel`sent, connection`disconnected, connection`cancelled
      ensures Valid()
      ensures r.Ok? <==>
              && Validate(old(lifecycle), requestId, f).Ok? && Fits(f, frameLimit)
              && !old(connection.disconnected) && Await(offers) == Accepted
      ensures channel.sent == old(channel.sent) + others + if r.Ok? then [f] else []
      ensures Only(channel.sent, requestId) == Only(old(channel.sent), requestId) + if r.Ok? then [f] else []
      ensures lifecycle == if r.Ok? then Validate(old(lifecycle), requestId, f).value else old(lifecycle)
      ensures Validate(old(lifecycle), requestId, f).Err? ==> r == Err(Validate(old(lifecycle), requestId, f).error)
      ensures Validate(old(lifecycle), requestId, f).Ok? ==>
                && (r == Err(FrameTooLarge) <==> !Fits(f, frameLimit))
                && (r == Err(Cancelled) && !old(connection.disconnected) ==> Await(offers) == PolicyFails)
                && (r == Err(Disconnected) && !old(connection.disconnected) ==> Breaks(Await(offers)))
                && (r.Err? && Fits(f, frameLimit) ==> r.error == Cancelled || r.error == Disconnected)
      ensures connection.disconnected <==>
              || old(connection.disconnected)
              || (Validate(old(lifecycle), requestId, f).Ok? && Fits(f, frameLimit) && Breaks(Await(offers)))
      ensures connection.cancelled == old(connection.cancelled)
                                      + if connection.disconnected && !old(connection.disconnected)
                                        then connection.active.Values else {}
      ensures TrackOf(Only(old(channel.sent), requestId)) == Progress(old(lifecycle)) ==>
              TrackOf(Only(channel.sent, requestId)) == Progress(lifecycle)
    {
      OthersAreNotOnly(channel.sent, others, requestId);
      channel.sent := channel.sent + others;
      var valid := Validate(lifecycle, requestId, f);
      if valid.Err? {
        return Err(valid.error);
      }
      if !Fits(f, frameLimit) {
        return Err(FrameTooLarge);
      }
      var accepted := AwaitRoom(offers);
      if accepted.Err? {
        return accepted;
      }
      SentKeepsTrack(channel.sent, f, lifecycle, requestId);
      channel.sent := channel.sent + [f];
      lifecycle := valid.value;
      return Ok(());
    }

    /** After a required terminal the response is closed or the connection is gone, and nothing
        but one closing frame of this request has been enqueued. */
    method RequiredTerminal(size: nat, offers: seq<Offer>, others: seq<Frame>)
      requires Valid() && Foreign(others, requestId)
      modifies this`lifecycle, channel`sent, connection`disconnected, connection`cancelled
      ensures Valid()
      ensures lifecycle == Terminal || (connection.disconnected && lifecycle == old(lifecycle))
      ensures lifecycle == Terminal <==>
              || old(lifecycle) == Terminal
              || (!old(connection.disconnected) && Fits(TerminalFrame(old(lifecycle), requestId, size), frameLimit)
                  && AwaitTerminal(offers) == Accepted)
      ensures connection.disconnected <==> old(connection.disconnected) || lifecycle != Terminal
      ensures connection.cancelled == old(connection.cancelled) ||
              (lifecycle != Terminal && connection.cancelled == old(connection.cancelled) + connection.active.Values)
      ensures connection.disconnected && !old(connection.disconnected) ==>
                connection.cancelled == old(connection.cancelled) + connection.active.Values
      ensures channel.sent == old(channel.sent) + others
                              + if old(lifecycle) == Terminal || lifecycle != Terminal then []
                                else [TerminalFrame(old(lifecycle), requestId, size)]
    {
      channel.sent := channel.sent + others;
      if lifecycle == Terminal {
        return;
      }
      var f := TerminalFrame(lifecycle, requestId, size);
      if !Fits(f, frameLimit) {
        connection.Disconnect();
        return;
      }
      var i := 0;
      while i < |offers| && !connection.disconnected && (offers[i] == Full || offers[i] == PolicyFails)
        invariant 0 <= i <= |offers|
        invariant AwaitTerminal(offers[i..]) == AwaitTerminal(offers)
      {
        i := i + 1;
      }
      assert i < |offers| ==> offers[i..][0] == offers[i];
      if connection.disconnected {
        return;
      }
      if i < |offers| && offers[i] == Accepted {
        channel.sent := channel.sent + [f];
        lifecycle := Terminal;
      } else {
        // The deadline, a receiver that is gone, or a disconnect by another thread.
        connection.Disconnect();
      }
    }
  }
}
