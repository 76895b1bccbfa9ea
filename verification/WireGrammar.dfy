/** Response frames and what a legal sequence of them is for one request id. */
module WireGrammar {
  import opened Wrappers

  type RequestId = string

  datatype Kind = ResultFrame | ErrorFrame | BeginFrame | ChunkFrame | EndFrame

  /** One row of a chunk, by its JSON text. */
  type Row = string

  /** The part of a frame's contents that matters here: the rows of a chunk, and the numbers
      of bytes, rows and commands a successful end frame reports for the whole response. */
  datatype Payload = Bare | Rows(rows: seq<Row>) | Totals(encodedBytes: nat, rowCount: nat, commands: nat)

  /** `size` is the number of bytes of the frame's JSON text, without the newline. */
  datatype Frame = Frame(kind: Kind, id: Option<RequestId>, seq_: nat, size: nat, payload: Payload)

  // ------------------------------------------------------------------ the grammar

  /** A begun stream: a begin frame and chunks, numbered 0, 1, 2, ... without gaps. */
  predicate Stream(fs: seq<Frame>) {
    && fs != [] && fs[0].kind == BeginFrame
    && (forall i | 0 <= i < |fs| :: fs[i].seq_ == i)
    && (forall i | 0 < i < |fs| :: fs[i].kind == ChunkFrame)
  }

  /** A complete response: `result`, `error`, or `begin chunk* end`. */
  predicate Complete(fs: seq<Frame>) {
    || (|fs| == 1 && fs[0].seq_ == 0 && (fs[0].kind == ResultFrame || fs[0].kind == ErrorFrame))
    || (|fs| >= 2 && Stream(fs[..|fs| - 1]) && fs[|fs| - 1].kind == EndFrame && fs[|fs| - 1].seq_ == |fs| - 1)
  }

  function Flatten(parts: seq<seq<Frame>>): seq<Frame> {
    if parts == [] then [] else Flatten(parts[..|parts| - 1]) + parts[|parts| - 1]
  }

  predicate Decomposes(fs: seq<Frame>, parts: seq<seq<Frame>>, rest: seq<Frame>) {
    && fs == Flatten(parts) + rest
    && (forall i | 0 <= i < |parts| :: Complete(parts[i]))
    && (rest == [] || Stream(rest))
  }

  /** Complete responses one after the other, then at most one unfinished stream. */
  ghost predicate Legal(fs: seq<Frame>) {
    exists parts, rest :: Decomposes(fs, parts, rest)
  }

  // ------------------------------------------------------------------ its automaton

  datatype Track = Closed | Open(next: nat) | Broken

  function Feed(track: Track, f: Frame): Track {
    match track
    case Closed =>
      if f.seq_ != 0 then Broken
      else if f.kind == ResultFrame || f.kind == ErrorFrame then Closed
      else if f.kind == BeginFrame then Open(1)
      else Broken
    case Open(next) =>
      if f.seq_ != next then Broken
      else if f.kind == ChunkFrame then Open(next + 1)
      else if f.kind == EndFrame then Closed
      else Broken
    case Broken => Broken
  }

  function TrackOf(fs: seq<Frame>): Track {
    if fs == [] then Closed else Feed(TrackOf(fs[..|fs| - 1]), fs[|fs| - 1])
  }

  function Follow(track: Track, fs: seq<Frame>): Track {
    if fs == [] then track else Feed(Follow(track, fs[..|fs| - 1]), fs[|fs| - 1])
  }

  lemma {:induction false} FollowConcat(track: Track, a: seq<Frame>, b: seq<Frame>)
    ensures Follow(track, a + b) == Follow(Follow(track, a), b)
  {
    if b == [] {
      assert a + b == a;
    } else {
      assert (a + b)[..|a + b| - 1] == a + b[..|b| - 1];
      FollowConcat(track, a, b[..|b| - 1]);
    }
  }

  lemma {:induction false} TrackIsFollow(fs: seq<Frame>)
    ensures TrackOf(fs) == Follow(Closed, fs)
  {
    if fs == [] {
    } else {
      TrackIsFollow(fs[..|fs| - 1]);
    }
  }

  lemma {:induction false} StreamOpens(fs: seq<Frame>)
    requires Stream(fs)
    ensures Follow(Closed, fs) == Open(|fs|)
  {
    if |fs| > 1 {
      StreamOpens(fs[..|fs| - 1]);
    } else {
      assert Follow(Closed, fs[..0]) == Closed;
    }
  }

  lemma CompleteCloses(fs: seq<Frame>)
    requires Complete(fs)
    ensures Follow(Closed, fs) == Closed
  {
    if |fs| == 1 {
      assert Follow(Closed, fs[..0]) == Closed;
    } else {
      StreamOpens(fs[..|fs| - 1]);
    }
  }

  lemma {:induction false} PartsClose(parts: seq<seq<Frame>>)
    requires forall i | 0 <= i < |parts| :: Complete(parts[i])
    ensures Follow(Closed, Flatten(parts)) == Closed
  {
    if parts == [] {
    } else {
      var last := |parts| - 1;
      PartsClose(parts[..last]);
      FollowConcat(Closed, Flatten(parts[..last]), parts[last]);
      CompleteCloses(parts[last]);
    }
  }

  function Rest(rest: seq<Frame>): Track {
    if rest == [] then Closed else Open(|rest|)
  }

  lemma StreamGrows(rest: seq<Frame>, f: Frame)
    requires rest == [] || Stream(rest)
    requires Feed(Rest(rest), f).Open?
    ensures Stream(rest + [f]) && Feed(Rest(rest), f) == Rest(rest + [f])
  {
  }

  lemma ResponseCloses(rest: seq<Frame>, f: Frame)
    requires rest == [] || Stream(rest)
    requires Feed(Rest(rest), f) == Closed
    ensures Complete(rest + [f])
  {
    assert (rest + [f])[..|rest|] == rest;
  }

  lemma DecompositionGrows(fs: seq<Frame>, parts: seq<seq<Frame>>, rest: seq<Frame>, f: Frame)
    requires Decomposes(fs, parts, rest) && Feed(Rest(rest), f).Open?
    ensures Decomposes(fs + [f], parts, rest + [f]) && Feed(Rest(rest), f) == Rest(rest + [f])
  {
    StreamGrows(rest, f);
    assert fs + [f] == Flatten(parts) + (rest + [f]);
  }

  lemma DecompositionCloses(fs: seq<Frame>, parts: seq<seq<Frame>>, rest: seq<Frame>, f: Frame)
    requires Decomposes(fs, parts, rest) && Feed(Rest(rest), f) == Closed
    ensures Decomposes(fs + [f], parts + [rest + [f]], [])
  {
    ResponseCloses(rest, f);
    var parts' := parts + [rest + [f]];
    assert parts'[..|parts|] == parts;
    assert Flatten(parts') == Flatten(parts) + (rest + [f]);
    assert fs + [f] == Flatten(parts') + [];
  }

  lemma {:induction false} AutomatonDecomposes(fs: seq<Frame>) returns (parts: seq<seq<Frame>>, rest: seq<Frame>)
    requires TrackOf(fs) != Broken
    ensures Decomposes(fs, parts, rest) && TrackOf(fs) == Rest(rest)
  {
    if fs == [] {
      parts, rest := [], [];
    } else {
      var init, f := fs[..|fs| - 1], fs[|fs| - 1];
      assert fs == init + [f];
      var parts0, rest0 := AutomatonDecomposes(init);
      if TrackOf(fs).Open? {
        DecompositionGrows(init, parts0, rest0, f);
        parts, rest := parts0, rest0 + [f];
      } else {
        DecompositionCloses(init, parts0, rest0, f);
        parts, rest := parts0 + [rest0 + [f]], [];
      }
    }
  }

  /** The automaton accepts exactly the legal sequences. */
  lemma LegalIffNotBroken(fs: seq<Frame>)
    ensures Legal(fs) <==> TrackOf(fs) != Broken
  {
    if TrackOf(fs) != Broken {
      var parts, rest := AutomatonDecomposes(fs);
    }
    if parts, rest :| Decomposes(fs, parts, rest) {
      TrackIsFollow(fs);
      FollowConcat(Closed, Flatten(parts), rest);
      PartsClose(parts);
      if rest != [] {
        StreamOpens(rest);
      }
    }
  }

  // ------------------------------------------------------------------ one id on a shared channel

  /** The frames of one request id, in the order they were enqueued. */
  function Only(wire: seq<Frame>, id: RequestId): seq<Frame> {
    if wire == [] then []
    else
      var init := Only(wire[..|wire| - 1], id);
      if wire[|wire| - 1].id == Some(id) then init + [wire[|wire| - 1]] else init
  }

  /** Frames of other requests, or of none. */
  predicate Foreign(others: seq<Frame>, id: RequestId) {
    forall i | 0 <= i < |others| :: others[i].id != Some(id)
  }

  /** What other threads enqueue does not show among the frames of one id. */
  lemma {:induction false} OthersAreNotOnly(wire: seq<Frame>, others: seq<Frame>, id: RequestId)
    requires Foreign(others, id)
    ensures Only(wire + others, id) == Only(wire, id)
  {
    if others == [] {
      assert wire + others == wire;
    } else {
      assert (wire + others)[..|wire + others| - 1] == wire + others[..|others| - 1];
      OthersAreNotOnly(wire, others[..|others| - 1], id);
    }
  }

  lemma OnlyAppend(wire: seq<Frame>, f: Frame, id: RequestId)
    ensures Only(wire + [f], id) == Only(wire, id) + if f.id == Some(id) then [f] else []
  {
    assert (wire + [f])[..|wire|] == wire;
  }

  lemma EnqueueTracks(wire: seq<Frame>, f: Frame, id: RequestId)
    ensures TrackOf(Only(wire + [f], id)) ==
            if f.id == Some(id) then Feed(TrackOf(Only(wire, id)), f) else TrackOf(Only(wire, id))
  {
    assert (wire + [f])[..|wire|] == wire;
    var before := Only(wire, id);
    assert (before + [f])[..|before|] == before;
  }
}
