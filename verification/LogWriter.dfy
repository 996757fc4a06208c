/** The writer that turns a step's output into StepLog events (internal/core/engine.go:446-492). */
module LogWriter {
  import opened Model

  const MAX_LOG_CHUNK_SIZE: nat := 65536

  /** The chunks put together again. */
  function Joined(chunks: seq<Bytes>): Bytes {
    if chunks == [] then [] else Joined(chunks[..|chunks| - 1]) + chunks[|chunks| - 1]
  }

  lemma JoinedOneMore(chunks: seq<Bytes>, chunk: Bytes)
    ensures Joined(chunks + [chunk]) == Joined(chunks) + chunk
  {
    assert (chunks + [chunk])[..|chunks|] == chunks;
  }

  /** Chunks as Write makes them: none empty, none over the limit, and only the last one short. */
  ghost predicate WellCut(chunks: seq<Bytes>) {
    && (forall k :: 0 <= k < |chunks| ==> 1 <= |chunks[k]| <= MAX_LOG_CHUNK_SIZE)
    && (forall k :: 0 <= k < |chunks| - 1 ==> |chunks[k]| == MAX_LOG_CHUNK_SIZE)
  }

  class EventLogAdapter {
    const hasHandler: bool
    const fails: nat -> bool       // whether the handler answers its k-th event with an error
    var received: seq<Bytes>       // the LogData of the events handed to the handler

    constructor (hasHandler: bool, fails: nat -> bool)
      ensures this.hasHandler == hasHandler && this.fails == fails && received == []
    {
      this.hasHandler, this.fails := hasHandler, fails;
      received := [];
    }

    /** The chunks accepted are exactly the first `n` bytes of `p`. Without an error that is all of
        `p`; with one, the event after them was refused and held the bytes that come next. */
    method Write(p: Bytes) returns (n: nat, err: bool, ghost handed: seq<Bytes>)
      modifies this
      ensures !hasHandler ==> n == |p| && !err && handed == []
      ensures received == old(received) + handed && WellCut(handed)
      ensures forall k :: 0 <= k < |handed| ==>
        1 <= |handed[k]| <= 65536 && (k < |handed| - 1 ==> |handed[k]| == 65536)
      ensures n <= |p| && (!err ==> n == |p|)
      ensures hasHandler && !err ==> Joined(handed) == p
      ensures err ==> handed != [] && fails(|received| - 1)
      ensures err ==> Joined(handed[..|handed| - 1]) == p[..n] && Joined(handed) <= p
      ensures forall k :: |old(received)| <= k < |received| - (if err then 1 else 0) ==> !fails(k)
    {
      n, err, handed := 0, false, [];
      if !hasHandler { return |p|, false, []; }
      var rest := p;
      while |rest| > 0
        invariant Cutting(handed, rest, p) && n == |p| - |rest|
        invariant received == old(received) + handed
        invariant forall k :: |old(received)| <= k < |received| ==> !fails(k)
        decreases |rest|
      {
        hide Cutting, WellCut, Joined;
        var chunk := rest;
        if |chunk| > MAX_LOG_CHUNK_SIZE { chunk := rest[..MAX_LOG_CHUNK_SIZE]; }
        CutOne(handed, rest, p, chunk);
        rest := rest[|chunk|..];
        received := received + [chunk];
        handed := handed + [chunk];
        if fails(|received| - 1) {
          err := true;
          return;
        }
        n := n + |chunk|;
      }
    }
  }

  /** While cutting `p`: the chunks so far and the rest make up `p`, and they are full if bytes are left. */
  ghost predicate Cutting(chunks: seq<Bytes>, rest: Bytes, p: Bytes) {
    && WellCut(chunks) && Joined(chunks) + rest == p
    && (chunks != [] && rest != [] ==> |chunks[|chunks| - 1]| == MAX_LOG_CHUNK_SIZE)
  }

  lemma CutOne(chunks: seq<Bytes>, rest: Bytes, p: Bytes, chunk: Bytes)
    requires Cutting(chunks, rest, p) && rest != []
    requires chunk == if |rest| > MAX_LOG_CHUNK_SIZE then rest[..MAX_LOG_CHUNK_SIZE] else rest
    ensures Cutting(chunks + [chunk], rest[|chunk|..], p) && WellCut(chunks + [chunk])
    ensures (chunks + [chunk])[..|chunks + [chunk]| - 1] == chunks
    ensures Joined(chunks) == p[..|p| - |rest|] && Joined(chunks + [chunk]) <= p
  {
    JoinedOneMore(chunks, chunk);
    assert chunk + rest[|chunk|..] == rest;
    assert Joined(chunks) + chunk + rest[|chunk|..] == p;
    assert p[..|p| - |rest|] == Joined(chunks);
  }

  lemma {:induction false} JoinedLength(chunks: seq<Bytes>)
    requires WellCut(chunks) && chunks != []
    ensures (|chunks| - 1) * MAX_LOG_CHUNK_SIZE < |Joined(chunks)| <= |chunks| * MAX_LOG_CHUNK_SIZE
  {
    var k := |chunks| - 1;
    if k == 0 {
      assert Joined(chunks[..0]) == [];
    } else {
      JoinedLength(chunks[..k]);
      JoinedFull(chunks[..k]);
    }
  }

  lemma {:induction false} JoinedFull(chunks: seq<Bytes>)
    requires forall k :: 0 <= k < |chunks| ==> |chunks[k]| == MAX_LOG_CHUNK_SIZE
    ensures |Joined(chunks)| == |chunks| * MAX_LOG_CHUNK_SIZE
  {
    if chunks == [] {
    } else {
      JoinedFull(chunks[..|chunks| - 1]);
    }
  }

  /** There is only one way to cut a message, so the events depend on the bytes alone. */
  lemma {:induction false} CutIsUnique(a: seq<Bytes>, b: seq<Bytes>)
    requires WellCut(a) && WellCut(b) && Joined(a) == Joined(b)
    ensures a == b
  {
    if a == [] || b == [] {
      if a != [] { JoinedLength(a); }
      if b != [] { JoinedLength(b); }
    } else {
      JoinedLength(a);
      JoinedLength(b);
      assert |a| == |b|;
      var k := |a| - 1;
      JoinedFull(a[..k]);
      JoinedFull(b[..k]);
      assert Joined(a)[..k * MAX_LOG_CHUNK_SIZE] == Joined(a[..k]);
      assert Joined(b)[..k * MAX_LOG_CHUNK_SIZE] == Joined(b[..k]);
      CutIsUnique(a[..k], b[..k]);
      assert a[k] == Joined(a)[k * MAX_LOG_CHUNK_SIZE..] == b[k];
      assert a == a[..k] + [a[k]] && b == b[..k] + [b[k]];
    }
  }
}
