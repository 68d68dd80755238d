/**
 * The fixed-capacity chunk discipline of the streaming writer: a buffer
 * of CHUNK slots is flushed each time it fills and once more at the end
 * when it is not empty.  Chunks(s) is the sequence of flushed buffers.
 */
module Chunking {

  /** LimaWriterAPI_NB*_CHUNK: capacity of every chunk buffer. */
  const CHUNK: nat := 10000

  function Chunks<T>(s: seq<T>): seq<seq<T>>
    decreases |s|
  {
    if |s| == 0 then []
    else if |s| <= CHUNK then [s]
    else [s[..CHUNK]] + Chunks(s[CHUNK..])
  }

  function Flatten<T>(cs: seq<seq<T>>): seq<T>
    decreases |cs|
  {
    if |cs| == 0 then [] else cs[0] + Flatten(cs[1..])
  }

  function MapSeq<A, B>(f: A -> B, s: seq<A>): (r: seq<B>)
    ensures |r| == |s| && forall k :: 0 <= k < |s| ==> r[k] == f(s[k])
  {
    seq(|s|, k requires 0 <= k < |s| => f(s[k]))
  }

  lemma MapSeqAppend<A, B>(f: A -> B, a: seq<A>, b: seq<A>)
    ensures MapSeq(f, a + b) == MapSeq(f, a) + MapSeq(f, b)
  {
  }

  lemma FlattenAppend<T>(a: seq<seq<T>>, b: seq<seq<T>>)
    ensures Flatten(a + b) == Flatten(a) + Flatten(b)
    decreases |a|
  {
    if |a| > 0 {
      assert (a + b)[1..] == a[1..] + b;
      FlattenAppend(a[1..], b);
    } else {
      assert a + b == b;
    }
  }

  /** Concatenating the flushed chunks gives back the whole sequence. */
  lemma {:induction false} FlattenChunks<T>(s: seq<T>)
    ensures Flatten(Chunks(s)) == s
    decreases |s|
  {
    if |s| > CHUNK {
      FlattenChunks(s[CHUNK..]);
      assert s == s[..CHUNK] + s[CHUNK..];
    } else if |s| > 0 {
      assert Flatten(Chunks(s)) == s + Flatten<T>([]);
    }
  }

  /** No flushed chunk is empty and none exceeds the buffer capacity. */
  lemma {:induction false} ChunkSizes<T>(s: seq<T>)
    ensures forall c <- Chunks(s) :: 0 < |c| <= CHUNK
    decreases |s|
  {
    if |s| > CHUNK {
      ChunkSizes(s[CHUNK..]);
    }
  }

  /** Every chunk but the last is full: the buffer is flushed only when full, except at the end. */
  lemma {:induction false} ChunksFull<T>(s: seq<T>)
    ensures forall k :: 0 <= k < |Chunks(s)| - 1 ==> |Chunks(s)[k]| == CHUNK
    ensures |Chunks(s)| == (|s| + CHUNK - 1) / CHUNK
    decreases |s|
  {
    if |s| > CHUNK {
      ChunksFull(s[CHUNK..]);
      var rest := Chunks(s[CHUNK..]);
      assert Chunks(s) == [s[..CHUNK]] + rest;
      forall k | 0 <= k < |Chunks(s)| - 1 ensures |Chunks(s)[k]| == CHUNK {
        if k > 0 { assert Chunks(s)[k] == rest[k - 1]; }
      }
    }
  }

  /** Splitting at a whole number of chunks splits the chunk sequence. */
  lemma {:induction false} ChunksSplit<T>(s: seq<T>, n: nat)
    requires n % CHUNK == 0 && n <= |s|
    ensures Chunks(s) == Chunks(s[..n]) + Chunks(s[n..])
    decreases n
  {
    if n > 0 {
      var t := s[CHUNK..];
      assert |s| > CHUNK || |s| == CHUNK;
      if |s| == CHUNK {
        assert n == CHUNK;
        assert s[..n] == s && s[n..] == [];
      } else {
        ChunksSplit(t, n - CHUNK);
        assert s[..n][..CHUNK] == s[..CHUNK];
        assert s[..n][CHUNK..] == t[..n - CHUNK];
        assert t[n - CHUNK..] == s[n..];
        if n == CHUNK {
          assert Chunks(s[..n]) == [s[..CHUNK]];
          assert t[..0] == [];
        }
      }
    } else {
      assert s[..n] == [] && s[n..] == s;
    }
  }

  /** Appending one full chunk after n elements (n a multiple of CHUNK). */
  lemma ChunksGrow<T>(s: seq<T>, n: nat)
    requires n % CHUNK == 0 && n + CHUNK <= |s|
    ensures Chunks(s[..n + CHUNK]) == Chunks(s[..n]) + [s[n..n + CHUNK]]
  {
    var p := s[..n + CHUNK];
    ChunksSplit(p, n);
    assert p[..n] == s[..n];
    assert p[n..] == s[n..n + CHUNK];
  }

  /** The final, partial chunk after n elements (n a multiple of CHUNK). */
  lemma ChunksTail<T>(s: seq<T>, n: nat)
    requires n % CHUNK == 0 && n < |s| <= n + CHUNK
    ensures Chunks(s) == Chunks(s[..n]) + [s[n..]]
  {
    ChunksSplit(s, n);
  }

  /** One flush: the chunks of s[..i] are those of s[..done] followed by the buffer s[done..i]. */
  lemma ChunksStep<T>(s: seq<T>, done: nat, i: nat)
    requires done % CHUNK == 0 && done < i <= done + CHUNK && i <= |s|
    ensures Chunks(s[..i]) == Chunks(s[..done]) + [s[done..i]]
  {
    ChunksTail(s[..i], done);
    assert s[..i][..done] == s[..done];
    assert s[..i][done..] == s[done..i];
  }

  /**
   * Reading one field p out of every record f(c) built from a chunk c,
   * when that field lists e(x) for each element x of the chunk, and
   * concatenating, gives e(x) for every element of the whole sequence.
   */
  lemma {:induction false} FlattenProjected<T, R, U>(cs: seq<seq<T>>, f: seq<T> -> R, p: R -> seq<U>, e: T -> U)
    requires forall c :: p(f(c)) == MapSeq(e, c)
    ensures Flatten(MapSeq(p, MapSeq(f, cs))) == MapSeq(e, Flatten(cs))
    decreases |cs|
  {
    if |cs| > 0 {
      FlattenProjected(cs[1..], f, p, e);
      assert MapSeq(p, MapSeq(f, cs))[1..] == MapSeq(p, MapSeq(f, cs[1..]));
      MapSeqAppend(e, cs[0], Flatten(cs[1..]));
    }
  }

  // ----- proof helpers -----

  /** Flattening per-group pieces over one more group appends that group's piece. */
  lemma FlattenMapSnoc<G, T>(h: G -> seq<T>, init: seq<G>, g: G)
    ensures Flatten(MapSeq(h, init + [g])) == Flatten(MapSeq(h, init)) + h(g)
  {
    var before := MapSeq(h, init);
    assert MapSeq(h, init + [g]) == before + [h(g)];
    FlattenAppend(before, [h(g)]);
    assert [h(g)][1..] == [];
    assert Flatten([h(g)]) == h(g) + Flatten<T>([]);
  }

  /** One more full chunk keeps a chunk boundary on a chunk boundary. */
  lemma NextBoundary(done: nat)
    requires done % CHUNK == 0
    ensures (done + CHUNK) % CHUNK == 0
  {
  }

  /** A slice grown by one element. */
  lemma SliceSnoc<T>(s: seq<T>, lo: nat, hi: nat)
    requires lo <= hi < |s|
    ensures s[lo..hi + 1] == s[lo..hi] + [s[hi]]
  {
  }

  /** A position inside a partly filled buffer rounds down to the buffer's start. */
  lemma RoundDown(done: nat, c: nat)
    requires done % CHUNK == 0 && c < CHUNK
    ensures (done + c) - (done + c) % CHUNK == done
  {
  }

  /** Re-associates the records of consecutive writes. */
  lemma Append2<T>(r: seq<T>, a: seq<T>, b: seq<T>)
    ensures r + a + b == r + (a + b)
  {
  }

  lemma Append3<T>(r: seq<T>, a: seq<T>, b: seq<T>, c: seq<T>)
    ensures r + a + b + c == r + (a + b + c)
  {
  }

  lemma Append4<T>(r: seq<T>, a: seq<T>, b: seq<T>, c: seq<T>, d: seq<T>)
    ensures r + a + b + c + d == r + (a + b + c + d)
  {
  }
}
