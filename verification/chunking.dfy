/** Splitting one page's requests into batchWrite calls of at most 25 requests. */
module Chunking {

  /** The most requests one batchWrite call carries (and the most the service accepts). */
  const MaxBatch: nat := 25

  /**
   * The chunks the writer flushes: consecutive runs of MaxBatch requests, the last one
   * possibly shorter. There are ceil(|s| / MaxBatch) of them.
   */
  function Chunks<T>(s: seq<T>): (cs: seq<seq<T>>)
    ensures |cs| == (|s| + MaxBatch - 1) / MaxBatch
    decreases |s|
  {
    if |s| == 0 then []
    else if |s| <= MaxBatch then [s]
    else [s[..MaxBatch]] + Chunks(s[MaxBatch..])
  }

  /** Concatenation of a sequence of sequences, in order. */
  function Flatten<T>(ss: seq<seq<T>>): seq<T>
    decreases |ss|
  {
    if ss == [] then [] else ss[0] + Flatten(ss[1..])
  }

  lemma {:induction false} FlattenAppend<T>(a: seq<seq<T>>, b: seq<seq<T>>)
    ensures Flatten(a + b) == Flatten(a) + Flatten(b)
    decreases |a|
  {
    if a == [] {
      assert a + b == b;
    } else {
      assert (a + b)[0] == a[0];
      assert (a + b)[1..] == a[1..] + b;
      FlattenAppend(a[1..], b);
    }
  }

  /** Every chunk holds 1 to MaxBatch requests, and every chunk but the last exactly MaxBatch. */
  lemma {:induction false} ChunkSizes<T>(s: seq<T>)
    ensures forall i :: 0 <= i < |Chunks(s)| ==> 1 <= |Chunks(s)[i]| <= MaxBatch
    ensures forall i :: 0 <= i < |Chunks(s)| - 1 ==> |Chunks(s)[i]| == MaxBatch
    decreases |s|
  {
    if |s| > MaxBatch {
      var rest := Chunks(s[MaxBatch..]);
      ChunkSizes(s[MaxBatch..]);
      assert Chunks(s) == [s[..MaxBatch]] + rest;
      forall i | 0 < i < |Chunks(s)|
        ensures Chunks(s)[i] == rest[i - 1]
      {
      }
    }
  }

  /** The chunks, concatenated in order, are the original sequence: nothing is lost, repeated or reordered. */
  lemma {:induction false} FlattenChunks<T>(s: seq<T>)
    ensures Flatten(Chunks(s)) == s
    decreases |s|
  {
    if |s| == 0 {
    } else if |s| <= MaxBatch {
      assert Chunks(s) == [s];
      assert Flatten([s]) == s + Flatten([s][1..]);
    } else {
      var cs := Chunks(s);
      FlattenChunks(s[MaxBatch..]);
      assert cs[0] == s[..MaxBatch];
      assert cs[1..] == Chunks(s[MaxBatch..]);
      assert s == s[..MaxBatch] + s[MaxBatch..];
    }
  }

  /** Chunking a prefix whose length is a multiple of MaxBatch does not disturb the chunks after it. */
  lemma {:induction false} ChunksAppend<T>(a: seq<T>, b: seq<T>)
    requires |a| % MaxBatch == 0
    ensures Chunks(a + b) == Chunks(a) + Chunks(b)
    decreases |a|
  {
    if |a| == 0 {
      assert a + b == b;
    } else if |a + b| <= MaxBatch {
      assert b == [];
      assert a + b == a;
    } else {
      assert (a + b)[..MaxBatch] == a[..MaxBatch];
      assert (a + b)[MaxBatch..] == a[MaxBatch..] + b;
      ChunksAppend(a[MaxBatch..], b);
      if |a| == MaxBatch {
        assert a[..MaxBatch] == a;
        assert a[MaxBatch..] == [];
      }
    }
  }

  /** The scenario of 60 items: three calls, of 25, 25 and 10 requests. */
  lemma {:induction false} SixtyItemsThreeBatches<T>(s: seq<T>)
    requires |s| == 60
    ensures Chunks(s) == [s[..25], s[25..50], s[50..]]
  {
    assert Chunks(s) == [s[..25]] + Chunks(s[25..]);
    assert Chunks(s[25..]) == [s[25..][..25]] + Chunks(s[25..][25..]);
    assert s[25..][..25] == s[25..50];
    assert s[25..][25..] == s[50..];
  }
}
