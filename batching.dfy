/**
  The batch boundaries of the streaming loops in `import_data`: rows are
  appended to a buffer, the buffer is flushed as soon as it holds `n` rows,
  and whatever is left at the end of the stream is flushed once more.
 */
module Batching {

  /** The batches flushed for a stream: full batches of `n`, then the non-empty rest. */
  function Batches<T>(xs: seq<T>, n: nat): seq<seq<T>>
    requires n > 0
    decreases |xs|
  {
    if |xs| == 0 then []
    else if |xs| <= n then [xs]
    else [xs[..n]] + Batches(xs[n..], n)
  }

  /** The batches put back together, in order. */
  function Flatten<T>(bs: seq<seq<T>>): seq<T>
  {
    if |bs| == 0 then [] else Flatten(bs[..|bs| - 1]) + bs[|bs| - 1]
  }

  predicate FullBatches<T>(bs: seq<seq<T>>, n: nat)
  {
    forall i :: 0 <= i < |bs| ==> |bs[i]| == n
  }

  lemma {:induction false} FlattenConcat<T>(a: seq<seq<T>>, b: seq<seq<T>>)
    ensures Flatten(a + b) == Flatten(a) + Flatten(b)
    decreases |b|
  {
    if |b| == 0 {
      assert a + b == a;
    } else {
      var c := a + b;
      assert c[..|c| - 1] == a + b[..|b| - 1];
      FlattenConcat(a, b[..|b| - 1]);
    }
  }

  lemma FlattenSnoc<T>(bs: seq<seq<T>>, b: seq<T>)
    ensures Flatten(bs + [b]) == Flatten(bs) + b
  {
    assert (bs + [b])[..|bs|] == bs;
  }

  lemma FullBatchesSnoc<T>(bs: seq<seq<T>>, b: seq<T>, n: nat)
    requires FullBatches(bs, n) && |b| == n
    ensures FullBatches(bs + [b], n)
  {
    forall i | 0 <= i < |bs| + 1 ensures |(bs + [b])[i]| == n {
      if i < |bs| {
        assert (bs + [b])[i] == bs[i];
      }
    }
  }

  lemma FlattenFirst<T>(b: seq<T>, rest: seq<seq<T>>)
    ensures Flatten([b] + rest) == b + Flatten(rest)
  {
    FlattenConcat([b], rest);
    assert Flatten([b]) == Flatten([b][..0]) + b;
  }

  /**
    Every batch is non-empty and holds at most `n` rows, every batch but the
    last holds exactly `n`, and the batches concatenate back to the stream.
   */
  lemma {:induction false} BatchesShape<T>(xs: seq<T>, n: nat)
    requires n > 0
    ensures var bs := Batches(xs, n);
      && (forall i :: 0 <= i < |bs| ==> 0 < |bs[i]| <= n)
      && (forall i :: 0 <= i < |bs| - 1 ==> |bs[i]| == n)
      && Flatten(bs) == xs
    decreases |xs|
  {
    var bs := Batches(xs, n);
    if |xs| == 0 {
    } else if |xs| <= n {
      assert Flatten(bs) == Flatten(bs[..0]) + xs;
    } else {
      BatchesShape(xs[n..], n);
      var rest := Batches(xs[n..], n);
      assert bs == [xs[..n]] + rest;
      FlattenFirst(xs[..n], rest);
      assert xs[..n] + xs[n..] == xs;
      forall i | 0 <= i < |bs| ensures 0 < |bs[i]| <= n {
        if i > 0 {
          assert bs[i] == rest[i - 1];
        }
      }
      forall i | 0 <= i < |bs| - 1 ensures |bs[i]| == n {
        if i > 0 {
          assert bs[i] == rest[i - 1];
        }
      }
    }
  }

  /**
    What the streaming loop has flushed so far, plus its buffer, determines
    the batches of the stream: the full batches already flushed, then the
    buffer when it is not empty.
   */
  lemma {:induction false} BatchesOfFlushed<T>(done: seq<seq<T>>, buffer: seq<T>, n: nat)
    requires n > 0 && FullBatches(done, n) && |buffer| < n
    ensures Batches(Flatten(done) + buffer, n) == done + (if |buffer| == 0 then [] else [buffer])
    decreases |done|
  {
    if |done| == 0 {
      assert Flatten(done) + buffer == buffer;
    } else {
      var rest := done[1..];
      assert done == [done[0]] + rest;
      FlattenFirst(done[0], rest);
      var xs := Flatten(done) + buffer;
      assert xs == done[0] + (Flatten(rest) + buffer);
      assert FullBatches(rest, n) by {
        forall i | 0 <= i < |rest| ensures |rest[i]| == n {
          assert rest[i] == done[i + 1];
        }
      }
      BatchesOfFlushed(rest, buffer, n);
      if |rest| == 0 && |buffer| == 0 {
        assert xs == done[0];
      } else {
        if |rest| > 0 {
          assert |Flatten(rest)| >= n by {
            FlattenFirst(rest[0], rest[1..]);
            assert rest == [rest[0]] + rest[1..];
          }
        }
        assert xs[..n] == done[0];
        assert xs[n..] == Flatten(rest) + buffer;
        assert Batches(xs, n) == [xs[..n]] + Batches(xs[n..], n);
      }
    }
  }

  /**
    One step of the streaming loop: the next row joins the buffer, and a
    buffer that has reached `n` rows, flushed as one more full batch, keeps
    the flushed batches and the buffer equal to the rows read so far. The
    `+ []` is the emptied buffer: the clause has the shape of the loop
    invariant `Flatten(done) + buffer == stream[..r]` after the flush.
   */
  lemma BufferStep<T>(done: seq<seq<T>>, buffer: seq<T>, stream: seq<T>, r: nat, n: nat)
    requires r < |stream| && Flatten(done) + buffer == stream[..r]
    requires FullBatches(done, n) && |buffer| < n
    ensures var b := buffer + [stream[r]];
      && Flatten(done) + b == stream[..r + 1]
      && |b| <= n
      && (|b| >= n ==> Flatten(done + [b]) + [] == stream[..r + 1] && FullBatches(done + [b], n))
  {
    var b := buffer + [stream[r]];
    assert stream[..r + 1] == stream[..r] + [stream[r]];
    if |b| >= n {
      FlattenSnoc(done, b);
      FullBatchesSnoc(done, b, n);
    }
  }

  /**
    The batch list is the only one with those three properties: any list of
    non-empty batches of at most `n`, all but the last full, that
    concatenates to the stream is `Batches` of the stream.
   */
  lemma {:induction false} BatchesUnique<T>(xs: seq<T>, bs: seq<seq<T>>, n: nat)
    requires n > 0
    requires forall i :: 0 <= i < |bs| ==> 0 < |bs[i]| <= n
    requires forall i :: 0 <= i < |bs| - 1 ==> |bs[i]| == n
    requires Flatten(bs) == xs
    ensures bs == Batches(xs, n)
  {
    if |bs| == 0 {
    } else {
      var done := bs[..|bs| - 1];
      var last := bs[|bs| - 1];
      assert FullBatches(done, n);
      assert bs == done + [last];
      if |last| < n {
        BatchesOfFlushed(done, last, n);
      } else {
        BatchesOfFlushed(bs, [], n);
        assert Flatten(bs) + [] == xs;
        assert FullBatches(bs, n);
      }
    }
  }
}
