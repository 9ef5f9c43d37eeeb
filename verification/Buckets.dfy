/**
 * Trend buckets: how a positive window is cut.
 */
module Buckets {
  import opened Prelude
  import opened Facts

  function BucketCount(w: Window): int {
    (w.toMs - w.fromMs + BucketMs(w) - 1) / BucketMs(w)
  }

  function BucketStart(w: Window, i: int): int {
    w.fromMs + i * BucketMs(w)
  }

  function BucketEnd(w: Window, i: int): int {
    Min(BucketStart(w, i) + BucketMs(w), w.toMs)
  }

  lemma DivBounds(a: int, b: int)
    requires b > 0
    ensures a / b * b <= a < a / b * b + b
  {
  }

  lemma DivIs(a: int, b: int, q: int)
    requires b > 0 && q * b <= a < q * b + b
    ensures a / b == q
  {
    DivBounds(a, b);
    var d := a / b;
    if d < q { MulMono(d + 1, q, b); }
    if d > q { MulMono(q + 1, d, b); }
  }

  lemma MulMono(a: int, b: int, c: int)
    requires a <= b && c >= 0
    ensures a * c <= b * c
  {
  }

  /** Bucket widths are whole minutes; any narrower whole-minute width would need more than 24 buckets. */
  lemma WidthIsLeast(w: Window, minutes: int)
    requires w.fromMs < w.toMs
    ensures BucketMs(w) % MINUTE_MS == 0
    ensures w.toMs - w.fromMs <= MAX_BUCKETS * BucketMs(w)
    ensures 0 < minutes * MINUTE_MS < BucketMs(w) ==> w.toMs - w.fromMs > MAX_BUCKETS * (minutes * MINUTE_MS)
  {
  }

  lemma CountBounds(w: Window)
    requires w.fromMs < w.toMs
    ensures 1 <= BucketCount(w) <= MAX_BUCKETS
    ensures (BucketCount(w) - 1) * BucketMs(w) < w.toMs - w.fromMs <= BucketCount(w) * BucketMs(w)
  {
    var b, n := BucketMs(w), BucketCount(w);
    var span := w.toMs - w.fromMs;
    WidthIsLeast(w, 0);
    DivBounds(span + b - 1, b);
    assert (n - 1) * b == n * b - b;
    if n < 1 { MulMono(n, 0, b); }
    if n > MAX_BUCKETS { MulMono(MAX_BUCKETS + 1, n, b); }
  }

  /** 1 to 24 non-empty buckets tile [from, to): each ends where the next starts. */
  lemma BucketsTile(w: Window)
    requires w.fromMs < w.toMs
    ensures 1 <= BucketCount(w) <= MAX_BUCKETS
    ensures BucketStart(w, 0) == w.fromMs && BucketEnd(w, BucketCount(w) - 1) == w.toMs
    ensures forall i :: 0 <= i < BucketCount(w) ==> BucketStart(w, i) < BucketEnd(w, i)
    ensures forall i :: 0 <= i < BucketCount(w) - 1 ==> BucketEnd(w, i) == BucketStart(w, i + 1)
  {
    CountBounds(w);
    var b, n := BucketMs(w), BucketCount(w);
    assert (n - 1) * b + b == n * b;
    forall i | 0 <= i < n ensures BucketStart(w, i) < BucketEnd(w, i) {
      MulMono(i, n - 1, b);
    }
    forall i | 0 <= i < n - 1 ensures BucketEnd(w, i) == BucketStart(w, i + 1) {
      MulMono(i + 1, n - 1, b);
      assert (i + 1) * b == i * b + b;
    }
  }

  /** Every time of the window lies in exactly one bucket, the one its index names. */
  lemma ExactlyOneBucket(w: Window, ms: int)
    requires w.fromMs <= ms < w.toMs
    ensures 0 <= BucketOf(w, ms) < BucketCount(w)
    ensures forall i :: 0 <= i < BucketCount(w) ==>
              (BucketStart(w, i) <= ms < BucketEnd(w, i) <==> i == BucketOf(w, ms))
  {
    CountBounds(w);
    var b, n := BucketMs(w), BucketCount(w);
    var at := BucketOf(w, ms);
    DivBounds(ms - w.fromMs, b);
    if at < 0 { MulMono(at, -1, b); }
    if at >= n { MulMono(n, at, b); }
    forall i | 0 <= i < n ensures BucketStart(w, i) <= ms < BucketEnd(w, i) <==> i == at {
      if BucketStart(w, i) <= ms < BucketEnd(w, i) { DivIs(ms - w.fromMs, b, i); }
    }
  }
}
