/**
 * The token bucket that bounds authentication attempts.
 *
 * The bucket's own clock runs in tokens: a reading `now` of the wall clock is `now * rate` tokens, so
 * that a refill is a difference of readings.
 */
module AuthBudget {

  datatype Bucket = Bucket(burst: nat, tokens: real, updated: real)

  predicate Sound(b: Bucket) {
    0.0 <= b.tokens <= b.burst as real
  }

  function Positive(x: real): real {
    if x > 0.0 then x else 0.0
  }

  /** Refill for the time since the last call, never beyond the burst. */
  function Refill(b: Bucket, now: real): real {
    var filled := b.tokens + Positive(now - b.updated);
    if filled < b.burst as real then filled else b.burst as real
  }

  predicate Accepts(b: Bucket, now: real) {
    Refill(b, now) >= 1.0
  }

  function AfterCall(b: Bucket, now: real): Bucket {
    b.(tokens := Refill(b, now) - (if Accepts(b, now) then 1.0 else 0.0), updated := now)
  }

  lemma MulDistrib(a: real, b: real, c: real)
    ensures (a - b) * c == a * c - b * c
  {
  }

  lemma MulNonneg(a: real, b: real)
    requires a >= 0.0 && b >= 0.0
    ensures a * b >= 0.0
  {
  }

  /** Scaling by a rate keeps the order of readings and turns elapsed time into elapsed tokens. */
  lemma ScaledElapsed(earlier: real, later: real, rate: real)
    requires rate >= 0.0 && earlier <= later
    ensures later * rate - earlier * rate == (later - earlier) * rate
    ensures earlier * rate <= later * rate
  {
    var elapsed := later - earlier;
    assert elapsed * rate == later * rate - earlier * rate by { MulDistrib(later, earlier, rate); }
    assert elapsed * rate >= 0.0 by { MulNonneg(elapsed, rate); }
  }

  /** The refill in tokens: what the source earns is the difference of the two readings in token time. */
  lemma ScaledRefill(now: real, updated: real, rate: real, tick: real, last: real)
    requires rate >= 0.0 && tick == now * rate && last == updated * rate
    ensures Positive(now - updated) * rate == Positive(tick - last)
  {
    if now > updated {
      assert Positive(now - updated) == now - updated;
      ScaledElapsed(updated, now, rate);
    } else {
      assert Positive(now - updated) == 0.0;
      ScaledElapsed(now, updated, rate);
    }
  }

  /** Process-wide budget, charged before any credential work. */
  class AuthAttemptBudget {
    const rate: real
    const burst: nat
    var tokens: real
    var updated: real

    function State(): Bucket
      reads this
    {
      Bucket(burst, tokens, updated * rate)
    }

    ghost predicate Valid()
      reads this
    {
      rate >= 0.0 && Sound(State())
    }

    constructor (rate: real, burst: nat, now: real)
      requires rate >= 0.0
      ensures Valid() && this.rate == rate && State() == Bucket(burst, burst as real, now * rate)
    {
      this.rate, this.burst, this.tokens, this.updated := rate, burst, burst as real, now;
    }

    /** Charge one attempt at the clock reading `now`; false is the busy error. */
    method Consume(now: real) returns (accepted: bool)
      requires Valid()
      modifies this
      ensures Valid()
      ensures accepted == Accepts(old(State()), now * rate)
      ensures State() == AfterCall(old(State()), now * rate)
    {
      ghost var before, tick := State(), now * rate;
      var earned := Positive(now - updated) * rate;
      assert earned == Positive(tick - before.updated) by {
        ScaledRefill(now, updated, rate, tick, before.updated);
      }
      var filled := tokens + earned;
      tokens := if filled < burst as real then filled else burst as real;
      updated := now;
      assert tokens == Refill(before, tick) && updated * rate == tick;
      if tokens < 1.0 {
        return false;
      }
      tokens := tokens - 1.0;
      accepted := true;
    }
  }

  // ----- call sequences, in token time -----

  function AfterCalls(b: Bucket, ticks: seq<real>): Bucket
    decreases |ticks|
  {
    if ticks == [] then b else AfterCalls(AfterCall(b, ticks[0]), ticks[1..])
  }

  function AcceptedCalls(b: Bucket, ticks: seq<real>): nat
    decreases |ticks|
  {
    if ticks == [] then 0
    else (if Accepts(b, ticks[0]) then 1 else 0) + AcceptedCalls(AfterCall(b, ticks[0]), ticks[1..])
  }

  predicate Nondecreasing(ticks: seq<real>) {
    forall i, j :: 0 <= i < j < |ticks| ==> ticks[i] <= ticks[j]
  }

  /** The tokens stay within [0, burst] over every call sequence, whatever the clock does. */
  lemma {:induction false} StaysSound(b: Bucket, ticks: seq<real>)
    requires Sound(b)
    ensures Sound(AfterCalls(b, ticks)) && AfterCalls(b, ticks).burst == b.burst
    decreases |ticks|
  {
    if ticks != [] {
      StaysSound(AfterCall(b, ticks[0]), ticks[1..]);
    }
  }

  /** Accepted calls are paid from the tokens at the start and the refill since. */
  lemma {:induction false} PaidByRefill(b: Bucket, ticks: seq<real>)
    requires Sound(b) && ticks != [] && b.updated <= ticks[0] && Nondecreasing(ticks)
    ensures AcceptedCalls(b, ticks) as real <= b.tokens + (ticks[|ticks| - 1] - b.updated)
    decreases |ticks|
  {
    var next, rest := AfterCall(b, ticks[0]), ticks[1..];
    if rest != [] {
      PaidByRefill(next, rest);
    }
  }

  /** Within one segment the calls are paid from at most one burst and the segment's own refill. */
  lemma SegmentFrom(b: Bucket, ticks: seq<real>)
    requires Sound(b) && ticks != [] && Nondecreasing(ticks)
    ensures AcceptedCalls(b, ticks) as real <= b.burst as real + (ticks[|ticks| - 1] - ticks[0])
  {
    var next, rest := AfterCall(b, ticks[0]), ticks[1..];
    if rest != [] {
      PaidByRefill(next, rest);
    }
  }

  /** The calls from index i up to j of a longer sequence, as they happen in it. */
  function AcceptedBetween(b: Bucket, ticks: seq<real>, i: nat, j: nat): nat
    requires i <= j <= |ticks|
  {
    AcceptedCalls(AfterCalls(b, ticks[..i]), ticks[i..j])
  }

  lemma SegmentInTicks(b: Bucket, ticks: seq<real>, i: nat, j: nat)
    requires Sound(b) && Nondecreasing(ticks) && i < j <= |ticks|
    ensures AcceptedBetween(b, ticks, i, j) as real <= b.burst as real + (ticks[j - 1] - ticks[i])
  {
    StaysSound(b, ticks[..i]);
    var segment := ticks[i..j];
    assert segment[0] == ticks[i] && segment[|segment| - 1] == ticks[j - 1];
    SegmentFrom(AfterCalls(b, ticks[..i]), segment);
  }

  // ----- exactly when a call is refused -----

  /** One more call in the segment from i to j stays within the burst and the segment's refill. */
  predicate Affordable(b: Bucket, ticks: seq<real>, i: nat, j: nat)
    requires i <= j < |ticks|
  {
    AcceptedBetween(b, ticks, i, j) as real + 1.0 <= b.burst as real + (ticks[j] - ticks[i])
  }

  lemma CutAgain(ticks: seq<real>, i: nat, j: nat)
    requires 0 < i <= j <= |ticks|
    ensures ticks[..i][1..] == ticks[1..][..i - 1] && ticks[i..j] == ticks[1..][i - 1..j - 1]
  {
  }

  lemma NextSegment(b: Bucket, ticks: seq<real>, i: nat, j: nat)
    requires 0 < i <= j <= |ticks|
    ensures AfterCalls(b, ticks[..i]) == AfterCalls(AfterCall(b, ticks[0]), ticks[1..][..i - 1])
    ensures AcceptedBetween(b, ticks, i, j) == AcceptedBetween(AfterCall(b, ticks[0]), ticks[1..], i - 1, j - 1)
  {
    CutAgain(ticks, i, j);
    assert ticks[..i] != [] && ticks[..i][0] == ticks[0];
  }

  lemma FirstSegment(b: Bucket, ticks: seq<real>, j: nat)
    requires 0 < j <= |ticks|
    ensures AcceptedBetween(b, ticks, 0, j)
            == (if Accepts(b, ticks[0]) then 1 else 0) + AcceptedBetween(AfterCall(b, ticks[0]), ticks[1..], 0, j - 1)
  {
    var segment := ticks[0..j];
    assert segment[0] == ticks[0];
    assert segment[1..] == ticks[1..j] && ticks[1..][0..j - 1] == ticks[1..j];
    assert ticks[..0] == [] && ticks[1..][..0] == [];
  }

  predicate AllAffordable(b: Bucket, ticks: seq<real>, j: nat)
    requires j < |ticks|
  {
    forall i :: 0 <= i <= j ==> Affordable(b, ticks, i, j)
  }

  lemma AffordableSplits(b: Bucket, ticks: seq<real>, j: nat)
    requires 0 < j < |ticks|
    ensures AllAffordable(b, ticks, j) <==> Affordable(b, ticks, 0, j) && AllAffordable(AfterCall(b, ticks[0]), ticks[1..], j - 1)
  {
    var next, rest, k := AfterCall(b, ticks[0]), ticks[1..], j - 1;
    if AllAffordable(b, ticks, j) {
      forall i | 0 <= i <= k ensures Affordable(next, rest, i, k) {
        NextSegment(b, ticks, i + 1, j);
        assert Affordable(b, ticks, i + 1, j);
      }
    }
    if Affordable(b, ticks, 0, j) && AllAffordable(next, rest, k) {
      forall i | 0 <= i <= j ensures Affordable(b, ticks, i, j) {
        if i > 0 {
          NextSegment(b, ticks, i, j);
          assert Affordable(next, rest, i - 1, k);
        }
      }
    }
  }

  /**
   * A call is refused exactly when accepting it would overdraw the tokens at the start, or some segment
   * of calls that ends with it: the budget is neither looser nor stricter than its burst and rate.
   */
  lemma {:induction false} AcceptsIffAffordable(b: Bucket, ticks: seq<real>, j: nat)
    requires Sound(b) && j < |ticks| && b.updated <= ticks[0] && Nondecreasing(ticks)
    ensures Accepts(AfterCalls(b, ticks[..j]), ticks[j])
            <==> && AcceptedBetween(b, ticks, 0, j) as real + 1.0 <= b.tokens + (ticks[j] - b.updated)
                 && AllAffordable(b, ticks, j)
    decreases |ticks|
  {
    if j == 0 {
      assert ticks[..0] == [];
      assert AcceptedBetween(b, ticks, 0, 0) == 0;
      assert AllAffordable(b, ticks, 0) <==> Affordable(b, ticks, 0, 0);
    } else {
      AcceptsIffAffordable(AfterCall(b, ticks[0]), ticks[1..], j - 1);
      NextSegment(b, ticks, j, j);
      FirstSegment(b, ticks, j);
      AffordableSplits(b, ticks, j);
    }
  }

  // ----- in wall-clock time -----

  /** Token-time readings of the wall clock. */
  predicate Scales(times: seq<real>, rate: real, ticks: seq<real>) {
    |ticks| == |times| && forall k :: 0 <= k < |times| ==> ticks[k] == times[k] * rate
  }

  lemma ScalesOrder(times: seq<real>, rate: real, ticks: seq<real>)
    requires Scales(times, rate, ticks) && rate >= 0.0 && Nondecreasing(times)
    ensures Nondecreasing(ticks)
  {
    forall i, j | 0 <= i < j < |ticks| ensures ticks[i] <= ticks[j] {
      ScaledElapsed(times[i], times[j], rate);
    }
  }

  lemma ScalesElapsed(times: seq<real>, rate: real, ticks: seq<real>, i: nat, j: nat)
    requires Scales(times, rate, ticks) && rate >= 0.0 && Nondecreasing(times) && i < j <= |times|
    ensures ticks[j - 1] - ticks[i] == (times[j - 1] - times[i]) * rate
  {
    ScaledElapsed(times[i], times[j - 1], rate);
  }

  /**
   * For every call sequence with a nondecreasing clock and every contiguous segment of it, at most
   * burst + rate * elapsed calls are accepted.
   */
  lemma SegmentBound(b: Bucket, times: seq<real>, rate: real, ticks: seq<real>, i: nat, j: nat)
    requires Sound(b) && rate >= 0.0 && Scales(times, rate, ticks) && Nondecreasing(times) && i < j <= |times|
    ensures AcceptedBetween(b, ticks, i, j) as real <= b.burst as real + (times[j - 1] - times[i]) * rate
  {
    ScalesOrder(times, rate, ticks);
    ScalesElapsed(times, rate, ticks, i, j);
    SegmentInTicks(b, ticks, i, j);
  }

  /** The budget is not stricter than promised: one token's worth of idle time always admits a call. */
  lemma IdleTimeAdmits(b: Bucket, now: real)
    requires Sound(b) && b.burst >= 1 && now - b.updated >= 1.0
    ensures Accepts(b, now)
  {
  }
}
