/**
 * Encoding one export batch: whole when possible, otherwise only the rows that can be mapped.
 */
module ExportBatch {
  import opened Prelude

  /** build_logs_request(...).SerializeToString(): None is a mapping error. */
  type Encoder<!E> = seq<E> -> Option<seq<Byte>>

  predicate Mappable<E>(encode: Encoder<E>, e: E) {
    encode([e]).Some?
  }

  function Keep<E>(encode: Encoder<E>, events: seq<E>, good: bool): seq<E> {
    if events == [] then []
    else
      Keep(encode, events[..|events| - 1], good)
      + (if Mappable(encode, events[|events| - 1]) == good then [events[|events| - 1]] else [])
  }

  /** A request can be built exactly when each of its events can be mapped. */
  ghost predicate MapsEventByEvent<E(!new)>(encode: Encoder<E>) {
    forall events :: encode(events).Some? <==> forall e :: e in events ==> Mappable(encode, e)
  }

  lemma {:induction false} KeepHas<E>(encode: Encoder<E>, events: seq<E>, good: bool, e: E)
    ensures e in Keep(encode, events, good) <==> e in events && Mappable(encode, e) == good
  {
    if events != [] {
      var n := |events| - 1;
      KeepHas(encode, events[..n], good, e);
      assert events == events[..n] + [events[n]];
    }
  }

  lemma {:induction false} KeepAll<E>(encode: Encoder<E>, events: seq<E>)
    requires forall e :: e in events ==> Mappable(encode, e)
    ensures Keep(encode, events, true) == events && Keep(encode, events, false) == []
  {
    if events != [] {
      var n := |events| - 1;
      KeepAll(encode, events[..n]);
      assert events == events[..n] + [events[n]];
    }
  }

  lemma {:induction false} KeepSplits<E>(encode: Encoder<E>, events: seq<E>)
    ensures multiset(Keep(encode, events, true)) + multiset(Keep(encode, events, false)) == multiset(events)
  {
    if events != [] {
      var n := |events| - 1;
      KeepSplits(encode, events[..n]);
      assert events == events[..n] + [events[n]];
    }
  }

  /**
   * One encoding on the healthy path; otherwise the bad rows are set apart one by one.  Every row is
   * exported or rejected, and the payload encodes exactly the exported ones; None is a mapping error
   * that only the combination of mappable rows raises.
   */
  method EncodeIsolated<E>(encode: Encoder<E>, events: seq<E>) returns (payload: Option<seq<Byte>>, valid: seq<E>, invalid: seq<E>)
    ensures multiset(valid) + multiset(invalid) == multiset(events)
    ensures encode(events).Some? ==> valid == events && payload == encode(events)
    ensures encode(events).None? ==> valid == Keep(encode, events, true) && invalid == Keep(encode, events, false)
    ensures encode(events).None? ==> payload == if valid == [] then Some([]) else encode(valid)
  {
    KeepSplits(encode, events);
    var whole := encode(events);
    if whole.Some? {
      return whole, events, [];
    }
    valid, invalid := [], [];
    for i := 0 to |events|
      invariant valid == Keep(encode, events[..i], true) && invalid == Keep(encode, events[..i], false)
    {
      assert events[..i + 1][..i] == events[..i];
      var one := encode([events[i]]);
      if one.None? {
        invalid := invalid + [events[i]];
      } else {
        valid := valid + [events[i]];
      }
    }
    assert events[..|events|] == events;
    payload := if valid == [] then Some([]) else encode(valid);
  }

  /** When mapping is event by event, both paths export exactly the mappable rows, and always can. */
  lemma BothPathsAgree<E(!new)>(encode: Encoder<E>, events: seq<E>)
    requires MapsEventByEvent(encode)
    ensures encode(Keep(encode, events, true)).Some?
    ensures encode(events).Some? <==> Keep(encode, events, true) == events
  {
    var valid := Keep(encode, events, true);
    forall e | e in valid ensures Mappable(encode, e) { KeepHas(encode, events, true, e); }
    if forall e :: e in events ==> Mappable(encode, e) {
      KeepAll(encode, events);
    }
  }
}
