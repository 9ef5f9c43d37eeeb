/**
 * Length-prefixed framing: event batches and batch-id pre-images.
 */
module Framing {
  import opened Prelude

  const PREFIX_BYTES: nat := 4
  const PREFIX_LIMIT: int := 0x1_0000_0000

  // ----- four-byte big-endian lengths -----

  function Prefix(n: int): (p: seq<Byte>)
    requires 0 <= n < PREFIX_LIMIT
    ensures |p| == PREFIX_BYTES
  {
    var high := n / 256;
    var higher := high / 256;
    [higher / 256, higher % 256, high % 256, n % 256]
  }

  function Length(p: seq<Byte>): (n: int)
    requires |p| == PREFIX_BYTES
    ensures 0 <= n < PREFIX_LIMIT
  {
    (((p[0] as int) * 256 + p[1]) * 256 + p[2]) * 256 + p[3]
  }

  lemma PrefixInverts(n: int, p: seq<Byte>)
    requires 0 <= n < PREFIX_LIMIT && |p| == PREFIX_BYTES
    ensures Length(Prefix(n)) == n
    ensures Prefix(Length(p)) == p
  {
    var top := (p[0] as int) * 256 + p[1];
    assert (top * 256 + p[2]) / 256 == top && top / 256 == p[0];
  }

  /** Four bytes as one number, the most significant byte first. */
  function Declared(p: seq<Byte>): int
    requires |p| >= 4
  {
    16777216 * (p[0] as int) + 65536 * (p[1] as int) + 256 * (p[2] as int) + p[3]
  }

  lemma LengthIsBigEndian(p: seq<Byte>)
    requires |p| == 4
    ensures Length(p) == Declared(p)
  {
  }

  predicate Short(f: seq<Byte>) {
    |f| < PREFIX_LIMIT
  }

  predicate AllShort(fs: seq<seq<Byte>>) {
    forall i :: 0 <= i < |fs| ==> Short(fs[i])
  }

  /** Each frame after its length. */
  function Frame(f: seq<Byte>): seq<Byte>
    requires Short(f)
  {
    Prefix(|f|) + f
  }

  function Concat(fs: seq<seq<Byte>>): seq<Byte>
    requires AllShort(fs)
  {
    if fs == [] then [] else Frame(fs[0]) + Concat(fs[1..])
  }

  // ----- decoding a batch -----

  datatype FrameError =
    | EmptyBatch | TooManyEvents | TruncatedPrefix(index: nat) | ZeroLength(index: nat)
    | EventTooLarge | TruncatedFrame(index: nat) | InvalidEvent(index: nat)

  datatype Limits = Limits(maxEvents: nat, maxEventBytes: nat)

  /** Read the frame at the start of the remaining bytes; `index` events were read before it. */
  function ReadFrame(rest: seq<Byte>, index: nat, lim: Limits): (r: Result<int, FrameError>)
    ensures r.Ok? ==> 0 < r.value && PREFIX_BYTES + r.value <= |rest|
  {
    if index >= lim.maxEvents then Err(TooManyEvents)
    else if |rest| < PREFIX_BYTES then Err(TruncatedPrefix(index))
    else
      var length := Length(rest[..PREFIX_BYTES]);
      if length <= 0 then Err(ZeroLength(index))
      else if length > lim.maxEventBytes then Err(EventTooLarge)
      else if PREFIX_BYTES + length > |rest| then Err(TruncatedFrame(index))
      else Ok(length)
  }

  /** All events of the remaining bytes. */
  function DecodeRest<E>(rest: seq<Byte>, index: nat, lim: Limits, parse: seq<Byte> -> Option<E>): Result<seq<E>, FrameError>
    decreases |rest|
  {
    if rest == [] then Ok([])
    else match ReadFrame(rest, index, lim)
      case Err(e) => Err(e)
      case Ok(length) =>
        match parse(rest[PREFIX_BYTES..PREFIX_BYTES + length])
        case None => Err(InvalidEvent(index))
        case Some(event) =>
          match DecodeRest(rest[PREFIX_BYTES + length..], index + 1, lim, parse)
          case Err(e) => Err(e)
          case Ok(more) => Ok([event] + more)
  }

  function Decode<E>(payload: seq<Byte>, lim: Limits, parse: seq<Byte> -> Option<E>): Result<seq<E>, FrameError> {
    if payload == [] then Err(EmptyBatch) else DecodeRest(payload, 0, lim, parse)
  }

  function Prepend<E>(events: seq<E>, r: Result<seq<E>, FrameError>): Result<seq<E>, FrameError> {
    match r case Ok(more) => Ok(events + more) case Err(e) => Err(e)
  }

  /** decode_protobuf_batch: a cursor advances over the payload and events are appended. */
  method DecodeBatch<E>(payload: seq<Byte>, lim: Limits, parse: seq<Byte> -> Option<E>) returns (r: Result<seq<E>, FrameError>)
    ensures r == Decode(payload, lim, parse)
  {
    if payload == [] {
      return Err(EmptyBatch);
    }
    var events: seq<E> := [];
    var cursor := 0;
    assert payload[0..] == payload;
    PrependNone(DecodeRest(payload, 0, lim, parse));
    while cursor < |payload|
      invariant 0 <= cursor <= |payload|
      invariant Decode(payload, lim, parse) == Prepend(events, DecodeRest(payload[cursor..], |events|, lim, parse))
    {
      var rest := payload[cursor..];
      var index := |events|;
      if index >= lim.maxEvents {
        return Err(TooManyEvents);
      }
      if |payload| - cursor < PREFIX_BYTES {
        return Err(TruncatedPrefix(index));
      }
      assert rest[..PREFIX_BYTES] == payload[cursor..cursor + PREFIX_BYTES];
      var length := Length(payload[cursor..cursor + PREFIX_BYTES]);
      cursor := cursor + PREFIX_BYTES;
      if length <= 0 {
        return Err(ZeroLength(index));
      }
      if length > lim.maxEventBytes {
        return Err(EventTooLarge);
      }
      var end := cursor + length;
      if end > |payload| {
        return Err(TruncatedFrame(index));
      }
      assert rest[PREFIX_BYTES..PREFIX_BYTES + length] == payload[cursor..end];
      assert rest[PREFIX_BYTES + length..] == payload[end..];
      var event := parse(payload[cursor..end]);
      if event.None? {
        return Err(InvalidEvent(index));
      }
      ghost var before := events;
      events := events + [event.value];
      cursor := end;
      PrependOne(before, event.value, DecodeRest(payload[end..], |events|, lim, parse));
    }
    assert payload[cursor..] == [] && events + [] == events;
    r := Ok(events);
  }

  lemma PrependNone<E>(r: Result<seq<E>, FrameError>)
    ensures Prepend([], r) == r
  {
    if r.Ok? { assert [] + r.value == r.value; }
  }

  lemma PrependOne<E>(events: seq<E>, event: E, r: Result<seq<E>, FrameError>)
    ensures Prepend(events, Prepend([event], r)) == Prepend(events + [event], r)
  {
    if r.Ok? { assert events + ([event] + r.value) == events + [event] + r.value; }
  }

  // ----- what is accepted -----

  /** A list of frames the limits allow after `index` events, and the events they parse to. */
  ghost predicate Parses<E>(frames: seq<seq<Byte>>, index: nat, lim: Limits, parse: seq<Byte> -> Option<E>, events: seq<E>) {
    && |frames| == |events| && index + |frames| <= Max(index, lim.maxEvents)
    && (forall i :: 0 <= i < |frames| ==>
          0 < |frames[i]| <= lim.maxEventBytes && Short(frames[i]) && parse(frames[i]) == Some(events[i]))
  }

  /** Decoding inverts encoding for every list of frames within the limits. */
  lemma {:induction false} DecodeInverts<E>(frames: seq<seq<Byte>>, index: nat, lim: Limits, parse: seq<Byte> -> Option<E>, events: seq<E>)
    requires AllShort(frames) && Parses(frames, index, lim, parse, events)
    ensures DecodeRest(Concat(frames), index, lim, parse) == Ok(events)
  {
    if frames != [] {
      var f, all := frames[0], Concat(frames);
      PrefixInverts(|f|, Prefix(|f|));
      assert all[..PREFIX_BYTES] == Prefix(|f|);
      assert all[PREFIX_BYTES..PREFIX_BYTES + |f|] == f;
      assert all[PREFIX_BYTES + |f|..] == Concat(frames[1..]);
      DecodeInverts(frames[1..], index + 1, lim, parse, events[1..]);
      assert events == [events[0]] + events[1..];
    }
  }

  lemma ReadsOne<E>(f: seq<Byte>, rest: seq<Byte>, index: nat, lim: Limits, parse: seq<Byte> -> Option<E>, event: E)
    requires 0 < |f| <= lim.maxEventBytes && Short(f) && parse(f) == Some(event) && index < lim.maxEvents
    ensures DecodeRest(Frame(f) + rest, index, lim, parse) == Prepend([event], DecodeRest(rest, index + 1, lim, parse))
  {
    var all := Frame(f) + rest;
    PrefixInverts(|f|, Prefix(|f|));
    assert all[..PREFIX_BYTES] == Prefix(|f|);
    assert all[PREFIX_BYTES..PREFIX_BYTES + |f|] == f;
    assert all[PREFIX_BYTES + |f|..] == rest;
  }

  lemma PrependFirst<E>(events: seq<E>, r: Result<seq<E>, FrameError>)
    requires events != []
    ensures Prepend([events[0]], Prepend(events[1..], r)) == Prepend(events, r)
  {
    assert events == [events[0]] + events[1..];
    if r.Ok? { assert [events[0]] + (events[1..] + r.value) == events + r.value; }
  }

  lemma ConcatHead(frames: seq<seq<Byte>>, tail: seq<Byte>)
    requires AllShort(frames) && frames != []
    ensures Concat(frames) + tail == Frame(frames[0]) + (Concat(frames[1..]) + tail)
  {
  }

  lemma ReadsCons<E>(
    f: seq<Byte>, rest: seq<Byte>, index: nat, lim: Limits, parse: seq<Byte> -> Option<E>, events: seq<E>, r: Result<seq<E>, FrameError>)
    requires events != [] && 0 < |f| <= lim.maxEventBytes && Short(f) && parse(f) == Some(events[0]) && index < lim.maxEvents
    requires DecodeRest(rest, index + 1, lim, parse) == Prepend(events[1..], r)
    ensures DecodeRest(Frame(f) + rest, index, lim, parse) == Prepend(events, r)
  {
    ReadsOne(f, rest, index, lim, parse, events[0]);
    PrependFirst(events, r);
  }

  /** Frames that parse are read off the front, and their events are kept. */
  lemma {:induction false} ReadsFront<E>(
    frames: seq<seq<Byte>>, tail: seq<Byte>, index: nat, lim: Limits, parse: seq<Byte> -> Option<E>,
    events: seq<E>, r: Result<seq<E>, FrameError>)
    requires AllShort(frames) && Parses(frames, index, lim, parse, events)
    requires r == DecodeRest(tail, index + |frames|, lim, parse)
    ensures DecodeRest(Concat(frames) + tail, index, lim, parse) == Prepend(events, r)
  {
    if frames == [] {
      assert Concat(frames) + tail == tail;
      PrependNone(r);
    } else {
      ReadsFront(frames[1..], tail, index + 1, lim, parse, events[1..], r);
      ConcatHead(frames, tail);
      ReadsCons(frames[0], Concat(frames[1..]) + tail, index, lim, parse, events, r);
    }
  }

  /** Why the frame at the start of some bytes cannot be read, the event limit aside. */
  ghost predicate Faulty<E>(tail: seq<Byte>, index: nat, lim: Limits, parse: seq<Byte> -> Option<E>, e: FrameError) {
    if |tail| < 4 then e == TruncatedPrefix(index)
    else if Declared(tail) == 0 then e == ZeroLength(index)
    else if Declared(tail) > lim.maxEventBytes then e == EventTooLarge
    else if 4 + Declared(tail) > |tail| then e == TruncatedFrame(index)
    else parse(tail[4..4 + Declared(tail)]) == None && e == InvalidEvent(index)
  }

  lemma FaultIsReported<E>(tail: seq<Byte>, index: nat, lim: Limits, parse: seq<Byte> -> Option<E>, e: FrameError)
    requires tail != [] && if index >= lim.maxEvents then e == TooManyEvents else Faulty(tail, index, lim, parse, e)
    ensures DecodeRest(tail, index, lim, parse) == Err(e)
  {
    if |tail| >= 4 {
      LengthIsBigEndian(tail[..4]);
      assert Length(tail[..4]) == Declared(tail);
    }
  }

  /**
   * The first frame that cannot be read decides the error, whatever follows it: too many events, a cut
   * length, length zero, a length over the limit, a cut frame, or a frame that does not parse.
   */
  lemma FirstFaultDecides<E>(
    frames: seq<seq<Byte>>, tail: seq<Byte>, lim: Limits, parse: seq<Byte> -> Option<E>, events: seq<E>, e: FrameError)
    requires AllShort(frames) && Parses(frames, 0, lim, parse, events)
    requires tail != [] && if |frames| >= lim.maxEvents then e == TooManyEvents else Faulty(tail, |frames|, lim, parse, e)
    ensures Decode(Concat(frames) + tail, lim, parse) == Err(e)
  {
    var r: Result<seq<E>, FrameError> := Err(e);
    FaultIsReported(tail, |frames|, lim, parse, e);
    ReadsFront(frames, tail, 0, lim, parse, events, r);
  }

  /** An empty payload is its own error. */
  lemma EmptyIsRefused<E>(lim: Limits, parse: seq<Byte> -> Option<E>)
    ensures Decode([], lim, parse) == Err(EmptyBatch)
  {
  }

  /** Accepted bytes are exactly the concatenation of frames within the limits. */
  lemma {:induction false} AcceptedIsFrames<E>(rest: seq<Byte>, index: nat, lim: Limits, parse: seq<Byte> -> Option<E>)
    returns (frames: seq<seq<Byte>>)
    requires DecodeRest(rest, index, lim, parse).Ok?
    ensures AllShort(frames) && Parses(frames, index, lim, parse, DecodeRest(rest, index, lim, parse).value)
    ensures rest == Concat(frames)
    decreases |rest|
  {
    if rest == [] {
      frames := [];
    } else {
      var length := ReadFrame(rest, index, lim).value;
      var f, tail := rest[PREFIX_BYTES..PREFIX_BYTES + length], rest[PREFIX_BYTES + length..];
      var more := AcceptedIsFrames(tail, index + 1, lim, parse);
      frames := [f] + more;
      SplitFrame(rest, length);
      ConcatCons(f, more);
      ParsesCons(f, more, index, lim, parse, parse(f).value, DecodeRest(tail, index + 1, lim, parse).value);
    }
  }

  lemma SplitFrame(rest: seq<Byte>, length: int)
    requires 0 < length && PREFIX_BYTES + length <= |rest| && length == Length(rest[..PREFIX_BYTES])
    ensures var f := rest[PREFIX_BYTES..PREFIX_BYTES + length];
            |f| == length && Short(f) && rest == Frame(f) + rest[PREFIX_BYTES + length..]
  {
    PrefixInverts(length, rest[..PREFIX_BYTES]);
  }

  lemma ConcatCons(f: seq<Byte>, more: seq<seq<Byte>>)
    requires Short(f) && AllShort(more)
    ensures AllShort([f] + more) && Concat([f] + more) == Frame(f) + Concat(more)
  {
    assert ([f] + more)[1..] == more;
  }

  lemma ParsesCons<E>(f: seq<Byte>, more: seq<seq<Byte>>, index: nat, lim: Limits, parse: seq<Byte> -> Option<E>, event: E, events: seq<E>)
    requires Parses(more, index + 1, lim, parse, events) && index < lim.maxEvents
    requires 0 < |f| <= lim.maxEventBytes && Short(f) && parse(f) == Some(event)
    ensures Parses([f] + more, index, lim, parse, [event] + events)
  {
  }

  /** A payload decodes to some events exactly when it is a non-empty concatenation of frames that parse to them. */
  lemma DecodesIff<E>(payload: seq<Byte>, lim: Limits, parse: seq<Byte> -> Option<E>, events: seq<E>)
    ensures Decode(payload, lim, parse) == Ok(events)
            <==> events != [] && exists frames :: AllShort(frames) && Parses(frames, 0, lim, parse, events) && payload == Concat(frames)
  {
    if Decode(payload, lim, parse) == Ok(events) {
      var frames := AcceptedIsFrames(payload, 0, lim, parse);
    }
    if events != [] {
      if frames :| AllShort(frames) && Parses(frames, 0, lim, parse, events) && payload == Concat(frames) {
        DecodeInverts(frames, 0, lim, parse, events);
        assert |Concat(frames)| >= |Frame(frames[0])|;
      }
    }
  }

  // ----- batch ids -----

  /** The hashed bytes: the schema version, then each event id after its length. */
  function PreImage(version: Byte, ids: seq<seq<Byte>>): seq<Byte>
    requires AllShort(ids)
  {
    [version] + Concat(ids)
  }

  lemma {:induction false} ConcatSnoc(ids: seq<seq<Byte>>, id: seq<Byte>)
    requires AllShort(ids) && Short(id)
    ensures AllShort(ids + [id]) && Concat(ids + [id]) == Concat(ids) + Frame(id)
  {
    if ids == [] {
      assert ids + [id] == [id];
      assert Concat([id]) == Frame(id) + Concat([]);
    } else {
      ConcatSnoc(ids[1..], id);
      assert (ids + [id])[1..] == ids[1..] + [id];
    }
  }

  /** The digest's updates, one length and one id at a time. */
  method DigestInput(version: Byte, ids: seq<seq<Byte>>) returns (fed: seq<Byte>)
    requires AllShort(ids)
    ensures fed == PreImage(version, ids)
  {
    fed := [version];
    for i := 0 to |ids|
      invariant fed == PreImage(version, ids[..i])
    {
      assert ids[..i + 1] == ids[..i] + [ids[i]];
      ConcatSnoc(ids[..i], ids[i]);
      fed := fed + Prefix(|ids[i]|);
      fed := fed + ids[i];
    }
    assert ids[..|ids|] == ids;
  }

  lemma {:induction false} ConcatInjective(a: seq<seq<Byte>>, b: seq<seq<Byte>>)
    requires AllShort(a) && AllShort(b) && Concat(a) == Concat(b)
    ensures a == b
  {
    assert a != [] ==> |Concat(a)| >= PREFIX_BYTES;
    assert b != [] ==> |Concat(b)| >= PREFIX_BYTES;
    if a != [] {
      var x, y := Concat(a), Concat(b);
      assert x[..PREFIX_BYTES] == Prefix(|a[0]|) && y[..PREFIX_BYTES] == Prefix(|b[0]|);
      PrefixInverts(|a[0]|, Prefix(|a[0]|));
      PrefixInverts(|b[0]|, Prefix(|b[0]|));
      var n := PREFIX_BYTES + |a[0]|;
      assert x[PREFIX_BYTES..n] == a[0] && y[PREFIX_BYTES..n] == b[0];
      assert x[n..] == Concat(a[1..]) && y[n..] == Concat(b[1..]);
      ConcatInjective(a[1..], b[1..]);
      assert a == [a[0]] + a[1..] && b == [b[0]] + b[1..];
    }
  }

  /** Pre-images determine the schema version and the ordered ids: V2 and V3 never meet. */
  lemma PreImageInjective(v: Byte, a: seq<seq<Byte>>, u: Byte, b: seq<seq<Byte>>)
    requires AllShort(a) && AllShort(b)
    ensures PreImage(v, a) == PreImage(u, b) <==> v == u && a == b
  {
    if PreImage(v, a) == PreImage(u, b) {
      assert PreImage(v, a)[0] == v && PreImage(u, b)[0] == u;
      assert PreImage(v, a)[1..] == Concat(a) && PreImage(u, b)[1..] == Concat(b);
      ConcatInjective(a, b);
    }
  }
}
