/**
 * Opaque page cursors: unpadded base64url (section 5 of RFC 4648) of a payload and its signature.
 */
module Cursors {
  import opened Prelude
  import opened Pagination

  type Sextet = x: int | 0 <= x < 64

  // ----- the alphabet -----

  function CharOf(v: Sextet): char {
    if v < 26 then ('A' as int + v) as char
    else if v < 52 then ('a' as int + v - 26) as char
    else if v < 62 then ('0' as int + v - 52) as char
    else if v == 62 then '-' else '_'
  }

  function ValueOf(c: char): Option<Sextet> {
    if 'A' <= c <= 'Z' then Some(c as int - 'A' as int)
    else if 'a' <= c <= 'z' then Some(c as int - 'a' as int + 26)
    else if '0' <= c <= '9' then Some(c as int - '0' as int + 52)
    else if c == '-' then Some(62)
    else if c == '_' then Some(63)
    else None
  }

  lemma AlphabetInverts(v: Sextet)
    ensures ValueOf(CharOf(v)) == Some(v) && CharOf(v) != '.'
  {
  }

  // ----- base64url -----

  function Triple(a: Byte, b: Byte, c: Byte): string {
    [CharOf(a / 4), CharOf(a % 4 * 16 + b / 16), CharOf(b % 16 * 4 + c / 64), CharOf(c % 64)]
  }

  /** urlsafe_b64encode(...).rstrip("="). */
  function Encode64(bytes: seq<Byte>): string {
    if |bytes| == 0 then ""
    else if |bytes| == 1 then [CharOf(bytes[0] / 4), CharOf(bytes[0] % 4 * 16)]
    else if |bytes| == 2 then
      [CharOf(bytes[0] / 4), CharOf(bytes[0] % 4 * 16 + bytes[1] / 16), CharOf(bytes[1] % 16 * 4)]
    else Triple(bytes[0], bytes[1], bytes[2]) + Encode64(bytes[3..])
  }

  function ByteOf(high: Sextet, low: Sextet, shift: int): Byte
    requires shift == 4 || shift == 16 || shift == 64
  {
    if shift == 4 then high * 4 + low / 16
    else if shift == 16 then high % 16 * 16 + low / 4
    else high % 4 * 64 + low
  }

  /** b64decode of the repadded text, before the canonical check: trailing bits are ignored. */
  function RawDecode(text: string): Option<seq<Byte>> {
    if |text| == 0 then Some([])
    else if |text| == 1 then None
    else
      match (ValueOf(text[0]), ValueOf(text[1]))
      case (Some(a), Some(b)) =>
        if |text| == 2 then Some([ByteOf(a, b, 4)])
        else (match ValueOf(text[2])
              case None => None
              case Some(c) =>
                if |text| == 3 then Some([ByteOf(a, b, 4), ByteOf(b, c, 16)])
                else (match (ValueOf(text[3]), RawDecode(text[4..]))
                      case (Some(d), Some(rest)) => Some([ByteOf(a, b, 4), ByteOf(b, c, 16), ByteOf(c, d, 64)] + rest)
                      case _ => None))
      case _ => None
  }

  /** _b64url_decode: only the canonical text of the decoded bytes is accepted. */
  function Decode64(text: string): Option<seq<Byte>> {
    match RawDecode(text)
    case Some(bytes) => if Encode64(bytes) == text then Some(bytes) else None
    case None => None
  }

  // ----- section 5 of RFC 4648 -----

  /** Capital letters, small letters, digits, minus and underscore, in this order. */
  lemma AlphabetIs(v: Sextet)
    ensures v < 26 ==> CharOf(v) as int - 'A' as int == v
    ensures 26 <= v < 52 ==> CharOf(v) as int - 'a' as int == v - 26
    ensures 52 <= v < 62 ==> CharOf(v) as int - '0' as int == v - 52
    ensures CharOf(62) == '-' && CharOf(63) == '_'
  {
  }

  /** Three bytes are one number of four characters, the most significant first. */
  ghost predicate Spells(text: string, a: Byte, b: Byte, c: Byte) {
    && |text| == 4
    && exists x: Sextet, y: Sextet, z: Sextet, u: Sextet ::
         text == [CharOf(x), CharOf(y), CharOf(z), CharOf(u)] && ((x * 64 + y) * 64 + z) * 64 + u == (a * 256 + b) * 256 + c
  }

  lemma TripleSpells(a: Byte, b: Byte, c: Byte)
    ensures Spells(Triple(a, b, c), a, b, c)
  {
    var x, y, z, u := a / 4, a % 4 * 16 + b / 16, b % 16 * 4 + c / 64, c % 64;
    assert x * 64 + y == a * 16 + b / 16;
    assert (x * 64 + y) * 64 + z == a * 1024 + b * 4 + c / 64;
    assert ((x * 64 + y) * 64 + z) * 64 + u == (a * 256 + b) * 256 + c;
    assert Triple(a, b, c) == [CharOf(x), CharOf(y), CharOf(z), CharOf(u)];
  }

  /** Bytes are spelled three by three. */
  lemma ThreeAreSpelled(bytes: seq<Byte>)
    requires |bytes| >= 3
    ensures Spells(Encode64(bytes)[..4], bytes[0], bytes[1], bytes[2]) && Encode64(bytes)[4..] == Encode64(bytes[3..])
  {
    TripleSpells(bytes[0], bytes[1], bytes[2]);
    assert Encode64(bytes)[..4] == Triple(bytes[0], bytes[1], bytes[2]);
  }

  /** One or two bytes left over are spelled as if zeros followed, without the characters that only hold zeros. */
  lemma RestIsSpelled(a: Byte, b: Byte)
    ensures Encode64([]) == ""
    ensures Encode64([a]) == Triple(a, 0, 0)[..2] && Encode64([a, b]) == Triple(a, b, 0)[..3]
  {
    var t := Triple(a, 0, 0);
    assert t[..2] == [CharOf(a / 4), CharOf(a % 4 * 16)];
    var u := Triple(a, b, 0);
    assert u[..3] == [CharOf(a / 4), CharOf(a % 4 * 16 + b / 16), CharOf(b % 16 * 4)];
  }

  lemma TripleInverts(a: Byte, b: Byte, c: Byte)
    ensures var x, y, z, u := a / 4, a % 4 * 16 + b / 16, b % 16 * 4 + c / 64, c % 64;
            ByteOf(x, y, 4) == a && ByteOf(y, z, 16) == b && ByteOf(z, u, 64) == c
  {
  }

  lemma TripleChars(a: Byte, b: Byte, c: Byte)
    ensures var t := Triple(a, b, c);
            && ValueOf(t[0]) == Some(a / 4) && ValueOf(t[1]) == Some(a % 4 * 16 + b / 16)
            && ValueOf(t[2]) == Some(b % 16 * 4 + c / 64) && ValueOf(t[3]) == Some(c % 64)
  {
    AlphabetInverts(a / 4);
    AlphabetInverts(a % 4 * 16 + b / 16);
    AlphabetInverts(b % 16 * 4 + c / 64);
    AlphabetInverts(c % 64);
  }

  lemma OneInverts(a: Byte)
    ensures RawDecode(Encode64([a])) == Some([a])
  {
    AlphabetInverts(a / 4);
    AlphabetInverts(a % 4 * 16);
    TripleInverts(a, 0, 0);
  }

  lemma TwoInverts(a: Byte, b: Byte)
    ensures RawDecode(Encode64([a, b])) == Some([a, b])
  {
    AlphabetInverts(a / 4);
    AlphabetInverts(a % 4 * 16 + b / 16);
    AlphabetInverts(b % 16 * 4);
    TripleInverts(a, b, 0);
  }

  lemma {:induction false} RawInverts(bytes: seq<Byte>)
    ensures RawDecode(Encode64(bytes)) == Some(bytes)
  {
    if |bytes| >= 3 {
      RawInverts(bytes[3..]);
      TripleChars(bytes[0], bytes[1], bytes[2]);
      TripleInverts(bytes[0], bytes[1], bytes[2]);
      assert Encode64(bytes)[4..] == Encode64(bytes[3..]);
      assert bytes == [bytes[0], bytes[1], bytes[2]] + bytes[3..];
    } else if |bytes| == 2 {
      TwoInverts(bytes[0], bytes[1]);
      assert bytes == [bytes[0], bytes[1]];
    } else if |bytes| == 1 {
      OneInverts(bytes[0]);
      assert bytes == [bytes[0]];
    }
  }

  /** Decoding inverts encoding, and accepts nothing but encodings. */
  lemma Base64RoundTrip(bytes: seq<Byte>, text: string)
    ensures Decode64(Encode64(bytes)) == Some(bytes)
    ensures Decode64(text) == Some(bytes) <==> text == Encode64(bytes)
  {
    RawInverts(bytes);
  }

  lemma {:induction false} NoDot(bytes: seq<Byte>)
    ensures '.' !in Encode64(bytes)
  {
    forall v: Sextet ensures CharOf(v) != '.' { AlphabetInverts(v); }
    if |bytes| >= 3 { NoDot(bytes[3..]); }
  }

  // ----- the cursor -----

  datatype Value = Value(version: int, ms: int, id: int, filter: string)

  /** The signing key and JSON, as this module uses them. */
  datatype Codec = Codec(mac: seq<Byte> -> seq<Byte>, render: Value -> seq<Byte>, parse: seq<Byte> -> Option<Value>)

  ghost predicate JsonRoundTrips(c: Codec) {
    forall v :: c.parse(c.render(v)) == Some(v)
  }

  const CURSOR_VERSION: int := 1

  function EncodeCursor(c: Codec, ms: int, id: int, filter: string): string {
    var payload := c.render(Value(CURSOR_VERSION, ms, id, filter));
    Encode64(payload) + "." + Encode64(c.mac(payload))
  }

  /** cursor.split(".", maxsplit=1). */
  function SplitDot(text: string): Option<(string, string)> {
    if text == "" then None
    else if text[0] == '.' then Some(("", text[1..]))
    else match SplitDot(text[1..])
      case Some(p) => Some(([text[0]] + p.0, p.1))
      case None => None
  }

  /** None is the invalid_cursor error. */
  function DecodeCursor(c: Codec, cursor: string, filter: string): Option<Spot> {
    match SplitDot(cursor)
    case None => None
    case Some(p) =>
      match (Decode64(p.0), Decode64(p.1))
      case (Some(payload), Some(signature)) =>
        if signature != c.mac(payload) then None
        else (match c.parse(payload)
              case None => None
              case Some(v) =>
                if v.version != CURSOR_VERSION || v.ms <= 0 || v.id <= 0 || v.filter != filter then None
                else Some(Spot(v.ms, v.id)))
      case _ => None
  }

  lemma {:induction false} SplitsAtFirstDot(a: string, b: string)
    requires '.' !in a
    ensures SplitDot(a + "." + b) == Some((a, b))
  {
    var text := a + "." + b;
    if a == "" {
      assert text[1..] == b;
    } else {
      SplitsAtFirstDot(a[1..], b);
      assert text[1..] == a[1..] + "." + b;
      assert a == [a[0]] + a[1..];
    }
  }

  lemma {:induction false} SplitJoins(text: string)
    requires SplitDot(text).Some?
    ensures text == SplitDot(text).value.0 + "." + SplitDot(text).value.1
  {
    if text[0] != '.' {
      SplitJoins(text[1..]);
      assert text == [text[0]] + text[1..];
    } else {
      assert text == "." + text[1..];
    }
  }

  /** A cursor issued for a query is read back by that query and by no query with another filter. */
  lemma CursorRoundTrip(c: Codec, ms: int, id: int, issued: string, filter: string)
    requires JsonRoundTrips(c) && ms > 0 && id > 0
    ensures DecodeCursor(c, EncodeCursor(c, ms, id, issued), filter)
            == if issued == filter then Some(Spot(ms, id)) else None
  {
    var payload := c.render(Value(CURSOR_VERSION, ms, id, issued));
    NoDot(payload);
    SplitsAtFirstDot(Encode64(payload), Encode64(c.mac(payload)));
    Base64RoundTrip(payload, Encode64(payload));
    Base64RoundTrip(c.mac(payload), Encode64(c.mac(payload)));
  }

  ghost predicate Signed(c: Codec, cursor: string, payload: seq<Byte>, v: Value) {
    cursor == Encode64(payload) + "." + Encode64(c.mac(payload)) && c.parse(payload) == Some(v)
  }

  /** Only signed payloads with this filter and positive coordinates are accepted. */
  lemma AcceptedIsSigned(c: Codec, cursor: string, filter: string, spot: Spot)
    ensures DecodeCursor(c, cursor, filter) == Some(spot)
            <==> && spot.ms > 0 && spot.id > 0
                 && exists payload :: Signed(c, cursor, payload, Value(1, spot.ms, spot.id, filter))
  {
    if DecodeCursor(c, cursor, filter) == Some(spot) {
      SplitJoins(cursor);
      var p := SplitDot(cursor).value;
      var payload := Decode64(p.0).value;
      assert Signed(c, cursor, payload, Value(1, spot.ms, spot.id, filter));
    }
    var v := Value(1, spot.ms, spot.id, filter);
    if payload: seq<Byte> :| Signed(c, cursor, payload, v) {
      NoDot(payload);
      SplitsAtFirstDot(Encode64(payload), Encode64(c.mac(payload)));
      Base64RoundTrip(payload, Encode64(payload));
      Base64RoundTrip(c.mac(payload), Encode64(c.mac(payload)));
    }
  }

  // ----- pages with opaque cursors -----

  /** Rows a query can return: positive times (the window is positive) and positive ids. */
  predicate Positive(rows: set<Spot>) {
    forall s :: s in rows ==> s.ms > 0 && s.id > 0
  }

  datatype Response = Response(items: seq<Spot>, next: Option<string>)

  /** get_events: None when the cursor is rejected. */
  ghost function GetEvents(c: Codec, rows: set<Spot>, cursor: Option<string>, filter: string, limit: nat): Option<Response> {
    var at := if cursor.None? then Some(None)
              else match DecodeCursor(c, cursor.value, filter) case Some(s) => Some(Some(s)) case None => None;
    match at
    case None => None
    case Some(position) =>
      var page := Fetch(rows, position, limit);
      Some(Response(page.items,
        match page.Next() case Some(s) => Some(EncodeCursor(c, s.ms, s.id, filter)) case None => None))
  }

  /** The opaque cursor of a page means the keyset position after it: pages chain as Follow does. */
  lemma OpaqueCursorsChain(c: Codec, rows: set<Spot>, later: set<Spot>, position: Option<Spot>, filter: string, limit: nat)
    requires JsonRoundTrips(c) && Positive(rows) && limit >= 1
    requires position.Some? ==> position.value.ms > 0 && position.value.id > 0
    ensures var cursor := match position case Some(s) => Some(EncodeCursor(c, s.ms, s.id, filter)) case None => None;
            var page := Fetch(rows, position, limit);
            var r := GetEvents(c, rows, cursor, filter, limit);
            && r.Some? && r.value.items == page.items
            && (r.value.next.Some? <==> page.Next().Some?)
            && (r.value.next.Some? ==>
                  GetEvents(c, later, r.value.next, filter, limit).Some?
                  && GetEvents(c, later, r.value.next, filter, limit).value.items == Fetch(later, page.Next(), limit).items)
  {
    if position.Some? { CursorRoundTrip(c, position.value.ms, position.value.id, filter, filter); }
    var page := Fetch(rows, position, limit);
    if page.Next().Some? {
      var last := page.Next().value;
      OrderedListsAll(After(rows, position));
      assert last in page.items && last in Ordered(After(rows, position));
      CursorRoundTrip(c, last.ms, last.id, filter, filter);
    }
  }
}
