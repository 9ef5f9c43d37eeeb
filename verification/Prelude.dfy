/** Shared value types. */
module Prelude {

  datatype Option<+T> = None | Some(value: T)

  datatype Result<+T, +E> = Ok(value: T) | Err(error: E)

  type Byte = x: int | 0 <= x < 256

  /** Where an identity came from. */
  datatype IdentityQuality = AUTHENTICATED | OCCURRENCE_BOUND | BATCH_DECLARED | REQUEST_DECLARED | HOST_CONTEXT | ABSENT | INVALID

  function LowerChar(c: char): char {
    if 'A' <= c <= 'Z' then (c as int + 32) as char else c
  }

  /** str.lower() of a hexadecimal build id. */
  function Lower(s: string): string {
    seq(|s|, i requires 0 <= i < |s| => LowerChar(s[i]))
  }

  /** Python's `sub in text`. */
  predicate Contains(text: string, sub: string) {
    exists i :: 0 <= i <= |text| && OccursAt(text, sub, i)
  }

  predicate OccursAt(text: string, sub: string, i: nat) {
    i + |sub| <= |text| && text[i..i + |sub|] == sub
  }

  /** A text contains another exactly when it can be cut around it. */
  lemma ContainsIff(text: string, sub: string)
    ensures Contains(text, sub) <==> exists before: string, after: string :: text == before + sub + after
  {
    if Contains(text, sub) {
      var i :| 0 <= i <= |text| && OccursAt(text, sub, i);
      assert text == text[..i] + sub + text[i + |sub|..];
    }
    if before: string, after: string :| text == before + sub + after {
      assert OccursAt(text, sub, |before|);
    }
  }

  function Min(a: int, b: int): int {
    if a <= b then a else b
  }

  function Max(a: int, b: int): int {
    if a <= b then b else a
  }

  /** s[:n]. */
  function Take<T>(s: seq<T>, n: nat): seq<T> {
    if |s| <= n then s else s[..n]
  }

  lemma {:induction false} CardinalityMono<T>(a: set<T>, b: set<T>)
    requires a <= b
    ensures |a| <= |b|
  {
    if a != {} {
      var x :| x in a;
      CardinalityMono(a - {x}, b - {x});
    }
  }
}
