/**
 * JSON documents and the removal of a known installation identifier from them.
 */
module Sanitizer {
  import opened Prelude

  datatype Entry = Entry(key: string, value: Json)

  /** A decoded JSON document; objects keep their insertion order. */
  datatype Json =
    | Null
    | Bool(flag: bool)
    | Int(i: int)
    | Num(n: real)
    | Str(s: string)
    | Arr(items: seq<Json>)
    | Obj(entries: seq<Entry>)

  predicate HoldsText(v: Json, plaintext: string) {
    v.Str? && Contains(v.s, plaintext)
  }

  predicate DropsEntry(e: Entry, plaintext: string) {
    Contains(e.key, plaintext) || HoldsText(e.value, plaintext)
  }

  /** What the sanitiser leaves of a value. */
  function Sanitize(v: Json, plaintext: string): Json
    decreases v
  {
    if plaintext == "" then v
    else match v
      case Arr(items) => Arr(SanitizeItems(items, plaintext))
      case Obj(entries) => Obj(SanitizeEntries(entries, plaintext))
      case _ => v
  }

  function SanitizeItems(items: seq<Json>, plaintext: string): seq<Json>
    decreases items
  {
    if items == [] then []
    else
      var rest := SanitizeItems(items[1..], plaintext);
      if HoldsText(items[0], plaintext) then rest else [Sanitize(items[0], plaintext)] + rest
  }

  function SanitizeEntries(entries: seq<Entry>, plaintext: string): seq<Entry>
    decreases entries
  {
    if entries == [] then []
    else
      var rest := SanitizeEntries(entries[1..], plaintext);
      if DropsEntry(entries[0], plaintext) then rest else [Entry(entries[0].key, Sanitize(entries[0].value, plaintext))] + rest
  }

  // ----- the loops -----

  lemma {:induction false} SanitizeItemsSnoc(items: seq<Json>, v: Json, plaintext: string)
    ensures SanitizeItems(items + [v], plaintext)
            == if HoldsText(v, plaintext) then SanitizeItems(items, plaintext) else SanitizeItems(items, plaintext) + [Sanitize(v, plaintext)]
  {
    if items == [] {
      assert items + [v] == [v];
    } else {
      SanitizeItemsSnoc(items[1..], v, plaintext);
      assert (items + [v])[1..] == items[1..] + [v];
    }
  }

  lemma {:induction false} SanitizeEntriesSnoc(entries: seq<Entry>, e: Entry, plaintext: string)
    ensures SanitizeEntries(entries + [e], plaintext)
            == if DropsEntry(e, plaintext) then SanitizeEntries(entries, plaintext)
               else SanitizeEntries(entries, plaintext) + [Entry(e.key, Sanitize(e.value, plaintext))]
  {
    if entries == [] {
      assert entries + [e] == [e];
    } else {
      SanitizeEntriesSnoc(entries[1..], e, plaintext);
      assert (entries + [e])[1..] == entries[1..] + [e];
    }
  }

  /** Walk the document once, deleting entries and list items that hold the identifier. */
  method RemoveKnownPlaintext(v: Json, plaintext: string) returns (r: Json)
    ensures r == Sanitize(v, plaintext)
    decreases v
  {
    if plaintext == "" {
      return v;
    }
    match v {
      case Obj(entries) =>
        var kept: seq<Entry> := [];
        for i := 0 to |entries|
          invariant kept == SanitizeEntries(entries[..i], plaintext)
        {
          assert entries[..i + 1] == entries[..i] + [entries[i]];
          SanitizeEntriesSnoc(entries[..i], entries[i], plaintext);
          if !DropsEntry(entries[i], plaintext) {
            var inner := RemoveKnownPlaintext(entries[i].value, plaintext);
            kept := kept + [Entry(entries[i].key, inner)];
          }
        }
        assert entries[..|entries|] == entries;
        r := Obj(kept);
      case Arr(items) =>
        var kept: seq<Json> := [];
        for i := 0 to |items|
          invariant kept == SanitizeItems(items[..i], plaintext)
        {
          assert items[..i + 1] == items[..i] + [items[i]];
          SanitizeItemsSnoc(items[..i], items[i], plaintext);
          if !HoldsText(items[i], plaintext) {
            var inner := RemoveKnownPlaintext(items[i], plaintext);
            kept := kept + [inner];
          }
        }
        assert items[..|items|] == items;
        r := Arr(kept);
      case _ =>
        r := v;
    }
  }

  // ----- every place in a document -----

  datatype Step = Element | Member(key: string)

  datatype Shape = List | Object | Leaf(value: Json)

  /** One place: the way to it and what is there. */
  datatype Place = Place(path: seq<Step>, shape: Shape)

  function ShapeOf(v: Json): Shape {
    match v
    case Arr(_) => List
    case Obj(_) => Object
    case _ => Leaf(v)
  }

  function Under(step: Step, ps: seq<Place>): seq<Place> {
    if ps == [] then [] else [Place([step] + ps[0].path, ps[0].shape)] + Under(step, ps[1..])
  }

  /** All places of a document, each container before its contents, in document order. */
  function Places(v: Json): seq<Place>
    decreases v
  {
    [Place([], ShapeOf(v))]
    + match v
      case Arr(items) => ItemPlaces(items)
      case Obj(entries) => EntryPlaces(entries)
      case _ => []
  }

  function ItemPlaces(items: seq<Json>): seq<Place>
    decreases items
  {
    if items == [] then [] else Under(Element, Places(items[0])) + ItemPlaces(items[1..])
  }

  function EntryPlaces(entries: seq<Entry>): seq<Place>
    decreases entries
  {
    if entries == [] then []
    else Under(Member(entries[0].key), Places(entries[0].value)) + EntryPlaces(entries[1..])
  }

  predicate CleanStep(s: Step, plaintext: string) {
    s.Member? ==> !Contains(s.key, plaintext)
  }

  predicate CleanPath(path: seq<Step>, plaintext: string) {
    path == [] || (CleanStep(path[0], plaintext) && CleanPath(path[1..], plaintext))
  }

  /** No key on the way holds the identifier, nor does the text found there. */
  predicate Clean(p: Place, plaintext: string) {
    CleanPath(p.path, plaintext) && !(p.shape.Leaf? && HoldsText(p.shape.value, plaintext))
  }

  function OnlyClean(ps: seq<Place>, plaintext: string): seq<Place> {
    if ps == [] then []
    else if Clean(ps[0], plaintext) then [ps[0]] + OnlyClean(ps[1..], plaintext)
    else OnlyClean(ps[1..], plaintext)
  }

  lemma {:induction false} OnlyCleanConcat(a: seq<Place>, b: seq<Place>, plaintext: string)
    ensures OnlyClean(a + b, plaintext) == OnlyClean(a, plaintext) + OnlyClean(b, plaintext)
  {
    if a == [] {
      assert a + b == b;
    } else {
      OnlyCleanConcat(a[1..], b, plaintext);
      assert (a + b)[1..] == a[1..] + b;
    }
  }

  lemma {:induction false} OnlyCleanUnder(step: Step, ps: seq<Place>, plaintext: string)
    ensures OnlyClean(Under(step, ps), plaintext)
            == if CleanStep(step, plaintext) then Under(step, OnlyClean(ps, plaintext)) else []
  {
    if ps != [] {
      OnlyCleanUnder(step, ps[1..], plaintext);
      var here := Under(step, ps);
      assert here[0].path[1..] == ps[0].path;
      assert here[1..] == Under(step, ps[1..]);
      UnderConcat(step, if Clean(ps[0], plaintext) then [ps[0]] else [], OnlyClean(ps[1..], plaintext));
    }
  }

  lemma {:induction false} UnderConcat(step: Step, a: seq<Place>, b: seq<Place>)
    ensures Under(step, a + b) == Under(step, a) + Under(step, b)
  {
    if a == [] {
      assert a + b == b;
    } else {
      UnderConcat(step, a[1..], b);
      assert (a + b)[1..] == a[1..] + b;
    }
  }

  /** The sanitiser keeps exactly the clean places, unchanged and in order. */
  lemma {:induction false} KeepsExactlyCleanPlaces(v: Json, plaintext: string)
    requires plaintext != "" && !HoldsText(v, plaintext)
    ensures Places(Sanitize(v, plaintext)) == OnlyClean(Places(v), plaintext)
    decreases v
  {
    var root := Place([], ShapeOf(v));
    match v {
      case Arr(items) =>
        CleanItems(items, plaintext);
        OnlyCleanConcat([root], ItemPlaces(items), plaintext);
      case Obj(entries) =>
        CleanEntries(entries, plaintext);
        OnlyCleanConcat([root], EntryPlaces(entries), plaintext);
      case _ =>
    }
  }

  lemma {:induction false} CleanItems(items: seq<Json>, plaintext: string)
    requires plaintext != ""
    ensures ItemPlaces(SanitizeItems(items, plaintext)) == OnlyClean(ItemPlaces(items), plaintext)
    decreases items
  {
    if items != [] {
      CleanItems(items[1..], plaintext);
      var first := Places(items[0]);
      OnlyCleanConcat(Under(Element, first), ItemPlaces(items[1..]), plaintext);
      OnlyCleanUnder(Element, first, plaintext);
      if HoldsText(items[0], plaintext) {
        assert OnlyClean(first, plaintext) == [];
        assert SanitizeItems(items, plaintext) == SanitizeItems(items[1..], plaintext);
      } else {
        KeepsExactlyCleanPlaces(items[0], plaintext);
        assert SanitizeItems(items, plaintext)[1..] == SanitizeItems(items[1..], plaintext);
      }
    }
  }

  lemma {:induction false} CleanEntries(entries: seq<Entry>, plaintext: string)
    requires plaintext != ""
    ensures EntryPlaces(SanitizeEntries(entries, plaintext)) == OnlyClean(EntryPlaces(entries), plaintext)
    decreases entries
  {
    if entries != [] {
      CleanEntries(entries[1..], plaintext);
      var e := entries[0];
      OnlyCleanConcat(Under(Member(e.key), Places(e.value)), EntryPlaces(entries[1..]), plaintext);
      OnlyCleanUnder(Member(e.key), Places(e.value), plaintext);
      if DropsEntry(e, plaintext) {
        if !Contains(e.key, plaintext) { assert OnlyClean(Places(e.value), plaintext) == []; }
        assert SanitizeEntries(entries, plaintext) == SanitizeEntries(entries[1..], plaintext);
      } else {
        KeepsExactlyCleanPlaces(e.value, plaintext);
        assert SanitizeEntries(entries, plaintext)[1..] == SanitizeEntries(entries[1..], plaintext);
      }
    }
  }

  lemma {:induction false} OnlyCleanIsClean(ps: seq<Place>, plaintext: string, p: Place)
    ensures p in OnlyClean(ps, plaintext) <==> p in ps && Clean(p, plaintext)
  {
    if ps != [] {
      OnlyCleanIsClean(ps[1..], plaintext, p);
      assert ps == [ps[0]] + ps[1..];
    }
  }

  lemma {:induction false} CleanPathIs(path: seq<Step>, plaintext: string)
    ensures CleanPath(path, plaintext) <==> forall i :: 0 <= i < |path| && path[i].Member? ==> !Contains(path[i].key, plaintext)
  {
    if path != [] {
      CleanPathIs(path[1..], plaintext);
      assert forall i :: 0 < i < |path| ==> path[i] == path[1..][i - 1];
    }
  }

  /**
   * A place is in the sanitised document exactly when it was in the original, no key on its path
   * contains the identifier, and it is no text that contains it.
   */
  lemma NoPlaintextLeft(v: Json, plaintext: string, p: Place)
    requires plaintext != "" && (v.Str? ==> !Contains(v.s, plaintext))
    ensures p in Places(Sanitize(v, plaintext)) <==>
              && p in Places(v)
              && (forall i :: 0 <= i < |p.path| && p.path[i].Member? ==> !Contains(p.path[i].key, plaintext))
              && (p.shape.Leaf? && p.shape.value.Str? ==> !Contains(p.shape.value.s, plaintext))
  {
    KeepsExactlyCleanPlaces(v, plaintext);
    OnlyCleanIsClean(Places(v), plaintext, p);
    CleanPathIs(p.path, plaintext);
  }

  /** Sanitising twice changes nothing more. */
  lemma {:induction false} SanitizeTwice(v: Json, plaintext: string)
    ensures Sanitize(Sanitize(v, plaintext), plaintext) == Sanitize(v, plaintext)
    decreases v
  {
    match v {
      case Arr(items) => if plaintext != "" { SanitizeItemsTwice(items, plaintext); }
      case Obj(entries) => if plaintext != "" { SanitizeEntriesTwice(entries, plaintext); }
      case _ =>
    }
  }

  lemma {:induction false} SanitizeItemsTwice(items: seq<Json>, plaintext: string)
    requires plaintext != ""
    ensures SanitizeItems(SanitizeItems(items, plaintext), plaintext) == SanitizeItems(items, plaintext)
    decreases items
  {
    if items != [] {
      SanitizeItemsTwice(items[1..], plaintext);
      SanitizeTwice(items[0], plaintext);
      var r := SanitizeItems(items, plaintext);
      if HoldsText(items[0], plaintext) {
        assert r == SanitizeItems(items[1..], plaintext);
      } else {
        assert r[1..] == SanitizeItems(items[1..], plaintext);
      }
    }
  }

  lemma {:induction false} SanitizeEntriesTwice(entries: seq<Entry>, plaintext: string)
    requires plaintext != ""
    ensures SanitizeEntries(SanitizeEntries(entries, plaintext), plaintext) == SanitizeEntries(entries, plaintext)
    decreases entries
  {
    if entries != [] {
      SanitizeEntriesTwice(entries[1..], plaintext);
      SanitizeTwice(entries[0].value, plaintext);
      var r := SanitizeEntries(entries, plaintext);
      if DropsEntry(entries[0], plaintext) {
        assert r == SanitizeEntries(entries[1..], plaintext);
      } else {
        assert r[1..] == SanitizeEntries(entries[1..], plaintext);
      }
    }
  }

  // ----- lookups -----

  /** payload.get(key): the value of the entry with that key. */
  function Lookup(v: Json, key: string): Option<Json> {
    if v.Obj? then LookupEntry(v.entries, key) else None
  }

  function LookupEntry(entries: seq<Entry>, key: string): Option<Json> {
    if entries == [] then None
    else if entries[0].key == key then Some(entries[0].value)
    else LookupEntry(entries[1..], key)
  }

  predicate UniqueKeys(entries: seq<Entry>) {
    forall i, j :: 0 <= i < j < |entries| ==> entries[i].key != entries[j].key
  }

  lemma {:induction false} LookupSanitizedEntry(entries: seq<Entry>, plaintext: string, key: string)
    requires UniqueKeys(entries) && plaintext != ""
    ensures LookupEntry(SanitizeEntries(entries, plaintext), key)
            == match LookupEntry(entries, key)
               case None => None
               case Some(v) => if DropsEntry(Entry(key, v), plaintext) then None else Some(Sanitize(v, plaintext))
  {
    if entries != [] {
      LookupSanitizedEntry(entries[1..], plaintext, key);
      var r := SanitizeEntries(entries, plaintext);
      if DropsEntry(entries[0], plaintext) {
        assert r == SanitizeEntries(entries[1..], plaintext);
        if entries[0].key == key { NotFound(entries[1..], key); }
      } else {
        assert r[1..] == SanitizeEntries(entries[1..], plaintext);
      }
    }
  }

  lemma {:induction false} NotFound(entries: seq<Entry>, key: string)
    requires forall i :: 0 <= i < |entries| ==> entries[i].key != key
    ensures LookupEntry(entries, key) == None
  {
    if entries != [] { NotFound(entries[1..], key); }
  }
}
