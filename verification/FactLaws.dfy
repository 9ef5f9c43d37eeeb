/** What totals, distinct counts and health verdicts over a list of facts mean. */
module FactLaws {
  import opened Prelude
  import opened Facts
  import opened Metrics
  import RatioGate

  /** A fact that a selection takes. */
  predicate Hit(w: Window, fs: seq<Fact>, sel: Sel, f: Fact) {
    f in fs && Holds(w, sel, f)
  }

  function Sum(w: Window, fs: seq<Fact>, sel: Sel): nat {
    if fs == [] then 0 else Sum(w, fs[..|fs| - 1], sel) + (if Holds(w, sel, fs[|fs| - 1]) then fs[|fs| - 1].weight else 0)
  }

  /** The latest occurrence a fact stands for. */
  function Latest(f: Fact): int {
    if f.last == 0 then f.first else f.last
  }

  ghost predicate SpanMeans(w: Window, fs: seq<Fact>, sel: Sel, span: Span) {
    match span
    case NoSpan => forall f :: !Hit(w, fs, sel, f)
    case Span(first, last) =>
      && (exists f :: Hit(w, fs, sel, f) && f.first == first) && (forall f :: Hit(w, fs, sel, f) ==> first <= f.first)
      && (exists f :: Hit(w, fs, sel, f) && Latest(f) == last) && (forall f :: Hit(w, fs, sel, f) ==> Latest(f) <= last)
  }

  ghost predicate RateMeans(w: Window, fs: seq<Fact>, sel: Sel, rate: Option<real>) {
    match rate
    case None => forall f :: Hit(w, fs, sel, f) ==> f.rate == None
    case Some(x) =>
      && (exists f :: Hit(w, fs, sel, f) && f.rate == Some(x))
      && (forall f :: Hit(w, fs, sel, f) && f.rate != None ==> f.rate.value <= x)
  }

  predicate Dropping(f: Fact) {
    (f.drops != None && f.drops.value > 0) || (f.rate != None && f.rate.value > 0.0)
  }

  ghost predicate DropMeans(w: Window, fs: seq<Fact>, sel: Sel, dropped: bool) {
    dropped <==> exists f :: Hit(w, fs, sel, f) && Dropping(f)
  }

  lemma HitSnoc(w: Window, fs: seq<Fact>, sel: Sel, f: Fact)
    requires fs != []
    ensures var n := |fs| - 1;
            Hit(w, fs, sel, f) <==> Hit(w, fs[..n], sel, f) || (f == fs[n] && Holds(w, sel, fs[n]))
  {
    assert fs == fs[..|fs| - 1] + [fs[|fs| - 1]];
  }

  /** The first and last occurrence are the smallest and the largest, the rate is the largest, drops are any. */
  lemma {:induction false} TallyMeans(w: Window, fs: seq<Fact>, sel: Sel)
    ensures var t := TallyOf(w, fs, sel);
            && t.count == Sum(w, fs, sel)
            && SpanMeans(w, fs, sel, t.span) && RateMeans(w, fs, sel, t.rate)
            && DropMeans(w, fs, sel, t.dropped)
  {
    if fs != [] {
      var n := |fs| - 1;
      var front := fs[..n];
      TallyMeans(w, front, sel);
      SpanSnoc(w, fs, sel);
      RateSnoc(w, fs, sel);
      DropSnoc(w, fs, sel);
    }
  }

  lemma SpanSnoc(w: Window, fs: seq<Fact>, sel: Sel)
    requires fs != [] && SpanMeans(w, fs[..|fs| - 1], sel, TallyOf(w, fs[..|fs| - 1], sel).span)
    ensures SpanMeans(w, fs, sel, TallyOf(w, fs, sel).span)
  {
    var n := |fs| - 1;
    var front := fs[..n];
    forall f ensures Hit(w, fs, sel, f) <==> Hit(w, front, sel, f) || (f == fs[n] && Holds(w, sel, fs[n])) { HitSnoc(w, fs, sel, f); }
    assert Holds(w, sel, fs[n]) ==> Hit(w, fs, sel, fs[n]);
  }

  lemma RateSnoc(w: Window, fs: seq<Fact>, sel: Sel)
    requires fs != [] && RateMeans(w, fs[..|fs| - 1], sel, TallyOf(w, fs[..|fs| - 1], sel).rate)
    ensures RateMeans(w, fs, sel, TallyOf(w, fs, sel).rate)
  {
    var n := |fs| - 1;
    var front := fs[..n];
    forall f ensures Hit(w, fs, sel, f) <==> Hit(w, front, sel, f) || (f == fs[n] && Holds(w, sel, fs[n])) { HitSnoc(w, fs, sel, f); }
    assert Holds(w, sel, fs[n]) ==> Hit(w, fs, sel, fs[n]);
  }

  lemma DropSnoc(w: Window, fs: seq<Fact>, sel: Sel)
    requires fs != [] && DropMeans(w, fs[..|fs| - 1], sel, TallyOf(w, fs[..|fs| - 1], sel).dropped)
    ensures DropMeans(w, fs, sel, TallyOf(w, fs, sel).dropped)
  {
    var n := |fs| - 1;
    var front := fs[..n];
    forall f ensures Hit(w, fs, sel, f) <==> Hit(w, front, sel, f) || (f == fs[n] && Holds(w, sel, fs[n])) { HitSnoc(w, fs, sel, f); }
    assert Holds(w, sel, fs[n]) ==> Hit(w, fs, sel, fs[n]);
    assert TallyOf(w, fs, sel).dropped <==> TallyOf(w, front, sel).dropped || (Holds(w, sel, fs[n]) && Dropping(fs[n]));
  }

  /** Usable SDK counters: a non-empty emission, a drop count, and a drop rate that is a ratio. */
  predicate Usable(f: Fact) {
    && f.emit != None && 0 < f.emit.value && f.drops != None && 0 <= f.drops.value
    && f.rate != None && 0.0 <= f.rate.value <= 1.0
  }

  /**
   * SDK health is unavailable without a sample or with an unusable one, degraded by any reported drop,
   * and a true zero otherwise; it shows the worst rate.
   */
  lemma SdkHealthMeans(w: Window, fs: seq<Fact>)
    ensures var m := SdkHealthMetric(w, fs);
            && m.asOf == w.toMs && m.numerator == None && m.denominator == None && m.coverage == None
            && m.samples == Sum(w, fs, Every)
            && (m.state == UNAVAILABLE <==> fs == [] || exists f :: f in fs && !Usable(f))
            && (m.state == DEGRADED <==> fs != [] && (forall f :: f in fs ==> Usable(f)) && exists f :: f in fs && Dropping(f))
            && (m.state == ZERO <==> fs != [] && (forall f :: f in fs ==> Usable(f) && !Dropping(f)))
            && m.reason == (if fs == [] then Some(SdkHealthNotProvided)
                            else if m.state == UNAVAILABLE then Some(SdkHealthInvalid)
                            else if m.state == DEGRADED then Some(SdkReportedDrops) else None)
            && (m.state == UNAVAILABLE <==> m.value == None)
            && (m.value != None ==>
                  && m.value.value.Fraction?
                  && (exists f :: f in fs && f.rate == Some(m.value.value.r))
                  && forall f :: f in fs && f.rate != None ==> f.rate.value <= m.value.value.r)
  {
    TallyMeans(w, fs, Every);
    forall f ensures Hit(w, fs, Every, f) <==> f in fs {}
    SelectEmptyIff(w, fs, InvalidHealth);
    forall f ensures HoldsAtom(w, InvalidHealth, f) <==> !Usable(f) {}
    if fs != [] { assert fs[0] in fs; }
  }

  /** Why installations cannot be counted across a list: a pseudonym without key version, or two key versions. */
  lemma ContinuityReasons(w: Window, fs: seq<Fact>)
    ensures var r := Continuity(w, fs);
            && (r == Some(HmacVersionMissing) <==> exists f :: f in fs && f.dims.core.hmac != None && f.dims.core.keyVersion == None)
            && (r == Some(HmacContinuityBreak) <==>
                  && (forall f :: f in fs && f.dims.core.hmac != None ==> f.dims.core.keyVersion != None)
                  && (exists f, g :: TwoEpochs(fs, f, g)))
            && (r == None || r == Some(HmacVersionMissing) || r == Some(HmacContinuityBreak))
  {
    var identified := Select(w, fs, Identified);
    forall f ensures f in identified <==> f in fs && f.dims.core.hmac.Some? { SelectHas(w, fs, Identified, f); }
    SelectEmptyIff(w, identified, NoKeyVersion);
    ManyKeys(w, identified, ByKeyVersion);
    if f, g :| f in identified && g in identified && KeyOf(ByKeyVersion, f) != KeyOf(ByKeyVersion, g) { assert TwoEpochs(fs, f, g); }
    if f, g :| TwoEpochs(fs, f, g) { assert KeyOf(ByKeyVersion, f) != KeyOf(ByKeyVersion, g); }
  }

  predicate TwoEpochs(fs: seq<Fact>, f: Fact, g: Fact) {
    f in fs && g in fs && f.dims.core.hmac != None && g.dims.core.hmac != None && f.dims.core.keyVersion != g.dims.core.keyVersion
  }

  /** Distinct pseudonyms of a list. */
  ghost function Pseudonyms(fs: seq<Fact>): set<string> {
    set f | f in fs && f.dims.core.hmac != None :: f.dims.core.hmac.value
  }

  /** Installations are counted only when every fact has one and nothing breaks continuity. */
  lemma InstallationCountMeans(w: Window, fs: seq<Fact>, reason: Option<Reason>)
    ensures var n := InstallationCount(w, fs, reason);
            && (n != None <==> reason == None && forall f :: f in fs ==> f.dims.core.hmac != None)
            && (n != None ==> n.value == |Pseudonyms(fs)|)
  {
    SelectEmptyIff(w, fs, NotIdentified);
    if forall f :: f in fs ==> f.dims.core.hmac != None {
      KeysListTheSet(w, fs, ByInstallation);
      var names := Pseudonyms(fs);
      forall k ensures k in KeySet(fs, ByInstallation) <==> k in RatioGate.Texts(names) {
        if k in KeySet(fs, ByInstallation) {
          var f :| f in fs && KeyOf(ByInstallation, f) == k;
          assert f.dims.core.hmac.value in names;
        }
        if k in RatioGate.Texts(names) {
          var f :| f in fs && f.dims.core.hmac == Some(k.text);
          assert KeyOf(ByInstallation, f) == k;
        }
      }
      assert KeySet(fs, ByInstallation) == RatioGate.Texts(names);
      RatioGate.TextsSize(names);
    }
  }
}
