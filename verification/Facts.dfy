/**
 * Query facts and the weighted reduction that produces them.
 *
 * One fact is either one event (weight 1) or one GROUP BY row.  Builders look at a list of facts
 * only through the observations below: weighted counts, first and last times, the largest drop
 * rate, whether drops were reported, and which values of a dimension occur, in which order.
 */
module Facts {
  import opened Prelude

  const MINUTE_MS: int := 60000
  const MAX_BUCKETS: int := 24

  /** Half-open occurrence-time window. */
  datatype Window = Window(fromMs: int, toMs: int)

  datatype Evidence = Available | Missing | Expired | RetentionUnknown

  datatype Family = JavaCrash | Anr | AppExit | SdkHealth | Unregistered

  /** The GROUP BY columns that retention never touches; the family follows from module and name. */
  datatype Core = Core(
    appVersion: Option<string>, releaseQuality: IdentityQuality, installationQuality: IdentityQuality,
    hmac: Option<string>, keyVersion: Option<string>, fingerprint: Option<string>,
    schemaVersion: string, protocol: string, status: string,
    moduleName: Option<string>, eventName: Option<string>, family: Family,
    healthy: bool, late: bool, bucket: int)

  datatype Dims = Dims(core: Core, scene: Option<string>, sceneState: Evidence)

  datatype Fact = Fact(
    dims: Dims, emit: Option<int>, id: nat, first: int, last: int,
    drops: Option<int>, rate: Option<real>, weight: nat)

  // ----- buckets -----

  /** query_bucket_ms: the minute-aligned width that gives at most 24 buckets. */
  function BucketMs(w: Window): (ms: int)
    ensures ms >= MINUTE_MS
  {
    var raw := (w.toMs - w.fromMs + 23) / 24;
    Max(MINUTE_MS, (raw + 59999) / 60000 * 60000)
  }

  function BucketOf(w: Window, ms: int): int {
    (ms - w.fromMs) / BucketMs(w)
  }

  // ----- selections -----

  datatype Atom =
    | Release(version: string)
    | EitherRelease(a: string, b: string)
    | Bound
    | NotBound
    | OfFamily(family: Family)
    | Incident
    | Identified
    | NotIdentified
    | NoKeyVersion
    | Fingerprinted
    | FingerprintText
    | FingerprintIs(fingerprint: string)
    | Late
    | InBucket(index: int)
    | ValidHealth
    | InvalidHealth
    | KeyIs(dim: Dimension, key: Key)
    | EvidenceIs(dim: Dimension, evidence: Evidence)
    | Labelled(dim: Dimension)

  datatype Dimension =
    ByRelease | ByScene | ByProtocol | BySchema | ByStatus | ByInstallation | ByKeyVersion | ByFingerprint | ByIssue | ByFamily

  datatype Key = NoKey | Text(text: string) | Issue(fingerprint: string, family: Family) | FamilyKey(family: Family)

  /** A conjunction of conditions on facts. */
  datatype Sel = Every | And(atom: Atom, rest: Sel)

  function NameOfKey(key: Key): string {
    if key.Text? then key.text else ""
  }

  function TextKey(v: Option<string>): Key {
    if v.Some? then Text(v.value) else NoKey
  }

  function KeyOf(dim: Dimension, f: Fact): Key {
    var core := f.dims.core;
    match dim
    case ByRelease => TextKey(core.appVersion)
    case ByScene => TextKey(f.dims.scene)
    case ByProtocol => Text(core.protocol)
    case BySchema => Text(core.schemaVersion)
    case ByStatus => Text(core.status)
    case ByInstallation => TextKey(core.hmac)
    case ByKeyVersion => TextKey(core.keyVersion)
    case ByFingerprint => TextKey(core.fingerprint)
    case ByIssue => if core.fingerprint.Some? then Issue(core.fingerprint.value, core.family) else NoKey
    case ByFamily => FamilyKey(core.family)
  }

  /** A distribution's availability of its dimension: scenes carry a state, other labels are there or not. */
  function EvidenceOf(dim: Dimension, f: Fact): Evidence {
    if dim.ByScene? then f.dims.sceneState
    else if KeyOf(dim, f) == NoKey || KeyOf(dim, f) == Text("") then Missing else Available
  }

  predicate Healthy(emit: Option<int>, drops: Option<int>, rate: Option<real>) {
    && emit.Some? && emit.value > 0
    && drops.Some? && drops.value >= 0
    && rate.Some? && 0.0 <= rate.value <= 1.0
  }

  predicate IsHealthy(f: Fact) {
    Healthy(f.emit, f.drops, f.rate)
  }

  predicate ReportsDrops(f: Fact) {
    (f.drops.Some? && f.drops.value > 0) || (f.rate.Some? && f.rate.value > 0.0)
  }

  predicate IsBound(f: Fact) {
    f.dims.core.releaseQuality.OCCURRENCE_BOUND?
  }

  predicate HoldsAtom(w: Window, a: Atom, f: Fact) {
    var core := f.dims.core;
    match a
    case Release(version) => core.appVersion == Some(version)
    case EitherRelease(x, y) => core.appVersion == Some(x) || core.appVersion == Some(y)
    case Bound => IsBound(f)
    case NotBound => !IsBound(f)
    case OfFamily(family) => core.family == family
    case Incident => core.family.JavaCrash? || core.family.Anr?
    case Identified => core.hmac.Some?
    case NotIdentified => core.hmac.None?
    case NoKeyVersion => core.keyVersion.None?
    case Fingerprinted => core.fingerprint.Some?
    case FingerprintText => core.fingerprint.Some? && core.fingerprint.value != ""
    case FingerprintIs(fp) => core.fingerprint == Some(fp)
    case Late => core.late
    case InBucket(i) => BucketOf(w, f.first) == i
    case ValidHealth => IsHealthy(f)
    case InvalidHealth => !IsHealthy(f)
    case KeyIs(dim, key) => KeyOf(dim, f) == key
    case EvidenceIs(dim, e) => EvidenceOf(dim, f) == e
    case Labelled(dim) => KeyOf(dim, f) != NoKey && KeyOf(dim, f) != Text("")
  }

  predicate Holds(w: Window, sel: Sel, f: Fact) {
    match sel
    case Every => true
    case And(a, rest) => HoldsAtom(w, a, f) && Holds(w, rest, f)
  }

  predicate SceneFreeAtom(a: Atom) {
    match a
    case KeyIs(dim, _) => !dim.ByScene?
    case EvidenceIs(dim, _) => !dim.ByScene?
    case Labelled(dim) => !dim.ByScene?
    case _ => true
  }

  predicate SceneFree(sel: Sel) {
    match sel
    case Every => true
    case And(a, rest) => SceneFreeAtom(a) && SceneFree(rest)
  }

  // ----- observations -----

  /** What a selection of facts adds up to. */
  datatype Tally = Tally(count: nat, span: Span, rate: Option<real>, dropped: bool)

  /** From the first to the last occurrence, when there is one. */
  datatype Span = NoSpan | Span(first: int, last: int)

  const NOTHING := Tally(0, NoSpan, None, false)

  function Join(a: Span, b: Span): Span {
    if a.NoSpan? then b else if b.NoSpan? then a else Span(Min(a.first, b.first), Max(a.last, b.last))
  }

  function MaxOption(a: Option<int>, b: Option<int>): Option<int> {
    if a.None? then b else if b.None? then a else Some(Max(a.value, b.value))
  }

  function MaxReal(a: Option<real>, b: Option<real>): Option<real> {
    if a.None? then b else if b.None? then a else Some(if a.value <= b.value then b.value else a.value)
  }

  function Plus(a: Tally, b: Tally): Tally {
    Tally(a.count + b.count, Join(a.span, b.span), MaxReal(a.rate, b.rate), a.dropped || b.dropped)
  }

  /** `last_occurrence_timestamp_ms or occurrence_timestamp_ms`. */
  function LastOf(f: Fact): int {
    if f.last != 0 then f.last else f.first
  }

  function One(f: Fact): Tally {
    Tally(f.weight, Span(f.first, LastOf(f)), f.rate, ReportsDrops(f))
  }

  /** Count one more fact if it is selected. */
  function Add(w: Window, sel: Sel, t: Tally, f: Fact): Tally {
    if Holds(w, sel, f) then Plus(t, One(f)) else t
  }

  function TallyOf(w: Window, fs: seq<Fact>, sel: Sel): Tally {
    if fs == [] then NOTHING else Add(w, sel, TallyOf(w, fs[..|fs| - 1], sel), fs[|fs| - 1])
  }

  /** [fact for fact in facts if atom]. */
  function Select(w: Window, fs: seq<Fact>, a: Atom): seq<Fact> {
    if fs == [] then []
    else
      var n := |fs| - 1;
      var before := Select(w, fs[..n], a);
      if HoldsAtom(w, a, fs[n]) then before + [fs[n]] else before
  }

  /** The keys of the matching facts in order of first appearance, as a dictionary keeps them. */
  function Distinct(w: Window, fs: seq<Fact>, sel: Sel, dim: Dimension): seq<Key> {
    if fs == [] then []
    else
      var n := |fs| - 1;
      var before := Distinct(w, fs[..n], sel, dim);
      if Holds(w, sel, fs[n]) && KeyOf(dim, fs[n]) !in before then before + [KeyOf(dim, fs[n])] else before
  }

  /** _sample_count: the number of events the facts stand for. */
  function Samples(w: Window, fs: seq<Fact>): nat {
    TallyOf(w, fs, Every).count
  }

  /** {value_for(fact) for fact in facts}, in order of first appearance. */
  function Keys(w: Window, fs: seq<Fact>, dim: Dimension): seq<Key> {
    Distinct(w, fs, Every, dim)
  }

  // ----- the reduction -----

  /** The aggregate row of one fact: SQL keeps only whether the health sample was valid. */
  function AsGroup(f: Fact): Fact {
    f.(emit := if f.dims.core.healthy then Some(1) else None)
  }

  /** count, min and max over two facts of one group. */
  function Merge(g: Fact, f: Fact): Fact {
    g.(id := Min(g.id, f.id), first := Min(g.first, f.first), last := Max(g.last, f.last),
       drops := MaxOption(g.drops, f.drops), rate := MaxReal(g.rate, f.rate), weight := g.weight + f.weight)
  }

  predicate KnownDims(gs: seq<Fact>, d: Dims) {
    exists i :: 0 <= i < |gs| && gs[i].dims == d
  }

  /** The group with these dimensions, or |gs| when there is none. */
  function Find(gs: seq<Fact>, d: Dims): (i: nat)
    ensures i <= |gs|
    ensures i < |gs| ==> gs[i].dims == d
    ensures i < |gs| <==> KnownDims(gs, d)
  {
    if gs == [] then 0
    else
      var n := |gs| - 1;
      if gs[n].dims == d then n
      else
        var k := Find(gs[..n], d);
        assert forall i :: 0 <= i < n ==> gs[..n][i] == gs[i];
        if k < n then k else |gs|
  }

  /** A known group takes the fact in; a new group goes last. */
  function Absorb(gs: seq<Fact>, f: Fact): seq<Fact> {
    var i := Find(gs, f.dims);
    if i < |gs| then gs[i := Merge(gs[i], f)] else gs + [AsGroup(f)]
  }

  /** GROUP BY all dimensions, ordered by the smallest event id. */
  function GroupBy(fs: seq<Fact>): seq<Fact> {
    if fs == [] then [] else Absorb(GroupBy(fs[..|fs| - 1]), fs[|fs| - 1])
  }

  /** What every fact made from a stored event satisfies, and every group of such facts. */
  predicate Fair(w: Window, f: Fact) {
    && (f.dims.core.healthy <==> IsHealthy(f))
    && f.dims.core.bucket == BucketOf(w, f.first) == BucketOf(w, f.last)
    && 0 < w.fromMs <= f.first <= f.last < w.toMs
    && f.weight >= 1
  }

  predicate AllFair(w: Window, fs: seq<Fact>) {
    forall i :: 0 <= i < |fs| ==> Fair(w, fs[i])
  }

  lemma DimsDecideAtom(w: Window, a: Atom, f: Fact, g: Fact)
    requires Fair(w, f) && Fair(w, g) && f.dims == g.dims
    ensures HoldsAtom(w, a, f) == HoldsAtom(w, a, g)
  {
  }

  /** Facts of one group satisfy the same selections. */
  lemma {:induction false} DimsDecide(w: Window, sel: Sel, f: Fact, g: Fact)
    requires Fair(w, f) && Fair(w, g) && f.dims == g.dims
    ensures Holds(w, sel, f) == Holds(w, sel, g)
  {
    if sel.And? {
      DimsDecideAtom(w, sel.atom, f, g);
      DimsDecide(w, sel.rest, f, g);
    }
  }

  /** A GROUP BY row: fair, and reduced to whether its health samples were valid. */
  predicate IsGroup(w: Window, g: Fact) {
    Fair(w, g) && g.emit == if g.dims.core.healthy then Some(1) else None
  }

  predicate AllGroups(w: Window, gs: seq<Fact>) {
    forall i :: 0 <= i < |gs| ==> IsGroup(w, gs[i])
  }

  lemma MergeIsGroup(w: Window, g: Fact, f: Fact)
    requires IsGroup(w, g) && Fair(w, f) && g.dims == f.dims
    ensures IsGroup(w, Merge(g, f)) && Merge(g, f).dims == f.dims
  {
  }

  lemma AsGroupIsGroup(w: Window, f: Fact)
    requires Fair(w, f)
    ensures IsGroup(w, AsGroup(f)) && AsGroup(f).dims == f.dims
  {
  }

  lemma AbsorbIsGroups(w: Window, gs: seq<Fact>, f: Fact)
    requires AllGroups(w, gs) && Fair(w, f)
    ensures AllGroups(w, Absorb(gs, f))
  {
    var i := Find(gs, f.dims);
    if i < |gs| {
      MergeIsGroup(w, gs[i], f);
    } else {
      AsGroupIsGroup(w, f);
    }
  }

  lemma PlusReorders(a: Tally, b: Tally, c: Tally)
    ensures Plus(Plus(a, b), c) == Plus(Plus(a, c), b)
    ensures Plus(Plus(a, b), c) == Plus(a, Plus(b, c))
  {
  }

  lemma MergeAdds(w: Window, g: Fact, f: Fact)
    requires IsGroup(w, g) && Fair(w, f) && g.dims == f.dims
    ensures One(Merge(g, f)) == Plus(One(g), One(f))
  {
  }

  lemma TallySnoc(w: Window, fs: seq<Fact>, f: Fact, sel: Sel)
    ensures TallyOf(w, fs + [f], sel) == Add(w, sel, TallyOf(w, fs, sel), f)
  {
    assert (fs + [f])[..|fs|] == fs;
  }

  /** Counting a fact into its group counts it once more. */
  lemma {:induction false} TallyUpdate(w: Window, gs: seq<Fact>, i: nat, g: Fact, f: Fact, sel: Sel)
    requires i < |gs| && Holds(w, sel, g) == Holds(w, sel, f) == Holds(w, sel, gs[i])
    requires One(g) == Plus(One(gs[i]), One(f))
    ensures TallyOf(w, gs[i := g], sel) == Add(w, sel, TallyOf(w, gs, sel), f)
  {
    var n := |gs| - 1;
    var front := TallyOf(w, gs[..n], sel);
    if i == n {
      assert gs[i := g][..n] == gs[..n];
      PlusReorders(front, One(gs[n]), One(f));
    } else {
      TallyUpdate(w, gs[..n], i, g, f, sel);
      assert gs[i := g][..n] == gs[..n][i := g];
      PlusReorders(front, One(f), One(gs[n]));
    }
  }

  lemma AbsorbAdds(w: Window, gs: seq<Fact>, f: Fact, sel: Sel)
    requires AllGroups(w, gs) && Fair(w, f)
    ensures TallyOf(w, Absorb(gs, f), sel) == Add(w, sel, TallyOf(w, gs, sel), f)
  {
    var i := Find(gs, f.dims);
    if i < |gs| {
      MergeAdds(w, gs[i], f);
      MergeIsGroup(w, gs[i], f);
      DimsDecide(w, sel, f, gs[i]);
      DimsDecide(w, sel, f, Merge(gs[i], f));
      TallyUpdate(w, gs, i, Merge(gs[i], f), f, sel);
    } else {
      AsGroupIsGroup(w, f);
      DimsDecide(w, sel, f, AsGroup(f));
      TallySnoc(w, gs, AsGroup(f), sel);
    }
  }

  // ----- order of first appearance -----

  predicate SameHolds(w: Window, a: seq<Fact>, b: seq<Fact>, sel: Sel) {
    |a| == |b| && forall i :: 0 <= i < |a| ==> a[i].dims == b[i].dims && Holds(w, sel, a[i]) == Holds(w, sel, b[i])
  }

  lemma {:induction false} DistinctCongruent(w: Window, a: seq<Fact>, b: seq<Fact>, sel: Sel, dim: Dimension)
    requires SameHolds(w, a, b, sel)
    ensures Distinct(w, a, sel, dim) == Distinct(w, b, sel, dim)
  {
    if a != [] {
      var n := |a| - 1;
      DistinctCongruent(w, a[..n], b[..n], sel, dim);
    }
  }

  lemma {:induction false} DistinctHas(w: Window, fs: seq<Fact>, sel: Sel, dim: Dimension, i: nat)
    requires i < |fs| && Holds(w, sel, fs[i])
    ensures KeyOf(dim, fs[i]) in Distinct(w, fs, sel, dim)
  {
    var n := |fs| - 1;
    if i < n {
      DistinctHas(w, fs[..n], sel, dim, i);
    }
  }

  lemma DistinctSnoc(w: Window, fs: seq<Fact>, f: Fact, sel: Sel, dim: Dimension)
    ensures Distinct(w, fs + [f], sel, dim)
            == Distinct(w, fs, sel, dim)
               + (if Holds(w, sel, f) && KeyOf(dim, f) !in Distinct(w, fs, sel, dim) then [KeyOf(dim, f)] else [])
  {
    assert (fs + [f])[..|fs|] == fs;
  }

  lemma AbsorbKnownDistinct(w: Window, gs: seq<Fact>, f: Fact, sel: Sel, dim: Dimension, i: nat)
    requires AllGroups(w, gs) && Fair(w, f) && i == Find(gs, f.dims) < |gs|
    ensures Distinct(w, Absorb(gs, f), sel, dim) == Distinct(w, gs, sel, dim)
    ensures Holds(w, sel, f) ==> KeyOf(dim, f) in Distinct(w, gs, sel, dim)
  {
    MergeIsGroup(w, gs[i], f);
    DimsDecide(w, sel, Merge(gs[i], f), gs[i]);
    DimsDecide(w, sel, f, gs[i]);
    assert SameHolds(w, Absorb(gs, f), gs, sel);
    DistinctCongruent(w, Absorb(gs, f), gs, sel, dim);
    if Holds(w, sel, f) { DistinctHas(w, gs, sel, dim, i); }
  }

  lemma AbsorbNewDistinct(w: Window, gs: seq<Fact>, f: Fact, sel: Sel, dim: Dimension)
    requires Fair(w, f) && Find(gs, f.dims) == |gs|
    ensures Distinct(w, Absorb(gs, f), sel, dim) == Distinct(w, gs + [f], sel, dim)
  {
    AsGroupIsGroup(w, f);
    DimsDecide(w, sel, f, AsGroup(f));
    DistinctSnoc(w, gs, f, sel, dim);
    DistinctSnoc(w, gs, AsGroup(f), sel, dim);
  }

  lemma AbsorbDistinct(w: Window, gs: seq<Fact>, f: Fact, sel: Sel, dim: Dimension)
    requires AllGroups(w, gs) && Fair(w, f)
    ensures Distinct(w, Absorb(gs, f), sel, dim) == Distinct(w, gs + [f], sel, dim)
  {
    var i := Find(gs, f.dims);
    if i < |gs| {
      AbsorbKnownDistinct(w, gs, f, sel, dim, i);
      DistinctSnoc(w, gs, f, sel, dim);
    } else {
      AbsorbNewDistinct(w, gs, f, sel, dim);
    }
  }

  lemma {:induction false} GroupByIsGroups(w: Window, fs: seq<Fact>)
    requires AllFair(w, fs)
    ensures AllGroups(w, GroupBy(fs))
  {
    if fs != [] {
      var n := |fs| - 1;
      GroupByIsGroups(w, fs[..n]);
      AbsorbIsGroups(w, GroupBy(fs[..n]), fs[n]);
    }
  }

  lemma {:induction false} GroupByDistinct(w: Window, fs: seq<Fact>, sel: Sel, dim: Dimension)
    requires AllFair(w, fs)
    ensures Distinct(w, GroupBy(fs), sel, dim) == Distinct(w, fs, sel, dim)
  {
    if fs != [] {
      var n := |fs| - 1;
      GroupByDistinct(w, fs[..n], sel, dim);
      GroupByIsGroups(w, fs[..n]);
      AbsorbDistinct(w, GroupBy(fs[..n]), fs[n], sel, dim);
      DistinctSnoc(w, GroupBy(fs[..n]), fs[n], sel, dim);
    }
  }

  lemma {:induction false} GroupByAdds(w: Window, fs: seq<Fact>, sel: Sel)
    requires AllFair(w, fs)
    ensures TallyOf(w, GroupBy(fs), sel) == TallyOf(w, fs, sel)
  {
    if fs != [] {
      var n := |fs| - 1;
      GroupByAdds(w, fs[..n], sel);
      GroupByIsGroups(w, fs[..n]);
      AbsorbAdds(w, GroupBy(fs[..n]), fs[n], sel);
    }
  }

  // ----- two lists a builder cannot tell apart -----

  /** Same observations for every selection; with `scenes` false, only for those that ignore scenes. */
  ghost predicate SameView(w: Window, a: seq<Fact>, b: seq<Fact>, scenes: bool) {
    && (forall sel :: scenes || SceneFree(sel) ==> TallyOf(w, a, sel) == TallyOf(w, b, sel))
    && (forall sel: Sel, dim: Dimension :: scenes || (SceneFree(sel) && !dim.ByScene?) ==>
          Distinct(w, a, sel, dim) == Distinct(w, b, sel, dim))
    && AllFair(w, a) && AllFair(w, b)
  }

  /** The weighted groups show exactly what the single events show. */
  lemma GroupBySameView(w: Window, fs: seq<Fact>)
    requires AllFair(w, fs)
    ensures SameView(w, GroupBy(fs), fs, true)
  {
    forall sel ensures TallyOf(w, GroupBy(fs), sel) == TallyOf(w, fs, sel) {
      GroupByAdds(w, fs, sel);
    }
    forall sel, dim ensures Distinct(w, GroupBy(fs), sel, dim) == Distinct(w, fs, sel, dim) {
      GroupByDistinct(w, fs, sel, dim);
    }
    GroupByIsGroups(w, fs);
  }

  // ----- list comprehensions keep the view -----

  lemma {:induction false} SelectTally(w: Window, fs: seq<Fact>, a: Atom, sel: Sel)
    ensures TallyOf(w, Select(w, fs, a), sel) == TallyOf(w, fs, And(a, sel))
  {
    if fs != [] {
      var n := |fs| - 1;
      SelectTally(w, fs[..n], a, sel);
      if HoldsAtom(w, a, fs[n]) {
        TallySnoc(w, Select(w, fs[..n], a), fs[n], sel);
      }
    }
  }

  lemma {:induction false} SelectDistinct(w: Window, fs: seq<Fact>, a: Atom, sel: Sel, dim: Dimension)
    ensures Distinct(w, Select(w, fs, a), sel, dim) == Distinct(w, fs, And(a, sel), dim)
  {
    if fs != [] {
      var n := |fs| - 1;
      SelectDistinct(w, fs[..n], a, sel, dim);
      if HoldsAtom(w, a, fs[n]) {
        DistinctSnoc(w, Select(w, fs[..n], a), fs[n], sel, dim);
      }
    }
  }

  /** Membership in a comprehension. */
  lemma {:induction false} SelectHas(w: Window, fs: seq<Fact>, a: Atom, f: Fact)
    ensures f in Select(w, fs, a) <==> f in fs && HoldsAtom(w, a, f)
  {
    if fs != [] {
      var n := |fs| - 1;
      SelectHas(w, fs[..n], a, f);
      assert fs == fs[..n] + [fs[n]];
    }
  }

  lemma SelectFair(w: Window, fs: seq<Fact>, a: Atom)
    requires AllFair(w, fs)
    ensures AllFair(w, Select(w, fs, a))
  {
    var r := Select(w, fs, a);
    forall i | 0 <= i < |r| ensures Fair(w, r[i]) {
      SelectHas(w, fs, a, r[i]);
    }
  }

  lemma SelectView(w: Window, a: seq<Fact>, b: seq<Fact>, scenes: bool, atom: Atom)
    requires SameView(w, a, b, scenes) && (scenes || SceneFreeAtom(atom))
    ensures SameView(w, Select(w, a, atom), Select(w, b, atom), scenes)
  {
    var x, y := Select(w, a, atom), Select(w, b, atom);
    SelectFair(w, a, atom);
    SelectFair(w, b, atom);
    forall sel | scenes || SceneFree(sel) ensures TallyOf(w, x, sel) == TallyOf(w, y, sel) {
      SelectTally(w, a, atom, sel);
      SelectTally(w, b, atom, sel);
      assert scenes || SceneFree(And(atom, sel));
    }
    forall sel: Sel, dim: Dimension | scenes || (SceneFree(sel) && !dim.ByScene?)
      ensures Distinct(w, x, sel, dim) == Distinct(w, y, sel, dim)
    {
      SelectDistinct(w, a, atom, sel, dim);
      SelectDistinct(w, b, atom, sel, dim);
      assert scenes || SceneFree(And(atom, sel));
    }
  }

  /** Every fact stands for at least one event, so a list is empty exactly when it counts nothing. */
  lemma EmptyIffNoSamples(w: Window, fs: seq<Fact>)
    requires AllCounted(fs)
    ensures fs == [] <==> Samples(w, fs) == 0
  {
    if fs != [] {
      assert One(fs[|fs| - 1]).count >= 1;
    }
  }

  predicate AllCounted(fs: seq<Fact>) {
    forall i :: 0 <= i < |fs| ==> fs[i].weight >= 1
  }

  lemma FairCounts(w: Window, fs: seq<Fact>)
    requires AllFair(w, fs)
    ensures AllCounted(fs)
  {
    forall i | 0 <= i < |fs| ensures fs[i].weight >= 1 { assert Fair(w, fs[i]); }
  }

  /** What the builders read of a list: emptiness, totals and distinct keys. */
  lemma ViewFacts(w: Window, a: seq<Fact>, b: seq<Fact>, scenes: bool)
    requires SameView(w, a, b, scenes)
    ensures a == [] <==> b == []
    ensures TallyOf(w, a, Every) == TallyOf(w, b, Every)
    ensures forall dim: Dimension :: scenes || !dim.ByScene? ==> Keys(w, a, dim) == Keys(w, b, dim)
  {
    FairCounts(w, a);
    FairCounts(w, b);
    EmptyIffNoSamples(w, a);
    EmptyIffNoSamples(w, b);
    assert SceneFree(Every);
  }

  // ----- sets of keys -----

  ghost function KeySet(fs: seq<Fact>, dim: Dimension): set<Key> {
    set f | f in fs :: KeyOf(dim, f)
  }

  lemma KeySetSnoc(fs: seq<Fact>, f: Fact, dim: Dimension)
    ensures KeySet(fs + [f], dim) == KeySet(fs, dim) + {KeyOf(dim, f)}
  {
    forall k ensures k in KeySet(fs + [f], dim) <==> k in KeySet(fs, dim) + {KeyOf(dim, f)} {
      assert f in fs + [f];
    }
  }

  ghost predicate Lists(keys: seq<Key>, all: set<Key>) {
    (forall k :: k in keys <==> k in all) && |keys| == |all|
  }

  lemma ListsSnoc(keys: seq<Key>, all: set<Key>, k: Key)
    requires Lists(keys, all)
    ensures Lists(if k in keys then keys else keys + [k], all + {k})
  {
    if k in keys {
      assert all + {k} == all;
    }
  }

  /** Keys lists exactly the keys that occur, each once: its length is the size of their set. */
  lemma {:induction false} KeysListTheSet(w: Window, fs: seq<Fact>, dim: Dimension)
    ensures Lists(Keys(w, fs, dim), KeySet(fs, dim))
  {
    if fs == [] {
      assert KeySet(fs, dim) == {};
    } else {
      var n := |fs| - 1;
      KeysListTheSet(w, fs[..n], dim);
      KeySetSnoc(fs[..n], fs[n], dim);
      ListsSnoc(Keys(w, fs[..n], dim), KeySet(fs[..n], dim), KeyOf(dim, fs[n]));
      assert fs == fs[..n] + [fs[n]];
    }
  }
}
