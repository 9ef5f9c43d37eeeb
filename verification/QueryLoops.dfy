/**
 * The builders as the service runs them: dictionaries, counters and lists filled in loops.
 */
module QueryLoops {
  import opened Prelude
  import opened Facts
  import opened Metrics
  import opened Buckets
  import opened Sorting
  import opened ReleaseHealth
  import opened Issues
  import DQ = DataQuality

  // ----- grouping by a key -----

  /** groups maps each key of fs, listed in order, to the facts with that key. */
  ghost predicate Grouped(w: Window, fs: seq<Fact>, dim: Dimension, order: seq<Key>, groups: map<Key, seq<Fact>>) {
    && order == Keys(w, fs, dim)
    && (forall k :: k in groups <==> k in order)
    && (forall k :: k in order ==> groups[k] == Select(w, fs, KeyIs(dim, k)))
  }

  lemma SelectSnoc(w: Window, fs: seq<Fact>, f: Fact, a: Atom)
    ensures Select(w, fs + [f], a) == if HoldsAtom(w, a, f) then Select(w, fs, a) + [f] else Select(w, fs, a)
  {
    assert (fs + [f])[..|fs|] == fs;
  }

  lemma UnknownKeySelectsNothing(w: Window, fs: seq<Fact>, dim: Dimension, k: Key)
    requires k !in Keys(w, fs, dim)
    ensures Select(w, fs, KeyIs(dim, k)) == []
  {
    KeysListTheSet(w, fs, dim);
    SelectEmptyIff(w, fs, KeyIs(dim, k));
    forall f | f in fs ensures KeyOf(dim, f) != k { assert KeyOf(dim, f) in KeySet(fs, dim); }
  }

  function AddToGroup(groups: map<Key, seq<Fact>>, k: Key, f: Fact): map<Key, seq<Fact>> {
    groups[k := (if k in groups then groups[k] else []) + [f]]
  }

  lemma KeySelectSnoc(w: Window, fs: seq<Fact>, f: Fact, dim: Dimension, k: Key, x: Key)
    requires k == KeyOf(dim, f)
    ensures Select(w, fs + [f], KeyIs(dim, x)) == if x == k then Select(w, fs, KeyIs(dim, x)) + [f] else Select(w, fs, KeyIs(dim, x))
  {
    SelectSnoc(w, fs, f, KeyIs(dim, x));
    assert HoldsAtom(w, KeyIs(dim, x), f) == (x == k);
  }

  lemma KeysSnoc(w: Window, fs: seq<Fact>, f: Fact, dim: Dimension, k: Key)
    requires k == KeyOf(dim, f)
    ensures Keys(w, fs + [f], dim) == if k in Keys(w, fs, dim) then Keys(w, fs, dim) else Keys(w, fs, dim) + [k]
  {
    DistinctSnoc(w, fs, f, Every, dim);
  }

  lemma GroupAt(w: Window, fs: seq<Fact>, dim: Dimension, groups: map<Key, seq<Fact>>, f: Fact, k: Key, x: Key)
    requires k == KeyOf(dim, f)
    requires x in groups ==> groups[x] == Select(w, fs, KeyIs(dim, x))
    requires x !in groups ==> x !in Keys(w, fs, dim)
    ensures var after := AddToGroup(groups, k, f);
            x in after ==> after[x] == Select(w, fs + [f], KeyIs(dim, x))
  {
    KeySelectSnoc(w, fs, f, dim, k, x);
    if x !in groups { UnknownKeySelectsNothing(w, fs, dim, x); }
  }

  lemma GroupedNext(w: Window, fs: seq<Fact>, dim: Dimension, order: seq<Key>, groups: map<Key, seq<Fact>>, f: Fact, k: Key)
    requires Grouped(w, fs, dim, order, groups) && k == KeyOf(dim, f)
    ensures Grouped(w, fs + [f], dim, if k in order then order else order + [k], AddToGroup(groups, k, f))
  {
    var after := AddToGroup(groups, k, f);
    KeysSnoc(w, fs, f, dim, k);
    forall x | x in after ensures after[x] == Select(w, fs + [f], KeyIs(dim, x)) {
      GroupAt(w, fs, dim, groups, f, k, x);
    }
  }

  /** `for fact in facts: grouped[key(fact)].append(fact)` */
  method GroupFacts(w: Window, fs: seq<Fact>, dim: Dimension) returns (order: seq<Key>, groups: map<Key, seq<Fact>>)
    ensures Grouped(w, fs, dim, order, groups)
  {
    order, groups := [], map[];
    for i := 0 to |fs|
      invariant Grouped(w, fs[..i], dim, order, groups)
    {
      assert fs[..i + 1] == fs[..i] + [fs[i]];
      var k := KeyOf(dim, fs[i]);
      GroupedNext(w, fs[..i], dim, order, groups, fs[i], k);
      groups := AddToGroup(groups, k, fs[i]);
      if k !in order {
        order := order + [k];
      }
    }
    assert fs[..|fs|] == fs;
  }

  method BuildItems(w: Window, fs: seq<Fact>, reason: Option<Reason>) returns (items: seq<FingerprintItem>)
    ensures items == FingerprintItems(w, fs, Keys(w, fs, ByIssue), reason)
  {
    var order, groups := GroupFacts(w, fs, ByIssue);
    items := [];
    for i := 0 to |order|
      invariant items == FingerprintItems(w, fs, order[..i], reason)
    {
      assert order[..i + 1][..i] == order[..i];
      assert order[i] in order;
      items := items + [ItemOf(w, groups[order[i]], order[i], reason)];
    }
    assert order[..|order|] == order;
  }

  /** The fingerprint page, from groups collected in one pass. */
  method BuildTopFingerprints(w: Window, fs: seq<Fact>, release: string, limit: nat) returns (page: FingerprintPage)
    ensures page == TopFingerprints(w, fs, release, limit)
  {
    var declared := Declared(w, fs, release);
    var eligible := Eligible(w, fs, release);
    var reason := Continuity(w, eligible);
    var incidents := Incidents(w, fs, release);
    var printed := Select(w, incidents, Fingerprinted);
    var items := BuildItems(w, printed, reason);
    page := FingerprintPage(
      FingerprintState(w, declared, eligible, incidents, printed, reason), Samples(w, incidents),
      if incidents == [] then None else Share(Samples(w, printed), Samples(w, incidents)),
      reason, Take(SortBy(items, FingerprintRank), limit));
  }

  // ----- distributions -----

  function Bump(c: Coverage, e: Evidence, weight: nat): Coverage {
    match e
    case Available => c.(available := c.available + weight, total := c.total + weight)
    case Missing => c.(missing := c.missing + weight, total := c.total + weight)
    case Expired => c.(expired := c.expired + weight, total := c.total + weight)
    case RetentionUnknown => c.(unknown := c.unknown + weight, total := c.total + weight)
  }

  lemma SamplesSnoc(w: Window, fs: seq<Fact>, f: Fact)
    ensures Samples(w, fs + [f]) == Samples(w, fs) + f.weight
  {
    TallySnoc(w, fs, f, Every);
  }

  /** What one more fact adds to the count of one state. */
  function Extra(dim: Dimension, f: Fact, e: Evidence): nat {
    if EvidenceOf(dim, f) == e then f.weight else 0
  }

  lemma EvidenceSnoc(w: Window, fs: seq<Fact>, dim: Dimension, f: Fact, e: Evidence)
    ensures Samples(w, Select(w, fs + [f], EvidenceIs(dim, e))) == Samples(w, Select(w, fs, EvidenceIs(dim, e))) + Extra(dim, f, e)
  {
    SelectSnoc(w, fs, f, EvidenceIs(dim, e));
    if EvidenceOf(dim, f) == e {
      SamplesSnoc(w, Select(w, fs, EvidenceIs(dim, e)), f);
    }
  }

  lemma BumpFrom(w: Window, fs: seq<Fact>, all: seq<Fact>, dim: Dimension, f: Fact)
    requires Samples(w, all) == Samples(w, fs) + f.weight
    requires forall e :: Samples(w, Select(w, all, EvidenceIs(dim, e))) == Samples(w, Select(w, fs, EvidenceIs(dim, e))) + Extra(dim, f, e)
    ensures CoverageOf(w, all, dim) == Bump(CoverageOf(w, fs, dim), EvidenceOf(dim, f), f.weight)
  {
  }

  lemma BumpCoverage(w: Window, fs: seq<Fact>, dim: Dimension, f: Fact)
    ensures CoverageOf(w, fs + [f], dim) == Bump(CoverageOf(w, fs, dim), EvidenceOf(dim, f), f.weight)
  {
    SamplesSnoc(w, fs, f);
    forall e ensures Samples(w, Select(w, fs + [f], EvidenceIs(dim, e))) == Samples(w, Select(w, fs, EvidenceIs(dim, e))) + Extra(dim, f, e) {
      EvidenceSnoc(w, fs, dim, f, e);
    }
    BumpFrom(w, fs, fs + [f], dim, f);
  }

  predicate IsNamed(dim: Dimension, f: Fact) {
    EvidenceOf(dim, f) == Available && KeyOf(dim, f) != NoKey && KeyOf(dim, f) != Text("")
  }

  lemma NamedSnoc(w: Window, fs: seq<Fact>, dim: Dimension, f: Fact)
    ensures LabelledFacts(w, fs + [f], dim) == if IsNamed(dim, f) then LabelledFacts(w, fs, dim) + [f] else LabelledFacts(w, fs, dim)
  {
    SelectSnoc(w, fs, f, EvidenceIs(dim, Available));
    NamedFrom(w, Select(w, fs, EvidenceIs(dim, Available)), Select(w, fs + [f], EvidenceIs(dim, Available)), dim, f);
  }

  lemma NamedFrom(w: Window, before: seq<Fact>, after: seq<Fact>, dim: Dimension, f: Fact)
    requires after == if EvidenceOf(dim, f) == Available then before + [f] else before
    ensures Select(w, after, Labelled(dim))
            == if IsNamed(dim, f) then Select(w, before, Labelled(dim)) + [f] else Select(w, before, Labelled(dim))
  {
    SelectSnoc(w, before, f, Labelled(dim));
  }

  method CountEvidence(w: Window, fs: seq<Fact>, dim: Dimension)
    returns (coverage: Coverage, order: seq<Key>, groups: map<Key, seq<Fact>>)
    ensures coverage == CoverageOf(w, fs, dim)
    ensures Grouped(w, LabelledFacts(w, fs, dim), dim, order, groups)
  {
    coverage, order, groups := Coverage(0, 0, 0, 0, 0), [], map[];
    for i := 0 to |fs|
      invariant coverage == CoverageOf(w, fs[..i], dim)
      invariant Grouped(w, LabelledFacts(w, fs[..i], dim), dim, order, groups)
    {
      assert fs[..i + 1] == fs[..i] + [fs[i]];
      BumpCoverage(w, fs[..i], dim, fs[i]);
      NamedSnoc(w, fs[..i], dim, fs[i]);
      coverage := Bump(coverage, EvidenceOf(dim, fs[i]), fs[i].weight);
      if IsNamed(dim, fs[i]) {
        var k := KeyOf(dim, fs[i]);
        GroupedNext(w, LabelledFacts(w, fs[..i], dim), dim, order, groups, fs[i], k);
        groups := AddToGroup(groups, k, fs[i]);
        if k !in order {
          order := order + [k];
        }
      } else {
        assert LabelledFacts(w, fs[..i + 1], dim) == LabelledFacts(w, fs[..i], dim);
      }
    }
    assert fs[..|fs|] == fs;
  }

  /** One pass fills the counters and the groups of an issue's dimension. */
  method BuildIssueDistribution(w: Window, fs: seq<Fact>, dim: Dimension, unavailable: Reason) returns (d: Distribution)
    ensures d == IssueDistribution(w, fs, dim, unavailable)
  {
    var reason := Continuity(w, fs);
    var coverage, order, groups := CountEvidence(w, fs, dim);
    var items: seq<DistributionItem> := [];
    for i := 0 to |order|
      invariant items == DistributionItems(w, LabelledFacts(w, fs, dim), dim, order[..i], reason)
    {
      assert order[..i + 1][..i] == order[..i];
      assert order[i] in order;
      var group := groups[order[i]];
      items := items + [DistributionItem(NameOfKey(order[i]), Samples(w, group), InstallationCount(w, group, reason))];
    }
    assert order[..|order|] == order;
    d := Distribute(fs == [], items, coverage, unavailable);
  }

  // ----- trends -----

  /** buckets holds, for every bucket of the window, the facts that fall into it. */
  ghost predicate Bucketed(w: Window, fs: seq<Fact>, buckets: map<int, seq<Fact>>) {
    forall i :: 0 <= i < BucketCount(w) ==> (if i in buckets then buckets[i] else []) == Select(w, fs, InBucket(i))
  }

  function AddToBucket(buckets: map<int, seq<Fact>>, i: int, f: Fact): map<int, seq<Fact>> {
    buckets[i := (if i in buckets then buckets[i] else []) + [f]]
  }

  lemma BucketedNext(w: Window, fs: seq<Fact>, buckets: map<int, seq<Fact>>, f: Fact)
    requires Bucketed(w, fs, buckets)
    ensures var b := BucketOf(w, f.first);
            Bucketed(w, fs + [f], if 0 <= b < BucketCount(w) then AddToBucket(buckets, b, f) else buckets)
  {
    forall i | 0 <= i < BucketCount(w) 
      ensures Select(w, fs + [f], InBucket(i)) == if BucketOf(w, f.first) == i then Select(w, fs, InBucket(i)) + [f] else Select(w, fs, InBucket(i))
    {
      SelectSnoc(w, fs, f, InBucket(i));
    }
  }

  method BucketFactsOf(w: Window, fs: seq<Fact>) returns (buckets: map<int, seq<Fact>>)
    ensures Bucketed(w, fs, buckets)
  {
    buckets := map[];
    for j := 0 to |fs|
      invariant Bucketed(w, fs[..j], buckets)
    {
      assert fs[..j + 1] == fs[..j] + [fs[j]];
      BucketedNext(w, fs[..j], buckets, fs[j]);
      var b := BucketOf(w, fs[j].first);
      if 0 <= b < BucketCount(w) {
        buckets := AddToBucket(buckets, b, fs[j]);
      }
    }
    assert fs[..|fs|] == fs;
  }

  method BuildIssueTrend(w: Window, fs: seq<Fact>) returns (points: seq<IssuePoint>)
    ensures points == IssueTrend(w, fs)
  {
    var reason := Continuity(w, fs);
    var buckets := BucketFactsOf(w, fs);
    points := [];
    var n := Max(0, BucketCount(w));
    for i := 0 to n
      invariant |points| == i
      invariant forall j :: 0 <= j < i ==> points[j] == IssuePointOf(w, Select(w, fs, InBucket(j)), reason, j)
    {
      var group := if i in buckets then buckets[i] else [];
      points := points + [IssuePointOf(w, group, reason, i)];
    }
  }

  method BuildIncidentTrend(w: Window, fs: seq<Fact>, newRelease: string, baseline: string) returns (points: seq<TrendPoint>)
    ensures points == IncidentTrend(w, fs, newRelease, baseline)
  {
    var either := Select(w, fs, EitherRelease(newRelease, baseline));
    var buckets := BucketFactsOf(w, either);
    points := [];
    var n := Max(0, BucketCount(w));
    for i := 0 to n
      invariant |points| == i
      invariant forall j :: 0 <= j < i ==> points[j] == PointOf(w, BucketFacts(w, fs, newRelease, baseline, j), newRelease, baseline, j)
    {
      var group := if i in buckets then buckets[i] else [];
      points := points + [PointOf(w, group, newRelease, baseline, i)];
    }
  }

  // ----- counters -----

  /** The counter of a dimension, as a dictionary. */
  ghost predicate Counted(w: Window, fs: seq<Fact>, dim: Dimension, order: seq<Key>, counts: map<Key, nat>) {
    && order == Keys(w, fs, dim)
    && (forall k :: k in counts <==> k in order)
    && (forall k :: k in order ==> counts[k] == Samples(w, Select(w, fs, KeyIs(dim, k))))
  }

  function AddCount(counts: map<Key, nat>, k: Key, weight: nat): map<Key, nat> {
    counts[k := (if k in counts then counts[k] else 0) + weight]
  }

  lemma CountAt(w: Window, fs: seq<Fact>, dim: Dimension, counts: map<Key, nat>, f: Fact, k: Key, x: Key)
    requires k == KeyOf(dim, f)
    requires x in counts ==> counts[x] == Samples(w, Select(w, fs, KeyIs(dim, x)))
    requires x !in counts ==> x !in Keys(w, fs, dim)
    ensures var after := AddCount(counts, k, f.weight);
            x in after ==> after[x] == Samples(w, Select(w, fs + [f], KeyIs(dim, x)))
  {
    KeySelectSnoc(w, fs, f, dim, k, x);
    SamplesSnoc(w, Select(w, fs, KeyIs(dim, x)), f);
    if x !in counts { UnknownKeySelectsNothing(w, fs, dim, x); }
  }

  lemma CountedNext(w: Window, fs: seq<Fact>, dim: Dimension, order: seq<Key>, counts: map<Key, nat>, f: Fact, k: Key)
    requires Counted(w, fs, dim, order, counts) && k == KeyOf(dim, f)
    ensures Counted(w, fs + [f], dim, if k in order then order else order + [k], AddCount(counts, k, f.weight))
  {
    var after := AddCount(counts, k, f.weight);
    KeysSnoc(w, fs, f, dim, k);
    forall x | x in after ensures after[x] == Samples(w, Select(w, fs + [f], KeyIs(dim, x))) {
      CountAt(w, fs, dim, counts, f, k, x);
    }
  }

  /** `for fact in facts: counts[value_for(fact)] += fact.weight` */
  method FactCounts(w: Window, fs: seq<Fact>, dim: Dimension) returns (entries: seq<DQ.CountEntry>)
    ensures entries == DQ.Counter(w, fs, dim, Keys(w, fs, dim))
  {
    var order: seq<Key>, counts: map<Key, nat> := [], map[];
    for i := 0 to |fs|
      invariant Counted(w, fs[..i], dim, order, counts)
    {
      assert fs[..i + 1] == fs[..i] + [fs[i]];
      var k := KeyOf(dim, fs[i]);
      CountedNext(w, fs[..i], dim, order, counts, fs[i], k);
      counts := AddCount(counts, k, fs[i].weight);
      if k !in order {
        order := order + [k];
      }
    }
    assert fs[..|fs|] == fs;
    entries := [];
    for i := 0 to |order|
      invariant entries == DQ.Counter(w, fs, dim, order[..i])
    {
      assert order[..i + 1][..i] == order[..i];
      assert order[i] in order;
      entries := entries + [DQ.CountEntry(NameOfKey(order[i]), counts[order[i]])];
    }
    assert order[..|order|] == order;
  }

  // ----- the release comparison -----

  /** Both slices, their installation metrics overwritten when the key epochs cannot be joined. */
  method BuildReleaseHealth(w: Window, fs: seq<Fact>, newRelease: string, baseline: string, s: Settings) returns (h: Health)
    ensures h == HealthOf(w, fs, newRelease, baseline, s)
  {
    var slices := [ReleaseSlice(w, fs, newRelease, s), ReleaseSlice(w, fs, baseline, s)];
    ghost var built := slices;
    var reason := JoinedReason(w, fs, newRelease, baseline);
    if reason.Some? {
      for i := 0 to 2
        invariant |slices| == 2
        invariant forall j :: 0 <= j < 2 ==> slices[j] == if j < i then Overwrite(built[j], w.toMs, reason) else built[j]
      {
        var slice := slices[i];
        if slice.eligible != 0 {
          var m := Bare(UNAVAILABLE, w.toMs, slice.eligible, reason);
          slice := slice.(state := UNAVAILABLE);
          slice := slice.(metrics := slice.metrics.(active := m));
          slice := slice.(metrics := slice.metrics.(affected := m));
          slice := slice.(metrics := slice.metrics.(ratio := m));
        }
        slices := slices[i := slice];
      }
    }
    var trend := BuildIncidentTrend(w, fs, newRelease, baseline);
    h := Health(slices[0], slices[1], Compare(slices[0], slices[1]), trend);
  }
}
