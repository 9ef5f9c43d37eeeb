/** What the fingerprint page, an issue's detail and data quality say. */
module IssueLaws {
  import opened Prelude
  import opened Facts
  import opened Metrics
  import opened Buckets
  import opened Sorting
  import opened ReleaseHealth
  import opened FactLaws
  import opened Issues
  import opened Shares
  import RatioGate

  // ----- ranking -----

  /** Dictionary order: a proper prefix, or smaller at the first difference. */
  predicate Earlier(a: string, b: string) {
    exists k :: 0 <= k <= |a| && k < |b| && SplitsAt(a, b, k)
  }

  predicate SplitsAt(a: string, b: string, k: nat)
    requires k <= |a| && k < |b|
  {
    a[..k] == b[..k] && (k == |a| || a[k] < b[k])
  }

  lemma {:induction false} TextLessIsDictionary(a: string, b: string)
    ensures TextLess(a, b) <==> Earlier(a, b)
    decreases |a|
  {
    if a == "" || b == "" {
      if b != "" { assert SplitsAt(a, b, 0); }
    } else if a[0] != b[0] {
      if a[0] < b[0] { assert SplitsAt(a, b, 0); }
      forall k | 0 < k <= |a| && k < |b| ensures !SplitsAt(a, b, k) { assert a[..k][0] == a[0] && b[..k][0] == b[0]; }
    } else {
      TextLessIsDictionary(a[1..], b[1..]);
      if Earlier(a[1..], b[1..]) {
        var k :| 0 <= k <= |a[1..]| && k < |b[1..]| && SplitsAt(a[1..], b[1..], k);
        assert a[..k + 1] == [a[0]] + a[1..][..k] && b[..k + 1] == [b[0]] + b[1..][..k];
        assert SplitsAt(a, b, k + 1);
      }
      if Earlier(a, b) {
        var k :| 0 <= k <= |a| && k < |b| && SplitsAt(a, b, k);
        assert a[1..][..k - 1] == a[..k][1..] && b[1..][..k - 1] == b[..k][1..];
        assert SplitsAt(a[1..], b[1..], k - 1);
      }
    }
  }

  /** More events first, then the more recent, then the fingerprint in dictionary order. */
  predicate Leads(p: FingerprintItem, r: FingerprintItem) {
    || p.events > r.events
    || (p.events == r.events && p.lastMs > r.lastMs)
    || (p.events == r.events && p.lastMs == r.lastMs && !Earlier(r.fingerprint, p.fingerprint))
  }

  lemma LeadsIff(p: FingerprintItem, r: FingerprintItem)
    ensures Before(FingerprintRank(p), FingerprintRank(r)) <==> Leads(p, r)
  {
    TextLessIsDictionary(r.fingerprint, p.fingerprint);
  }

  predicate AllLead(page: seq<FingerprintItem>, rest: seq<FingerprintItem>) {
    forall i, j :: 0 <= i < |page| && 0 <= j < |rest| ==> Leads(page[i], rest[j])
  }

  lemma TopLeads(page: seq<FingerprintItem>, rest: seq<FingerprintItem>, all: seq<FingerprintItem>, limit: nat)
    requires IsTop(page, rest, all, limit, FingerprintRank)
    ensures AllLead(page, rest) && forall i, j :: 0 <= i < j < |page| ==> Leads(page[i], page[j])
  {
    forall i, j | 0 <= i < |page| && 0 <= j < |rest| ensures Leads(page[i], rest[j]) {
      assert page[i] in page && rest[j] in rest;
      LeadsIff(page[i], rest[j]);
    }
    forall i, j | 0 <= i < j < |page| ensures Leads(page[i], page[j]) { LeadsIff(page[i], page[j]); }
  }

  /** The page leads with the most frequent issues: nothing on it is behind what comes later or was left off. */
  lemma PageLeads(w: Window, fs: seq<Fact>, release: string, limit: nat)
    ensures var page := TopFingerprints(w, fs, release, limit).items; var all := AllItems(w, fs, release);
            && |page| == Min(limit, |all|)
            && (forall i, j :: 0 <= i < j < |page| ==> Leads(page[i], page[j]))
            && exists rest: seq<FingerprintItem> :: multiset(page) + multiset(rest) == multiset(all) && AllLead(page, rest)
  {
    PageIsTop(w, fs, release, limit);
    var page, all := TopFingerprints(w, fs, release, limit).items, AllItems(w, fs, release);
    var rest :| IsTop(page, rest, all, limit, FingerprintRank);
    TopLeads(page, rest, all, limit);
  }

  // ----- one issue on the page -----

  /** Incidents of a release that carry this fingerprint and are of this kind. */
  predicate OfIssue(f: Fact, release: string, fingerprint: string, family: Family) {
    && f.dims.core.appVersion == Some(release) && f.dims.core.releaseQuality == OCCURRENCE_BOUND
    && (f.dims.core.family == JavaCrash || f.dims.core.family == Anr)
    && f.dims.core.fingerprint == Some(fingerprint) && f.dims.core.family == family
  }

  function WeightOf(fs: seq<Fact>, release: string, fingerprint: string, family: Family): nat {
    if fs == [] then 0
    else
      var n := |fs| - 1;
      WeightOf(fs[..n], release, fingerprint, family) + (if OfIssue(fs[n], release, fingerprint, family) then fs[n].weight else 0)
  }

  /** An item counts its issue's events and spans from the first to the last of them. */
  ghost predicate Summarizes(item: FingerprintItem, w: Window, fs: seq<Fact>, release: string) {
    && item.events == WeightOf(fs, release, item.fingerprint, item.family)
    && (exists f :: f in fs && OfIssue(f, release, item.fingerprint, item.family) && f.first == item.firstMs)
    && (forall f :: f in fs && OfIssue(f, release, item.fingerprint, item.family) ==> item.firstMs <= f.first)
    && (exists f :: f in fs && OfIssue(f, release, item.fingerprint, item.family) && Latest(f) == item.lastMs)
    && (forall f :: f in fs && OfIssue(f, release, item.fingerprint, item.family) ==> Latest(f) <= item.lastMs)
  }

  function IssueList(w: Window, fs: seq<Fact>, release: string, key: Key): seq<Fact> {
    Select(w, Select(w, Incidents(w, fs, release), Fingerprinted), KeyIs(ByIssue, key))
  }

  lemma {:induction false} IssueWeight(w: Window, fs: seq<Fact>, release: string, fingerprint: string, family: Family)
    ensures Sum(w, fs, And(Release(release), And(Bound, And(Incident, And(Fingerprinted, And(KeyIs(ByIssue, Issue(fingerprint, family)), Every))))))
            == WeightOf(fs, release, fingerprint, family)
  {
    if fs != [] {
      IssueWeight(w, fs[..|fs| - 1], release, fingerprint, family);
      IssueHolds(w, fs[|fs| - 1], release, fingerprint, family);
    }
  }

  lemma IssueHolds(w: Window, f: Fact, release: string, fingerprint: string, family: Family)
    ensures Holds(w, And(Release(release), And(Bound, And(Incident, And(Fingerprinted, And(KeyIs(ByIssue, Issue(fingerprint, family)), Every))))), f)
            <==> OfIssue(f, release, fingerprint, family)
  {
    var last := And(KeyIs(ByIssue, Issue(fingerprint, family)), Every);
    assert Holds(w, last, f) == HoldsAtom(w, KeyIs(ByIssue, Issue(fingerprint, family)), f);
    assert Holds(w, And(Fingerprinted, last), f) == (HoldsAtom(w, Fingerprinted, f) && Holds(w, last, f));
    assert Holds(w, And(Incident, And(Fingerprinted, last)), f) == (HoldsAtom(w, Incident, f) && Holds(w, And(Fingerprinted, last), f));
  }

  lemma IssueMember(w: Window, fs: seq<Fact>, release: string, fingerprint: string, family: Family, f: Fact)
    ensures f in IssueList(w, fs, release, Issue(fingerprint, family)) <==> f in fs && OfIssue(f, release, fingerprint, family)
  {
    var key := Issue(fingerprint, family);
    SelectHas(w, Select(w, Incidents(w, fs, release), Fingerprinted), KeyIs(ByIssue, key), f);
    SelectHas(w, Incidents(w, fs, release), Fingerprinted, f);
    SelectHas(w, Eligible(w, fs, release), Incident, f);
    SelectHas(w, Declared(w, fs, release), Bound, f);
    SelectHas(w, fs, Release(release), f);
  }

  lemma IssueTotal(w: Window, fs: seq<Fact>, release: string, fingerprint: string, family: Family)
    ensures TallyOf(w, IssueList(w, fs, release, Issue(fingerprint, family)), Every).count == WeightOf(fs, release, fingerprint, family)
  {
    var last := KeyIs(ByIssue, Issue(fingerprint, family));
    SelectTally(w, Select(w, Incidents(w, fs, release), Fingerprinted), last, Every);
    SelectTally(w, Incidents(w, fs, release), Fingerprinted, And(last, Every));
    SelectTally(w, Eligible(w, fs, release), Incident, And(Fingerprinted, And(last, Every)));
    SelectTally(w, Declared(w, fs, release), Bound, And(Incident, And(Fingerprinted, And(last, Every))));
    SelectTally(w, fs, Release(release), And(Bound, And(Incident, And(Fingerprinted, And(last, Every)))));
    TallyMeans(w, fs, And(Release(release), And(Bound, And(Incident, And(Fingerprinted, And(last, Every))))));
    IssueWeight(w, fs, release, fingerprint, family);
  }

  lemma ItemSummarizes(w: Window, fs: seq<Fact>, release: string, fingerprint: string, family: Family, reason: Option<Reason>)
    requires IssueList(w, fs, release, Issue(fingerprint, family)) != []
    ensures Summarizes(ItemOf(w, IssueList(w, fs, release, Issue(fingerprint, family)), Issue(fingerprint, family), reason), w, fs, release)
  {
    var group := IssueList(w, fs, release, Issue(fingerprint, family));
    IssueTotal(w, fs, release, fingerprint, family);
    TallyMeans(w, group, Every);
    forall f ensures Hit(w, group, Every, f) <==> f in fs && OfIssue(f, release, fingerprint, family) {
      IssueMember(w, fs, release, fingerprint, family, f);
    }
    assert Hit(w, group, Every, group[0]);
  }

  lemma KeyHasIssue(w: Window, fs: seq<Fact>, release: string, key: Key)
    requires key in Keys(w, Select(w, Incidents(w, fs, release), Fingerprinted), ByIssue)
    ensures key.Issue? && IssueList(w, fs, release, key) != []
  {
    var printed := Select(w, Incidents(w, fs, release), Fingerprinted);
    KeysListTheSet(w, printed, ByIssue);
    var f :| f in printed && KeyOf(ByIssue, f) == key;
    SelectHas(w, Incidents(w, fs, release), Fingerprinted, f);
    SelectHas(w, printed, KeyIs(ByIssue, key), f);
  }

  ghost predicate Fits(w: Window, fs: seq<Fact>, release: string, key: Key, item: FingerprintItem, reason: Option<Reason>) {
    && key == Issue(item.fingerprint, item.family) && Summarizes(item, w, fs, release)
    && item.installations == InstallationCount(w, IssueList(w, fs, release, key), reason)
  }

  lemma KeyFits(w: Window, fs: seq<Fact>, release: string, key: Key, reason: Option<Reason>)
    requires key in Keys(w, Select(w, Incidents(w, fs, release), Fingerprinted), ByIssue)
    ensures Fits(w, fs, release, key, ItemOf(w, IssueList(w, fs, release, key), key, reason), reason)
  {
    KeyHasIssue(w, fs, release, key);
    ItemSummarizes(w, fs, release, key.fingerprint, key.family, reason);
  }

  /** Items list their keys in order. */
  lemma {:induction false} ItemAt(w: Window, fs: seq<Fact>, keys: seq<Key>, reason: Option<Reason>, i: nat)
    requires i < |keys|
    ensures var items := FingerprintItems(w, fs, keys, reason);
            |items| == |keys| && items[i] == ItemOf(w, Select(w, fs, KeyIs(ByIssue, keys[i])), keys[i], reason)
  {
    var n := |keys| - 1;
    ItemsLength(w, fs, keys[..n], reason);
    if i < n { ItemAt(w, fs, keys[..n], reason, i); }
  }

  lemma {:induction false} ItemsLength(w: Window, fs: seq<Fact>, keys: seq<Key>, reason: Option<Reason>)
    ensures |FingerprintItems(w, fs, keys, reason)| == |keys|
  {
    if keys != [] { ItemsLength(w, fs, keys[..|keys| - 1], reason); }
  }

  lemma IssueIsKeyed(w: Window, fs: seq<Fact>, release: string, fingerprint: string, family: Family, f: Fact)
    requires f in fs && OfIssue(f, release, fingerprint, family)
    ensures Issue(fingerprint, family) in Keys(w, Select(w, Incidents(w, fs, release), Fingerprinted), ByIssue)
  {
    var printed := Select(w, Incidents(w, fs, release), Fingerprinted);
    IssueMember(w, fs, release, fingerprint, family, f);
    SelectHas(w, printed, KeyIs(ByIssue, Issue(fingerprint, family)), f);
    KeysListTheSet(w, printed, ByIssue);
    assert KeyOf(ByIssue, f) in KeySet(printed, ByIssue);
  }

  function IssueKeys(w: Window, fs: seq<Fact>, release: string): seq<Key> {
    Keys(w, Select(w, Incidents(w, fs, release), Fingerprinted), ByIssue)
  }

  /** Every item of a release is the summary of its issue. */
  lemma IssuesAreSummarized(w: Window, fs: seq<Fact>, release: string, i: nat)
    requires i < |AllItems(w, fs, release)|
    ensures i < |IssueKeys(w, fs, release)|
    ensures Fits(w, fs, release, IssueKeys(w, fs, release)[i], AllItems(w, fs, release)[i], Continuity(w, Eligible(w, fs, release)))
  {
    var printed := Select(w, Incidents(w, fs, release), Fingerprinted);
    var keys := IssueKeys(w, fs, release);
    var reason := Continuity(w, Eligible(w, fs, release));
    ItemsLength(w, printed, keys, reason);
    ItemAt(w, printed, keys, reason, i);
    KeyFits(w, fs, release, keys[i], reason);
  }

  lemma ItemKey(w: Window, fs: seq<Fact>, release: string, i: nat)
    requires i < |IssueKeys(w, fs, release)|
    ensures |AllItems(w, fs, release)| == |IssueKeys(w, fs, release)|
    ensures var item := AllItems(w, fs, release)[i];
            IssueKeys(w, fs, release)[i] == Issue(item.fingerprint, item.family)
  {
    var printed := Select(w, Incidents(w, fs, release), Fingerprinted);
    var keys := IssueKeys(w, fs, release);
    ItemAt(w, printed, keys, Continuity(w, Eligible(w, fs, release)), i);
    KeyHasIssue(w, fs, release, keys[i]);
  }

  /** Different items are different issues. */
  lemma IssuesDiffer(w: Window, fs: seq<Fact>, release: string, i: nat, j: nat)
    requires i < j < |AllItems(w, fs, release)|
    ensures var all := AllItems(w, fs, release); all[i].fingerprint != all[j].fingerprint || all[i].family != all[j].family
  {
    var printed := Select(w, Incidents(w, fs, release), Fingerprinted);
    ItemsLength(w, printed, IssueKeys(w, fs, release), Continuity(w, Eligible(w, fs, release)));
    ItemKey(w, fs, release, i);
    ItemKey(w, fs, release, j);
    KeysDiffer(w, printed, ByIssue);
  }

  /** Every issue with a bound incident has an item. */
  lemma IssuesAreListed(w: Window, fs: seq<Fact>, release: string, f: Fact, fingerprint: string, family: Family)
    requires f in fs && OfIssue(f, release, fingerprint, family)
    ensures Listed(AllItems(w, fs, release), fingerprint, family)
  {
    var keys := IssueKeys(w, fs, release);
    IssueIsKeyed(w, fs, release, fingerprint, family, f);
    var i :| 0 <= i < |keys| && keys[i] == Issue(fingerprint, family);
    ItemKey(w, fs, release, i);
    assert AllItems(w, fs, release)[i].fingerprint == fingerprint;
  }

  predicate Listed(items: seq<FingerprintItem>, fingerprint: string, family: Family) {
    exists i :: 0 <= i < |items| && items[i].fingerprint == fingerprint && items[i].family == family
  }

  /** The page's own verdict, causes in order of rank. */
  lemma PageStateRanks(w: Window, fs: seq<Fact>, release: string, limit: nat)
    requires AllCounted(fs)
    ensures var page := TopFingerprints(w, fs, release, limit);
            var c := CountsOf(w, fs, release);
            var reason := Continuity(w, Eligible(w, fs, release));
            && page.samples == c.incidents && page.reason == reason
            && page.coverage == (if c.incidents == 0 then None else Some(c.incidentsFingerprinted as real / c.incidents as real))
            && page.state == (if 0 < c.incidents && reason != None then DEGRADED
                              else if c.declared == 0 then NO_DATA
                              else if c.eligible == 0 then UNAVAILABLE
                              else if c.incidents == 0 then ZERO
                              else if c.incidentsFingerprinted == 0 then UNAVAILABLE
                              else if c.incidentsFingerprinted < c.incidents then DEGRADED
                              else PRESENT)
  {
    RatioGate.CountsAreConsistent(w, fs, release);
    RatioGate.CountedLists(w, fs, release);
    RatioGate.SelectCounted(w, Incidents(w, fs, release), Fingerprinted);
    EmptyIffNoSamples(w, Select(w, Incidents(w, fs, release), Fingerprinted));
  }

  // ----- one issue in detail -----

  /** A crash or ANR with this fingerprint, whatever release it declares. */
  predicate Mentions(f: Fact, fingerprint: string) {
    f.dims.core.fingerprint == Some(fingerprint) && (f.dims.core.family == JavaCrash || f.dims.core.family == Anr)
  }

  predicate Counts(f: Fact, fingerprint: string) {
    Mentions(f, fingerprint) && f.dims.core.releaseQuality == OCCURRENCE_BOUND
  }

  lemma DetailMembers(w: Window, fs: seq<Fact>, fingerprint: string, f: Fact)
    ensures f in IssueFacts(w, fs, fingerprint) <==> f in fs && Mentions(f, fingerprint)
    ensures f in Select(w, IssueFacts(w, fs, fingerprint), Bound) <==> f in fs && Counts(f, fingerprint)
  {
    SelectHas(w, fs, FingerprintIs(fingerprint), f);
    SelectHas(w, Select(w, fs, FingerprintIs(fingerprint)), Incident, f);
    SelectHas(w, IssueFacts(w, fs, fingerprint), Bound, f);
  }

  /** The bound facts of the issue, which everything in its detail is about. */
  function DetailFacts(w: Window, fs: seq<Fact>, fingerprint: string): seq<Fact> {
    Select(w, IssueFacts(w, fs, fingerprint), Bound)
  }

  /**
   * Detail of an issue: not found without any event, unavailable when none is bound or installations
   * cannot be joined, and otherwise its events, from the first to the last, and its family.
   */
  lemma DetailMeans(w: Window, fs: seq<Fact>, fingerprint: string)
    ensures var d := DetailOf(w, fs, fingerprint);
            var bound := DetailFacts(w, fs, fingerprint);
            && (d.state == NO_DATA <==> forall f :: f in fs ==> !Mentions(f, fingerprint))
            && (d.state == PRESENT <==> (exists f :: f in fs && Counts(f, fingerprint)) && Continuity(w, bound) == None)
            && (d.state == NO_DATA || d.state == UNAVAILABLE || d.state == PRESENT)
            && d.reason == (if d.state == NO_DATA then Some(FingerprintNotFound)
                            else if forall f :: f in fs ==> !Counts(f, fingerprint) then Some(OccurrenceIdentityNotProvided)
                            else Continuity(w, bound))
            && d.events == Sum(w, bound, Every)
            && (d.firstMs != None <==> exists f :: f in fs && Counts(f, fingerprint)) && (d.lastMs != None <==> d.firstMs != None)
            && (d.firstMs != None ==>
                  && (exists f :: f in fs && Counts(f, fingerprint) && f.first == d.firstMs.value)
                  && (forall f :: f in fs && Counts(f, fingerprint) ==> d.firstMs.value <= f.first)
                  && (exists f :: f in fs && Counts(f, fingerprint) && Latest(f) == d.lastMs.value)
                  && (forall f :: f in fs && Counts(f, fingerprint) ==> Latest(f) <= d.lastMs.value))
            && d.installations == InstallationCount(w, bound, Continuity(w, bound))
            && d.trend == IssueTrend(w, bound)
            && d.releases == IssueDistribution(w, bound, ByRelease, OccurrenceIdentityNotProvided)
            && d.scenes == IssueDistribution(w, bound, ByScene, SceneNotProvided)
  {
    var declared, bound := IssueFacts(w, fs, fingerprint), DetailFacts(w, fs, fingerprint);
    forall f { DetailMembers(w, fs, fingerprint, f); }
    forall f ensures Hit(w, bound, Every, f) <==> f in bound {}
    TallyMeans(w, bound, Every);
    if declared != [] { assert declared[0] in declared; }
    if bound != [] { assert bound[0] in bound; }
  }

  /** One family when all its bound events are of it, mixed when both kinds occur. */
  lemma FamilyMeans(w: Window, fs: seq<Fact>, fingerprint: string)
    ensures var kind := DetailOf(w, fs, fingerprint).family;
            && (kind == None <==> forall f :: f in fs ==> !Counts(f, fingerprint))
            && (kind == Some(Mixed) <==> exists f, g :: TwoFamilies(fs, fingerprint, f, g))
            && (forall family :: kind == Some(OneFamily(family)) <==>
                  && (exists f :: f in fs && Counts(f, fingerprint))
                  && (forall f :: f in fs && Counts(f, fingerprint) ==> f.dims.core.family == family))
  {
    var bound := DetailFacts(w, fs, fingerprint);
    forall f { DetailMembers(w, fs, fingerprint, f); }
    var keys := Keys(w, bound, ByFamily);
    KeysListTheSet(w, bound, ByFamily);
    ManyKeys(w, bound, ByFamily);
    if f, g :| f in bound && g in bound && KeyOf(ByFamily, f) != KeyOf(ByFamily, g) { assert TwoFamilies(fs, fingerprint, f, g); }
    if f, g :| TwoFamilies(fs, fingerprint, f, g) { assert KeyOf(ByFamily, f) != KeyOf(ByFamily, g); }
    if bound == [] {
      assert KeySet(bound, ByFamily) == {};
    } else {
      assert bound[0] in bound && KeyOf(ByFamily, bound[0]) in KeySet(bound, ByFamily);
      assert KeyOf(ByFamily, bound[0]) in keys;
    }
    if |keys| == 1 {
      forall f | f in bound ensures KeyOf(ByFamily, f) == keys[0] { assert KeyOf(ByFamily, f) in KeySet(bound, ByFamily); }
    }
  }

  predicate TwoFamilies(fs: seq<Fact>, fingerprint: string, f: Fact, g: Fact) {
    f in fs && g in fs && Counts(f, fingerprint) && Counts(g, fingerprint) && f.dims.core.family != g.dims.core.family
  }

  // ----- distributions -----

  /** Available facts with this label. */
  function LabelSel(dim: Dimension, name: string): Sel {
    And(EvidenceIs(dim, Available), And(Labelled(dim), And(KeyIs(dim, Text(name)), Every)))
  }

  function LabelList(w: Window, fs: seq<Fact>, dim: Dimension, name: string): seq<Fact> {
    Select(w, LabelledFacts(w, fs, dim), KeyIs(dim, Text(name)))
  }

  ghost predicate LabelFits(w: Window, fs: seq<Fact>, dim: Dimension, key: Key, item: DistributionItem, reason: Option<Reason>) {
    && key == Text(item.name) && item.name != ""
    && item.events == Sum(w, fs, LabelSel(dim, item.name))
    && item.installations == InstallationCount(w, LabelList(w, fs, dim, item.name), reason)
  }

  lemma LabelTotal(w: Window, fs: seq<Fact>, dim: Dimension, name: string)
    ensures Samples(w, LabelList(w, fs, dim, name)) == Sum(w, fs, LabelSel(dim, name))
  {
    SelectTally(w, LabelledFacts(w, fs, dim), KeyIs(dim, Text(name)), Every);
    SelectTally(w, Select(w, fs, EvidenceIs(dim, Available)), Labelled(dim), And(KeyIs(dim, Text(name)), Every));
    SelectTally(w, fs, EvidenceIs(dim, Available), And(Labelled(dim), And(KeyIs(dim, Text(name)), Every)));
    TallyMeans(w, fs, LabelSel(dim, name));
  }

  predicate TextDimension(dim: Dimension) {
    dim == ByRelease || dim == ByScene
  }

  lemma LabelIsText(w: Window, fs: seq<Fact>, dim: Dimension, key: Key)
    requires TextDimension(dim) && key in Keys(w, LabelledFacts(w, fs, dim), dim)
    ensures key.Text? && key.text != ""
  {
    var named := LabelledFacts(w, fs, dim);
    KeysListTheSet(w, named, dim);
    var f :| f in named && KeyOf(dim, f) == key;
    SelectHas(w, Select(w, fs, EvidenceIs(dim, Available)), Labelled(dim), f);
  }

  lemma LabelItemFits(w: Window, fs: seq<Fact>, dim: Dimension, key: Key, reason: Option<Reason>)
    requires TextDimension(dim) && key in Keys(w, LabelledFacts(w, fs, dim), dim)
    ensures var group := Select(w, LabelledFacts(w, fs, dim), KeyIs(dim, key));
            LabelFits(w, fs, dim, key, DistributionItem(NameOfKey(key), Samples(w, group), InstallationCount(w, group, reason)), reason)
  {
    LabelIsText(w, fs, dim, key);
    LabelTotal(w, fs, dim, key.text);
  }

  lemma {:induction false} LabelAt(w: Window, fs: seq<Fact>, dim: Dimension, keys: seq<Key>, reason: Option<Reason>, i: nat)
    requires i < |keys|
    ensures var items := DistributionItems(w, fs, dim, keys, reason); var group := Select(w, fs, KeyIs(dim, keys[i]));
            && |items| == |keys|
            && items[i] == DistributionItem(NameOfKey(keys[i]), Samples(w, group), InstallationCount(w, group, reason))
  {
    var n := |keys| - 1;
    LabelsLength(w, fs, dim, keys[..n], reason);
    if i < n { LabelAt(w, fs, dim, keys[..n], reason, i); }
  }

  lemma {:induction false} LabelsLength(w: Window, fs: seq<Fact>, dim: Dimension, keys: seq<Key>, reason: Option<Reason>)
    ensures |DistributionItems(w, fs, dim, keys, reason)| == |keys|
  {
    if keys != [] { LabelsLength(w, fs, dim, keys[..|keys| - 1], reason); }
  }

  /** More events first, then the label in dictionary order. */
  predicate LabelLeads(p: DistributionItem, r: DistributionItem) {
    p.events > r.events || (p.events == r.events && !Earlier(r.name, p.name))
  }

  lemma LabelLeadsIff(p: DistributionItem, r: DistributionItem)
    ensures Before(DistributionRank(p), DistributionRank(r)) <==> LabelLeads(p, r)
  {
    TextLessIsDictionary(r.name, p.name);
  }

  /** All labels of a list, each counted once. */
  function AllLabels(w: Window, fs: seq<Fact>, dim: Dimension): seq<DistributionItem> {
    var named := LabelledFacts(w, fs, dim);
    DistributionItems(w, named, dim, Keys(w, named, dim), Continuity(w, fs))
  }

  function LabelKeys(w: Window, fs: seq<Fact>, dim: Dimension): seq<Key> {
    Keys(w, LabelledFacts(w, fs, dim), dim)
  }

  /** Every label is counted by its own available facts. */
  lemma LabelsAre(w: Window, fs: seq<Fact>, dim: Dimension, i: nat)
    requires TextDimension(dim) && i < |AllLabels(w, fs, dim)|
    ensures |AllLabels(w, fs, dim)| == |LabelKeys(w, fs, dim)|
    ensures LabelFits(w, fs, dim, LabelKeys(w, fs, dim)[i], AllLabels(w, fs, dim)[i], Continuity(w, fs))
  {
    var named, keys := LabelledFacts(w, fs, dim), LabelKeys(w, fs, dim);
    LabelsLength(w, named, dim, keys, Continuity(w, fs));
    LabelAt(w, named, dim, keys, Continuity(w, fs), i);
    LabelItemFits(w, fs, dim, keys[i], Continuity(w, fs));
  }

  /** No label is listed twice. */
  lemma LabelsDiffer(w: Window, fs: seq<Fact>, dim: Dimension, i: nat, j: nat)
    requires TextDimension(dim) && i < j < |AllLabels(w, fs, dim)|
    ensures AllLabels(w, fs, dim)[i].name != AllLabels(w, fs, dim)[j].name
  {
    LabelsAre(w, fs, dim, i);
    LabelsAre(w, fs, dim, j);
    KeysDiffer(w, LabelledFacts(w, fs, dim), dim);
  }

  lemma LabelledMember(w: Window, fs: seq<Fact>, dim: Dimension, f: Fact)
    ensures f in LabelledFacts(w, fs, dim) <==> f in fs && HoldsAtom(w, EvidenceIs(dim, Available), f) && HoldsAtom(w, Labelled(dim), f)
  {
    SelectHas(w, fs, EvidenceIs(dim, Available), f);
    SelectHas(w, Select(w, fs, EvidenceIs(dim, Available)), Labelled(dim), f);
  }

  predicate LabelListed(items: seq<DistributionItem>, name: string) {
    exists i :: 0 <= i < |items| && items[i].name == name
  }

  /** Every available fact's label is listed. */
  lemma LabelsAreListed(w: Window, fs: seq<Fact>, dim: Dimension, f: Fact)
    requires TextDimension(dim) && f in fs && HoldsAtom(w, EvidenceIs(dim, Available), f) && HoldsAtom(w, Labelled(dim), f)
    ensures KeyOf(dim, f).Text? && LabelListed(AllLabels(w, fs, dim), KeyOf(dim, f).text)
  {
    var named, keys := LabelledFacts(w, fs, dim), LabelKeys(w, fs, dim);
    LabelledMember(w, fs, dim, f);
    KeysListTheSet(w, named, dim);
    assert KeyOf(dim, f) in KeySet(named, dim);
    var i :| 0 <= i < |keys| && keys[i] == KeyOf(dim, f);
    LabelIsText(w, fs, dim, keys[i]);
    LabelAt(w, named, dim, keys, Continuity(w, fs), i);
    assert AllLabels(w, fs, dim)[i].name == keys[i].text;
  }

  predicate LabelsLead(page: seq<DistributionItem>, rest: seq<DistributionItem>) {
    forall i, j :: 0 <= i < |page| && 0 <= j < |rest| ==> LabelLeads(page[i], rest[j])
  }

  lemma TopLabelsLead(page: seq<DistributionItem>, rest: seq<DistributionItem>, all: seq<DistributionItem>)
    requires IsTop(page, rest, all, 10, DistributionRank)
    ensures LabelsLead(page, rest) && forall i, j :: 0 <= i < j < |page| ==> LabelLeads(page[i], page[j])
  {
    forall i, j | 0 <= i < |page| && 0 <= j < |rest| ensures LabelLeads(page[i], rest[j]) {
      assert page[i] in page && rest[j] in rest;
      LabelLeadsIff(page[i], rest[j]);
    }
    forall i, j | 0 <= i < j < |page| ensures LabelLeads(page[i], page[j]) { LabelLeadsIff(page[i], page[j]); }
  }

  /** The ten most frequent labels, leading first; nothing left off leads one that is shown. */
  lemma LabelsAreRanked(w: Window, fs: seq<Fact>, dim: Dimension, unavailable: Reason)
    ensures var page := IssueDistribution(w, fs, dim, unavailable).items; var all := AllLabels(w, fs, dim);
            && |page| == Min(10, |all|)
            && (forall i, j :: 0 <= i < j < |page| ==> LabelLeads(page[i], page[j]))
            && exists rest: seq<DistributionItem> :: multiset(page) + multiset(rest) == multiset(all) && LabelsLead(page, rest)
  {
    var page, all := IssueDistribution(w, fs, dim, unavailable).items, AllLabels(w, fs, dim);
    TakeIsTop(all, 10, DistributionRank);
    var rest :| IsTop(page, rest, all, 10, DistributionRank);
    TopLabelsLead(page, rest, all);
  }

  /** What share of the events says anything, and the verdict with its reason. */
  lemma DistributionStateRanks(w: Window, fs: seq<Fact>, dim: Dimension, unavailable: Reason)
    ensures var d := IssueDistribution(w, fs, dim, unavailable);
            var cov := d.coverage;
            && cov.total == Sum(w, fs, Every)
            && cov.available == Sum(w, fs, And(EvidenceIs(dim, Available), Every))
            && cov.missing == Sum(w, fs, And(EvidenceIs(dim, Missing), Every))
            && cov.expired == Sum(w, fs, And(EvidenceIs(dim, Expired), Every))
            && cov.unknown == Sum(w, fs, And(EvidenceIs(dim, RetentionUnknown), Every))
            && d.state == (if fs == [] then NO_DATA
                           else if AllLabels(w, fs, dim) == [] then UNAVAILABLE
                           else if 0 < cov.missing || 0 < cov.expired || 0 < cov.unknown then DEGRADED
                           else PRESENT)
            && d.reason == (if d.state == NO_DATA || d.state == PRESENT then None
                            else if 0 < cov.unknown then Some(SceneRetentionUnknown)
                            else if 0 < cov.expired then Some(SceneEvidenceExpired)
                            else Some(unavailable))
  {
    TallyMeans(w, fs, Every);
    EvidenceTotal(w, fs, dim, Available);
    EvidenceTotal(w, fs, dim, Missing);
    EvidenceTotal(w, fs, dim, Expired);
    EvidenceTotal(w, fs, dim, RetentionUnknown);
  }

  lemma EvidenceTotal(w: Window, fs: seq<Fact>, dim: Dimension, e: Evidence)
    ensures Samples(w, Select(w, fs, EvidenceIs(dim, e))) == Sum(w, fs, And(EvidenceIs(dim, e), Every))
  {
    SelectTally(w, fs, EvidenceIs(dim, e), Every);
    TallyMeans(w, fs, And(EvidenceIs(dim, e), Every));
  }
}
