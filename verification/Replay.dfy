/**
 * Ingest identity: what one submitted event is, what the inbox row remembers of it, and when a
 * later submission of the same tenant/event id counts as the same event.
 *
 * SHA-256 and HMAC are function values.  Results that need them to separate inputs say so with
 * `Injective`.
 */
module Replay {
  import opened Prelude

  const MAX_EVENT_JSON_BYTES: nat := 262144

  datatype JobKind = Java | Native

  /** Module identity of one native frame. */
  datatype FrameIdentity = FrameIdentity(abi: string, buildId: string)

  /**
   * The sanitized canonical payload.  `stack` is the stack text a crash of its kind has ("" when it
   * has none), `frames` its native frames; `rawFingerprint` and `sizeBytes` are read off the
   * payload, and `body` stands for everything else in it.
   */
  datatype Content = Content(
    moduleName: string, eventName: string, processName: string, threadName: string, body: string,
    stack: string, frames: seq<FrameIdentity>, rawFingerprint: Option<string>, sizeBytes: nat)

  datatype Release = Release(
    appVersion: Option<string>, appBuild: Option<string>, versionCode: Option<string>, variant: Option<string>)

  datatype Submission = Submission(
    eventId: string, content: Content, release: Release,
    releaseQuality: IdentityQuality, installationQuality: IdentityQuality, installation: Option<string>)

  /** The authenticated request envelope. */
  datatype Meta = Meta(tenant: string, appId: string, environment: string, sdkVersion: string, requestId: string)

  /** Everything that must stay stable for one tenant/event id. */
  datatype Identity = Identity(
    appId: string, environment: string, content: Content, release: Release,
    releaseQuality: IdentityQuality, installationQuality: IdentityQuality, installation: Option<string>)

  datatype KeyRing = KeyRing(keys: map<string, string>, active: string)

  datatype Crypto = Crypto(hash: Content -> string, mac: (string, string, string) -> string)

  /** The identity columns of an inbox row. */
  datatype StoredIdentity = StoredIdentity(
    tenant: string, eventId: string, appId: string, environment: string, payloadHash: string,
    release: Release, releaseQuality: IdentityQuality, installationQuality: IdentityQuality,
    hmac: Option<string>, keyVersion: Option<string>)

  datatype Prepared = Prepared(submission: Submission, stored: StoredIdentity)

  datatype IngestError =
    | IdentityServiceUnavailable
    | PrivacyIdentityConflict
    | PayloadTooLarge(index: nat)
    | BatchIdConflict(index: nat)
    | EventIdConflict
    | InboxCapacityExceeded

  ghost predicate Injective(c: Crypto) {
    && (forall x, y :: c.hash(x) == c.hash(y) ==> x == y)
    && (forall k, t, p, q :: c.mac(k, t, p) == c.mac(k, t, q) ==> p == q)
  }

  predicate ValidRing(ring: KeyRing) {
    ring.active in ring.keys && "" !in ring.keys
  }

  /** Crash names that get a symbolization job. */
  function KindOf(content: Content): Option<JobKind> {
    if content.moduleName != "crash" then None
    else if content.eventName == "java_crash" then Some(Java)
    else if content.eventName == "native_crash" || content.eventName == "tombstone_crash" then Some(Native)
    else None
  }

  function IdentityOf(meta: Meta, s: Submission): Identity {
    Identity(meta.appId, meta.environment, s.content, s.release, s.releaseQuality, s.installationQuality, s.installation)
  }

  function Digest(c: Crypto, ring: KeyRing, tenant: string, plaintext: string, version: string): Option<string> {
    var selected := if version == "" then ring.active else version;
    if selected in ring.keys then Some(c.mac(ring.keys[selected], tenant, plaintext)) else None
  }

  predicate InAny(plaintext: string, values: seq<string>) {
    exists i :: 0 <= i < |values| && Contains(values[i], plaintext)
  }

  function Present(v: Option<string>): seq<string> {
    if v.Some? then [v.value] else []
  }

  /** Required routing or release identity embeds the installation secret. */
  predicate LeaksInstallation(meta: Meta, s: Submission) {
    && s.installation.Some?
    && s.installation.value != ""
    && InAny(s.installation.value,
             [s.eventId, s.content.moduleName, s.content.eventName, s.content.processName, s.content.threadName,
              meta.tenant, meta.appId, meta.environment, meta.sdkVersion, meta.requestId]
             + Present(s.release.appVersion) + Present(s.release.appBuild)
             + Present(s.release.versionCode) + Present(s.release.variant))
  }

  function PrepareEvent(c: Crypto, ring: Option<KeyRing>, meta: Meta, s: Submission): Result<Prepared, IngestError> {
    if s.installation.Some? && ring.None? then Err(IdentityServiceUnavailable)
    else if LeaksInstallation(meta, s) then Err(PrivacyIdentityConflict)
    else
      var hmac := if s.installation.None? then None else Digest(c, ring.value, meta.tenant, s.installation.value, "");
      var version := if s.installation.None? then None else Some(ring.value.active);
      Ok(Prepared(s, StoredIdentity(meta.tenant, s.eventId, meta.appId, meta.environment, c.hash(s.content),
                                    s.release, s.releaseQuality, s.installationQuality, hmac, version)))
  }

  /** conflict_signature: the facts two events of one batch must share to share an id. */
  predicate SameSignature(a: Prepared, b: Prepared) {
    && a.stored.payloadHash == b.stored.payloadHash
    && a.stored.release == b.stored.release
    && a.stored.releaseQuality == b.stored.releaseQuality
    && a.stored.installationQuality == b.stored.installationQuality
    && a.stored.hmac == b.stored.hmac
  }

  /** _prepare_unique_events, as the state of its dictionary after all of `events`. */
  function PrepareAll(c: Crypto, ring: Option<KeyRing>, meta: Meta, events: seq<Submission>)
    : (r: Result<map<string, Prepared>, IngestError>)
  {
    if events == [] then Ok(map[])
    else
      var n := |events| - 1;
      match PrepareAll(c, ring, meta, events[..n])
      case Err(e) => Err(e)
      case Ok(m) => AddPrepared(c, ring, meta, m, events[n], n)
  }

  function AddPrepared(c: Crypto, ring: Option<KeyRing>, meta: Meta, m: map<string, Prepared>, s: Submission, index: nat)
    : Result<map<string, Prepared>, IngestError>
  {
    match PrepareEvent(c, ring, meta, s)
    case Err(e) => Err(e)
    case Ok(p) =>
      if s.content.sizeBytes > MAX_EVENT_JSON_BYTES then Err(PayloadTooLarge(index))
      else if s.eventId in m && !SameSignature(m[s.eventId], p) then Err(BatchIdConflict(index))
      else Ok(m[s.eventId := p])
  }

  /** The loop of _prepare_unique_events. */
  method PrepareUniqueEvents(c: Crypto, ring: Option<KeyRing>, meta: Meta, events: seq<Submission>)
    returns (r: Result<map<string, Prepared>, IngestError>)
    ensures r == PrepareAll(c, ring, meta, events)
  {
    var prepared: map<string, Prepared> := map[];
    for i := 0 to |events|
      invariant PrepareAll(c, ring, meta, events[..i]) == Ok(prepared)
    {
      assert events[..i + 1][..i] == events[..i];
      var step := AddPrepared(c, ring, meta, prepared, events[i], i);
      if step.Err? {
        ErrorSticks(c, ring, meta, events, i + 1);
        return step;
      }
      prepared := step.value;
    }
    assert events[..|events|] == events;
    return Ok(prepared);
  }

  lemma ErrorSticks(c: Crypto, ring: Option<KeyRing>, meta: Meta, events: seq<Submission>, i: nat)
    requires i <= |events|
    requires PrepareAll(c, ring, meta, events[..i]).Err?
    ensures PrepareAll(c, ring, meta, events) == PrepareAll(c, ring, meta, events[..i])
    decreases |events| - i
  {
    if i == |events| {
      assert events[..i] == events;
    } else {
      assert events[..i + 1][..i] == events[..i];
      ErrorSticks(c, ring, meta, events, i + 1);
    }
  }

  predicate OptionContains(v: Option<string>, x: string) {
    v.Some? && Contains(v.value, x)
  }

  /** The request envelope, the event's own names or its release identity hold the text `x`. */
  predicate Mentions(meta: Meta, s: Submission, x: string) {
    || Contains(meta.tenant, x) || Contains(meta.appId, x) || Contains(meta.environment, x)
    || Contains(meta.sdkVersion, x) || Contains(meta.requestId, x)
    || Contains(s.eventId, x)
    || Contains(s.content.moduleName, x) || Contains(s.content.eventName, x)
    || Contains(s.content.processName, x) || Contains(s.content.threadName, x)
    || OptionContains(s.release.appVersion, x) || OptionContains(s.release.appBuild, x)
    || OptionContains(s.release.versionCode, x) || OptionContains(s.release.variant, x)
  }

  /** Would this event alone pass preparation? */
  predicate Acceptable(ring: Option<KeyRing>, meta: Meta, s: Submission) {
    && (s.installation != None ==> ring != None)
    && (s.installation != None && s.installation.value != "" ==> !Mentions(meta, s, s.installation.value))
    && s.content.sizeBytes <= 262144
  }

  lemma PresentAny(x: string, v: Option<string>)
    ensures InAny(x, Present(v)) <==> OptionContains(v, x)
  {
    if v.Some? { assert Present(v)[0] == v.value; }
  }

  lemma AnyOfTwo(x: string, a: seq<string>, b: seq<string>)
    ensures InAny(x, a + b) <==> InAny(x, a) || InAny(x, b)
  {
    if i :| 0 <= i < |a + b| && Contains((a + b)[i], x) {
      assert if i < |a| then Contains(a[i], x) else Contains(b[i - |a|], x);
    }
    if i :| 0 <= i < |a| && Contains(a[i], x) { assert Contains((a + b)[i], x); }
    if i :| 0 <= i < |b| && Contains(b[i], x) { assert Contains((a + b)[|a| + i], x); }
  }

  lemma AnyOfNames(meta: Meta, s: Submission, x: string)
    ensures var names := [s.eventId, s.content.moduleName, s.content.eventName, s.content.processName, s.content.threadName,
                          meta.tenant, meta.appId, meta.environment, meta.sdkVersion, meta.requestId];
            InAny(x, names) <==>
              || Contains(meta.tenant, x) || Contains(meta.appId, x) || Contains(meta.environment, x)
              || Contains(meta.sdkVersion, x) || Contains(meta.requestId, x)
              || Contains(s.eventId, x)
              || Contains(s.content.moduleName, x) || Contains(s.content.eventName, x)
              || Contains(s.content.processName, x) || Contains(s.content.threadName, x)
  {
    var names := [s.eventId, s.content.moduleName, s.content.eventName, s.content.processName, s.content.threadName,
                  meta.tenant, meta.appId, meta.environment, meta.sdkVersion, meta.requestId];
    assert names[0] == s.eventId && names[1] == s.content.moduleName && names[2] == s.content.eventName;
    assert names[3] == s.content.processName && names[4] == s.content.threadName && names[5] == meta.tenant;
    assert names[6] == meta.appId && names[7] == meta.environment && names[8] == meta.sdkVersion && names[9] == meta.requestId;
  }

  /** The privacy check looks at every name that is stored or routed by. */
  lemma LeaksIff(meta: Meta, s: Submission)
    ensures LeaksInstallation(meta, s) <==>
              s.installation != None && s.installation.value != "" && Mentions(meta, s, s.installation.value)
  {
    if s.installation.Some? {
      var x := s.installation.value;
      var names := [s.eventId, s.content.moduleName, s.content.eventName, s.content.processName, s.content.threadName,
                    meta.tenant, meta.appId, meta.environment, meta.sdkVersion, meta.requestId];
      var r := s.release;
      AnyOfNames(meta, s, x);
      AnyOfTwo(x, names, Present(r.appVersion));
      AnyOfTwo(x, names + Present(r.appVersion), Present(r.appBuild));
      AnyOfTwo(x, names + Present(r.appVersion) + Present(r.appBuild), Present(r.versionCode));
      AnyOfTwo(x, names + Present(r.appVersion) + Present(r.appBuild) + Present(r.versionCode), Present(r.variant));
      PresentAny(x, r.appVersion);
      PresentAny(x, r.appBuild);
      PresentAny(x, r.versionCode);
      PresentAny(x, r.variant);
    }
  }

  /** An event is acceptable alone exactly when preparing it raises nothing. */
  lemma AcceptableIff(c: Crypto, ring: Option<KeyRing>, meta: Meta, s: Submission)
    ensures Acceptable(ring, meta, s) <==> PrepareEvent(c, ring, meta, s).Ok? && s.content.sizeBytes <= MAX_EVENT_JSON_BYTES
  {
    LeaksIff(meta, s);
  }

  /** What a prepared event stores, and which refusal comes first. */
  lemma PrepareEventIs(c: Crypto, ring: Option<KeyRing>, meta: Meta, s: Submission)
    requires ring.Some? ==> ValidRing(ring.value)
    ensures var r := PrepareEvent(c, ring, meta, s);
            if s.installation != None && ring == None then r == Err(IdentityServiceUnavailable)
            else if s.installation != None && s.installation.value != "" && Mentions(meta, s, s.installation.value)
            then r == Err(PrivacyIdentityConflict)
            else
              && r.Ok? && r.value.submission == s
              && var st := r.value.stored;
              && st.tenant == meta.tenant && st.appId == meta.appId && st.environment == meta.environment
              && st.eventId == s.eventId && st.payloadHash == c.hash(s.content) && st.release == s.release
              && st.releaseQuality == s.releaseQuality && st.installationQuality == s.installationQuality
              && if s.installation == None then st.hmac == None && st.keyVersion == None
                 else st.keyVersion == Some(ring.value.active)
                      && st.hmac == Some(c.mac(ring.value.keys[ring.value.active], meta.tenant, s.installation.value))
  {
    LeaksIff(meta, s);
  }

  /** Why event `i` of a batch is refused when everything before it was accepted. */
  function Refusal(ring: Option<KeyRing>, meta: Meta, s: Submission, i: nat): IngestError {
    if s.installation != None && ring == None then IdentityServiceUnavailable
    else if s.installation != None && s.installation.value != "" && Mentions(meta, s, s.installation.value) then PrivacyIdentityConflict
    else if s.content.sizeBytes > 262144 then PayloadTooLarge(i)
    else BatchIdConflict(i)
  }

  /** A refused batch reports the first event that does not fit the ones before it, with that event's reason. */
  lemma {:induction false} FirstRefusalIsReported(c: Crypto, ring: Option<KeyRing>, meta: Meta, events: seq<Submission>)
    requires ring.Some? ==> ValidRing(ring.value)
    ensures PrepareAll(c, ring, meta, events).Err? ==>
              exists i :: 0 <= i < |events| && PrepareAll(c, ring, meta, events[..i]).Ok?
                          && PrepareAll(c, ring, meta, events) == Err(Refusal(ring, meta, events[i], i))
  {
    if events != [] && PrepareAll(c, ring, meta, events).Err? {
      var n := |events| - 1;
      if PrepareAll(c, ring, meta, events[..n]).Err? {
        FirstRefusalIsReported(c, ring, meta, events[..n]);
        var i :| 0 <= i < n && PrepareAll(c, ring, meta, events[..n][..i]).Ok?
                 && PrepareAll(c, ring, meta, events[..n]) == Err(Refusal(ring, meta, events[..n][i], i));
        assert events[..n][..i] == events[..i];
      } else {
        PrepareEventIs(c, ring, meta, events[n]);
      }
    }
  }

  /** No stored identity column, and no name of the event or its request, holds a stored event's installation id. */
  lemma NoColumnHoldsInstallation(c: Crypto, ring: Option<KeyRing>, meta: Meta, events: seq<Submission>, id: string)
    requires PrepareAll(c, ring, meta, events).Ok? && id in PrepareAll(c, ring, meta, events).value
    ensures var p := PrepareAll(c, ring, meta, events).value[id];
            p.submission.installation != None && p.submission.installation.value != "" ==>
              var x, st := p.submission.installation.value, p.stored;
              && !Contains(st.eventId, x) && !Contains(st.tenant, x) && !Contains(st.appId, x) && !Contains(st.environment, x)
              && !OptionContains(st.release.appVersion, x) && !OptionContains(st.release.appBuild, x)
              && !OptionContains(st.release.versionCode, x) && !OptionContains(st.release.variant, x)
              && !Contains(p.submission.content.moduleName, x) && !Contains(p.submission.content.eventName, x)
              && !Contains(p.submission.content.processName, x) && !Contains(p.submission.content.threadName, x)
              && !Contains(meta.sdkVersion, x) && !Contains(meta.requestId, x)
  {
    var p := PrepareAll(c, ring, meta, events).value[id];
    PreparedIsOwn(c, ring, meta, events, id);
    LeaksIff(meta, p.submission);
  }

  lemma {:induction false} PreparedIsOwn(c: Crypto, ring: Option<KeyRing>, meta: Meta, events: seq<Submission>, id: string)
    requires PrepareAll(c, ring, meta, events).Ok? && id in PrepareAll(c, ring, meta, events).value
    ensures var p := PrepareAll(c, ring, meta, events).value[id];
            PrepareEvent(c, ring, meta, p.submission) == Ok(p) && p.submission in events
  {
    var n := |events| - 1;
    if id != events[n].eventId { PreparedIsOwn(c, ring, meta, events[..n], id); }
  }

  /** A batch with an event whose names hold its installation id is refused as a whole. */
  lemma {:induction false} MentionRefusesBatch(c: Crypto, ring: Option<KeyRing>, meta: Meta, events: seq<Submission>, i: nat)
    requires i < |events| && events[i].installation != None && events[i].installation.value != ""
    requires Mentions(meta, events[i], events[i].installation.value)
    ensures PrepareAll(c, ring, meta, events).Err?
    ensures |events| == 1 && ring != None ==> PrepareAll(c, ring, meta, events) == Err(PrivacyIdentityConflict)
  {
    var n := |events| - 1;
    LeaksIff(meta, events[i]);
    if i < n { MentionRefusesBatch(c, ring, meta, events[..n], i); }
    assert events[..0] == [];
  }

  predicate NoIdReuse(meta: Meta, events: seq<Submission>) {
    forall i, j :: 0 <= i < j < |events| && events[i].eventId == events[j].eventId
      ==> IdentityOf(meta, events[i]) == IdentityOf(meta, events[j])
  }

  /** What a prepared dictionary says about the events it was made of. */
  ghost predicate Represents(c: Crypto, ring: Option<KeyRing>, meta: Meta, events: seq<Submission>, m: map<string, Prepared>) {
    && (forall i :: 0 <= i < |events| ==>
          events[i].eventId in m && IdentityOf(meta, m[events[i].eventId].submission) == IdentityOf(meta, events[i]))
    && (forall id <- m :: PreparedFor(c, ring, meta, id, m[id]) && m[id].submission in events)
  }

  ghost predicate PreparedFor(c: Crypto, ring: Option<KeyRing>, meta: Meta, id: string, p: Prepared) {
    && Acceptable(ring, meta, p.submission)
    && p.submission.eventId == id
    && PrepareEvent(c, ring, meta, p.submission) == Ok(p)
  }

  lemma SignatureIsIdentity(c: Crypto, ring: Option<KeyRing>, meta: Meta, a: Prepared, b: Prepared)
    requires Injective(c) && (ring.Some? ==> ValidRing(ring.value))
    requires PrepareEvent(c, ring, meta, a.submission) == Ok(a)
    requires PrepareEvent(c, ring, meta, b.submission) == Ok(b)
    ensures SameSignature(a, b) <==> IdentityOf(meta, a.submission) == IdentityOf(meta, b.submission)
  {
  }

  ghost predicate AgreesWith(meta: Meta, events: seq<Submission>, s: Submission) {
    forall i :: 0 <= i < |events| && events[i].eventId == s.eventId ==> IdentityOf(meta, events[i]) == IdentityOf(meta, s)
  }

  /** One more event goes in exactly when it is acceptable and agrees with every earlier use of its id. */
  lemma AddPreparedIff(c: Crypto, ring: Option<KeyRing>, meta: Meta, before: seq<Submission>, m: map<string, Prepared>, s: Submission)
    requires Injective(c) && (ring.Some? ==> ValidRing(ring.value))
    requires Represents(c, ring, meta, before, m)
    ensures var r := AddPrepared(c, ring, meta, m, s, |before|);
            && (r.Ok? <==> Acceptable(ring, meta, s) && AgreesWith(meta, before, s))
            && (r.Ok? ==> Represents(c, ring, meta, before + [s], r.value))
  {
    AcceptableIff(c, ring, meta, s);
    if Acceptable(ring, meta, s) {
      var p := PrepareEvent(c, ring, meta, s).value;
      if s.eventId in m {
        SignatureIsIdentity(c, ring, meta, m[s.eventId], p);
        assert m[s.eventId].submission in before;
      }
      var r := AddPrepared(c, ring, meta, m, s, |before|);
      if r.Ok? {
        var all := before + [s];
        forall i | 0 <= i < |all|
          ensures all[i].eventId in r.value && IdentityOf(meta, r.value[all[i].eventId].submission) == IdentityOf(meta, all[i])
        {
          if i < |before| { assert all[i] == before[i]; }
        }
        forall id <- r.value ensures PreparedFor(c, ring, meta, id, r.value[id]) && r.value[id].submission in all {
          if id == s.eventId { assert all[|before|] == s; }
        }
      }
    }
  }

  predicate AllAcceptable(ring: Option<KeyRing>, meta: Meta, events: seq<Submission>) {
    forall i :: 0 <= i < |events| ==> Acceptable(ring, meta, events[i])
  }

  lemma AllAcceptableSnoc(ring: Option<KeyRing>, meta: Meta, before: seq<Submission>, s: Submission)
    ensures AllAcceptable(ring, meta, before + [s]) <==> AllAcceptable(ring, meta, before) && Acceptable(ring, meta, s)
  {
    var all := before + [s];
    assert all[|before|] == s;
    assert forall i :: 0 <= i < |before| ==> all[i] == before[i];
  }

  lemma NoIdReuseSnoc(meta: Meta, before: seq<Submission>, s: Submission)
    ensures NoIdReuse(meta, before + [s]) <==> NoIdReuse(meta, before) && AgreesWith(meta, before, s)
  {
    var all := before + [s];
    assert all[|before|] == s;
    assert forall i :: 0 <= i < |before| ==> all[i] == before[i];
  }

  lemma PrepareAllSnoc(c: Crypto, ring: Option<KeyRing>, meta: Meta, before: seq<Submission>, s: Submission)
    ensures var r := PrepareAll(c, ring, meta, before);
            PrepareAll(c, ring, meta, before + [s]) == if r.Ok? then AddPrepared(c, ring, meta, r.value, s, |before|) else r
  {
    assert (before + [s])[..|before|] == before;
  }

  /**
   * A batch is prepared exactly when every event alone is acceptable and no event id is reused
   * for a different identity; the dictionary then represents the whole batch.
   */
  lemma {:induction false} PrepareAllIff(c: Crypto, ring: Option<KeyRing>, meta: Meta, events: seq<Submission>)
    requires Injective(c) && (ring.Some? ==> ValidRing(ring.value))
    ensures PrepareAll(c, ring, meta, events).Ok? <==> AllAcceptable(ring, meta, events) && NoIdReuse(meta, events)
    ensures PrepareAll(c, ring, meta, events).Ok? ==>
              Represents(c, ring, meta, events, PrepareAll(c, ring, meta, events).value)
  {
    if events != [] {
      var n := |events| - 1;
      var before, s := events[..n], events[n];
      PrepareAllIff(c, ring, meta, before);
      assert events == before + [s];
      AllAcceptableSnoc(ring, meta, before, s);
      NoIdReuseSnoc(meta, before, s);
      PrepareAllSnoc(c, ring, meta, before, s);
      var r := PrepareAll(c, ring, meta, before);
      if r.Ok? {
        AddPreparedIff(c, ring, meta, before, r.value, s);
      }
    }
  }

  /** _matches_existing_installation. */
  predicate MatchesInstallation(c: Crypto, ring: Option<KeyRing>, tenant: string, plaintext: Option<string>, st: StoredIdentity) {
    if plaintext.None? then st.hmac.None? && st.keyVersion.None?
    else
      && ring.Some?
      && st.hmac.Some?
      && st.keyVersion.Some?
      && Digest(c, ring.value, tenant, plaintext.value, st.keyVersion.value) == st.hmac
  }

  /** The row's own key version is looked up in the ring, an empty one as the active key; without a row hmac nothing matches. */
  lemma MatchesInstallationIff(c: Crypto, ring: Option<KeyRing>, tenant: string, plaintext: Option<string>, st: StoredIdentity)
    ensures MatchesInstallation(c, ring, tenant, plaintext, st) <==>
              if plaintext == None then st.hmac == None && st.keyVersion == None
              else
                && ring != None && st.hmac != None && st.keyVersion != None
                && var version := if st.keyVersion.value != "" then st.keyVersion.value else ring.value.active;
                && version in ring.value.keys && st.hmac.value == c.mac(ring.value.keys[version], tenant, plaintext.value)
  {
  }

  /** A stored row matches iff content, app, environment, release, both qualities and the installation do. */
  lemma MatchesIff(c: Crypto, ring: Option<KeyRing>, meta: Meta, s: Submission, st: StoredIdentity)
    ensures Matches(c, ring, meta, s, st) <==>
              && c.hash(s.content) == st.payloadHash && meta.appId == st.appId && meta.environment == st.environment
              && s.release.appVersion == st.release.appVersion && s.release.appBuild == st.release.appBuild
              && s.release.versionCode == st.release.versionCode && s.release.variant == st.release.variant
              && s.releaseQuality == st.releaseQuality && s.installationQuality == st.installationQuality
              && MatchesInstallation(c, ring, meta.tenant, s.installation, st)
  {
  }

  /** _assert_existing_matches, as the condition under which it does not raise. */
  predicate Matches(c: Crypto, ring: Option<KeyRing>, meta: Meta, s: Submission, st: StoredIdentity) {
    && st.payloadHash == c.hash(s.content)
    && st.appId == meta.appId
    && st.environment == meta.environment
    && st.release == s.release
    && st.releaseQuality == s.releaseQuality
    && st.installationQuality == s.installationQuality
    && MatchesInstallation(c, ring, meta.tenant, s.installation, st)
  }

  /** Row columns `st` are what storing `identity` leaves, under some key of the directory `keys`. */
  ghost predicate StoredFor(c: Crypto, keys: map<string, string>, identity: Identity, st: StoredIdentity) {
    && st.appId == identity.appId
    && st.environment == identity.environment
    && st.payloadHash == c.hash(identity.content)
    && st.release == identity.release
    && st.releaseQuality == identity.releaseQuality
    && st.installationQuality == identity.installationQuality
    && (identity.installation.None? ==> st.hmac.None? && st.keyVersion.None?)
    && (identity.installation.Some? ==>
          && st.keyVersion.Some?
          && st.keyVersion.value != ""
          && st.keyVersion.value in keys
          && st.hmac == Some(c.mac(keys[st.keyVersion.value], st.tenant, identity.installation.value)))
  }

  /** Every key of the ring is the directory's key of that version: old versions keep their secret. */
  ghost predicate RingOf(ring: Option<KeyRing>, keys: map<string, string>) {
    ring.Some? ==> ValidRing(ring.value) && forall v <- ring.value.keys :: v in keys && keys[v] == ring.value.keys[v]
  }

  /** The ring can still recompute the row's pseudonym. */
  predicate KnowsVersion(ring: Option<KeyRing>, st: StoredIdentity) {
    st.keyVersion.None? || (ring.Some? && st.keyVersion.value in ring.value.keys)
  }

  /** Replay matching decides identity exactly, under whichever key is now active. */
  lemma MatchIsIdentity(c: Crypto, ring: Option<KeyRing>, keys: map<string, string>, meta: Meta, s: Submission,
                        identity: Identity, st: StoredIdentity)
    requires Injective(c) && RingOf(ring, keys)
    requires StoredFor(c, keys, identity, st) && st.tenant == meta.tenant
    ensures Matches(c, ring, meta, s, st) <==> IdentityOf(meta, s) == identity && KnowsVersion(ring, st)
  {
    if s.installation.Some? && identity.installation.Some? {
      var key := keys[st.keyVersion.value];
      assert c.mac(key, st.tenant, s.installation.value) == c.mac(key, st.tenant, identity.installation.value)
        <==> s.installation == identity.installation;
    }
  }

  /** A prepared event stores its own identity. */
  lemma PreparedStores(c: Crypto, ring: Option<KeyRing>, keys: map<string, string>, meta: Meta, p: Prepared)
    requires RingOf(ring, keys) && PrepareEvent(c, ring, meta, p.submission) == Ok(p)
    ensures StoredFor(c, keys, IdentityOf(meta, p.submission), p.stored)
    ensures p.stored.tenant == meta.tenant && p.stored.eventId == p.submission.eventId
    ensures p.submission.installation.Some? ==> ring.Some? && p.stored.keyVersion == Some(ring.value.active)
  {
  }
}
