/**
 * Normalisation of one event's registered fields, and what retention leaves of it.
 */
module Normalization {
  import opened Prelude
  import opened Sanitizer

  const MAX_FUTURE_SKEW_MS: int := 600000
  const INT64_MIN: int := -0x8000_0000_0000_0000
  const INT64_MAX: int := 0x7fff_ffff_ffff_ffff

  datatype FieldType = Integer | Number | Boolean | Text

  datatype Unit = Unitless | Events | Bytes | Ms | MsEpoch | Ratio

  /** The registered field names. */
  datatype Field =
    | ExceptionClass | ExceptionMessage | StackTrace | ThreadName | ProcessName | AnrSource
    | AnrCause | DurationMs | MainThreadStack | TracesContent | StackSamples | ExitTimestamp
    | ReasonCode | ReasonName | Importance | Description | Trace | EmitCount
    | DropCount | DropRate | QueueSize | QueueBytes | AvgUploadLatencyMs | MaxUploadLatencyMs
    | InternalErrorCount | DiagnosticDroppedCount | DiagnosticWriteFailureCount

  function FieldName(f: Field): string {
    match f
    case ExceptionClass => "exceptionClass"
    case ExceptionMessage => "exceptionMessage"
    case StackTrace => "stackTrace"
    case ThreadName => "threadName"
    case ProcessName => "processName"
    case AnrSource => "anrSource"
    case AnrCause => "anrCause"
    case DurationMs => "durationMs"
    case MainThreadStack => "mainThreadStack"
    case TracesContent => "tracesContent"
    case StackSamples => "stackSamples"
    case ExitTimestamp => "exitTimestamp"
    case ReasonCode => "reasonCode"
    case ReasonName => "reasonName"
    case Importance => "importance"
    case Description => "description"
    case Trace => "trace"
    case EmitCount => "emitCount"
    case DropCount => "dropCount"
    case DropRate => "dropRate"
    case QueueSize => "queueSize"
    case QueueBytes => "queueBytes"
    case AvgUploadLatencyMs => "avgUploadLatencyMs"
    case MaxUploadLatencyMs => "maxUploadLatencyMs"
    case InternalErrorCount => "internalErrorCount"
    case DiagnosticDroppedCount => "diagnosticDroppedCount"
    case DiagnosticWriteFailureCount => "diagnosticWriteFailureCount"
  }

  datatype Definition = Definition(field: Field, kind: FieldType, unit: Unit, indexed: bool)

  datatype FieldState = MISSING | INVALID | AVAILABLE | EXPIRED

  function JavaCrashFields(): seq<Definition> {
    [Definition(ExceptionClass, Text, Unitless, true),
     Definition(ExceptionMessage, Text, Unitless, false),
     Definition(StackTrace, Text, Unitless, false),
     Definition(ThreadName, Text, Unitless, true),
     Definition(ProcessName, Text, Unitless, true)]
  }

  function AnrFields(): seq<Definition> {
    [Definition(AnrSource, Text, Unitless, true),
     Definition(AnrCause, Text, Unitless, true),
     Definition(DurationMs, Number, Ms, true),
     Definition(ProcessName, Text, Unitless, true),
     Definition(MainThreadStack, Text, Unitless, false),
     Definition(TracesContent, Text, Unitless, false),
     Definition(StackSamples, Text, Unitless, false)]
  }

  function AppExitFields(): seq<Definition> {
    [Definition(ExitTimestamp, Integer, MsEpoch, false),
     Definition(ReasonCode, Integer, Unitless, true),
     Definition(ReasonName, Text, Unitless, true),
     Definition(Importance, Integer, Unitless, true),
     Definition(Description, Text, Unitless, false),
     Definition(Trace, Text, Unitless, false)]
  }

  function SdkHealthFields(): seq<Definition> {
    [Definition(EmitCount, Integer, Events, true),
     Definition(DropCount, Integer, Events, true),
     Definition(DropRate, Number, Ratio, true),
     Definition(QueueSize, Integer, Events, true),
     Definition(QueueBytes, Integer, Bytes, true),
     Definition(AvgUploadLatencyMs, Number, Ms, true),
     Definition(MaxUploadLatencyMs, Number, Ms, true),
     Definition(InternalErrorCount, Integer, Events, true),
     Definition(DiagnosticDroppedCount, Integer, Events, true),
     Definition(DiagnosticWriteFailureCount, Integer, Events, true)]
  }

  /** The registered fields of one (module, name). */
  function Definitions(moduleName: string, name: string): seq<Definition> {
    if moduleName == "crash" && name == "java_crash" then JavaCrashFields()
    else if moduleName == "anr" && name == "anr_detected" then AnrFields()
    else if moduleName == "crash" && name == "app_exit" then AppExitFields()
    else if moduleName == "core" && name == "sdk_health" then SdkHealthFields()
    else []
  }

  /** Conversions of the host language: float(text) and float(int), where they give a finite number. */
  datatype Floats = Floats(ofText: string -> Option<real>, ofInt: int -> Option<real>)

  // ----- canonical decimal text -----

  function DigitValue(c: char): Option<int> {
    if '0' <= c <= '9' then Some((c as int) - ('0' as int)) else None
  }

  function Digits(s: string): Option<nat> {
    if s == "" then Some(0)
    else match (Digits(s[..|s| - 1]), DigitValue(s[|s| - 1]))
      case (Some(a), Some(d)) => Some(10 * a + d)
      case _ => None
  }

  /** int(s) where str(int(s)) == s. */
  function CanonicalInt(s: string): Option<int> {
    if s == "0" then Some(0)
    else if s == "" || s[0] == '0' then None
    else if s[0] != '-' then (match Digits(s) case Some(n) => Some(n) case None => None)
    else if |s| == 1 || s[1] == '0' then None
    else (match Digits(s[1..]) case Some(n) => Some(0 - n as int) case None => None)
  }

  /** str(n) for n >= 0. */
  function Decimal(n: nat): string {
    if n < 10 then [('0' as int + n) as char] else Decimal(n / 10) + [('0' as int + n % 10) as char]
  }

  function IntText(i: int): string {
    if i < 0 then "-" + Decimal(-i) else Decimal(i)
  }

  lemma {:induction false} DecimalParses(n: nat)
    ensures Digits(Decimal(n)) == Some(n)
    ensures Decimal(n) != "" && (Decimal(n)[0] == '0' <==> n == 0) && Decimal(n)[0] != '-'
    ensures n == 0 ==> Decimal(n) == "0"
  {
    if n < 10 {
      assert Decimal(n)[..0] == "";
    } else {
      DecimalParses(n / 10);
      var s := Decimal(n);
      assert s[..|s| - 1] == Decimal(n / 10);
    }
  }

  lemma {:induction false} ParsedIsDecimal(s: string)
    requires s != "" && s[0] != '0' && Digits(s).Some?
    ensures Decimal(Digits(s).value) == s && Digits(s).value > 0
  {
    var front, last := s[..|s| - 1], s[|s| - 1];
    assert s == front + [last];
    if front != "" {
      ParsedIsDecimal(front);
    } else {
      assert Digits("") == Some(0);
    }
  }

  /** The accepted integer texts are exactly the canonical decimal ones. */
  lemma CanonicalIntIffText(s: string, i: int)
    ensures CanonicalInt(s) == Some(i) <==> s == IntText(i)
  {
    if CanonicalInt(s) == Some(i) {
      if s != "0" {
        if s[0] != '-' {
          ParsedIsDecimal(s);
        } else {
          ParsedIsDecimal(s[1..]);
          assert s == "-" + s[1..];
        }
      }
    }
    if s == IntText(i) {
      if i >= 0 {
        DecimalParses(i);
      } else {
        DecimalParses(-i);
        assert s[1..] == Decimal(-i);
      }
    }
  }

  // ----- coercion -----

  /** _coerce_registered: None is the invalid marker. */
  function Coerce(fl: Floats, v: Json, kind: FieldType): Option<Json> {
    match kind
    case Integer =>
      (match v
       case Int(i) => InRange(i)
       case Num(n) => if n.Floor as real == n then InRange(n.Floor) else None
       case Str(s) => (match CanonicalInt(s) case Some(i) => InRange(i) case None => None)
       case _ => None)
    case Number =>
      (match v
       case Int(i) => AsNum(fl.ofInt(i))
       case Num(n) => Some(v)
       case Str(s) => AsNum(fl.ofText(s))
       case _ => None)
    case Boolean =>
      if v.Bool? then Some(v)
      else if v == Str("true") then Some(Bool(true))
      else if v == Str("false") then Some(Bool(false))
      else None
    case Text => if v.Str? then Some(v) else None
  }

  function InRange(i: int): Option<Json> {
    if INT64_MIN <= i <= INT64_MAX then Some(Int(i)) else None
  }

  function AsNum(r: Option<real>): Option<Json> {
    match r case Some(x) => Some(Num(x)) case None => None
  }

  function NumberOf(v: Json): Option<real> {
    match v
    case Int(i) => Some(i as real)
    case Num(n) => Some(n)
    case _ => None
  }

  /** The semantic bounds of physical units. */
  predicate WithinUnit(v: Json, unit: Unit, timestamp: int) {
    match NumberOf(v)
    case None => true
    case Some(x) =>
      && (unit != Unitless ==> x >= 0.0)
      && (unit == Ratio ==> x <= 1.0)
      && (unit == MsEpoch ==> 0.0 < x <= (timestamp + MAX_FUTURE_SKEW_MS) as real)
  }

  /** What becomes of one registered field. */
  datatype Outcome = Absent | Rejected | Kept(value: Json)

  function OutcomeOf(fl: Floats, d: Definition, fields: Json, timestamp: int): Outcome {
    match Lookup(fields, FieldName(d.field))
    case None => Absent
    case Some(v) =>
      match Coerce(fl, v, d.kind)
      case None => Rejected
      case Some(c) => if WithinUnit(c, d.unit, timestamp) then Kept(c) else Rejected
  }

  datatype Event = Event(moduleName: string, name: string, timestamp: int, fields: Json)

  datatype Normalized = Normalized(
    registered: map<Field, Json>, indexed: map<Field, Json>, states: map<Field, FieldState>)

  function StateOf(o: Outcome): FieldState {
    match o case Absent => MISSING case Rejected => FieldState.INVALID case Kept(_) => AVAILABLE
  }

  function Outcomes(fl: Floats, e: Event, defs: seq<Definition>): seq<Outcome> {
    seq(|defs|, i requires 0 <= i < |defs| => OutcomeOf(fl, defs[i], e.fields, e.timestamp))
  }

  /** The three dictionaries hold exactly what the definitions' outcomes prescribe. */
  ghost predicate Tabulates(defs: seq<Definition>, os: seq<Outcome>, n: Normalized)
    requires |os| == |defs|
  {
    && (forall i :: 0 <= i < |defs| ==> FieldTabulated(defs[i], os[i], n))
    && (forall k :: k in n.states || k in n.registered || k in n.indexed ==> exists i :: 0 <= i < |defs| && defs[i].field == k)
  }

  predicate FieldTabulated(d: Definition, o: Outcome, n: Normalized) {
    && d.field in n.states && n.states[d.field] == StateOf(o)
    && FieldIn(n.registered, d.field, o, true)
    && FieldIn(n.indexed, d.field, o, d.indexed)
  }

  ghost predicate Projects(fl: Floats, e: Event, n: Normalized) {
    var defs := Definitions(e.moduleName, e.name);
    Tabulates(defs, Outcomes(fl, e, defs), n)
  }

  predicate FieldIn(m: map<Field, Json>, field: Field, o: Outcome, wanted: bool) {
    if o.Kept? && wanted then field in m && m[field] == o.value else field !in m
  }

  predicate DistinctFields(defs: seq<Definition>) {
    forall i, j :: 0 <= i < j < |defs| ==> defs[i].field != defs[j].field
  }

  lemma JavaCrashDistinct()
    ensures DistinctFields(JavaCrashFields())
  {
  }

  lemma AnrDistinct()
    ensures DistinctFields(AnrFields())
  {
  }

  lemma AppExitDistinct()
    ensures DistinctFields(AppExitFields())
  {
  }

  lemma SdkHealthDistinct()
    ensures DistinctFields(SdkHealthFields())
  {
  }

  lemma RegistryFieldsDistinct(moduleName: string, name: string)
    ensures DistinctFields(Definitions(moduleName, name))
  {
    JavaCrashDistinct();
    AnrDistinct();
    AppExitDistinct();
    SdkHealthDistinct();
  }

  function Record(n: Normalized, d: Definition, o: Outcome): Normalized {
    Normalized(
      if o.Kept? then n.registered[d.field := o.value] else n.registered,
      if o.Kept? && d.indexed then n.indexed[d.field := o.value] else n.indexed,
      n.states[d.field := StateOf(o)])
  }

  lemma RecordTabulates(defs: seq<Definition>, os: seq<Outcome>, n: Normalized, d: Definition, o: Outcome)
    requires |os| == |defs| && DistinctFields(defs + [d]) && Tabulates(defs, os, n)
    ensures Tabulates(defs + [d], os + [o], Record(n, d, o))
  {
    var all, after := defs + [d], Record(n, d, o);
    forall i | 0 <= i < |defs| ensures defs[i].field != d.field { assert all[i] == defs[i] && all[|defs|] == d; }
    assert d.field !in n.registered && d.field !in n.indexed;
    forall i | 0 <= i < |all| ensures FieldTabulated(all[i], (os + [o])[i], after) {
      if i < |defs| { assert FieldTabulated(defs[i], os[i], n); }
    }
    forall k | k in after.states || k in after.registered || k in after.indexed
      ensures exists i :: 0 <= i < |all| && all[i].field == k
    {
      if k == d.field {
        assert all[|defs|].field == k;
      } else {
        var i :| 0 <= i < |defs| && defs[i].field == k;
        assert all[i].field == k;
      }
    }
  }

  /** normalize_event's loop over the registered definitions. */
  method NormalizeFields(fl: Floats, e: Event) returns (n: Normalized)
    ensures Projects(fl, e, n)
  {
    var defs := Definitions(e.moduleName, e.name);
    RegistryFieldsDistinct(e.moduleName, e.name);
    ghost var os := Outcomes(fl, e, defs);
    n := Normalized(map[], map[], map[]);
    for i := 0 to |defs|
      invariant Tabulates(defs[..i], os[..i], n)
    {
      assert defs[..i + 1] == defs[..i] + [defs[i]] && os[..i + 1] == os[..i] + [os[i]];
      RecordTabulates(defs[..i], os[..i], n, defs[i], os[i]);
      n := Record(n, defs[i], OutcomeOf(fl, defs[i], e.fields, e.timestamp));
    }
    assert defs[..|defs|] == defs && os[..|defs|] == os;
  }

  /** A kept value has its definition's type and lies within its unit; kept text is the submitted text. */
  predicate Typed(d: Definition, o: Outcome, fields: Json, timestamp: int) {
    o.Kept? ==>
      && WithinUnit(o.value, d.unit, timestamp)
      && (d.kind == Integer ==> o.value.Int?)
      && (d.kind == Number ==> o.value.Num?)
      && (o.value.Str? ==> Lookup(fields, FieldName(d.field)) == Some(o.value))
  }

  lemma OutcomeIsTyped(fl: Floats, d: Definition, fields: Json, timestamp: int)
    ensures Typed(d, OutcomeOf(fl, d, fields, timestamp), fields, timestamp)
  {
  }

  predicate KnownKind(d: Definition) {
    && (d.field == ExitTimestamp ==> d.kind == Integer && d.unit == MsEpoch)
    && (d.field == EmitCount || d.field == DropCount ==> d.kind == Integer && d.indexed)
    && (d.field == DropRate ==> d.kind == Number && d.indexed)
  }

  /** The registry rows the proofs below depend on. */
  lemma RegistryKinds(moduleName: string, name: string, i: nat)
    requires i < |Definitions(moduleName, name)|
    ensures KnownKind(Definitions(moduleName, name)[i])
  {
  }

  /** A recorded field comes from its definition's outcome. */
  lemma FieldOf(fl: Floats, e: Event, n: Normalized, k: Field) returns (d: Definition, o: Outcome)
    requires Projects(fl, e, n)
    requires k in n.states || k in n.registered || k in n.indexed
    ensures d.field == k && KnownKind(d) && FieldTabulated(d, o, n) && Typed(d, o, e.fields, e.timestamp)
  {
    var defs := Definitions(e.moduleName, e.name);
    var i :| 0 <= i < |defs| && defs[i].field == k;
    d, o := defs[i], OutcomeOf(fl, defs[i], e.fields, e.timestamp);
    assert FieldTabulated(defs[i], Outcomes(fl, e, defs)[i], n);
    RegistryKinds(e.moduleName, e.name, i);
    OutcomeIsTyped(fl, defs[i], e.fields, e.timestamp);
  }

  /** The time an event counts at: an app exit's own time when it reports a valid one. */
  function OccurrenceTime(e: Event, n: Normalized): int {
    if e.moduleName == "crash" && e.name == "app_exit" && ExitTimestamp in n.registered
       && n.registered[ExitTimestamp].Int? && n.registered[ExitTimestamp].i > 0
    then n.registered[ExitTimestamp].i
    else e.timestamp
  }

  /** Occurrence times stay positive and never lie further ahead than the allowed clock skew. */
  lemma OccurrenceIsPlausible(fl: Floats, e: Event, n: Normalized)
    requires Projects(fl, e, n) && e.timestamp > 0
    ensures 0 < OccurrenceTime(e, n) <= e.timestamp + MAX_FUTURE_SKEW_MS
  {
    if ExitTimestamp in n.registered {
      var d, o := FieldOf(fl, e, n, ExitTimestamp);
    }
  }

  // ----- privacy -----

  /** payload.get("fields", {}) of the sanitised payload. */
  function SafeFields(payload: Json, plaintext: string): Json {
    match Lookup(Sanitize(payload, plaintext), "fields")
    case Some(v) => v
    case None => Obj([])
  }

  /** Decoded documents have no repeated keys where normalisation looks. */
  predicate Decoded(payload: Json) {
    && payload.Obj? && UniqueKeys(payload.entries)
    && match Lookup(payload, "fields")
       case Some(v) => v.Obj? && UniqueKeys(v.entries)
       case None => true
  }

  lemma SafeFieldIsClean(payload: Json, plaintext: string, key: string)
    requires Decoded(payload) && plaintext != ""
    ensures match Lookup(SafeFields(payload, plaintext), key)
            case Some(v) => !HoldsText(v, plaintext) && !Contains(key, plaintext)
            case None => true
  {
    LookupSanitizedEntry(payload.entries, plaintext, "fields");
    match LookupEntry(payload.entries, "fields") {
      case Some(v) => LookupSanitizedEntry(v.entries, plaintext, key);
      case None =>
    }
  }

  /** No registered field name or text holds the identifier once the payload was sanitised. */
  lemma RegisteredTextIsClean(fl: Floats, e: Event, n: Normalized, payload: Json, plaintext: string, k: Field)
    requires Decoded(payload) && plaintext != ""
    requires e.fields == SafeFields(payload, plaintext)
    requires Projects(fl, e, n)
    requires k in n.registered
    ensures !Contains(FieldName(k), plaintext) && (n.registered[k].Str? ==> !Contains(n.registered[k].s, plaintext))
    ensures k in n.indexed ==> n.indexed[k] == n.registered[k]
  {
    var d, o := FieldOf(fl, e, n, k);
    SafeFieldIsClean(payload, plaintext, FieldName(k));
  }

  // ----- what retention keeps -----

  predicate IsScalarNumber(v: Json) {
    v.Int? || v.Num? || v.Bool?
  }

  /** The retained attributes: numbers and flags of the indexed ones. */
  function Retained(n: Normalized): map<Field, Json> {
    map k | k in n.indexed && IsScalarNumber(n.indexed[k]) :: n.indexed[k]
  }

  /** field_availability(..., raw_pruned=True). */
  function ExpiredStates(states: map<Field, FieldState>, retained: map<Field, Json>): map<Field, FieldState> {
    map k | k in states :: if states[k] == AVAILABLE && k !in retained then EXPIRED else states[k]
  }

  function PruneNormalized(n: Normalized): Normalized {
    Normalized(Retained(n), Retained(n), ExpiredStates(n.states, Retained(n)))
  }

  /** After pruning, a field is AVAILABLE exactly when its value is still there, and no text survives. */
  lemma PrunedStatesAreHonest(fl: Floats, e: Event, n: Normalized, k: Field)
    requires Projects(fl, e, n)
    ensures var p := PruneNormalized(n);
            && p.states.Keys == n.states.Keys
            && (k in p.registered <==> k in p.states && p.states[k] == AVAILABLE)
            && (k in p.registered ==> !p.registered[k].Str? && k in n.registered && p.registered[k] == n.registered[k])
            && (k in n.states && n.states[k] != AVAILABLE ==> p.states[k] == n.states[k])
            && (k in n.states && n.states[k] == AVAILABLE && k !in p.registered ==> p.states[k] == EXPIRED)
  {
    if k in n.states || k in n.indexed {
      var d, o := FieldOf(fl, e, n, k);
    }
  }

  /** The health columns a query reads: emitCount and dropCount as integers, dropRate as a number. */
  function IntColumn(m: map<Field, Json>, field: Field): Option<int> {
    if field in m && m[field].Int? then Some(m[field].i) else None
  }

  function NumberColumn(m: map<Field, Json>, field: Field): Option<real> {
    if field in m then NumberOf(m[field]) else None
  }

  predicate SameHealth(a: map<Field, Json>, b: map<Field, Json>) {
    && IntColumn(a, EmitCount) == IntColumn(b, EmitCount)
    && IntColumn(a, DropCount) == IntColumn(b, DropCount)
    && NumberColumn(a, DropRate) == NumberColumn(b, DropRate)
  }

  lemma HealthField(fl: Floats, e: Event, n: Normalized, k: Field)
    requires Projects(fl, e, n)
    requires k == EmitCount || k == DropCount || k == DropRate
    ensures k in n.registered <==> k in Retained(n)
    ensures k in n.registered ==> Retained(n)[k] == n.registered[k]
  {
    if k in n.registered || k in n.indexed {
      var d, o := FieldOf(fl, e, n, k);
    }
  }

  /** Pruning keeps every column the health metrics read. */
  lemma PruneKeepsHealth(fl: Floats, e: Event, n: Normalized)
    requires Projects(fl, e, n)
    ensures SameHealth(n.registered, PruneNormalized(n).registered)
  {
    HealthField(fl, e, n, EmitCount);
    HealthField(fl, e, n, DropCount);
    HealthField(fl, e, n, DropRate);
  }
}
