/**
 * What normalisation makes of each registered field, by its name in the document.
 */
module FieldLaws {
  import opened Prelude
  import opened Sanitizer
  import opened Normalization

  // ----- accepted values -----

  /** An integer is written as itself, as the equal float, or as its canonical decimal text. */
  predicate Writes(v: Json, i: int) {
    v == Int(i) || v == Num(i as real) || v == Str(IntText(i))
  }

  lemma IntegersAre(fl: Floats, v: Json, c: Json)
    ensures Coerce(fl, v, Integer) == Some(c)
            <==> c.Int? && Writes(v, c.i) && -9223372036854775808 <= c.i <= 9223372036854775807
  {
    match v {
      case Str(s) =>
        match CanonicalInt(s) {
          case Some(i) => CanonicalIntIffText(s, i);
          case None => if c.Int? { CanonicalIntIffText(s, c.i); }
        }
        if c.Int? { CanonicalIntIffText(s, c.i); }
      case _ =>
    }
  }

  /** A number is written as itself, or as an integer or text that the host converts to it. */
  predicate Converts(fl: Floats, v: Json, x: real) {
    v == Num(x) || (v.Int? && fl.ofInt(v.i) == Some(x)) || (v.Str? && fl.ofText(v.s) == Some(x))
  }

  lemma NumbersAre(fl: Floats, v: Json, c: Json)
    ensures Coerce(fl, v, Number) == Some(c) <==> c.Num? && Converts(fl, v, c.n)
  {
  }

  lemma FlagsAre(fl: Floats, v: Json, c: Json)
    ensures Coerce(fl, v, Boolean) == Some(c) <==> c.Bool? && (v == c || v == Str(if c.flag then "true" else "false"))
  {
  }

  // ----- one field -----

  /** What a field accepts: text, integers of a range, or non-negative numbers up to a bound. */
  datatype Values = Texts | Wholes(low: int, high: int) | Numbers(top: Option<real>)

  predicate Accepts(fl: Floats, values: Values, v: Json, c: Json) {
    match values
    case Texts => c.Str? && v == c
    case Wholes(low, high) => c.Int? && Writes(v, c.i) && low <= c.i <= high
    case Numbers(top) => c.Num? && Converts(fl, v, c.n) && 0.0 <= c.n && (top != None ==> c.n <= top.value)
  }

  /**
   * The field is missing when the document has no such key; kept, and kept a second time if it is
   * indexed, with the value it accepts; and invalid when it accepts none.
   */
  ghost predicate Reads(fl: Floats, e: Event, n: Normalized, f: Field, key: string, values: Values, indexed: bool) {
    && f in n.states
    && (f in n.indexed <==> f in n.registered && indexed)
    && (f in n.indexed ==> n.indexed[f] == n.registered[f])
    && match Lookup(e.fields, key)
       case None => n.states[f] == MISSING && f !in n.registered
       case Some(v) =>
         && n.states[f] == (if f in n.registered then AVAILABLE else FieldState.INVALID)
         && forall c :: (f in n.registered && n.registered[f] == c) <==> Accepts(fl, values, v, c)
  }

  predicate Fits(d: Definition, values: Values, timestamp: int) {
    match values
    case Texts => d.kind == Text && d.unit == Unitless
    case Wholes(low, high) =>
      && d.kind == Integer
      && (|| (d.unit == Unitless && low == -9223372036854775808 && high == 9223372036854775807)
          || (d.unit in {Events, Bytes} && low == 0 && high == 9223372036854775807)
          || (d.unit == MsEpoch && low == 1 && high == Min(timestamp + 600000, 9223372036854775807)))
    case Numbers(top) => d.kind == Number && ((d.unit == Ms && top == None) || (d.unit == Ratio && top == Some(1.0)))
  }

  lemma AcceptedIs(fl: Floats, d: Definition, values: Values, v: Json, c: Json, timestamp: int)
    requires Fits(d, values, timestamp)
    ensures Coerce(fl, v, d.kind) == Some(c) && WithinUnit(c, d.unit, timestamp) <==> Accepts(fl, values, v, c)
  {
    IntegersAre(fl, v, c);
    NumbersAre(fl, v, c);
  }

  lemma FieldReads(fl: Floats, e: Event, n: Normalized, i: nat, d: Definition, values: Values)
    requires Projects(fl, e, n) && i < |Definitions(e.moduleName, e.name)| && Definitions(e.moduleName, e.name)[i] == d
    requires Fits(d, values, e.timestamp)
    ensures Reads(fl, e, n, d.field, FieldName(d.field), values, d.indexed)
  {
    var defs := Definitions(e.moduleName, e.name);
    var o := OutcomeOf(fl, d, e.fields, e.timestamp);
    assert FieldTabulated(defs[i], Outcomes(fl, e, defs)[i], n);
    match Lookup(e.fields, FieldName(d.field)) {
      case None =>
      case Some(v) =>
        forall c ensures o == Kept(c) <==> Accepts(fl, values, v, c) {
          AcceptedIs(fl, d, values, v, c, e.timestamp);
        }
    }
  }

  // ----- the four registered events -----

  /** A column of a registered event: its key in the document and the values it accepts. */
  datatype Column = Column(field: Field, key: string, values: Values, indexed: bool)

  const ANY: Values := Wholes(-9223372036854775808, 9223372036854775807)
  const COUNT: Values := Wholes(0, 9223372036854775807)
  const RATIO: Values := Numbers(Some(1.0))
  const DURATION: Values := Numbers(None)

  function JavaCrashColumns(): seq<Column> {
    [Column(ExceptionClass, "exceptionClass", Texts, true),
     Column(ExceptionMessage, "exceptionMessage", Texts, false),
     Column(StackTrace, "stackTrace", Texts, false),
     Column(ThreadName, "threadName", Texts, true),
     Column(ProcessName, "processName", Texts, true)]
  }

  function AnrColumns(): seq<Column> {
    [Column(AnrSource, "anrSource", Texts, true),
     Column(AnrCause, "anrCause", Texts, true),
     Column(DurationMs, "durationMs", DURATION, true),
     Column(ProcessName, "processName", Texts, true),
     Column(MainThreadStack, "mainThreadStack", Texts, false),
     Column(TracesContent, "tracesContent", Texts, false),
     Column(StackSamples, "stackSamples", Texts, false)]
  }

  /** An app exit may report its own time, at most ten minutes ahead of its collection. */
  function AppExitColumns(timestamp: int): seq<Column> {
    [Column(ExitTimestamp, "exitTimestamp", Wholes(1, Min(timestamp + 600000, 9223372036854775807)), false),
     Column(ReasonCode, "reasonCode", ANY, true),
     Column(ReasonName, "reasonName", Texts, true),
     Column(Importance, "importance", ANY, true),
     Column(Description, "description", Texts, false),
     Column(Trace, "trace", Texts, false)]
  }

  function SdkHealthColumns(): seq<Column> {
    [Column(EmitCount, "emitCount", COUNT, true),
     Column(DropCount, "dropCount", COUNT, true),
     Column(DropRate, "dropRate", RATIO, true),
     Column(QueueSize, "queueSize", COUNT, true),
     Column(QueueBytes, "queueBytes", COUNT, true),
     Column(AvgUploadLatencyMs, "avgUploadLatencyMs", DURATION, true),
     Column(MaxUploadLatencyMs, "maxUploadLatencyMs", DURATION, true),
     Column(InternalErrorCount, "internalErrorCount", COUNT, true),
     Column(DiagnosticDroppedCount, "diagnosticDroppedCount", COUNT, true),
     Column(DiagnosticWriteFailureCount, "diagnosticWriteFailureCount", COUNT, true)]
  }

  predicate Describes(d: Definition, c: Column, timestamp: int) {
    d.field == c.field && FieldName(d.field) == c.key && d.indexed == c.indexed && Fits(d, c.values, timestamp)
  }

  lemma JavaCrashIs(timestamp: int, i: nat)
    ensures Definitions("crash", "java_crash") == JavaCrashFields() && |JavaCrashFields()| == |JavaCrashColumns()|
    ensures i < |JavaCrashFields()| ==> Describes(JavaCrashFields()[i], JavaCrashColumns()[i], timestamp)
  {
  }

  lemma AnrIs(timestamp: int, i: nat)
    ensures Definitions("anr", "anr_detected") == AnrFields() && |AnrFields()| == |AnrColumns()|
    ensures i < |AnrFields()| ==> Describes(AnrFields()[i], AnrColumns()[i], timestamp)
  {
  }

  lemma AppExitIs(timestamp: int, i: nat)
    ensures Definitions("crash", "app_exit") == AppExitFields() && |AppExitFields()| == |AppExitColumns(timestamp)|
    ensures i < |AppExitFields()| ==> Describes(AppExitFields()[i], AppExitColumns(timestamp)[i], timestamp)
  {
  }

  lemma SdkHealthIs(timestamp: int, i: nat)
    ensures Definitions("core", "sdk_health") == SdkHealthFields() && |SdkHealthFields()| == |SdkHealthColumns()|
    ensures i < |SdkHealthFields()| ==> Describes(SdkHealthFields()[i], SdkHealthColumns()[i], timestamp)
  {
  }

  function ColumnsOf(moduleName: string, name: string, timestamp: int): seq<Column> {
    if moduleName == "crash" then
      if name == "java_crash" then JavaCrashColumns() else if name == "app_exit" then AppExitColumns(timestamp) else []
    else if moduleName == "anr" && name == "anr_detected" then AnrColumns()
    else if moduleName == "core" && name == "sdk_health" then SdkHealthColumns()
    else []
  }

  lemma RegistryIs(moduleName: string, name: string, timestamp: int, i: nat)
    ensures |Definitions(moduleName, name)| == |ColumnsOf(moduleName, name, timestamp)|
    ensures i < |Definitions(moduleName, name)| ==>
              Describes(Definitions(moduleName, name)[i], ColumnsOf(moduleName, name, timestamp)[i], timestamp)
  {
    JavaCrashIs(timestamp, i);
    AnrIs(timestamp, i);
    AppExitIs(timestamp, i);
    SdkHealthIs(timestamp, i);
  }

  /** Every column of a registered event is read by its own key, and nothing else is recorded. */
  lemma ColumnsAreRead(fl: Floats, e: Event, n: Normalized, i: nat)
    requires Projects(fl, e, n)
    ensures var columns := ColumnsOf(e.moduleName, e.name, e.timestamp);
            i < |columns| ==> var c := columns[i]; Reads(fl, e, n, c.field, c.key, c.values, c.indexed)
  {
    RegistryIs(e.moduleName, e.name, e.timestamp, i);
    var defs, columns := Definitions(e.moduleName, e.name), ColumnsOf(e.moduleName, e.name, e.timestamp);
    if i < |columns| {
      FieldReads(fl, e, n, i, defs[i], columns[i].values);
    }
  }

  lemma OthersAreNotRecorded(fl: Floats, e: Event, n: Normalized, f: Field)
    requires Projects(fl, e, n)
    requires f in n.states || f in n.registered || f in n.indexed
    ensures exists i :: 0 <= i < |ColumnsOf(e.moduleName, e.name, e.timestamp)| && ColumnsOf(e.moduleName, e.name, e.timestamp)[i].field == f
  {
    var defs := Definitions(e.moduleName, e.name);
    var i :| 0 <= i < |defs| && defs[i].field == f;
    RegistryIs(e.moduleName, e.name, e.timestamp, i);
    assert ColumnsOf(e.moduleName, e.name, e.timestamp)[i].field == f;
  }

  // ----- time and retention -----

  /** The document of an app exit says when it happened, at most ten minutes after it was collected. */
  predicate Reported(e: Event, t: int) {
    match Lookup(e.fields, "exitTimestamp")
    case None => false
    case Some(v) => Writes(v, t) && 0 < t <= Min(e.timestamp + 600000, 9223372036854775807)
  }

  lemma ExitTimeIs(fl: Floats, e: Event, n: Normalized, high: int)
    requires Reads(fl, e, n, ExitTimestamp, "exitTimestamp", Wholes(1, high), false) && high == Min(e.timestamp + 600000, 9223372036854775807)
    ensures forall t :: (ExitTimestamp in n.registered && n.registered[ExitTimestamp] == Int(t)) <==> Reported(e, t)
    ensures ExitTimestamp in n.registered ==> n.registered[ExitTimestamp].Int?
  {
    match Lookup(e.fields, "exitTimestamp") {
      case None =>
      case Some(v) =>
        forall t: int
          ensures (ExitTimestamp in n.registered && n.registered[ExitTimestamp] == Int(t)) <==> Accepts(fl, Wholes(1, high), v, Int(t)) {
        }
        if ExitTimestamp in n.registered { assert Accepts(fl, Wholes(1, high), v, n.registered[ExitTimestamp]); }
    }
  }

  /** An app exit counts at its own time when it reports a plausible one, anything else when it was collected. */
  lemma OccurrenceTimeIs(fl: Floats, e: Event, n: Normalized)
    requires Projects(fl, e, n)
    ensures var exit := e.moduleName == "crash" && e.name == "app_exit";
            && (forall t :: exit && Reported(e, t) ==> OccurrenceTime(e, n) == t)
            && ((forall t :: !(exit && Reported(e, t))) ==> OccurrenceTime(e, n) == e.timestamp)
  {
    if e.moduleName == "crash" && e.name == "app_exit" {
      ColumnsAreRead(fl, e, n, 0);
      ExitTimeIs(fl, e, n, Min(e.timestamp + 600000, 9223372036854775807));
      if ExitTimestamp in n.registered { assert Reported(e, n.registered[ExitTimestamp].i); }
    }
  }

  lemma KeptIsScalar(fl: Floats, d: Definition, fields: Json, timestamp: int)
    ensures var o := OutcomeOf(fl, d, fields, timestamp); o.Kept? ==> o.value.Int? || o.value.Num? || o.value.Bool? || o.value.Str?
  {
  }

  lemma RetainedAre(n: Normalized, d: Definition, o: Outcome)
    requires FieldTabulated(d, o, n) && (o.Kept? ==> o.value.Int? || o.value.Num? || o.value.Bool? || o.value.Str?)
    ensures var f := d.field;
            && (f in Retained(n) <==> f in n.indexed && !n.indexed[f].Str?)
            && (f in Retained(n) ==> f in n.registered && Retained(n)[f] == n.registered[f])
            && (n.states[f] == AVAILABLE <==> f in n.registered)
  {
  }

  /** Retention keeps exactly the indexed values that are not text, and every field's state but that of what it drops. */
  lemma PruningKeepsNumbers(fl: Floats, e: Event, n: Normalized, i: nat)
    requires Projects(fl, e, n) && i < |Definitions(e.moduleName, e.name)|
    ensures var f, p := Definitions(e.moduleName, e.name)[i].field, PruneNormalized(n);
            && p.indexed == p.registered
            && (f in p.registered <==> f in n.indexed && !n.indexed[f].Str?)
            && (f in p.registered ==> f in n.registered && p.registered[f] == n.registered[f])
            && f in p.states && f in n.states
            && p.states[f] == (if f in n.registered && f !in p.registered then EXPIRED else n.states[f])
  {
    var d := Definitions(e.moduleName, e.name)[i];
    var o := OutcomeOf(fl, d, e.fields, e.timestamp);
    KeptIsScalar(fl, d, e.fields, e.timestamp);
    assert FieldTabulated(d, Outcomes(fl, e, Definitions(e.moduleName, e.name))[i], n);
    RetainedAre(n, d, o);
  }
}
