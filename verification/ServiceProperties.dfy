/** What SetProperties lets through (azfile/url_service.go, azfile/zz_generated_service.go). */
module ServiceProperties {
  import opened Text
  import opened Validation

  type int32 = x: int | -0x8000_0000 <= x < 0x8000_0000

  // ----- The properties a caller sets -----

  datatype MetricProperties = MetricProperties(
    metricEnabled: bool,
    includeApis: bool,
    retentionPolicyEnabled: bool,
    retentionDays: int32)

  datatype FileServiceProperties = FileServiceProperties(hourMetrics: MetricProperties,
                                                         minuteMetrics: MetricProperties, cors: Value)

  // ----- The properties that are sent -----

  datatype RetentionPolicy = RetentionPolicy(enabled: bool, days: Option<int32>)

  datatype Metrics = Metrics(version: Text, enabled: bool, includeApis: Option<bool>,
                             retentionPolicy: Option<RetentionPolicy>)

  datatype StorageServiceProperties = StorageServiceProperties(hourMetrics: Option<Metrics>,
                                                               minuteMetrics: Option<Metrics>, cors: Value)

  const STORAGE_ANALYTICS_VERSION: Text := "1.0"

  /** MetricProperties.toM. */
  function ToM(mp: MetricProperties): Metrics {
    var m := Metrics(STORAGE_ANALYTICS_VERSION, false, None, Some(RetentionPolicy(false, None)));
    if !mp.metricEnabled then m else
      var n := m.(enabled := true, includeApis := Some(mp.includeApis));
      if !mp.retentionPolicyEnabled then n else n.(retentionPolicy := Some(RetentionPolicy(true,
          Some(mp.retentionDays))))
  }

  /** FileServiceProperties.toSsp. */
  function ToSsp(fsp: FileServiceProperties): StorageServiceProperties {
    StorageServiceProperties(Some(ToM(fsp.hourMetrics)), Some(ToM(fsp.minuteMetrics)), fsp.cors)
  }

  // ----- As reflection sees them -----

  const HOUR: Text := "HourMetrics"
  const MINUTE: Text := "MinuteMetrics"
  const CORS: Text := "Cors"
  const RETENTION: Text := "RetentionPolicy"
  const DAYS: Text := "Days"
  const ENABLED: Text := "Enabled"

  function DaysValue(days: Option<int32>): Value {
    match days case None => Pointer(None) case Some(d) => Pointer(Some(Int(d)))
  }

  function RetentionValue(r: RetentionPolicy): Value {
    Struct([Field(ENABLED, OtherKind), Field(DAYS, DaysValue(r.days))])
  }

  function MetricsValue(m: Metrics): Value {
    Struct([Field("Version", String(m.version)),
            Field(ENABLED, OtherKind),
            Field("IncludeAPIs", match m.includeApis case None => Pointer(None)
                  case Some(_) => Pointer(Some(OtherKind))),
            Field(RETENTION, Pointer(OptionalRetention(m)))])
  }

  function OptionalRetention(m: Metrics): Option<Value> {
    match m.retentionPolicy case None => None case Some(r) => Some(RetentionValue(r))
  }

  function PropertiesValue(p: StorageServiceProperties): Value {
    Struct([Field("rawResponse", Pointer(None)), Field(HOUR, OptionalMetrics(p.hourMetrics)),
            Field(MINUTE, OptionalMetrics(p.minuteMetrics)), Field(CORS, p.cors)])
  }

  function OptionalMetrics(m: Option<Metrics>): Value {
    match m case None => Pointer(None) case Some(x) => Pointer(Some(MetricsValue(x)))
  }

  // ----- The constraint table -----

  const DOT: Text := "."
  const SSP: Text := "storageServiceProperties"
  const TIMEOUT: Text := "timeout"

  function Nullable(target: Text, chain: seq<Constraint>): Constraint {
    Constraint(target, Null, BoolRule(false), Chain(chain))
  }

  function DaysConstraints(target: Text): seq<Constraint> {
    [Constraint(target, InclusiveMaximum, IntRule(365), NilChain),
     Constraint(target, InclusiveMinimum, IntRule(1), NilChain)]
  }

  function DaysConstraint(retention: Text): Constraint {
    Nullable(retention + DOT + DAYS, DaysConstraints(retention + DOT + DAYS))
  }

  function RetentionConstraint(metrics: Text): Constraint {
    Nullable(metrics + DOT + RETENTION, [DaysConstraint(metrics + DOT + RETENTION)])
  }

  function MetricsConstraint(name: Text): Constraint {
    Nullable(SSP + DOT + name, [RetentionConstraint(SSP + DOT + name)])
  }

  function TimeoutConstraint(): Constraint {
    Nullable(TIMEOUT, [Constraint(TIMEOUT, InclusiveMinimum, IntRule(0), NilChain)])
  }

  function Table(p: StorageServiceProperties, timeout: Option<int32>): seq<Validation> {
    [Validation(PropertiesValue(p), [MetricsConstraint(HOUR), MetricsConstraint(MINUTE)]),
     Validation(DaysValue(timeout), [TimeoutConstraint()])]
  }

  // ----- What the table means -----

  predicate DaysInRange(days: Option<int32>) {
    days.Some? ==> 1 <= days.value <= 365
  }

  predicate MetricsInRange(m: Option<Metrics>) {
    m.Some? && m.value.retentionPolicy.Some? ==> DaysInRange(m.value.retentionPolicy.value.days)
  }

  /** Days are checked where metrics are enabled with retention enabled. */
  predicate Acceptable(mp: MetricProperties) {
    mp.metricEnabled && mp.retentionPolicyEnabled ==> 1 <= mp.retentionDays <= 365
  }

  lemma {:induction false} LastPartAfterDot(a: Text, name: Text)
    requires '.' !in name
    ensures LastPart(a + DOT + name) == name
    decreases |a|
  {
    var t := a + DOT + name;
    var i := IndexOf(a, '.');
    if i == -1 {
      assert t == a + ['.'] + name;
      IndexOfAppend(a, '.', name);
      assert t[|a| + 1..] == name;
    } else {
      var head, tail := a[..i], a[i + 1..];
      assert t == head + ['.'] + (tail + DOT + name);
      IndexOfAppend(head, '.', tail + DOT + name);
      assert t[i + 1..] == tail + DOT + name;
      LastPartAfterDot(tail, name);
    }
  }

  lemma NullableMeans(elem: Option<Value>, target: Text, chain: seq<Constraint>)
    ensures Satisfies(Pointer(elem), Nullable(target, chain)) <==> elem.Some? ==> SatisfiesAll(elem.value, chain)
  {
    var v, c := Pointer(elem), Nullable(target, chain);
    if elem.Some? {
      ChainMeans(v, elem.value, c);
    }
  }

  lemma FieldMeans(fields: seq<Field>, c: Constraint, name: Text, value: Value)
    requires LastPart(c.target) == name && FieldByName(fields, name) == Some(value)
    ensures Satisfies(Struct(fields), c) <==> Satisfies(value, c)
  {
    assert Next(Struct(fields), c) == [Check(value, c)];
    assert Next(Struct(fields), c)[0] == Check(value, c);
  }

  lemma LeafMeans(i: int, c: Constraint)
    requires c.chain.NilChain?
    ensures Satisfies(Int(i), c) <==> IntPasses(i, c)
  {
  }

  lemma DaysMean(days: Option<int32>, target: Text)
    ensures Satisfies(DaysValue(days), Nullable(target, DaysConstraints(target))) <==> DaysInRange(days)
  {
    var cs := DaysConstraints(target);
    match days
    case None => NullableMeans(None, target, cs);
    case Some(d) =>
      NullableMeans(Some(Int(d)), target, cs);
      LeafMeans(d, cs[0]);
      LeafMeans(d, cs[1]);
      assert cs[0] in cs && cs[1] in cs;
  }

  lemma One(v: Value, c: Constraint)
    ensures SatisfiesAll(v, [c]) <==> Satisfies(v, c)
  {
    assert c in [c];
  }

  lemma Two(v: Value, c: Constraint, d: Constraint)
    ensures SatisfiesAll(v, [c, d]) <==> Satisfies(v, c) && Satisfies(v, d)
  {
    assert c in [c, d] && d in [c, d];
    hide Satisfies;
  }

  lemma RetentionMeans(r: RetentionPolicy, retention: Text)
    ensures Satisfies(RetentionValue(r), DaysConstraint(retention)) <==> DaysInRange(r.days)
  {
    var c := DaysConstraint(retention);
    LastPartAfterDot(retention, DAYS);
    hide Satisfies;
    var fields := RetentionValue(r).fields;
    assert fields[1..][0].name == DAYS;
    assert FieldByName(fields, DAYS) == Some(DaysValue(r.days));
    FieldMeans(fields, c, DAYS, DaysValue(r.days));
    DaysMean(r.days, retention + DOT + DAYS);
  }

  lemma RetentionField(m: Metrics)
    ensures FieldByName(MetricsValue(m).fields, RETENTION) == Some(Pointer(OptionalRetention(m)))
  {
    var fields := MetricsValue(m).fields;
    assert fields[1..][1..][1..][0].name == RETENTION;
    hide RetentionValue;
  }

  lemma OptionalRetentionMeans(m: Metrics, target: Text)
    ensures Satisfies(Pointer(OptionalRetention(m)), Nullable(target, [DaysConstraint(target)])) <==>
            MetricsInRange(Some(m))
  {
    hide Satisfies, DaysConstraint, RetentionValue, DaysInRange, Nullable;
    NullableMeans(OptionalRetention(m), target, [DaysConstraint(target)]);
    if m.retentionPolicy.Some? {
      One(RetentionValue(m.retentionPolicy.value), DaysConstraint(target));
      RetentionMeans(m.retentionPolicy.value, target);
    }
  }

  lemma MetricsMean(m: Metrics, metrics: Text)
    ensures Satisfies(MetricsValue(m), RetentionConstraint(metrics)) <==> MetricsInRange(Some(m))
  {
    LastPartAfterDot(metrics, RETENTION);
    RetentionField(m);
    OptionalRetentionMeans(m, metrics + DOT + RETENTION);
    hide Satisfies, LastPart, FieldByName, MetricsInRange, DaysConstraint, OptionalRetention;
    var c := RetentionConstraint(metrics);
    FieldMeans(MetricsValue(m).fields, c, RETENTION, Pointer(OptionalRetention(m)));
  }

  lemma PropertyMeans(p: StorageServiceProperties, name: Text, m: Option<Metrics>)
    requires '.' !in name && FieldByName(PropertiesValue(p).fields, name) == Some(OptionalMetrics(m))
    ensures Satisfies(PropertiesValue(p), MetricsConstraint(name)) <==> MetricsInRange(m)
  {
    var c := MetricsConstraint(name);
    var target := SSP + DOT + name;
    LastPartAfterDot(SSP, name);
    hide Satisfies, LastPart, FieldByName, RetentionConstraint, MetricsValue;
    FieldMeans(PropertiesValue(p).fields, c, name, OptionalMetrics(m));
    match m {
      case None => NullableMeans(None, target, [RetentionConstraint(target)]);
      case Some(x) =>
        NullableMeans(Some(MetricsValue(x)), target, [RetentionConstraint(target)]);
        One(MetricsValue(x), RetentionConstraint(target));
        MetricsMean(x, target);
    }
  }

  lemma FieldsOf(p: StorageServiceProperties)
    ensures var fields := PropertiesValue(p).fields;
            FieldByName(fields, HOUR) == Some(OptionalMetrics(p.hourMetrics)) &&
              FieldByName(fields, MINUTE) == Some(OptionalMetrics(p.minuteMetrics))
    ensures '.' !in HOUR && '.' !in MINUTE
  {
    var fields := PropertiesValue(p).fields;
    assert fields[1..][0].name == HOUR && fields[1..][1..][0].name == MINUTE;
    assert |HOUR| != |MINUTE|;
    hide OptionalMetrics;
  }

  lemma TimeoutMeans(timeout: Option<int32>)
    ensures Satisfies(DaysValue(timeout), TimeoutConstraint()) <==> (timeout.Some? ==> 0 <= timeout.value)
  {
    var leaf := Constraint(TIMEOUT, InclusiveMinimum, IntRule(0), NilChain);
    match timeout {
      case None => NullableMeans(None, TIMEOUT, [leaf]);
      case Some(t) =>
        NullableMeans(Some(Int(t)), TIMEOUT, [leaf]);
        One(Int(t), leaf);
        LeafMeans(t, leaf);
    }
  }

  /** The table accepts exactly the properties whose days, where there are any, are in range. */
  lemma TableMeans(p: StorageServiceProperties, timeout: Option<int32>)
    ensures (forall item :: item in Table(p, timeout) ==> SatisfiesAll(item.targetValue, item.constraints)) <==>
            MetricsInRange(p.hourMetrics) && MetricsInRange(p.minuteMetrics) && (timeout.Some? ==> 0 <= timeout.value)
  {
    FieldsOf(p);
    PropertyMeans(p, HOUR, p.hourMetrics);
    PropertyMeans(p, MINUTE, p.minuteMetrics);
    TimeoutMeans(timeout);
    One(DaysValue(timeout), TimeoutConstraint());
    Two(PropertiesValue(p), MetricsConstraint(HOUR), MetricsConstraint(MINUTE));
    hide Satisfies, SatisfiesAll, MetricsConstraint, TimeoutConstraint, PropertiesValue, DaysValue, MetricsInRange;
    var t := Table(p, timeout);
    assert t[0] in t && t[1] in t;
  }

  /** The validation at the head of SetProperties; none is an error that names the constraint. */
  method ValidateProperties(p: StorageServiceProperties, timeout: Option<int32>) returns (err: Option<Constraint>)
    ensures err.None? <==>
            MetricsInRange(p.hourMetrics) && MetricsInRange(p.minuteMetrics) && (timeout.Some? ==> 0 <= timeout.value)
  {
    TableRuns(p, timeout);
    TableMeans(p, timeout);
    hide *;
    err := Validate(Table(p, timeout));
  }

  lemma TableRuns(p: StorageServiceProperties, timeout: Option<int32>)
    ensures forall item, c :: item in Table(p, timeout) && c in item.constraints ==> Runs(item.targetValue, c)
  {
    MetricsPlain(HOUR);
    MetricsPlain(MINUTE);
    assert Plain(TimeoutConstraint());
    hide MetricsConstraint, PropertiesValue, DaysValue, TimeoutConstraint, Plain, Runs;
    forall item, c | item in Table(p, timeout) && c in item.constraints
      ensures Runs(item.targetValue, c)
    {
      PlainRuns(item.targetValue, c);
    }
  }

  lemma MetricsPlain(name: Text)
    ensures Plain(MetricsConstraint(name))
  {
    var target := SSP + DOT + name + DOT + RETENTION;
    assert Plain(DaysConstraint(target));
  }

  /** SetProperties of the service URL: through validation if and only if hour and minute metrics,
      where enabled with retention, ask for 1 to 365 days. */
  method SetProperties(properties: FileServiceProperties) returns (err: Option<Constraint>)
    ensures err.None? <==> Acceptable(properties.hourMetrics) && Acceptable(properties.minuteMetrics)
  {
    err := ValidateProperties(ToSsp(properties), None);
  }
}
