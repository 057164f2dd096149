/** What one call of com.alerts.AlertGenerator.evaluateData fires, rule by rule, as functions of the patient's
    stored records and the clock reading `now`. The imperative engine in AlertEngine is proved to fire exactly
    these alerts, in this order. */
module AlertRules {
  import opened Outcomes
  import opened SeqUtil
  import opened JavaText
  import opened PatientData
  import opened Alerts

  const SATURATION: string := "Saturation"
  const SYSTOLIC: string := "SystolicPressure"
  const DIASTOLIC: string := "DiastolicPressure"
  const ECG: string := "ECG"

  const CRITICAL_THRESHOLD: string := "Critical threshold"
  const TREND: string := "Trend"
  const RAPID_DROP: string := "Rapid drop"
  const LOW_SATURATION: string := "Low Saturation"
  const HYPOTENSIVE_HYPOXEMIA: string := "Hypotensive Hypoxemia"
  const ABNORMAL_ECG: string := "Abnormal ECG"

  /** The two ways evaluateData throws IndexOutOfBoundsException: the patient has no record to dispatch on, or
      the saturation rule reads the first element of an empty window. */
  datatype EvaluationError = NoRecords | EmptySaturationWindow

  function Abs(x: real): real {
    if x < 0.0 then -x else x
  }

  /** An alert naming the patient of `record` (String.valueOf of its id), stamped with its timestamp. */
  function AlertFor(record: PatientRecord, condition: string): Alert {
    Alert(FormatInt(record.patientId), condition, record.timestamp)
  }

  function Repeat(a: Alert, n: nat): (r: seq<Alert>)
    ensures |r| == n && forall i :: 0 <= i < n ==> r[i] == a
  {
    if n == 0 then [] else Repeat(a, n - 1) + [a]
  }

  /** One alert per record, each naming that record's patient and carrying that record's timestamp. */
  function Stamp(records: seq<PatientRecord>, condition: string): (r: seq<Alert>)
    ensures |r| == |records|
  {
    seq(|records|, i requires 0 <= i < |records| => AlertFor(records[i], condition))
  }

  // ---------------------------------------------------------------- evaluateBloodPressure

  /** Critical threshold: only the latest record is looked at; systolic pressure outside the closed band
      [90, 180] or diastolic pressure outside [60, 120] fires once, stamped with that record. */
  function CriticalThresholdAlerts(latest: PatientRecord): (r: seq<Alert>)
    ensures |r| <= 1
    ensures r != [] <==>
              (latest.recordType == SYSTOLIC && !(90.0 <= latest.measurementValue <= 180.0)) ||
              (latest.recordType == DIASTOLIC && !(60.0 <= latest.measurementValue <= 120.0))
    ensures forall i :: 0 <= i < |r| ==> r[i] == AlertFor(latest, CRITICAL_THRESHOLD)
  {
    if latest.recordType == SYSTOLIC && (latest.measurementValue > 180.0 || latest.measurementValue < 90.0) then
      [AlertFor(latest, CRITICAL_THRESHOLD)]
    else if latest.recordType == DIASTOLIC && (latest.measurementValue > 120.0 || latest.measurementValue < 60.0) then
      [AlertFor(latest, CRITICAL_THRESHOLD)]
    else []
  }

  /** Trend: the records of the latest record's type among the three most recent; when there are three, both
      consecutive differences must exceed 10. */
  function TrendAlerts(records: seq<PatientRecord>): seq<Alert>
    requires |records| > 0
  {
    var latest := Last(records);
    TrendOver(WithLabel(latest.recordType, LastN(records, 3)), latest)
  }

  /** The Trend decision on the filtered recent records, stamped with the latest record. */
  function TrendOver(recent: seq<PatientRecord>, latest: PatientRecord): seq<Alert> {
    if |recent| == 3
       && Abs(recent[0].measurementValue - recent[1].measurementValue) > 10.0
       && Abs(recent[1].measurementValue - recent[2].measurementValue) > 10.0
    then [AlertFor(latest, TREND)]
    else []
  }

  function BloodPressureAlerts(records: seq<PatientRecord>): seq<Alert>
    requires |records| > 0
  {
    CriticalThresholdAlerts(Last(records)) + TrendAlerts(records)
  }

  /** Trend fires exactly when the three most recent stored records all have the latest record's type and both
      steps between them exceed 10 in magnitude. */
  lemma TrendFiresIff(records: seq<PatientRecord>)
    requires |records| > 0
    ensures var n := |records|;
            TrendAlerts(records) != [] <==>
              n >= 3
              && records[n - 2].recordType == records[n - 1].recordType
              && records[n - 3].recordType == records[n - 1].recordType
              && Abs(records[n - 1].measurementValue - records[n - 2].measurementValue) > 10.0
              && Abs(records[n - 2].measurementValue - records[n - 3].measurementValue) > 10.0
    ensures TrendAlerts(records) != [] ==> TrendAlerts(records) == [AlertFor(Last(records), TREND)]
  {
    var n := |records|;
    var latest := Last(records);
    var recent := LastN(records, 3);
    WithLabelKeepsAll(latest.recordType, recent);
    if n >= 3 {
      assert recent == [records[n - 1], records[n - 2], records[n - 3]];
    } else {
      assert |WithLabel(latest.recordType, recent)| < 3;
    }
  }

  // ---------------------------------------------------------------- evaluateBloodSaturation

  /** The saturation records of the last ten minutes, in stored order. */
  function SaturationWindow(records: seq<PatientRecord>, now: int): seq<PatientRecord> {
    WithLabel(SATURATION, LastTenMinutes(records, now))
  }

  /** Rapid drop (the oldest windowed reading differs from the latest by at least 5), then Low Saturation (the
      oldest windowed reading is below 92), both stamped with the latest record; an empty window throws. */
  function SaturationAlerts(records: seq<PatientRecord>, now: int): Result<seq<Alert>, EvaluationError>
    requires |records| > 0
  {
    var window := SaturationWindow(records, now);
    if window == [] then Err(EmptySaturationWindow)
    else Ok(SaturationFired(window[0], Last(records)))
  }

  /** At most Rapid drop then Low Saturation, each fired on its own condition, both naming the latest record. */
  function SaturationFired(oldest: PatientRecord, latest: PatientRecord): (r: seq<Alert>)
    ensures |r| <= 2
    ensures AlertFor(latest, RAPID_DROP) in r <==> Abs(oldest.measurementValue - latest.measurementValue) >= 5.0
    ensures AlertFor(latest, LOW_SATURATION) in r <==> oldest.measurementValue < 92.0
    ensures |r| == 2 ==> r == [AlertFor(latest, RAPID_DROP), AlertFor(latest, LOW_SATURATION)]
    ensures forall i :: 0 <= i < |r| ==> r[i] == AlertFor(latest, RAPID_DROP) || r[i] == AlertFor(latest, LOW_SATURATION)
    ensures forall i :: 0 <= i < |r| ==>
              r[i].patientId == FormatInt(latest.patientId) && r[i].timestamp == latest.timestamp
  {
    (if Abs(oldest.measurementValue - latest.measurementValue) >= 5.0 then [AlertFor(latest, RAPID_DROP)] else [])
    + (if oldest.measurementValue < 92.0 then [AlertFor(latest, LOW_SATURATION)] else [])
  }

  predicate IsRecentSaturation(now: int, r: PatientRecord) {
    r.recordType == SATURATION && now - TEN_MINUTES <= r.timestamp <= now
  }

  /** The saturation rules read the first stored record that is a saturation reading stamped within the last ten
      minutes; when no stored record is one, the call throws. */
  lemma SaturationReadsOldestInWindow(records: seq<PatientRecord>, now: int)
    requires |records| > 0
    ensures var j := FirstIndex(records, (r: PatientRecord) => IsRecentSaturation(now, r));
            SaturationAlerts(records, now)
            == if j == |records| then Err(EmptySaturationWindow) else Ok(SaturationFired(records[j], Last(records)))
  {
    var recent := (r: PatientRecord) => IsRecentSaturation(now, r);
    FilterCompose(records, (r: PatientRecord) => now - TEN_MINUTES <= r.timestamp <= now,
                  (r: PatientRecord) => r.recordType == SATURATION, recent);
    FilterHead(records, recent);
  }

  /** A latest saturation reading stamped within the last ten minutes keeps the saturation window non-empty, so
      the rules do not throw. */
  lemma SaturationWindowHoldsFreshLatest(records: seq<PatientRecord>, now: int)
    requires |records| > 0
    requires Last(records).recordType == SATURATION && now - TEN_MINUTES <= Last(records).timestamp <= now
    ensures SaturationAlerts(records, now).Ok?
  {
    var latest := Last(records);
    LastTenMinutesMembership(records, now, latest);
    FilterMembership(LastTenMinutes(records, now), (r: PatientRecord) => r.recordType == SATURATION, latest);
  }

  // ---------------------------------------------------------------- hypotensiveHypoxemiaAlert

  /** The last ten minutes filtered to saturation records, then systolic records (label order). */
  function HypotensiveWindow(records: seq<PatientRecord>, now: int): seq<PatientRecord> {
    WithLabels([SATURATION, SYSTOLIC], LastTenMinutes(records, now))
  }

  /** A windowed record that fires the rule once for this latest record: after a saturation reading below 92, a
      systolic reading below 90; after any other reading below 90, a saturation reading below 92. */
  predicate IsCompanion(latest: PatientRecord, r: PatientRecord) {
    if latest.recordType == SATURATION
    then r.recordType == SYSTOLIC && latest.measurementValue < 92.0 && r.measurementValue < 90.0
    else r.recordType == SATURATION && latest.measurementValue < 90.0 && r.measurementValue < 92.0
  }

  function CompanionOf(latest: PatientRecord): PatientRecord -> bool {
    (r: PatientRecord) => IsCompanion(latest, r)
  }

  /** Hypotensive Hypoxemia: one alert per companion record in the window (the loop has no break), each stamped
      with the latest record. */
  function HypotensiveAlerts(records: seq<PatientRecord>, now: int): seq<Alert>
    requires |records| > 0
  {
    var latest := Last(records);
    Repeat(AlertFor(latest, HYPOTENSIVE_HYPOXEMIA), |Filter(HypotensiveWindow(records, now), CompanionOf(latest))|)
  }

  /** The number of Hypotensive Hypoxemia alerts is the number of qualifying companion readings among all the
      records of the last ten minutes; every alert carries the latest record's patient and timestamp. An empty
      window fires nothing. */
  lemma HypotensiveCount(records: seq<PatientRecord>, now: int)
    requires |records| > 0
    ensures var latest := Last(records);
            var window := LastTenMinutes(records, now);
            |HypotensiveAlerts(records, now)| ==
              if latest.recordType == SATURATION then
                (if latest.measurementValue < 92.0
                 then |Filter(window, (r: PatientRecord) => r.recordType == SYSTOLIC && r.measurementValue < 90.0)|
                 else 0)
              else
                (if latest.measurementValue < 90.0
                 then |Filter(window, (r: PatientRecord) => r.recordType == SATURATION && r.measurementValue < 92.0)|
                 else 0)
    ensures forall i :: 0 <= i < |HypotensiveAlerts(records, now)| ==>
              HypotensiveAlerts(records, now)[i] == AlertFor(Last(records), HYPOTENSIVE_HYPOXEMIA)
  {
    var window := LastTenMinutes(records, now);
    var saturations := WithLabel(SATURATION, window);
    var systolics := WithLabel(SYSTOLIC, window);
    assert WithLabels([SATURATION], window) == saturations by {
      assert DropLast([SATURATION]) == [];
      assert WithLabels([SATURATION], window) == [] + saturations;
    }
    assert HypotensiveWindow(records, now) == saturations + systolics by {
      assert DropLast([SATURATION, SYSTOLIC]) == [SATURATION];
    }
    CompanionCount(window, Last(records));
  }

  /** Among the saturation readings followed by the systolic readings of a window, the companions of `latest`
      are the readings of the one type its rule pairs with, under that type's threshold. */
  lemma CompanionCount(window: seq<PatientRecord>, latest: PatientRecord)
    ensures |Filter(WithLabel(SATURATION, window) + WithLabel(SYSTOLIC, window), CompanionOf(latest))| ==
              if latest.recordType == SATURATION then
                (if latest.measurementValue < 92.0
                 then |Filter(window, (r: PatientRecord) => r.recordType == SYSTOLIC && r.measurementValue < 90.0)|
                 else 0)
              else
                (if latest.measurementValue < 90.0
                 then |Filter(window, (r: PatientRecord) => r.recordType == SATURATION && r.measurementValue < 92.0)|
                 else 0)
  {
    var companion := CompanionOf(latest);
    var saturations := WithLabel(SATURATION, window);
    var systolics := WithLabel(SYSTOLIC, window);
    FilterAppend(saturations, systolics, companion);
    var onSaturation := (r: PatientRecord) => r.recordType == SATURATION && companion(r);
    var onSystolic := (r: PatientRecord) => r.recordType == SYSTOLIC && companion(r);
    FilterCompose(window, (r: PatientRecord) => r.recordType == SATURATION, companion, onSaturation);
    FilterCompose(window, (r: PatientRecord) => r.recordType == SYSTOLIC, companion, onSystolic);
    if latest.recordType == SATURATION {
      FilterKeepsNone(window, onSaturation);
      if latest.measurementValue < 92.0 {
        FilterSame(window, onSystolic, (r: PatientRecord) => r.recordType == SYSTOLIC && r.measurementValue < 90.0);
      } else {
        FilterKeepsNone(window, onSystolic);
      }
    } else {
      FilterKeepsNone(window, onSystolic);
      if latest.measurementValue < 90.0 {
        FilterSame(window, onSaturation, (r: PatientRecord) => r.recordType == SATURATION && r.measurementValue < 92.0);
      } else {
        FilterKeepsNone(window, onSaturation);
      }
    }
  }

  lemma FilterSame(s: seq<PatientRecord>, keep: PatientRecord -> bool, same: PatientRecord -> bool)
    requires forall x :: keep(x) == same(x)
    ensures Filter(s, keep) == Filter(s, same)
  {
    FilterCompose(s, keep, keep, same);
    FilterCompose(s, keep, keep, keep);
  }

  // ---------------------------------------------------------------- evaluateECG

  /** The ECG records of the last ten minutes, in stored order. */
  function EcgWindow(records: seq<PatientRecord>, now: int): seq<PatientRecord> {
    WithLabel(ECG, LastTenMinutes(records, now))
  }

  function Sum(records: seq<PatientRecord>): real {
    if records == [] then 0.0 else Sum(DropLast(records)) + Last(records).measurementValue
  }

  function Mean(records: seq<PatientRecord>): real
    requires |records| > 0
  {
    Sum(records) / |records| as real
  }

  predicate Deviates(r: PatientRecord, mean: real) {
    r.measurementValue >= mean + 1.0 || r.measurementValue <= mean - 1.0
  }

  function DeviatesFrom(mean: real): PatientRecord -> bool {
    (r: PatientRecord) => Deviates(r, mean)
  }

  /** Abnormal ECG: in window order, one alert per windowed reading at least 1 away from the window's mean,
      stamped with that reading's own patient and timestamp; an empty window fires nothing. */
  function EcgAlerts(records: seq<PatientRecord>, now: int): seq<Alert> {
    var window := EcgWindow(records, now);
    if window == [] then [] else Stamp(Filter(window, DeviatesFrom(Mean(window))), ABNORMAL_ECG)
  }

  lemma {:induction false} SumOfSteady(records: seq<PatientRecord>, level: real)
    requires forall i :: 0 <= i < |records| ==> records[i].measurementValue == level
    ensures Sum(records) == |records| as real * level
    decreases |records|
  {
    if records != [] {
      SumOfSteady(DropLast(records), level);
    }
  }

  /** A window whose ECG readings all have the same value fires nothing: every reading equals the mean. */
  lemma EcgSteadyWindowSilent(records: seq<PatientRecord>, now: int, level: real)
    requires forall i :: 0 <= i < |EcgWindow(records, now)| ==> EcgWindow(records, now)[i].measurementValue == level
    ensures EcgAlerts(records, now) == []
  {
    var window := EcgWindow(records, now);
    if window != [] {
      SumOfSteady(window, level);
      assert Mean(window) == level;
      FilterKeepsNone(window, DeviatesFrom(level));
    }
  }

  /** Every windowed reading at least 1 away from the mean raises an alert with its own patient and timestamp,
      and every alert raised is one of these. */
  lemma EcgAlertsExactly(records: seq<PatientRecord>, now: int)
    ensures var window := EcgWindow(records, now);
            forall x :: x in window && Deviates(x, Mean(window)) ==> AlertFor(x, ABNORMAL_ECG) in EcgAlerts(records, now)
    ensures var window := EcgWindow(records, now);
            forall a :: a in EcgAlerts(records, now) ==>
              exists x :: x in window && Deviates(x, Mean(window)) && a == AlertFor(x, ABNORMAL_ECG)
  {
    var window := EcgWindow(records, now);
    if window != [] {
      var deviating := Filter(window, DeviatesFrom(Mean(window)));
      var alerts := Stamp(deviating, ABNORMAL_ECG);
      forall x | x in window && Deviates(x, Mean(window))
        ensures AlertFor(x, ABNORMAL_ECG) in alerts
      {
        FilterMembership(window, DeviatesFrom(Mean(window)), x);
        var k :| 0 <= k < |deviating| && deviating[k] == x;
        assert alerts[k] == AlertFor(x, ABNORMAL_ECG);
      }
      forall a | a in alerts
        ensures exists x :: x in window && Deviates(x, Mean(window)) && a == AlertFor(x, ABNORMAL_ECG)
      {
        var k :| 0 <= k < |alerts| && alerts[k] == a;
        FilterMembership(window, DeviatesFrom(Mean(window)), deviating[k]);
        assert a == AlertFor(deviating[k], ABNORMAL_ECG);
      }
    }
  }

  /** The ECG alerts follow the window: the readings behind them are the deviating readings of the window, each
      as often as it is stored and in window order, and alert k is stamped with the k-th of them. */
  lemma EcgAlertsInWindowOrder(records: seq<PatientRecord>, now: int)
    ensures var window := EcgWindow(records, now);
            window != [] ==>
              var deviating := Filter(window, DeviatesFrom(Mean(window)));
              IsSubsequence(deviating, window)
              && (forall x :: multiset(deviating)[x] == if Deviates(x, Mean(window)) then multiset(window)[x] else 0)
              && |EcgAlerts(records, now)| == |deviating|
              && forall k :: 0 <= k < |deviating| ==> EcgAlerts(records, now)[k] == AlertFor(deviating[k], ABNORMAL_ECG)
  {
    var window := EcgWindow(records, now);
    if window != [] {
      var deviating := Filter(window, DeviatesFrom(Mean(window)));
      assert EcgAlerts(records, now) == Stamp(deviating, ABNORMAL_ECG);
      FilterIsSubsequence(window, DeviatesFrom(Mean(window)));
      FilterMultiset(window, DeviatesFrom(Mean(window)));
    }
  }

  // ---------------------------------------------------------------- evaluateData

  /** Dispatch on the type of the latest record: saturation runs the saturation rules then Hypotensive
      Hypoxemia; systolic pressure the blood-pressure rules then Hypotensive Hypoxemia; diastolic pressure the
      blood-pressure rules; ECG the ECG rule; any other type nothing. */
  function Evaluate(records: seq<PatientRecord>, now: int): (r: Result<seq<Alert>, EvaluationError>)
    ensures r.Err? <==> records == [] || (Last(records).recordType == SATURATION && SaturationWindow(records, now) == [])
    ensures records == [] ==> r == Err(NoRecords)
    ensures records != [] && Last(records).recordType !in {SATURATION, SYSTOLIC, DIASTOLIC, ECG} ==> r == Ok([])
  {
    if records == [] then Err(NoRecords)
    else
      var latest := Last(records);
      if latest.recordType == SATURATION then
        match SaturationAlerts(records, now)
        case Err(e) => Err(e)
        case Ok(fired) => Ok(fired + HypotensiveAlerts(records, now))
      else if latest.recordType == SYSTOLIC then Ok(BloodPressureAlerts(records) + HypotensiveAlerts(records, now))
      else if latest.recordType == DIASTOLIC then Ok(BloodPressureAlerts(records))
      else if latest.recordType == ECG then Ok(EcgAlerts(records, now))
      else Ok([])
  }

  /** Every alert of `alerts` names patient `id`, as String.valueOf writes it. */
  predicate NamesPatient(alerts: seq<Alert>, id: int) {
    forall k :: 0 <= k < |alerts| ==> alerts[k].patientId == FormatInt(id)
  }

  lemma NamesPatientAppend(a: seq<Alert>, b: seq<Alert>, id: int)
    requires NamesPatient(a, id) && NamesPatient(b, id)
    ensures NamesPatient(a + b, id)
  {
    assert forall k :: |a| <= k < |a + b| ==> (a + b)[k] == b[k - |a|];
  }

  /** The rules stamped with the latest record name its patient. */
  lemma LatestRulesNamePatient(records: seq<PatientRecord>, now: int)
    requires |records| > 0
    ensures NamesPatient(BloodPressureAlerts(records), Last(records).patientId)
    ensures NamesPatient(HypotensiveAlerts(records, now), Last(records).patientId)
    ensures SaturationAlerts(records, now).Ok? ==> NamesPatient(SaturationAlerts(records, now).value, Last(records).patientId)
  {
    var latest := Last(records);
    var recent := WithLabel(latest.recordType, LastN(records, 3));
    assert NamesPatient(CriticalThresholdAlerts(latest), latest.patientId);
    assert NamesPatient(TrendOver(recent, latest), latest.patientId);
    NamesPatientAppend(CriticalThresholdAlerts(latest), TrendOver(recent, latest), latest.patientId);
  }

  /** When every stored record belongs to one patient, every alert a call fires names that patient. */
  lemma EvaluateNamesPatient(records: seq<PatientRecord>, now: int, id: int)
    requires forall i :: 0 <= i < |records| ==> records[i].patientId == id
    ensures Evaluate(records, now).Ok? ==> NamesPatient(Evaluate(records, now).value, id)
  {
    if records != [] {
      var latest := Last(records);
      assert latest.patientId == id;
      LatestRulesNamePatient(records, now);
      if latest.recordType == SATURATION {
        if SaturationAlerts(records, now).Ok? {
          NamesPatientAppend(SaturationAlerts(records, now).value, HypotensiveAlerts(records, now), id);
        }
      } else if latest.recordType == SYSTOLIC {
        NamesPatientAppend(BloodPressureAlerts(records), HypotensiveAlerts(records, now), id);
      } else if latest.recordType == ECG {
        EcgNamesPatient(records, now, id);
      }
    }
  }

  /** Every ECG alert names the patient of the windowed reading it is stamped with. */
  lemma EcgNamesPatient(records: seq<PatientRecord>, now: int, id: int)
    requires forall i :: 0 <= i < |records| ==> records[i].patientId == id
    ensures NamesPatient(EcgAlerts(records, now), id)
  {
    var window := EcgWindow(records, now);
    if window != [] {
      var deviating := Filter(window, DeviatesFrom(Mean(window)));
      forall k | 0 <= k < |deviating|
        ensures deviating[k].patientId == id
      {
        var x := deviating[k];
        FilterMembership(window, DeviatesFrom(Mean(window)), x);
        FilterMembership(LastTenMinutes(records, now), (r: PatientRecord) => r.recordType == ECG, x);
        LastTenMinutesMembership(records, now, x);
      }
    }
  }

  /** The labels the repository's tests store ("BloodPressure", "SystolicBloodPressure", "DiastolicBloodPressure",
      "BloodSaturation") are none of the dispatched types, so a latest record with one of them fires nothing. */
  lemma TestLabelsFireNothing(records: seq<PatientRecord>, now: int)
    requires records != []
    requires Last(records).recordType in {"BloodPressure", "SystolicBloodPressure", "DiastolicBloodPressure", "BloodSaturation"}
    ensures Evaluate(records, now) == Ok([])
  {
  }

  /** The slot getLastAlert reads after a call that fired `fired`: the last of them, or the earlier value. */
  function LastAlertAfter(previous: Option<Alert>, fired: seq<Alert>): Option<Alert> {
    if fired == [] then previous else Some(Last(fired))
  }
}
