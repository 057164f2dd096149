/** The rule engine com.alerts.AlertGenerator as a class: each rule method works by side effect through
    TriggerAlert, which overwrites the lastAlert slot and writes the alert to the diagnostic stream, modelled as
    the `log` of every alert fired. Each method is proved to fire exactly what AlertRules specifies. */
module AlertEngine {
  import opened Outcomes
  import opened SeqUtil
  import opened PatientData
  import opened Alerts
  import opened AlertRules

  /** The slot after appending `fired` to a log whose last alert was in the slot. */
  lemma LastAlertAfterAppend(before: seq<Alert>, fired: seq<Alert>, previous: Option<Alert>)
    requires previous == if before == [] then None else Some(Last(before))
    ensures LastAlertAfter(previous, fired) == if before + fired == [] then None else Some(Last(before + fired))
  {
  }

  /** One more visited record adds one to the count of kept records exactly when it is kept. */
  lemma CountStep(s: seq<PatientRecord>, i: nat, keep: PatientRecord -> bool)
    requires i < |s|
    ensures |Filter(s[..i + 1], keep)| == |Filter(s[..i], keep)| + (if keep(s[i]) then 1 else 0)
  {
    assert s[..i + 1] == s[..i] + [s[i]];
    assert DropLast(s[..i] + [s[i]]) == s[..i];
  }

  /** One more visited record adds an alert stamped with it exactly when the record is kept. */
  lemma StampStep(s: seq<PatientRecord>, i: nat, keep: PatientRecord -> bool, condition: string)
    requires i < |s|
    ensures Stamp(Filter(s[..i + 1], keep), condition)
            == Stamp(Filter(s[..i], keep), condition) + (if keep(s[i]) then [AlertFor(s[i], condition)] else [])
  {
    assert s[..i + 1] == s[..i] + [s[i]];
    assert DropLast(s[..i] + [s[i]]) == s[..i];
    var before := Filter(s[..i], keep);
    if keep(s[i]) {
      assert Stamp(before + [s[i]], condition) == Stamp(before, condition) + [AlertFor(s[i], condition)];
    }
  }

  /** The summing loop of evaluateECG. */
  method SumReadings(lastTenMinutes: seq<PatientRecord>) returns (sum: real)
    ensures sum == Sum(lastTenMinutes)
  {
    sum := 0.0;
    for i := 0 to |lastTenMinutes|
      invariant sum == Sum(lastTenMinutes[..i])
    {
      assert DropLast(lastTenMinutes[..i + 1]) == lastTenMinutes[..i];
      sum := sum + lastTenMinutes[i].measurementValue;
    }
    assert lastTenMinutes[..|lastTenMinutes|] == lastTenMinutes;
  }

  /** getLastNRecords(1) holds the latest record whenever it is not empty. */
  lemma LatestOfOne(records: seq<PatientRecord>, latestOnly: seq<PatientRecord>)
    requires latestOnly == LastN(records, 1) && |latestOnly| > 0
    ensures records != [] && latestOnly[0] == Last(records)
  {
  }

  /** The blood-pressure alerts as evaluateBloodPressure computes them: Critical threshold on the record
      getLastNRecords(1) returns, then Trend over getLastNRecords(3) filtered by that record's type. */
  lemma BloodPressureOfParts(records: seq<PatientRecord>, latestOnly: seq<PatientRecord>,
                             lastThree: seq<PatientRecord>, recent: seq<PatientRecord>)
    requires latestOnly == LastN(records, 1) && |latestOnly| > 0
    requires lastThree == LastN(records, 3)
    requires recent == WithLabel(latestOnly[0].recordType, lastThree)
    ensures records != []
    ensures BloodPressureAlerts(records) == CriticalThresholdAlerts(latestOnly[0]) + TrendOver(recent, latestOnly[0])
  {
    LatestOfOne(records, latestOnly);
  }

  /** The Hypotensive Hypoxemia alerts repeat the latest record's alert once per companion in the window. */
  lemma HypotensiveOfWindow(records: seq<PatientRecord>, now: int, window: seq<PatientRecord>, latest: PatientRecord)
    requires records != [] && latest == Last(records)
    requires window == HypotensiveWindow(records, now)
    ensures HypotensiveAlerts(records, now)
            == Repeat(AlertFor(latest, HYPOTENSIVE_HYPOXEMIA), |Filter(window, CompanionOf(latest))|)
  {
  }

  /** sum / size, as evaluateECG computes it; Java's NaN for an empty window is never read, so 0 stands in. */
  function Average(sum: real, size: nat): real {
    if size > 0 then sum / size as real else 0.0
  }

  /** The ECG alerts are the stamped readings of the window that deviate from the average of its sum. */
  lemma EcgAlertsOfWindow(records: seq<PatientRecord>, now: int, window: seq<PatientRecord>, sum: real)
    requires window == EcgWindow(records, now) && sum == Sum(window)
    ensures EcgAlerts(records, now) == Stamp(Filter(window, DeviatesFrom(Average(sum, |window|))), ABNORMAL_ECG)
  {
  }

  /** A patient whose records all carry its id (Patient.Valid) only ever raises alerts naming that id. */
  lemma ValidPatientAlertsNamePatient(patient: Patient, now: int)
    requires patient.Valid()
    ensures Evaluate(patient.patientRecords, now).Ok? ==>
              NamesPatient(Evaluate(patient.patientRecords, now).value, patient.patientId)
  {
    EvaluateNamesPatient(patient.patientRecords, now, patient.patientId);
  }

  class AlertGenerator {
    /** The last alert fired; None stands for Java's null before any alert. */
    var lastAlert: Option<Alert>
    /** Every alert fired so far, in order (the "ALERT: " lines printed by triggerAlert). */
    var log: seq<Alert>

    ghost predicate Valid()
      reads this
    {
      lastAlert == if log == [] then None else Some(Last(log))
    }

    constructor ()
      ensures Valid() && log == [] && lastAlert == None
    {
      lastAlert := None;
      log := [];
    }

    /** triggerAlert: overwrite the slot and report the alert. */
    method TriggerAlert(alert: Alert)
      requires Valid()
      modifies this
      ensures Valid() && log == old(log) + [alert] && lastAlert == Some(alert)
    {
      lastAlert := Some(alert);
      log := log + [alert];
    }

    /** getLastAlert: the last alert fired, or None when none has been. */
    function GetLastAlert(): (a: Option<Alert>)
      reads this
      requires Valid()
      ensures a.Some? <==> log != []
      ensures a.Some? ==> a.value == log[|log| - 1]
    {
      lastAlert
    }

    /** evaluateData: dispatch on the latest record's type. Fails, firing nothing, when the patient has no
        record or the saturation window is empty; otherwise fires exactly the alerts of Evaluate, in order, and
        the slot then holds the last of them (or is unchanged when none fired). The patient is not modified. */
    method EvaluateData(patient: Patient, now: int) returns (failure: Option<EvaluationError>)
      requires Valid()
      modifies this
      ensures Valid()
      ensures patient.patientRecords == old(patient.patientRecords)
      ensures match Evaluate(patient.patientRecords, now)
              case Ok(fired) => failure == None && log == old(log) + fired
                                && lastAlert == LastAlertAfter(old(lastAlert), fired)
              case Err(e) => failure == Some(e) && log == old(log) && lastAlert == old(lastAlert)
    {
      var latestOnly := patient.GetLastNRecords(1);
      if |latestOnly| == 0 {
        return Some(NoRecords);
      }
      var lastRecord := latestOnly[0];
      LatestOfOne(patient.patientRecords, latestOnly);
      ghost var records := patient.patientRecords;
      failure := None;
      if lastRecord.recordType == SATURATION {
        failure := EvaluateBloodSaturation(patient, now);
        if failure.None? {
          ghost var saturationFired := log[|old(log)|..];
          assert log == old(log) + saturationFired;
          assert SaturationAlerts(records, now) == Ok(saturationFired);
          HypotensiveHypoxemiaAlert(patient, now);
          AppendAssoc(old(log), saturationFired, HypotensiveAlerts(records, now));
          assert Evaluate(records, now) == Ok(saturationFired + HypotensiveAlerts(records, now));
        } else {
          assert Evaluate(records, now) == Err(failure.value);
        }
      } else if lastRecord.recordType == SYSTOLIC {
        var _ := EvaluateBloodPressure(patient);
        ghost var pressureFired := BloodPressureAlerts(records);
        assert log == old(log) + pressureFired;
        HypotensiveHypoxemiaAlert(patient, now);
        AppendAssoc(old(log), pressureFired, HypotensiveAlerts(records, now));
        assert Evaluate(records, now) == Ok(pressureFired + HypotensiveAlerts(records, now));
      } else if lastRecord.recordType == DIASTOLIC {
        var _ := EvaluateBloodPressure(patient);
        assert Evaluate(records, now) == Ok(BloodPressureAlerts(records));
      } else if lastRecord.recordType == ECG {
        EvaluateECG(patient, now);
        assert Evaluate(records, now) == Ok(EcgAlerts(records, now));
      } else {
        assert Evaluate(records, now) == Ok([]);
      }
      if failure.None? {
        LastAlertAfterAppend(old(log), Evaluate(records, now).value, old(lastAlert));
      }
    }

    /** hypotensiveHypoxemiaAlert: scan the saturation-then-systolic window and fire once per companion
        reading, stamped with the latest record. */
    method HypotensiveHypoxemiaAlert(patient: Patient, now: int)
      requires Valid() && |patient.patientRecords| > 0
      modifies this
      ensures Valid() && log == old(log) + HypotensiveAlerts(patient.patientRecords, now)
    {
      var labels := [SATURATION, SYSTOLIC];
      var window := patient.GetLastTenMinutes(now);
      var lastTenMinutes := FilterRecordsBasedOnLabels(labels, window);
      var latestOnly := patient.GetLastNRecords(1);
      var lastRecord := latestOnly[0];
      LatestOfOne(patient.patientRecords, latestOnly);
      HypotensiveOfWindow(patient.patientRecords, now, lastTenMinutes, lastRecord);
      ScanCompanions(lastRecord, lastTenMinutes);
    }

    /** The loop of hypotensiveHypoxemiaAlert: one alert, stamped with the latest record, per companion in
        the window. */
    method ScanCompanions(lastRecord: PatientRecord, lastTenMinutes: seq<PatientRecord>)
      requires Valid()
      modifies this
      ensures Valid()
      ensures log == old(log) + Repeat(AlertFor(lastRecord, HYPOTENSIVE_HYPOXEMIA),
                                       |Filter(lastTenMinutes, CompanionOf(lastRecord))|)
    {
      var alert := AlertFor(lastRecord, HYPOTENSIVE_HYPOXEMIA);
      ghost var companion := CompanionOf(lastRecord);
      ghost var count := 0;
      for i := 0 to |lastTenMinutes|
        invariant Valid() && log == old(log) + Repeat(alert, count)
        invariant count == |Filter(lastTenMinutes[..i], companion)|
      {
        var currentRecord := lastTenMinutes[i];
        CountStep(lastTenMinutes, i, companion);
        CheckCompanion(lastRecord, currentRecord, alert);
        if IsCompanion(lastRecord, currentRecord) {
          count := count + 1;
        }
      }
      assert lastTenMinutes[..|lastTenMinutes|] == lastTenMinutes;
    }

    /** The body of hypotensiveHypoxemiaAlert's loop: fire the alert when the visited record is a companion
        of the latest one. */
    method CheckCompanion(lastRecord: PatientRecord, currentRecord: PatientRecord, alert: Alert)
      requires Valid()
      modifies this
      ensures Valid() && log == old(log) + if IsCompanion(lastRecord, currentRecord) then [alert] else []
    {
      if lastRecord.recordType == SATURATION {
        if currentRecord.recordType == SYSTOLIC {
          if lastRecord.measurementValue < 92.0 && currentRecord.measurementValue < 90.0 {
            TriggerAlert(alert);
          }
        }
      } else {
        if currentRecord.recordType == SATURATION {
          if lastRecord.measurementValue < 90.0 && currentRecord.measurementValue < 92.0 {
            TriggerAlert(alert);
          }
        }
      }
    }

    /** evaluateBloodSaturation: read the oldest saturation reading of the window (throwing when there is
        none), then fire Rapid drop and Low Saturation as SaturationAlerts says. */
    method EvaluateBloodSaturation(patient: Patient, now: int) returns (failure: Option<EvaluationError>)
      requires Valid() && |patient.patientRecords| > 0
      modifies this
      ensures Valid()
      ensures match SaturationAlerts(patient.patientRecords, now)
              case Ok(fired) => failure == None && log == old(log) + fired
              case Err(e) => failure == Some(e) && log == old(log)
    {
      var window := patient.GetLastTenMinutes(now);
      var lastTenMinutes := FilterRecordsBasedOnLabel(SATURATION, window);
      var latestOnly := patient.GetLastNRecords(1);
      LatestOfOne(patient.patientRecords, latestOnly);
      var lastRecord := latestOnly[0];
      if |lastTenMinutes| == 0 {
        return Some(EmptySaturationWindow);
      }
      ghost var rapid: seq<Alert> := [];
      if Abs(lastTenMinutes[0].measurementValue - lastRecord.measurementValue) >= 5.0 {
        TriggerAlert(AlertFor(lastRecord, RAPID_DROP));
        rapid := [AlertFor(lastRecord, RAPID_DROP)];
      }
      ghost var low: seq<Alert> := [];
      if lastTenMinutes[0].measurementValue < 92.0 {
        TriggerAlert(AlertFor(lastRecord, LOW_SATURATION));
        low := [AlertFor(lastRecord, LOW_SATURATION)];
      }
      AppendAssoc(old(log), rapid, low);
      failure := None;
    }

    /** evaluateECG: sum the ECG window, take its mean, then fire for each reading at least 1 away from it. */
    method EvaluateECG(patient: Patient, now: int)
      requires Valid()
      modifies this
      ensures Valid() && log == old(log) + EcgAlerts(patient.patientRecords, now)
    {
      var window := patient.GetLastTenMinutes(now);
      var lastTenMinutes := FilterRecordsBasedOnLabel(ECG, window);
      var sum := SumReadings(lastTenMinutes);
      var average := Average(sum, |lastTenMinutes|);
      EcgAlertsOfWindow(patient.patientRecords, now, lastTenMinutes, sum);
      ScanDeviating(lastTenMinutes, average);
    }

    /** The firing loop of evaluateECG: one alert per reading at least 1 away from the average, stamped with
        that reading. */
    method ScanDeviating(lastTenMinutes: seq<PatientRecord>, average: real)
      requires Valid()
      modifies this
      ensures Valid()
      ensures log == old(log) + Stamp(Filter(lastTenMinutes, DeviatesFrom(average)), ABNORMAL_ECG)
    {
      ghost var deviates := DeviatesFrom(average);
      for i := 0 to |lastTenMinutes|
        invariant Valid()
        invariant log == old(log) + Stamp(Filter(lastTenMinutes[..i], deviates), ABNORMAL_ECG)
      {
        var record := lastTenMinutes[i];
        StampStep(lastTenMinutes, i, deviates, ABNORMAL_ECG);
        var measure := record.measurementValue;
        if measure >= average + 1.0 || measure <= average - 1.0 {
          TriggerAlert(AlertFor(record, ABNORMAL_ECG));
        }
      }
      assert lastTenMinutes[..|lastTenMinutes|] == lastTenMinutes;
    }

    /** The Critical threshold half of evaluateBloodPressure, on the latest record. */
    method CheckCriticalThreshold(record: PatientRecord)
      requires Valid()
      modifies this
      ensures Valid() && log == old(log) + CriticalThresholdAlerts(record)
    {
      if record.recordType == SYSTOLIC && (record.measurementValue > 180.0 || record.measurementValue < 90.0) {
        TriggerAlert(AlertFor(record, CRITICAL_THRESHOLD));
      } else if record.recordType == DIASTOLIC && (record.measurementValue > 120.0 || record.measurementValue < 60.0) {
        TriggerAlert(AlertFor(record, CRITICAL_THRESHOLD));
      }
    }

    /** The Trend half of evaluateBloodPressure, on the recent records of the latest record's type. */
    method CheckTrend(record: PatientRecord, records: seq<PatientRecord>)
      requires Valid()
      modifies this
      ensures Valid() && log == old(log) + TrendOver(records, record)
    {
      if |records| == 3 {
        var diff1 := Abs(records[0].measurementValue - records[1].measurementValue);
        var diff2 := Abs(records[1].measurementValue - records[2].measurementValue);
        if diff1 > 10.0 && diff2 > 10.0 {
          TriggerAlert(AlertFor(record, TREND));
        }
      }
    }

    /** evaluateBloodPressure: Critical threshold on the latest record, then Trend over the three most recent
        records of its type. Throws, firing nothing, on a patient without records. */
    method EvaluateBloodPressure(patient: Patient) returns (failure: Option<EvaluationError>)
      requires Valid()
      modifies this
      ensures Valid()
      ensures patient.patientRecords == [] ==> failure == Some(NoRecords) && log == old(log)
      ensures patient.patientRecords != [] ==>
                failure == None && log == old(log) + BloodPressureAlerts(patient.patientRecords)
    {
      var latestOnly := patient.GetLastNRecords(1);
      if |latestOnly| == 0 {
        return Some(NoRecords);
      }
      var record := latestOnly[0];
      CheckCriticalThreshold(record);
      var lastThree := patient.GetLastNRecords(3);
      var records := FilterRecordsBasedOnLabel(record.recordType, lastThree);
      CheckTrend(record, records);
      BloodPressureOfParts(patient.patientRecords, latestOnly, lastThree, records);
      AppendAssoc(old(log), CriticalThresholdAlerts(record), TrendOver(records, record));
      failure := None;
    }
  }
}
