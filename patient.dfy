/** A patient's append-only record history and the queries the alert rules read it through
    (com.data_management.Patient). */
module PatientData {
  import opened SeqUtil

  /** One timestamped measurement (com.data_management.PatientRecord); timestamps are milliseconds since the
      epoch. */
  datatype PatientRecord = PatientRecord(patientId: int, measurementValue: real, recordType: string, timestamp: int)

  /** The width of the recent-history window, 1000 * 60 * 10 milliseconds. */
  const TEN_MINUTES: int := 1000 * 60 * 10

  /** The records stamped within [startTime, endTime], both ends included, in stored order. */
  function InRange(records: seq<PatientRecord>, startTime: int, endTime: int): seq<PatientRecord> {
    Filter(records, (r: PatientRecord) => startTime <= r.timestamp <= endTime)
  }

  /** The records of type `recordLabel`, in the order of `records`. */
  function WithLabel(recordLabel: string, records: seq<PatientRecord>): seq<PatientRecord> {
    Filter(records, (r: PatientRecord) => r.recordType == recordLabel)
  }

  /** For each label in turn, the records of that type: the per-label lists concatenated in label order. */
  function WithLabels(labels: seq<string>, records: seq<PatientRecord>): seq<PatientRecord> {
    if labels == [] then [] else WithLabels(DropLast(labels), records) + WithLabel(Last(labels), records)
  }

  /** The window of the last ten minutes before `now`. */
  function LastTenMinutes(records: seq<PatientRecord>, now: int): seq<PatientRecord> {
    InRange(records, now - TEN_MINUTES, now)
  }

  /** The `n` most recent records (all of them when there are fewer, none when n <= 0), most recent first. */
  function LastN(records: seq<PatientRecord>, n: int): (r: seq<PatientRecord>)
    ensures |r| == if n <= 0 then 0 else if n < |records| then n else |records|
    ensures forall i :: 0 <= i < |r| ==> r[i] == records[|records| - 1 - i]
  {
    if n <= 0 || records == [] then [] else [Last(records)] + LastN(DropLast(records), n - 1)
  }

  /** getRecords keeps exactly the records of the range: every such record as often as it is stored, no other,
      and in stored order. */
  lemma InRangeExactly(records: seq<PatientRecord>, startTime: int, endTime: int)
    ensures IsSubsequence(InRange(records, startTime, endTime), records)
    ensures forall x :: multiset(InRange(records, startTime, endTime))[x]
                        == if startTime <= x.timestamp <= endTime then multiset(records)[x] else 0
  {
    FilterIsSubsequence(records, (r: PatientRecord) => startTime <= r.timestamp <= endTime);
    FilterMultiset(records, (r: PatientRecord) => startTime <= r.timestamp <= endTime);
  }

  /** A range whose start lies after its end holds nothing. */
  lemma InRangeReversed(records: seq<PatientRecord>, startTime: int, endTime: int)
    requires startTime > endTime
    ensures InRange(records, startTime, endTime) == []
  {
    FilterKeepsNone(records, (r: PatientRecord) => startTime <= r.timestamp <= endTime);
  }

  /** The ten-minute window holds a stored record exactly when it is stamped within [now - TEN_MINUTES, now]. */
  lemma LastTenMinutesMembership(records: seq<PatientRecord>, now: int, x: PatientRecord)
    ensures x in LastTenMinutes(records, now) <==> x in records && now - TEN_MINUTES <= x.timestamp <= now
  {
    FilterMembership(records, (r: PatientRecord) => now - TEN_MINUTES <= r.timestamp <= now, x);
  }

  /** filterRecordsBasedOnLabel keeps exactly the records of that type, in input order. */
  lemma WithLabelExactly(recordLabel: string, records: seq<PatientRecord>)
    ensures IsSubsequence(WithLabel(recordLabel, records), records)
    ensures forall x :: multiset(WithLabel(recordLabel, records))[x]
                        == if x.recordType == recordLabel then multiset(records)[x] else 0
  {
    FilterIsSubsequence(records, (r: PatientRecord) => r.recordType == recordLabel);
    FilterMultiset(records, (r: PatientRecord) => r.recordType == recordLabel);
  }

  /** Filtering by a label keeps every record exactly when all of them have that type. */
  lemma WithLabelKeepsAll(recordLabel: string, records: seq<PatientRecord>)
    ensures |WithLabel(recordLabel, records)| == |records|
            <==> forall i :: 0 <= i < |records| ==> records[i].recordType == recordLabel
    ensures |WithLabel(recordLabel, records)| == |records| ==> WithLabel(recordLabel, records) == records
  {
    FilterKeepsAll(records, (r: PatientRecord) => r.recordType == recordLabel);
  }

  /** Filtering by a label a second time changes nothing. */
  lemma WithLabelIdempotent(recordLabel: string, records: seq<PatientRecord>)
    ensures WithLabel(recordLabel, WithLabel(recordLabel, records)) == WithLabel(recordLabel, records)
  {
    var keep := (r: PatientRecord) => r.recordType == recordLabel;
    FilterCompose(records, keep, keep, keep);
  }

  /** The multi-label filter of a concatenated label list is the concatenation of the two filters. */
  lemma {:induction false} WithLabelsConcat(first: seq<string>, second: seq<string>, records: seq<PatientRecord>)
    ensures WithLabels(first + second, records) == WithLabels(first, records) + WithLabels(second, records)
    decreases |second|
  {
    if second == [] {
      assert first + second == first;
    } else {
      assert DropLast(first + second) == first + DropLast(second);
      assert Last(first + second) == Last(second);
      WithLabelsConcat(first, DropLast(second), records);
      AppendAssoc(WithLabels(first, records), WithLabels(DropLast(second), records), WithLabel(Last(second), records));
    }
  }

  /** A record appears in the multi-label filter exactly when it is in the input and its type is listed. */
  lemma {:induction false} WithLabelsMembership(labels: seq<string>, records: seq<PatientRecord>, x: PatientRecord)
    ensures x in WithLabels(labels, records) <==> x in records && x.recordType in labels
    decreases |labels|
  {
    if labels != [] {
      WithLabelsMembership(DropLast(labels), records, x);
      FilterMembership(records, (r: PatientRecord) => r.recordType == Last(labels), x);
      assert labels == DropLast(labels) + [Last(labels)];
    }
  }

  /** filterRecordsBasedOnLabel (a static method): the loop appends each matching record in turn. */
  method FilterRecordsBasedOnLabel(recordLabel: string, records: seq<PatientRecord>) returns (filtered: seq<PatientRecord>)
    ensures filtered == WithLabel(recordLabel, records)
  {
    filtered := [];
    for i := 0 to |records|
      invariant filtered == WithLabel(recordLabel, records[..i])
    {
      assert records[..i + 1] == records[..i] + [records[i]];
      assert DropLast(records[..i + 1]) == records[..i];
      if records[i].recordType == recordLabel {
        filtered := filtered + [records[i]];
      }
    }
    assert records[..|records|] == records;
  }

  /** filterRecordsBasedOnLabels (a static method): for each label in order, append that label's records. */
  method FilterRecordsBasedOnLabels(labels: seq<string>, records: seq<PatientRecord>)
    returns (filtered: seq<PatientRecord>)
    ensures filtered == WithLabels(labels, records)
  {
    filtered := [];
    for i := 0 to |labels|
      invariant filtered == WithLabels(labels[..i], records)
    {
      var matching := FilterRecordsBasedOnLabel(labels[i], records);
      assert DropLast(labels[..i + 1]) == labels[..i];
      filtered := filtered + matching;
    }
    assert labels[..|labels|] == labels;
  }

  class Patient {
    const patientId: int
    var patientRecords: seq<PatientRecord>

    /** Every stored record carries this patient's id. */
    ghost predicate Valid()
      reads this
    {
      forall i :: 0 <= i < |patientRecords| ==> patientRecords[i].patientId == patientId
    }

    constructor (patientId: int)
      ensures this.patientId == patientId && patientRecords == []
      ensures Valid()
    {
      this.patientId := patientId;
      patientRecords := [];
    }

    /** addRecord: appends one record carrying this patient's id; earlier records are untouched. */
    method AddRecord(measurementValue: real, recordType: string, timestamp: int)
      requires Valid()
      modifies this
      ensures Valid()
      ensures patientRecords == old(patientRecords) + [PatientRecord(patientId, measurementValue, recordType, timestamp)]
    {
      patientRecords := patientRecords + [PatientRecord(patientId, measurementValue, recordType, timestamp)];
    }

    /** getRecords: the stored records stamped within [startTime, endTime]. */
    method GetRecords(startTime: int, endTime: int) returns (recordsInRange: seq<PatientRecord>)
      ensures recordsInRange == InRange(patientRecords, startTime, endTime)
    {
      recordsInRange := [];
      for i := 0 to |patientRecords|
        invariant recordsInRange == InRange(patientRecords[..i], startTime, endTime)
      {
        var record := patientRecords[i];
        assert patientRecords[..i + 1] == patientRecords[..i] + [record];
        assert DropLast(patientRecords[..i + 1]) == patientRecords[..i];
        if record.timestamp >= startTime && record.timestamp <= endTime {
          recordsInRange := recordsInRange + [record];
        }
      }
      assert patientRecords[..|patientRecords|] == patientRecords;
    }

    /** getLastNRecords: the `n` most recent records, most recent first. */
    method GetLastNRecords(n: int) returns (lastNRecords: seq<PatientRecord>)
      ensures lastNRecords == LastN(patientRecords, n)
    {
      lastNRecords := [];
      var size := |patientRecords|;
      var i := 0;
      while i < n && i < size
        invariant 0 <= i <= size
        invariant i <= n || i == 0
        invariant |lastNRecords| == i
        invariant forall k :: 0 <= k < i ==> lastNRecords[k] == patientRecords[size - 1 - k]
      {
        lastNRecords := lastNRecords + [patientRecords[size - 1 - i]];
        i := i + 1;
      }
      var expected := LastN(patientRecords, n);
      assert |expected| == i;
      assert forall k :: 0 <= k < i ==> lastNRecords[k] == expected[k];
    }

    /** getLastTenMinutes, with the clock reading `now` passed in. */
    method GetLastTenMinutes(now: int) returns (recordsInRange: seq<PatientRecord>)
      ensures recordsInRange == LastTenMinutes(patientRecords, now)
    {
      recordsInRange := GetRecords(now - 1000 * 60 * 10, now);
    }
  }
}
