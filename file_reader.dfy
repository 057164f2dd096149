/** The per-line loop of com.data_management.FileReader.readData: each line is split on ", ", the fixed-length
    field prefixes are dropped, the fields are parsed, and the record is handed to the store. The first bad line
    ends the read with an IOException; lines before it stay stored. */
module FileReading {
  import opened Outcomes
  import opened SeqUtil
  import opened JavaText
  import opened PatientData
  import opened Outputs

  // ---------------------------------------------------------------- String.split(", ")

  /** A ", " starts at position i of s. */
  predicate SeparatorAt(s: string, i: int) {
    0 <= i && i + 1 < |s| && s[i] == ',' && s[i + 1] == ' '
  }

  predicate NoSeparator(s: string) {
    forall i :: 0 <= i < |s| ==> !SeparatorAt(s, i)
  }

  predicate NoComma(s: string) {
    forall i :: 0 <= i < |s| ==> s[i] != ','
  }

  /** Where the first ", " starts, or |s| when there is none. */
  function FirstSeparator(s: string): (r: nat)
    ensures r <= |s|
    ensures forall i :: 0 <= i < r ==> !SeparatorAt(s, i)
    ensures r < |s| ==> SeparatorAt(s, r)
  {
    if |s| < 2 then |s|
    else if s[0] == ',' && s[1] == ' ' then 0
    else
      var r := 1 + FirstSeparator(s[1..]);
      assert forall i :: 1 <= i < |s| ==> (SeparatorAt(s, i) <==> SeparatorAt(s[1..], i - 1));
      r
  }

  /** The pieces between successive separators, scanning left to right (empty pieces included). */
  function SplitAll(s: string): (r: seq<string>)
    ensures |r| >= 1
    decreases |s|
  {
    var i := FirstSeparator(s);
    if i == |s| then [s] else [s[..i]] + SplitAll(s[i + 2..])
  }

  /** String.split with limit 0 drops the empty strings at the end of the result. */
  function DropTrailingEmpty(parts: seq<string>): (r: seq<string>)
    ensures |r| <= |parts|
  {
    if parts != [] && Last(parts) == "" then DropTrailingEmpty(DropLast(parts)) else parts
  }

  /** line.split(", "): the whole line when it holds no separator; otherwise the pieces without the trailing
      empty ones. */
  function Split(s: string): seq<string> {
    if FirstSeparator(s) == |s| then [s] else DropTrailingEmpty(SplitAll(s))
  }

  /** The parts written one after another with ", " between them. */
  function Join(parts: seq<string>): string
    requires |parts| > 0
  {
    if |parts| == 1 then parts[0] else parts[0] + ", " + Join(parts[1..])
  }

  /** The first separator after a separator-free prefix is the one that follows it. */
  lemma FirstSeparatorAfter(a: string, rest: string)
    requires NoSeparator(a)
    ensures FirstSeparator(a + ", " + rest) == |a|
  {
    var s := a + ", " + rest;
    assert SeparatorAt(s, |a|);
    forall i | 0 <= i < |a|
      ensures !SeparatorAt(s, i)
    {
      if i + 1 < |a| {
        assert !SeparatorAt(a, i);
        assert s[i] == a[i] && s[i + 1] == a[i + 1];
      } else {
        assert s[i + 1] == ',';
      }
    }
  }

  lemma SplitAllCons(a: string, rest: string)
    requires NoSeparator(a)
    ensures SplitAll(a + ", " + rest) == [a] + SplitAll(rest)
  {
    var s := a + ", " + rest;
    FirstSeparatorAfter(a, rest);
    assert s[..|a|] == a;
    assert s[|a| + 2..] == rest;
  }

  /** Splitting undoes joining separator-free parts. */
  lemma {:induction false} SplitAllJoin(parts: seq<string>)
    requires |parts| > 0
    requires forall i :: 0 <= i < |parts| ==> NoSeparator(parts[i])
    ensures SplitAll(Join(parts)) == parts
    decreases |parts|
  {
    if |parts| == 1 {
      assert FirstSeparator(parts[0]) == |parts[0]|;
    } else {
      SplitAllCons(parts[0], Join(parts[1..]));
      SplitAllJoin(parts[1..]);
      assert parts == [parts[0]] + parts[1..];
    }
  }

  /** line.split(", ") recovers two or more separator-free parts whose last one is not empty. */
  lemma SplitJoin(parts: seq<string>)
    requires |parts| >= 2 && Last(parts) != ""
    requires forall i :: 0 <= i < |parts| ==> NoSeparator(parts[i])
    ensures Split(Join(parts)) == parts
  {
    FirstSeparatorAfter(parts[0], Join(parts[1..]));
    SplitAllJoin(parts);
  }

  /** A line without any ", " splits into itself alone. */
  lemma SplitWithoutSeparator(s: string)
    requires NoSeparator(s)
    ensures Split(s) == [s]
  {
    assert FirstSeparator(s) == |s|;
  }

  // ---------------------------------------------------------------- one line

  const ID_PREFIX: string := "Patient ID: "
  const TIMESTAMP_PREFIX: string := "Timestamp: "
  const LABEL_PREFIX: string := "Label: "
  const DATA_PREFIX: string := "Data: "

  /** Why a line was refused; each one surfaces from readData as the same IOException. */
  datatype ReadError =
    | WrongFieldCount   // the split does not give four parts
    | FieldTooShort     // substring past the end of a part
    | NotNumeric        // parseInt, parseLong or parseDouble refused its field

  /** One line: four parts, each stripped of as many characters as its prefix has (the prefix text itself is not
      compared), then Integer.parseInt, Long.parseLong and Double.parseDouble on id, timestamp and value.
      Characters are Unicode scalar values here, where Java's substring counts UTF-16 code units. */
  function ParseLine(line: string): (r: Result<PatientRecord, ReadError>)
    ensures r.Ok? ==> INT_MIN <= r.value.patientId <= INT_MAX && LONG_MIN <= r.value.timestamp <= LONG_MAX
  {
    ParseParts(Split(line))
  }

  /** The field work of one line, on the parts its split gave. */
  function ParseParts(parts: seq<string>): (r: Result<PatientRecord, ReadError>)
    ensures r.Ok? ==> INT_MIN <= r.value.patientId <= INT_MAX && LONG_MIN <= r.value.timestamp <= LONG_MAX
  {
    if |parts| != 4 then Err(WrongFieldCount)
    else if |parts[0]| < |ID_PREFIX| || |parts[1]| < |TIMESTAMP_PREFIX| || |parts[2]| < |LABEL_PREFIX|
            || |parts[3]| < |DATA_PREFIX| then Err(FieldTooShort)
    else
      var patientId := ParseInt(parts[0][|ID_PREFIX|..]);
      var timestamp := ParseLong(parts[1][|TIMESTAMP_PREFIX|..]);
      var measurementValue := ParseDouble(parts[3][|DATA_PREFIX|..]);
      if patientId.None? || timestamp.None? || measurementValue.None? then Err(NotNumeric)
      else Ok(PatientRecord(patientId.value, measurementValue.value, parts[2][|LABEL_PREFIX|..], timestamp.value))
  }

  lemma NoCommaNoSeparator(s: string)
    requires NoComma(s)
    ensures NoSeparator(s)
  {
    assert forall i :: 0 <= i < |s| ==> s[i] != ',';
  }

  lemma FormatIntNoComma(n: int)
    ensures NoComma(FormatInt(n))
  {
    var s := FormatInt(n);
    forall i | 0 <= i < |s|
      ensures s[i] != ','
    {
      if n < 0 && i > 0 {
        assert IsDigit(s[1..][i - 1]);
      } else if n >= 0 {
        assert IsDigit(s[i]);
      }
    }
  }

  /** A comma-free prefix in front of separator-free text adds no separator. */
  lemma PrefixNoSeparator(prefix: string, s: string)
    requires NoComma(prefix) && NoSeparator(s)
    ensures NoSeparator(prefix + s)
  {
    var t := prefix + s;
    forall i | 0 <= i < |t|
      ensures !SeparatorAt(t, i)
    {
      if i >= |prefix| {
        assert !SeparatorAt(s, i - |prefix|);
      }
    }
  }

  /** The four parts of a line whose fields follow prefixes of the right lengths. */
  function Fields(prefixes: seq<string>, o: Output): seq<string>
    requires |prefixes| == 4
  {
    [prefixes[0] + FormatInt(o.patientId), prefixes[1] + FormatInt(o.timestamp),
     prefixes[2] + o.outputLabel, prefixes[3] + o.data]
  }

  predicate PrefixesFit(prefixes: seq<string>) {
    |prefixes| == 4
    && |prefixes[0]| == |ID_PREFIX| && |prefixes[1]| == |TIMESTAMP_PREFIX|
    && |prefixes[2]| == |LABEL_PREFIX| && |prefixes[3]| == |DATA_PREFIX|
    && forall i :: 0 <= i < 4 ==> NoComma(prefixes[i])
  }

  lemma SplitFields(prefixes: seq<string>, o: Output)
    requires PrefixesFit(prefixes)
    requires NoSeparator(o.outputLabel) && NoSeparator(o.data)
    ensures Split(Join(Fields(prefixes, o))) == Fields(prefixes, o)
  {
    var parts := Fields(prefixes, o);
    FormatIntNoComma(o.patientId);
    FormatIntNoComma(o.timestamp);
    NoCommaNoSeparator(FormatInt(o.patientId));
    NoCommaNoSeparator(FormatInt(o.timestamp));
    PrefixNoSeparator(prefixes[0], FormatInt(o.patientId));
    PrefixNoSeparator(prefixes[1], FormatInt(o.timestamp));
    PrefixNoSeparator(prefixes[2], o.outputLabel);
    PrefixNoSeparator(prefixes[3], o.data);
    SplitJoin(parts);
  }

  /** The parser reads a line back whatever text stands in the prefixes' places, as long as it has their
      lengths (in characters of the model) and no comma: id, timestamp and label come back, and the value does
      whenever Double.parseDouble accepts the data; otherwise the line is refused as not numeric. */
  lemma ReadBackAnyPrefixes(prefixes: seq<string>, o: Output)
    requires PrefixesFit(prefixes)
    requires INT_MIN <= o.patientId <= INT_MAX && LONG_MIN <= o.timestamp <= LONG_MAX
    requires NoSeparator(o.outputLabel) && NoSeparator(o.data)
    ensures ParseLine(Join(Fields(prefixes, o)))
            == match ParseDouble(o.data)
               case Some(v) => Ok(PatientRecord(o.patientId, v, o.outputLabel, o.timestamp))
               case None => Err(NotNumeric)
  {
    var parts := Fields(prefixes, o);
    SplitFields(prefixes, o);
    assert parts[0][|ID_PREFIX|..] == FormatInt(o.patientId);
    assert parts[1][|TIMESTAMP_PREFIX|..] == FormatInt(o.timestamp);
    assert parts[2][|LABEL_PREFIX|..] == o.outputLabel;
    assert parts[3][|DATA_PREFIX|..] == o.data;
    FormatIntRoundTrip(o.patientId, INT_MIN, INT_MAX);
    FormatIntRoundTrip(o.timestamp, LONG_MIN, LONG_MAX);
  }

  /** Regrouping eight pieces written one after another with three separators. */
  lemma Regroup(a: string, b: string, c: string, d: string, e: string, f: string, g: string, h: string, sep: string)
    ensures a + b + (sep + c) + d + (sep + e) + f + (sep + g) + h
            == (a + b) + sep + ((c + d) + sep + ((e + f) + sep + (g + h)))
  {
  }

  /** Four parts joined by ", ", written out. */
  lemma JoinFour(a: string, b: string, c: string, d: string)
    ensures Join([a, b, c, d]) == a + ", " + (b + ", " + (c + ", " + d))
  {
    assert [a, b, c, d][1..] == [b, c, d] && [b, c, d][1..] == [c, d] && [c, d][1..] == [d];
    assert Join([c, d]) == c + ", " + d;
    assert Join([b, c, d]) == b + ", " + Join([c, d]);
  }

  /** The four prefixes FileOutputStrategy writes hold no comma. */
  lemma OutputPrefixesFit()
    ensures PrefixesFit([ID_PREFIX, TIMESTAMP_PREFIX, LABEL_PREFIX, DATA_PREFIX])
  {
    assert NoComma(ID_PREFIX) && NoComma(TIMESTAMP_PREFIX) && NoComma(LABEL_PREFIX) && NoComma(DATA_PREFIX);
  }

  /** The separators FileOutputStrategy writes are ", " followed by the next prefix. */
  lemma SeparatedPrefixes()
    ensures ", Timestamp: " == ", " + TIMESTAMP_PREFIX
    ensures ", Label: " == ", " + LABEL_PREFIX
    ensures ", Data: " == ", " + DATA_PREFIX
  {
  }

  /** FileOutputStrategy's line is the reader's four fields joined by ", ". */
  lemma FormatLineFields(o: Output)
    ensures FormatLine(o) == Join(Fields([ID_PREFIX, TIMESTAMP_PREFIX, LABEL_PREFIX, DATA_PREFIX], o))
  {
    var id, ts := FormatInt(o.patientId), FormatInt(o.timestamp);
    JoinFour(ID_PREFIX + id, TIMESTAMP_PREFIX + ts, LABEL_PREFIX + o.outputLabel, DATA_PREFIX + o.data);
    SeparatedPrefixes();
    Regroup(ID_PREFIX, id, TIMESTAMP_PREFIX, ts, LABEL_PREFIX, o.outputLabel, DATA_PREFIX, o.data, ", ");
  }

  /** BufferedReader.readLine ends a line at '\n' or '\r'. */
  predicate NoLineBreak(s: string) {
    forall i :: 0 <= i < |s| ==> s[i] != '\n' && s[i] != '\r'
  }

  /** What FileOutputStrategy writes, the reader reads back: the id and timestamp when they fit int and long,
      the label and the value when neither holds ", " or a line break (which would end the line readLine
      returns) and the data is a plain decimal number. */
  lemma FormattedLineRoundTrip(o: Output)
    requires INT_MIN <= o.patientId <= INT_MAX && LONG_MIN <= o.timestamp <= LONG_MAX
    requires NoSeparator(o.outputLabel) && NoSeparator(o.data) && ParseDouble(o.data).Some?
    requires NoLineBreak(o.outputLabel) && NoLineBreak(o.data)
    ensures ParseLine(FormatLine(o))
            == Ok(PatientRecord(o.patientId, ParseDouble(o.data).value, o.outputLabel, o.timestamp))
  {
    FormatLineFields(o);
    OutputPrefixesFit();
    ReadBackAnyPrefixes([ID_PREFIX, TIMESTAMP_PREFIX, LABEL_PREFIX, DATA_PREFIX], o);
  }

  /** The saturation simulator's data, a whole number followed by ".0%", cannot be read back. */
  lemma SaturationOutputUnreadable(patientId: int, timestamp: int, saturation: int)
    requires INT_MIN <= patientId <= INT_MAX && LONG_MIN <= timestamp <= LONG_MAX
    requires -10_000_000 < saturation < 10_000_000
    ensures ParseLine(FormatLine(Output(patientId, timestamp, "Saturation", WholeDoubleText(saturation) + "%")))
            == Err(NotNumeric)
  {
    var data := WholeDoubleText(saturation) + "%";
    var o := Output(patientId, timestamp, "Saturation", data);
    FormatIntNoComma(saturation);
    assert data == FormatInt(saturation) + ".0%";
    assert NoComma(data);
    NoCommaNoSeparator(data);
    NoCommaNoSeparator("Saturation");
    FormatLineFields(o);
    OutputPrefixesFit();
    ReadBackAnyPrefixes([ID_PREFIX, TIMESTAMP_PREFIX, LABEL_PREFIX, DATA_PREFIX], o);
    ParsePercentTextFails(saturation);
  }

  /** A line whose split does not give exactly four parts is refused. */
  lemma WrongPartCountRefused(parts: seq<string>)
    requires |parts| >= 2 && Last(parts) != "" && |parts| != 4
    requires forall i :: 0 <= i < |parts| ==> NoSeparator(parts[i])
    ensures ParseLine(Join(parts)) == Err(WrongFieldCount)
  {
    SplitJoin(parts);
  }

  /** A line holding no ", " at all is refused. */
  lemma NoSeparatorRefused(line: string)
    requires NoSeparator(line)
    ensures ParseLine(line) == Err(WrongFieldCount)
  {
    SplitWithoutSeparator(line);
  }

  // ---------------------------------------------------------------- the store

  /** The records stored for `id`, none when the id is unknown. */
  function Lookup(patients: map<int, seq<PatientRecord>>, id: int): seq<PatientRecord> {
    if id in patients then patients[id] else []
  }

  /** DataStorage.addPatientData: append the record to its patient's history, creating the patient if needed. */
  function Store(patients: map<int, seq<PatientRecord>>, r: PatientRecord): map<int, seq<PatientRecord>> {
    patients[r.patientId := Lookup(patients, r.patientId) + [r]]
  }

  function StoreAll(patients: map<int, seq<PatientRecord>>, records: seq<PatientRecord>): map<int, seq<PatientRecord>> {
    if records == [] then patients else Store(StoreAll(patients, DropLast(records)), Last(records))
  }

  /** After storing a sequence of records, each patient's history is its old history followed by that patient's
      records, in order. */
  lemma {:induction false} StoreAllLookup(patients: map<int, seq<PatientRecord>>, records: seq<PatientRecord>, id: int)
    ensures Lookup(StoreAll(patients, records), id)
            == Lookup(patients, id) + Filter(records, (r: PatientRecord) => r.patientId == id)
    decreases |records|
  {
    if records != [] {
      StoreAllLookup(patients, DropLast(records), id);
    }
  }

  /** The record store (com.data_management.DataStorage) as a map from patient id to record history. */
  class DataStorage {
    var patients: map<int, seq<PatientRecord>>

    constructor ()
      ensures patients == map[]
    {
      patients := map[];
    }

    method AddPatientData(patientId: int, measurementValue: real, recordType: string, timestamp: int)
      modifies this
      ensures patients == Store(old(patients), PatientRecord(patientId, measurementValue, recordType, timestamp))
    {
      var r := PatientRecord(patientId, measurementValue, recordType, timestamp);
      patients := patients[patientId := Lookup(patients, patientId) + [r]];
    }
  }

  // ---------------------------------------------------------------- the loop

  predicate IsBadLine(line: string) {
    ParseLine(line).Err?
  }

  /** The records of lines that all parse, in line order. */
  function ParsedRecords(lines: seq<string>): (r: seq<PatientRecord>)
    requires forall i :: 0 <= i < |lines| ==> !IsBadLine(lines[i])
    ensures |r| == |lines|
  {
    if lines == [] then []
    else
      assert !IsBadLine(lines[|lines| - 1]);
      ParsedRecords(DropLast(lines)) + [ParseLine(Last(lines)).value]
  }

  /** One more good line extends the good prefix and its records by that line's record. */
  lemma GoodPrefixExtends(lines: seq<string>, i: nat)
    requires i < |lines|
    requires forall j :: 0 <= j < i ==> !IsBadLine(lines[j])
    requires !IsBadLine(lines[i])
    ensures forall j :: 0 <= j < i + 1 ==> !IsBadLine(lines[j])
    ensures ParsedRecords(lines[..i + 1]) == ParsedRecords(lines[..i]) + [ParseLine(lines[i]).value]
  {
    assert DropLast(lines[..i + 1]) == lines[..i];
    assert Last(lines[..i + 1]) == lines[i];
  }

  /** readData over the file's lines: every line before the first bad one is stored, in order; the first bad line
      ends the read with its error, and the lines stored before it stay stored. */
  method ReadData(lines: seq<string>, storage: DataStorage) returns (failure: Option<ReadError>)
    modifies storage
    ensures var bad := FirstIndex(lines, IsBadLine);
            storage.patients == StoreAll(old(storage.patients), ParsedRecords(lines[..bad]))
            && failure == if bad < |lines| then Some(ParseLine(lines[bad]).error) else None
  {
    var i := 0;
    while i < |lines|
      invariant i <= |lines|
      invariant forall j :: 0 <= j < i ==> !IsBadLine(lines[j])
      invariant storage.patients == StoreAll(old(storage.patients), ParsedRecords(lines[..i]))
    {
      var parsed := ParseLine(lines[i]);
      if parsed.Err? {
        FirstIndexAt(lines, IsBadLine, i);
        return Some(parsed.error);
      }
      var r := parsed.value;
      GoodPrefixExtends(lines, i);
      storage.AddPatientData(r.patientId, r.measurementValue, r.recordType, r.timestamp);
      i := i + 1;
    }
    FirstIndexAt(lines, IsBadLine, i);
    assert lines[..|lines|] == lines;
    return None;
  }
}
