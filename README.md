# Cardiovascular monitoring core, modelled in Dafny

This project models the rule engine of a patient-monitoring system (`com.alerts.AlertGenerator`). It also models
what that engine reads and what feeds it:

- the engine looks at the type of a patient's most recent measurement and runs fixed-threshold rules over that
  patient's history. The rules are blood-pressure Critical threshold and Trend, Rapid drop and Low Saturation over
  a ten-minute window, the cross-signal Hypotensive Hypoxemia rule, and ECG deviation from the window mean;
- every alert fired overwrites a single "last alert" slot;
- the patient (`com.data_management.Patient`) is an append-only list of records with time-range, last-N and label
  queries;
- alerts (`com.alerts.Alert`) are immutable values with structural equality and a fixed text form;
- the file reader (`com.data_management.FileReader.readData`) parses one line per record and appends it to the
  store, stopping at the first bad line;
- two simulators produce data. `BloodSaturationDataGenerator` runs a clamped random walk per patient, and
  `generators.AlertGenerator` keeps a triggered/resolved flag per patient.

Each module is one file:

| module | models |
|---|---|
| `Outcomes` | `Option` and `Result` |
| `SeqUtil` | order-preserving filtering, the shape of every accumulating loop over a list |
| `JavaText` | `Integer.toString`, `Integer.parseInt`, `Long.parseLong`, `String.trim`, plain-decimal `Double.parseDouble`, and `Double.toString` of a whole number |
| `PatientData` | `PatientRecord`, the `Patient` class and its static label filters |
| `Alerts` | `Alert`, its `equals` and `toString` |
| `AlertRules` | what one `evaluateData` call fires, as functions of the record history and the clock |
| `AlertEngine` | the imperative engine, proved to fire exactly what `AlertRules` specifies, in order |
| `Outputs` | the simulators' output channel, and the line `FileOutputStrategy` writes |
| `FileReading` | line splitting and parsing, the record store, and the `readData` loop |
| `SaturationSimulator`, `AlertSimulator` | the two simulators |

The clock is a parameter: each `evaluateData` call reads it as one value `now`. The random draws of the
simulators are parameters too. Every fired alert is kept in a log, which stands in for the "ALERT: " lines printed
by `triggerAlert`. The `lastAlert` slot always holds the last entry of that log.

Behaviours of the code that the model keeps, each stated by a contract:

- Low Saturation is stamped with the latest record (src/main/java/com/alerts/AlertGenerator.java:117-118).
- Rapid drop is checked before Low Saturation (src/main/java/com/alerts/AlertGenerator.java:112-119).
- An empty saturation window makes `evaluateData` fail (`EmptySaturationWindow`), because the rule reads the window's first element (src/main/java/com/alerts/AlertGenerator.java:112).
- Hypotensive Hypoxemia fires once per qualifying companion reading; its loops have no early exit (src/main/java/com/alerts/AlertGenerator.java:77-84, 92-99).
- Trend filters the three most recent records of any type by the latest record's type (src/main/java/com/alerts/AlertGenerator.java:167-168). `AlertRules.TrendFiresIff` states the consequence: all three must have that type.
- The saturation simulator writes data such as "97.0%", which is not a number the file reader accepts (src/main/java/com/cardio_generator/generators/BloodSaturationDataGenerator.java:53-54, `FileReading.SaturationOutputUnreadable`).

## Model

| member | source | states |
|---|---|---|
| PatientData.Patient.constructor | src/main/java/com/data_management/Patient.java:22-25 | a new patient has the given id and no records |
| PatientData.Patient.AddRecord | src/main/java/com/data_management/Patient.java:38-41 | exactly one record carrying this patient's id, value, type and timestamp is appended; earlier records are unchanged; every stored record keeps the patient's id |
| PatientData.Patient.GetRecords | src/main/java/com/data_management/Patient.java:54-62 | the loop returns the stored records with startTime <= timestamp <= endTime, in stored order |
| PatientData.InRangeExactly | src/main/java/com/data_management/Patient.java:54-62 | the range query is a subsequence of the history and holds each in-range record as often as it is stored, and nothing else |
| PatientData.InRangeReversed | src/main/java/com/data_management/Patient.java:57 | a range whose start lies after its end returns nothing |
| PatientData.Patient.GetLastNRecords | src/main/java/com/data_management/Patient.java:69-76 | the loop returns LastN: min(max(n, 0), size) records, and element i is stored record size-1-i (most recent first) |
| AlertEngine.LatestOfOne | src/main/java/com/data_management/Patient.java:71-75 | a non-empty getLastNRecords(1) holds the last appended record |
| PatientData.FilterRecordsBasedOnLabel | src/main/java/com/data_management/Patient.java:83-91 | the loop returns the records of that type, in input order |
| PatientData.WithLabelExactly | src/main/java/com/data_management/Patient.java:83-91 | the label filter is a subsequence of its input and holds each record of that type as often as it occurs, and nothing else |
| PatientData.WithLabelKeepsAll | src/main/java/com/data_management/Patient.java:83-91 | the filter keeps every record exactly when all of them have the label, and then returns its input unchanged |
| PatientData.WithLabelIdempotent | src/main/java/com/data_management/Patient.java:83-91 | filtering twice by a label equals filtering once |
| PatientData.FilterRecordsBasedOnLabels | src/main/java/com/data_management/Patient.java:98-104 | the loop returns the single-label filters concatenated in label order |
| PatientData.WithLabelsConcat | src/main/java/com/data_management/Patient.java:98-104 | filtering by two label lists one after the other is the concatenation of the two filters |
| PatientData.WithLabelsMembership | src/main/java/com/data_management/Patient.java:98-104 | a record is in the multi-label filter exactly when it is in the input and its type is listed |
| PatientData.Patient.GetLastTenMinutes | src/main/java/com/data_management/Patient.java:106-109 | returns getRecords(now - 600000, now) for the given clock reading |
| PatientData.LastTenMinutesMembership | src/main/java/com/data_management/Patient.java:106-109 | a stored record is in the ten-minute window exactly when now - 600000 <= timestamp <= now |
| Alerts.Equals | src/main/java/com/alerts/Alert.java:35-45 | true exactly for an Alert with equal timestamp, patient id and condition; false for null and for objects of another class |
| Alerts.EqualsReflexive | src/main/java/com/alerts/Alert.java:37-39 | every alert equals itself |
| Alerts.EqualsSymmetric | src/main/java/com/alerts/Alert.java:44 | a.equals(b) == b.equals(a) |
| Alerts.ToString | src/main/java/com/alerts/Alert.java:28-34 | the text starts with "Alert{patientId='" and ends with "}", and its length is the fixed 45 characters plus the id, the condition and the timestamp's digits |
| Alerts.ToStringInjective | src/main/java/com/alerts/Alert.java:28-34 | when neither the id nor the condition contains a quote, distinct alerts have distinct texts |
| AlertEngine.AlertGenerator.constructor | src/main/java/com/alerts/AlertGenerator.java:28-30 | no alert has been fired and the slot is empty (null) |
| AlertEngine.AlertGenerator.TriggerAlert | src/main/java/com/alerts/AlertGenerator.java:186-189 | the slot holds the new alert, and the alert is appended to the log |
| AlertEngine.AlertGenerator.GetLastAlert | src/main/java/com/alerts/AlertGenerator.java:191-193 | returns the last alert fired, or none exactly when none has been fired |
| AlertRules.Evaluate | src/main/java/com/alerts/AlertGenerator.java:42-59 | fails exactly on a patient without records, or on a latest saturation record with an empty saturation window; a latest record of any other type than the four dispatched ones fires nothing |
| AlertEngine.AlertGenerator.EvaluateData | src/main/java/com/alerts/AlertGenerator.java:42-59 | fires exactly the alerts of Evaluate, in rule order, and the slot then holds the last of them (unchanged when none fired); on failure nothing is fired; the patient's records are not modified |
| AlertRules.TestLabelsFireNothing | src/main/java/com/alerts/AlertGenerator.java:44-58 | the labels the repository's tests store ("BloodPressure", "SystolicBloodPressure", "DiastolicBloodPressure", "BloodSaturation") fire nothing |
| AlertRules.EvaluateNamesPatient | src/main/java/com/alerts/AlertGenerator.java:68-175 | when all stored records carry one patient id, every alert a call fires names that patient (String.valueOf of the id) |
| AlertEngine.ValidPatientAlertsNamePatient | src/main/java/com/data_management/Patient.java:38-41 | since addRecord stamps every record with the patient's own id (Patient.Valid), every alert evaluating that patient fires names the patient |
| AlertRules.CriticalThresholdAlerts | src/main/java/com/alerts/AlertGenerator.java:153-161 | at most one alert, stamped with the latest record; it fires exactly for systolic pressure outside [90, 180] or diastolic pressure outside [60, 120] (the bounds themselves do not fire) |
| AlertEngine.AlertGenerator.CheckCriticalThreshold | src/main/java/com/alerts/AlertGenerator.java:153-161 | the branches fire exactly CriticalThresholdAlerts of the latest record |
| AlertRules.TrendFiresIff | src/main/java/com/alerts/AlertGenerator.java:167-174 | Trend fires exactly when the three most recent records all have the latest record's type and both consecutive differences exceed 10 in magnitude; it then fires once, stamped with the latest record |
| AlertEngine.AlertGenerator.CheckTrend | src/main/java/com/alerts/AlertGenerator.java:167-174 | on the filtered recent records, fires Trend exactly as TrendOver says |
| AlertEngine.AlertGenerator.EvaluateBloodPressure | src/main/java/com/alerts/AlertGenerator.java:147-175 | fires Critical threshold then Trend as BloodPressureAlerts says; a patient without records fails and fires nothing |
| AlertRules.SaturationFired | src/main/java/com/alerts/AlertGenerator.java:112-119 | at most two alerts, each either Rapid drop or Low Saturation for the latest record and nothing else: Rapid drop is among them exactly when the oldest windowed reading differs from the latest by at least 5, Low Saturation exactly when the oldest is below 92; when both fire, Rapid drop comes first; every alert names the latest record's patient and carries its timestamp |
| AlertRules.SaturationReadsOldestInWindow | src/main/java/com/alerts/AlertGenerator.java:108-120 | the saturation rules read the first stored saturation record stamped within the last ten minutes; when there is none, the call fails |
| AlertRules.SaturationWindowHoldsFreshLatest | src/main/java/com/alerts/AlertGenerator.java:109-112 | when the latest record is a saturation reading from the last ten minutes, the saturation rules do not fail |
| AlertEngine.AlertGenerator.EvaluateBloodSaturation | src/main/java/com/alerts/AlertGenerator.java:108-120 | fires exactly SaturationAlerts, in order; an empty saturation window fails and fires nothing |
| AlertRules.HypotensiveCount | src/main/java/com/alerts/AlertGenerator.java:68-106 | the number of Hypotensive Hypoxemia alerts is the number of qualifying companion readings in the ten-minute window (systolic below 90 after a saturation below 92; saturation below 92 after any other reading below 90), and each is stamped with the latest record; an empty window fires nothing |
| AlertRules.CompanionCount | src/main/java/com/alerts/AlertGenerator.java:72-73 | among the saturation readings followed by the systolic readings, the companions of the latest record are the readings of the one type its rule pairs with, under that type's threshold |
| AlertEngine.AlertGenerator.HypotensiveHypoxemiaAlert | src/main/java/com/alerts/AlertGenerator.java:68-106 | fires exactly HypotensiveAlerts of the history |
| AlertEngine.AlertGenerator.ScanCompanions | src/main/java/com/alerts/AlertGenerator.java:75-99 | the loop fires the latest record's alert once per companion in the window, with no early exit |
| AlertEngine.AlertGenerator.CheckCompanion | src/main/java/com/alerts/AlertGenerator.java:78-82 | the loop body fires the alert exactly when the visited record is a companion of the latest one |
| AlertEngine.SumReadings | src/main/java/com/alerts/AlertGenerator.java:125-128 | the summing loop returns the sum of the window's readings |
| AlertRules.EcgAlertsExactly | src/main/java/com/alerts/AlertGenerator.java:122-137 | every ECG reading in the window at least 1 away from the window mean raises an alert with its own patient and timestamp, and every alert raised is one of these |
| AlertRules.EcgAlertsInWindowOrder | src/main/java/com/alerts/AlertGenerator.java:130-136 | the readings behind the ECG alerts are the window's readings at least 1 away from the mean, each as often as it is stored and in window order; there is one alert per such reading, and alert k is stamped with the k-th of them |
| AlertRules.EcgSteadyWindowSilent | src/main/java/com/alerts/AlertGenerator.java:129-132 | a window whose readings all have one value fires nothing |
| AlertEngine.AlertGenerator.ScanDeviating | src/main/java/com/alerts/AlertGenerator.java:130-136 | the loop fires, in window order, one alert per reading at least 1 away from the average, stamped with that reading |
| AlertEngine.AlertGenerator.EvaluateECG | src/main/java/com/alerts/AlertGenerator.java:122-137 | fires exactly EcgAlerts of the history, in window order |
| FileReading.SplitJoin | src/main/java/com/data_management/FileReader.java:25 | splitting on ", " recovers two or more separator-free parts whose last one is not empty |
| FileReading.SplitWithoutSeparator | src/main/java/com/data_management/FileReader.java:25 | a line without ", " splits into itself alone |
| FileReading.WrongPartCountRefused | src/main/java/com/data_management/FileReader.java:25-28 | a line that splits into a number of parts other than four is refused |
| FileReading.NoSeparatorRefused | src/main/java/com/data_management/FileReader.java:25-28 | a line without ", " is refused |
| FileReading.ParseLine | src/main/java/com/data_management/FileReader.java:25-37 | an accepted line gives an id within the int range and a timestamp within the long range |
| FileReading.ReadBackAnyPrefixes | src/main/java/com/data_management/FileReader.java:30-37 | the prefix text is never compared: any comma-free prefixes of the right lengths give the same result, which is the record when the data parses as a number and a refusal otherwise |
| FileReading.DataStorage.AddPatientData | src/main/java/com/data_management/FileReader.java:38 | appends the record to its patient's history, creating the patient when needed |
| FileReading.StoreAllLookup | src/main/java/com/data_management/FileReader.java:38 | after storing a run of records, each patient's history is its old history followed by that patient's records, in order |
| FileReading.ReadData | src/main/java/com/data_management/FileReader.java:24-42 | stores, in order, the records of every line before the first bad line and no other; a bad line ends the read with its error, and the lines stored before it stay stored |
| FileReading.FormatLineFields | src/main/java/com/cardio_generator/outputs/FileOutputStrategy.java:70-71 | the written line is the reader's four fields joined by ", " |
| FileReading.FormattedLineRoundTrip | src/main/java/com/cardio_generator/outputs/FileOutputStrategy.java:70-71 | reading back a written line recovers id, timestamp, label and value, when id and timestamp fit int and long, label and data hold neither ", " nor a line break, and the data is text Double.parseDouble accepts; the value read back is what that text parses to |
| FileReading.SaturationOutputUnreadable | src/main/java/com/cardio_generator/generators/BloodSaturationDataGenerator.java:53-54 | the saturation simulator's written line (data such as "97.0%") is refused by the reader as not numeric |
| JavaText.FormatIntRoundTrip | src/main/java/com/data_management/FileReader.java:34-35 | parseInt and parseLong read back every number toString writes, within their bounds |
| JavaText.ParseWholeDoubleText | src/main/java/com/data_management/FileReader.java:37 | Double.parseDouble reads back Double.toString of a whole number |
| JavaText.ParsePercentTextFails | src/main/java/com/data_management/FileReader.java:37 | Double.parseDouble refuses a whole number's text followed by "%" |
| SaturationSimulator.BloodSaturationDataGenerator.constructor | src/main/java/com/cardio_generator/generators/BloodSaturationDataGenerator.java:22-28 | patientCount + 1 entries; entry 0 stays 0 and entry i starts at 95 plus its draw, so in [95, 100] |
| SaturationSimulator.Clamp | src/main/java/com/cardio_generator/generators/BloodSaturationDataGenerator.java:51 | the result is in [90, 100] and equals its input when that input is already in the band |
| SaturationSimulator.NextSaturation | src/main/java/com/cardio_generator/generators/BloodSaturationDataGenerator.java:47-51 | after a step of -1, 0 or 1 the reading is in [90, 100] and differs from an in-band previous reading by at most 1 |
| SaturationSimulator.WalkBounds | src/main/java/com/cardio_generator/generators/BloodSaturationDataGenerator.java:47-52 | after at least one step, or from an in-band start, the reading is in the band; from an in-band start it has moved by at most one per step |
| SaturationSimulator.BloodSaturationDataGenerator.Generate | src/main/java/com/cardio_generator/generators/BloodSaturationDataGenerator.java:44-59 | only the patient's entry changes, to the clamped step, and exactly one "Saturation" output with the new value followed by "%" is emitted; an out-of-range id changes nothing and emits nothing |
| AlertSimulator.Step | src/main/java/com/cardio_generator/generators/AlertGenerator.java:39-57 | an output is emitted exactly when the flag flips, its data names the new state, and the flag flips exactly when the coin of the current state succeeds |
| AlertSimulator.RunAlternates | src/main/java/com/cardio_generator/generators/AlertGenerator.java:39-57 | over any run of calls, the outputs alternate, starting with the state opposite to the initial one, and the flag has changed exactly when an odd number of outputs was emitted |
| AlertSimulator.AlertGenerator.constructor | src/main/java/com/cardio_generator/generators/AlertGenerator.java:22-24 | patientCount + 1 flags, all resolved |
| AlertSimulator.AlertGenerator.Generate | src/main/java/com/cardio_generator/generators/AlertGenerator.java:37-65 | only the patient's flag can change, as Step says, and an "Alert" output is emitted exactly when it flips; an out-of-range id changes nothing and emits nothing |

## Left out

- The `main` methods and `Main.java`: they only wire components together and open files.
- Opening and closing the file in `readData`: the lines are a parameter.
- The text of the IOException: the model returns which kind of line was refused.
- `FileOutputStrategy` directory creation and file appends, and `TcpOutputStrategy`: these are I/O. Only the line format is modelled, as the writing half of the reader's round trip.
- `System.out.println` and `System.err.println`: printed alerts are the log, and caught simulator exceptions change nothing.
- `System.currentTimeMillis`: each `evaluateData` call reads one clock value `now`. The Java code reads the clock again for each window query, which can matter only if the millisecond ticks between reads.
- `java.util.Random` and `Math.expm1`: the draws are parameters. The probabilities 0.9 and 1 - e^(-0.1) are not modelled.
- `DataStorage` and `PatientRecord`: their source files are not part of this model. The store is a map from patient id to record history, and a record is a value.
- The `dataStorage` field of the alert engine: no rule reads it.
- IEEE doubles: measurements are exact reals.
- AlertEngine.Average: Java divides by zero on an empty ECG window and gets NaN. That value is never read, because the firing loop does not run, so the model returns 0.
- JavaText.ParseDouble: accepts plain decimal literals after trimming. Exponents, hexadecimal, "NaN", "Infinity" and the type suffixes are not modelled; a line using them is modelled as refused.
- JavaText.ParseInteger: accepts only the ASCII digits '0'..'9'. Java's `Integer.parseInt` and `Long.parseLong` go through `Character.digit`, which also accepts other Unicode decimal digits (Arabic-Indic digits, for example). The model refuses such a line, so `ReadData` stops there, where Java would store the record and read on.
- FileReading.ParseParts: strips each prefix by counting Unicode scalar values, while Java's `substring` counts UTF-16 code units. Text holding a supplementary character (outside the Basic Multilingual Plane) in a prefix's place is therefore cut at a different point. The "right lengths" of `FileReading.ReadBackAnyPrefixes` are counted the model's way.
- FileReading.FormattedLineRoundTrip: requires that label and data hold no line break. The lines are a parameter here, so the splitting of the file by `BufferedReader.readLine` is not modelled; a label holding '\n' or '\r' would be cut into two lines by Java and refused.
- JavaText.WholeDoubleText: only covers whole numbers below 10^7 in magnitude, where Java writes no exponent.
- Integer overflow in the simulators: the constructors require patientCount + 1 to fit an int and not be negative. Java would fail with NegativeArraySizeException instead.
- Concurrency: the source is single-threaded here.
- The JUnit assertions of the repository's tests: they store labels the dispatch does not know. `AlertRules.TestLabelsFireNothing` states what the code does with them.
- Helper methods: the Java bodies of `hypotensiveHypoxemiaAlert`, `evaluateECG` and `evaluateBloodPressure` are split into helper methods, one per loop or rule half.
- AlertEngine.AlertGenerator.ScanCompanions: Java's `hypotensiveHypoxemiaAlert` has one loop per branch, and each loop sits in a try/catch that rethrows IllegalArgumentException (AlertGenerator.java:75-104). The model runs one loop with the branch inside it and has no handler. The alerts fired are the same, because nothing inside those loops can throw on the modelled values: record types are never null.
