/** The saturation simulator (com.cardio_generator.generators.BloodSaturationDataGenerator): one integer reading per
    patient, moved by a random step of -1, 0 or 1 and kept within [90, 100]. The random draws are parameters. */
module SaturationSimulator {
  import opened SeqUtil
  import opened JavaText
  import opened Outputs

  const MIN_SATURATION: int := 90
  const MAX_SATURATION: int := 100

  predicate InBand(v: int) {
    MIN_SATURATION <= v <= MAX_SATURATION
  }

  /** Math.min(Math.max(v, 90), 100). */
  function Clamp(v: int): (r: int)
    ensures InBand(r)
    ensures InBand(v) ==> r == v
  {
    if v < MIN_SATURATION then MIN_SATURATION else if v > MAX_SATURATION then MAX_SATURATION else v
  }

  /** The reading after one step: always in the band, never more than one away from an in-band reading. */
  function NextSaturation(previous: int, variation: int): (r: int)
    requires -1 <= variation <= 1
    ensures InBand(r)
    ensures InBand(previous) ==> -1 <= r - previous <= 1
    ensures InBand(previous + variation) ==> r == previous + variation
  {
    Clamp(previous + variation)
  }

  /** The readings after a run of steps. */
  function Walk(start: int, variations: seq<int>): int
    requires forall i :: 0 <= i < |variations| ==> -1 <= variations[i] <= 1
  {
    if variations == [] then start else NextSaturation(Walk(start, DropLast(variations)), Last(variations))
  }

  /** After at least one step the reading is in the band; from an in-band start it has moved by at most one per
      step. */
  lemma {:induction false} WalkBounds(start: int, variations: seq<int>)
    requires forall i :: 0 <= i < |variations| ==> -1 <= variations[i] <= 1
    ensures variations != [] ==> InBand(Walk(start, variations))
    ensures InBand(start) ==> InBand(Walk(start, variations))
    ensures InBand(start) ==> -|variations| <= Walk(start, variations) - start <= |variations|
    decreases |variations|
  {
    if variations != [] {
      WalkBounds(start, DropLast(variations));
    }
  }

  /** The text the simulator emits for a reading: Double.toString of the whole number, then "%". */
  function SaturationText(v: int): string
    requires InBand(v)
  {
    WholeDoubleText(v) + "%"
  }

  class BloodSaturationDataGenerator {
    var lastSaturationValues: array<int>

    /** Entry 0, which no patient uses at construction, is 0 until a step on it; every other entry is in the band. */
    ghost predicate Valid()
      reads this, lastSaturationValues
    {
      forall i :: 0 <= i < lastSaturationValues.Length ==>
        InBand(lastSaturationValues[i]) || (i == 0 && lastSaturationValues[i] == 0)
    }

    /** patientCount + 1 entries; entry i (from 1) starts at 95 + draws[i - 1], each draw one of 0..5
        (random.nextInt(6)). */
    constructor (patientCount: int, draws: seq<int>)
      requires -1 <= patientCount < INT_MAX
      requires |draws| == if patientCount < 0 then 0 else patientCount
      requires forall i :: 0 <= i < |draws| ==> 0 <= draws[i] <= 5
      ensures Valid()
      ensures fresh(lastSaturationValues) && lastSaturationValues.Length == patientCount + 1
      ensures patientCount >= 0 ==> lastSaturationValues[0] == 0
      ensures forall i :: 1 <= i < lastSaturationValues.Length ==> lastSaturationValues[i] == 95 + draws[i - 1]
    {
      var values := new int[patientCount + 1](_ => 0);
      var i := 1;
      while i <= patientCount
        invariant 1 <= i <= patientCount + 1 || (patientCount < 0 && i == 1)
        invariant forall k :: 0 <= k < values.Length && (k == 0 || k >= i) ==> values[k] == 0
        invariant forall k :: 1 <= k < i && k < values.Length ==> values[k] == 95 + draws[k - 1]
      {
        values[i] := 95 + draws[i - 1];
        i := i + 1;
      }
      lastSaturationValues := values;
    }

    /** generate: step the patient's reading and emit it. An id outside the array raises an exception that is
        caught and reported, so nothing changes and nothing is emitted. */
    method Generate(patientId: int, variation: int, now: int, sink: Sink)
      requires Valid()
      requires -1 <= variation <= 1
      modifies lastSaturationValues, sink
      ensures Valid()
      ensures 0 <= patientId < lastSaturationValues.Length ==>
                var v := NextSaturation(old(lastSaturationValues[patientId]), variation);
                lastSaturationValues[..] == old(lastSaturationValues[..])[patientId := v]
                && sink.emitted == old(sink.emitted) + [Output(patientId, now, "Saturation", SaturationText(v))]
      ensures !(0 <= patientId < lastSaturationValues.Length) ==>
                lastSaturationValues[..] == old(lastSaturationValues[..]) && sink.emitted == old(sink.emitted)
    {
      if 0 <= patientId < lastSaturationValues.Length {
        var newSaturationValue := lastSaturationValues[patientId] + variation;
        newSaturationValue := Clamp(newSaturationValue);
        lastSaturationValues[patientId] := newSaturationValue;
        sink.Emit(patientId, now, "Saturation", WholeDoubleText(newSaturationValue) + "%");
      }
    }
  }
}
