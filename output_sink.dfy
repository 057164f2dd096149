/** The simulators' output channel (com.cardio_generator.outputs.OutputStrategy) as a sink that remembers every
    emitted tuple, and the text line FileOutputStrategy writes for one tuple. */
module Outputs {
  import opened JavaText

  /** One call of OutputStrategy.output. */
  datatype Output = Output(patientId: int, timestamp: int, outputLabel: string, data: string)

  /** The line FileOutputStrategy prints for an output, without its line terminator:
      "Patient ID: %d, Timestamp: %d, Label: %s, Data: %s". */
  function FormatLine(o: Output): string {
    "Patient ID: " + FormatInt(o.patientId) + ", Timestamp: " + FormatInt(o.timestamp)
      + ", Label: " + o.outputLabel + ", Data: " + o.data
  }

  /** An output strategy: every output is appended to `emitted`, in call order. */
  class Sink {
    var emitted: seq<Output>

    constructor ()
      ensures emitted == []
    {
      emitted := [];
    }

    method Emit(patientId: int, timestamp: int, outputLabel: string, data: string)
      modifies this
      ensures emitted == old(emitted) + [Output(patientId, timestamp, outputLabel, data)]
    {
      emitted := emitted + [Output(patientId, timestamp, outputLabel, data)];
    }
  }
}
