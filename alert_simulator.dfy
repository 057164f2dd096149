/** The alert simulator (com.cardio_generator.generators.AlertGenerator): one pressed/resolved flag per patient.
    A pressed alert resolves when its draw falls below 0.9; a resolved one is triggered when its draw falls below
    1 - e^(-0.1). The outcome of each draw is a boolean parameter. */
module AlertSimulator {
  import opened Outcomes
  import opened SeqUtil
  import opened JavaText
  import opened Outputs

  const RESOLVED: string := "resolved"
  const TRIGGERED: string := "triggered"

  /** The data naming a state. */
  function StateName(pressed: bool): string {
    if pressed then TRIGGERED else RESOLVED
  }

  /** One generate call on one flag: the new flag and the data emitted, if any. `resolves` is used only from the
      pressed state, `triggers` only from the resolved one. */
  function Step(pressed: bool, resolves: bool, triggers: bool): (r: (bool, Option<string>))
    ensures r.1.Some? <==> r.0 != pressed
    ensures r.1.Some? ==> r.1.value == StateName(r.0)
    ensures r.0 != pressed <==> (if pressed then resolves else triggers)
  {
    if pressed then (if resolves then (false, Some(RESOLVED)) else (true, None))
    else if triggers then (true, Some(TRIGGERED)) else (false, None)
  }

  /** A run of generate calls on one flag: the final flag and the data emitted, in order. */
  function Run(pressed: bool, draws: seq<(bool, bool)>): (bool, seq<string>) {
    if draws == [] then (pressed, [])
    else
      var before := Run(pressed, DropLast(draws));
      var step := Step(before.0, Last(draws).0, Last(draws).1);
      (step.0, before.1 + (if step.1.Some? then [step.1.value] else []))
  }

  /** Emitted data alternate, starting with the state opposite to the initial one, and the flag has flipped
      exactly when an odd number of outputs were emitted. */
  lemma {:induction false} RunAlternates(pressed: bool, draws: seq<(bool, bool)>)
    ensures var (final, out) := Run(pressed, draws);
            (final == pressed <==> |out| % 2 == 0)
            && forall i :: 0 <= i < |out| ==> out[i] == StateName((i % 2 == 0) != pressed)
    decreases |draws|
  {
    if draws != [] {
      RunAlternates(pressed, DropLast(draws));
    }
  }

  class AlertGenerator {
    var alertStates: array<bool>

    /** patientCount + 1 flags, all resolved. */
    constructor (patientCount: int)
      requires -1 <= patientCount < INT_MAX
      ensures fresh(alertStates) && alertStates.Length == patientCount + 1
      ensures forall i :: 0 <= i < alertStates.Length ==> !alertStates[i]
    {
      alertStates := new bool[patientCount + 1](_ => false);
    }

    /** generate: one step of the patient's flag, with an output exactly when it flips. An id outside the array
        raises an exception that is caught and reported, so nothing changes and nothing is emitted. */
    method Generate(patientId: int, resolves: bool, triggers: bool, now: int, sink: Sink)
      modifies alertStates, sink
      ensures 0 <= patientId < alertStates.Length ==>
                var step := Step(old(alertStates[patientId]), resolves, triggers);
                alertStates[..] == old(alertStates[..])[patientId := step.0]
                && sink.emitted == old(sink.emitted)
                                   + (if step.1.Some? then [Output(patientId, now, "Alert", step.1.value)] else [])
      ensures !(0 <= patientId < alertStates.Length) ==>
                alertStates[..] == old(alertStates[..]) && sink.emitted == old(sink.emitted)
    {
      if 0 <= patientId < alertStates.Length {
        if alertStates[patientId] {
          if resolves {
            alertStates[patientId] := false;
            sink.Emit(patientId, now, "Alert", RESOLVED);
          }
        } else {
          if triggers {
            alertStates[patientId] := true;
            sink.Emit(patientId, now, "Alert", TRIGGERED);
          }
        }
      }
    }
  }
}
