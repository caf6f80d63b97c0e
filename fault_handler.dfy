/** The fault subsystem as the command layer sees it: only the two calls it
    makes about missing cell-voltage measurements, recorded in order. What the
    subsystem does with them is not part of this model. */
module FaultHandler {
  import opened LtcUtilities

  datatype FaultCall =
    | IncrementMissing(sectionId: byte)   // `increment_missing_voltage_measurement_fault`
    | ResetMissing(sectionId: byte)       // `reset_missing_voltage_measurement_fault`

  class FaultLog {
    var calls: seq<FaultCall>

    constructor ()
      ensures calls == []
    {
      calls := [];
    }

    method IncrementMissingVoltageMeasurementFault(sectionId: byte)
      modifies this
      ensures calls == old(calls) + [IncrementMissing(sectionId)]
    {
      calls := calls + [IncrementMissing(sectionId)];
    }

    method ResetMissingVoltageMeasurementFault(sectionId: byte)
      modifies this
      ensures calls == old(calls) + [ResetMissing(sectionId)]
    {
      calls := calls + [ResetMissing(sectionId)];
    }
  }
}
