/** The constant indicator of healthindicator/self.go. */
module SelfIndicator {
  import opened HealthRecord
  import opened ActuatorSpec

  /**
   * The record the self indicator returns: always "UP", with details present
   * exactly when requested, and then empty; never components or groups. It reads
   * nothing but the flag, so the indicator is stateless.
   */
  function SelfHealth(withDetails: bool): (h: Health)
    ensures h.status == Up
    ensures h.details.Some? <==> withDetails
    ensures h.details.Some? ==> h.details.value == map[]
    ensures h.components == None && h.groups == None
  {
    Health(Up, None, if withDetails then Some(map[]) else None, None)
  }

  /** A self indicator: "UP" for either flag, with details exactly when requested. */
  function NewSelfHealthIndicator(): (indicator: Indicator)
    ensures forall withDetails: bool :: indicator(withDetails).status == Up
    ensures forall withDetails: bool :: indicator(withDetails).details.Some? <==> withDetails
  {
    SelfHealth
  }

  /** The self indicator keeps to the detail flag. */
  lemma SelfHonoursDetailFlag()
    ensures HonoursDetailFlag(NewSelfHealthIndicator())
  {
  }

  /** Any number of self indicators, under any names, aggregate to "UP". */
  lemma SelfIndicatorsAggregateUp(names: set<string>, withDetails: bool)
    ensures Aggregate(Evaluate(map n | n in names :: NewSelfHealthIndicator(), withDetails), map[]).status == Up
  {
  }
}
