/** The health record and the indicator contract (actuator/health.go). */
module HealthRecord {

  /** Absent (Go's nil) or present. */
  datatype Option<+T> = None | Some(value: T)

  /** A value stored in a details map; Go keeps these as interface{} values. */
  datatype DetailValue =
    | Text(text: string)
    | Number(number: int)
    | Flag(flag: bool)
    | Nested(fields: map<string, DetailValue>)

  type Details = map<string, DetailValue>

  /** The two status strings the aggregation distinguishes. */
  const Up: string := "UP"
  const Down: string := "DOWN"

  /**
   * The status record of one component or of the aggregate. Every record carries
   * exactly one status string; components nest records, so the type is recursive.
   * Components, details and groups are each absent (None) or present, and present
   * but empty (Some(map[])) is a different value from absent.
   */
  datatype Health = Health(
    status: string,
    components: Option<map<string, Health>>,
    details: Option<Details>,
    groups: Option<seq<string>>)

  /** A leaf record: a status and nothing else. */
  function Leaf(status: string): (h: Health)
    ensures h.status == status
    ensures h.components == None && h.details == None && h.groups == None
  {
    Health(status, None, None, None)
  }

  /**
   * A health indicator maps the detail flag to a record. There is no error
   * channel: a total function, so evaluating an indicator always yields a record.
   */
  type Indicator = bool -> Health

  /** Only the exact string "DOWN" counts as down. */
  predicate IsDown(h: Health) {
    h.status == Down
  }

  /**
   * An indicator keeps to the detail flag: when details were not requested,
   * the record it returns carries none.
   */
  predicate HonoursDetailFlag(ind: Indicator) {
    ind(false).details == None
  }

  /** Neither h nor any of its direct components carries details. */
  predicate ShowsNoDetails(h: Health) {
    && h.details == None
    && (h.components.Some? ==>
          forall n | n in h.components.value :: h.components.value[n].details == None)
  }
}
