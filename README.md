# actuator-go health aggregation, in Dafny

A model of the health-check aggregation of actuator-go. An `Actuator` holds a
registry of named health indicators and an optional getter that supplies a
fresh set of named indicators on each evaluation. Evaluating the actuator with a
detail flag asks every static indicator, then every dynamic one, for its
`Health` record. Each record is stored under its name, and a dynamic record
overwrites a static one with the same name. The aggregate status starts at
`"UP"` and turns `"DOWN"` as soon as any evaluated record has exactly the
status `"DOWN"`. The model also covers the parser that reads the detail flag
from the query (`detail` or `details` with a first value of `""` or `"true"`)
and the constant self indicator.

Files and modules:

- `health.dfy`, module `HealthRecord` (actuator/health.go): the recursive
  `Health` record. Its components, details and groups are `Option`s, so absent
  (Go's nil) is a different value from present but empty. An indicator is a
  total function `bool -> Health`, so there is no error channel.
- `actuator_spec.dfy`, module `ActuatorSpec`: the aggregate stated
  declaratively (`Aggregate`, over the sets of names). Beside it is the
  source's loop run over an explicit visiting order (`Visit`). Lemmas prove that
  the two agree for every visiting order, and state the status and components
  of the aggregate.
- `actuator.dfy`, module `Actuator` (actuator/actuator.go): the `Actuator`
  class, whose registration methods update its two fields in place. Its
  `Health` method runs the two passes as loops that pick each next name
  arbitrarily, as Go's map iteration does. `CheckDetailsParam` is a loop over
  the two query keys.
- `self.dfy`, module `SelfIndicator` (healthindicator/self.go).
- `scenarios.dfy`, module `Scenarios`: client methods that build actuators,
  register test indicators and evaluate them. Their results follow from the
  class contracts alone.

The getter of dynamic indicators is a Go closure that consults outside state.
It is modelled as a function of a type parameter `World`, and each call of
`Health` receives the world at that moment. So successive evaluations may see
different dynamic indicator sets.

Where the design description and the code disagree, the model follows the code:

- The design states an invariant: the status is `"DOWN"` exactly when some
  contained component is `"DOWN"`. The code breaks it. A static `"x"` that
  reports `"DOWN"` and is then overwritten by a dynamic `"x"` that reports
  `"UP"` leaves the aggregate `"DOWN"` with no `"DOWN"` component
  (`DownWithoutDownComponent`).
- Only direct components are looked at, and only the exact string `"DOWN"`
  counts. Any other status, such as `"UNKNOWN"`, leaves the aggregate `"UP"`.

## Model

| member | source | states |
|---|---|---|
| `ActuatorSpec.Evaluate` | actuator/actuator.go:42-43 | every registered name gets exactly one evaluated record: the result has the registry's names |
| `ActuatorSpec.DynamicResults` | actuator/actuator.go:51-53 | with no getter the dynamic pass contributes nothing; with one, it contributes exactly the names the getter returns for the current world |
| `ActuatorSpec.VisitAnyOrder` | actuator/actuator.go:42-49 | running the loop body over any sequence of names, in any order and even with repeats, leaves the status DOWN iff it was DOWN or some visited indicator returned DOWN, and adds exactly the visited names with their records |
| `ActuatorSpec.EnumerationSeesAll` | actuator/actuator.go:42-49 | a visit of every registered name sees every record, and meets a DOWN record iff some evaluated record is DOWN |
| `ActuatorSpec.VisitYieldsAggregate` | actuator/actuator.go:36-63 | a static pass in any order followed by a dynamic pass in any order yields the declarative aggregate |
| `ActuatorSpec.OrderIrrelevant` | actuator/actuator.go:42-60 | any two visiting orders of the static and dynamic names give the same record |
| `ActuatorSpec.AggregateStatus` | actuator/actuator.go:36-60 | the aggregate status is DOWN iff some static or dynamic record was exactly DOWN, and UP otherwise |
| `ActuatorSpec.AggregateComponents` | actuator/actuator.go:37-60 | the component names are the static names plus the dynamic names; a name on both sides holds the dynamic record, a static-only name its static record; the aggregate has no details and no groups |
| `ActuatorSpec.OverwrittenDownStillCounts` | actuator/actuator.go:42-59 | a DOWN static record overwritten by a dynamic record that is not DOWN still makes the aggregate DOWN, while the stored component is not DOWN |
| `ActuatorSpec.DownWithoutDownComponent` | actuator/actuator.go:44-57 | for static x DOWN and dynamic x UP, the aggregate is DOWN although no final component is |
| `ActuatorSpec.OnlyDownFlips` | actuator/actuator.go:46-48 | when no record has status exactly DOWN (UNKNOWN included), the aggregate is UP |
| `ActuatorSpec.EmptyAggregate` | actuator/actuator.go:37-40 | with no indicators and no getter, the aggregate is UP with an empty components map and nothing else |
| `ActuatorSpec.NoDetailsUnlessRequested` | actuator/actuator.go:36-62 | without the detail flag, and with indicators that keep to it, neither the aggregate nor any component carries details |
| `Actuator.Fold` | actuator/actuator.go:42-49 | one pass over a map of indicators, visiting names in an arbitrary order, adds every evaluated record under its name (overwriting) and makes the status DOWN iff it was DOWN or some record is DOWN |
| `Actuator.Actuator.constructor` | actuator/actuator.go:19-23 | a new actuator has an empty registry and no dynamic getter |
| `Actuator.Actuator.RegisterHealthIndicator` | actuator/actuator.go:26-28 | maps the name to the indicator, replacing any previous one; other names and the getter are unchanged |
| `Actuator.Actuator.RegisterDynamicHealthIndicator` | actuator/actuator.go:31-33 | replaces the getter (None removes it), so at most one is held; the registry is unchanged |
| `Actuator.Actuator.Health` | actuator/actuator.go:36-63 | the result is the aggregate of the static pass and, when a getter is registered, of the dynamic pass: DOWN iff some evaluated record is DOWN; the components are the static names plus the dynamic names; no details or groups |
| `Actuator.CheckDetailsParam` | actuator/actuator.go:65-74 | returns true iff "detail" or "details" is present with a first value of "" or "true"; requires exactly that every key it reads has a first value |
| `Actuator.ParsedQueryIsIndexable` | actuator/actuator.go:68-69 | a parsed query, where every present key has a value, meets what CheckDetailsParam requires |
| `Actuator.DetailFlagExamples` | actuator/actuator.go:67-73 | ?detail and ?details=true request details; ?details=false, ?details=TRUE, ?details=false&details=true, ?detail=1 and no parameter do not |
| `Actuator.OnlyFirstValueCounts` | actuator/actuator.go:69 | values after the first never change the decision |
| `SelfIndicator.SelfHealth` | healthindicator/self.go:14-25 | always UP; details present iff requested, and then an empty map; no components, no groups |
| `SelfIndicator.NewSelfHealthIndicator` | healthindicator/self.go:9-11 | the indicator reports UP for either flag, with details exactly when requested |
| `SelfIndicator.SelfHonoursDetailFlag` | healthindicator/self.go:19-22 | without the flag the self indicator returns no details |
| `SelfIndicator.SelfIndicatorsAggregateUp` | healthindicator/self.go:13-17 | any number of self indicators aggregate to UP |
| `Scenarios.UpWithoutDetails` | actuator/actuator.go:36-63 | one UP indicator evaluated without details gives UP with that one component and no details anywhere |
| `Scenarios.DownWithDetails` | actuator/actuator.go:36-63 | one DOWN indicator evaluated with details gives DOWN, and the component keeps its error detail |
| `Scenarios.DynamicOverwritesStatic` | actuator/actuator.go:42-59 | a static DOWN x overwritten by a dynamic UP x shows x as UP and the aggregate as DOWN |
| `Scenarios.DynamicSetFollowsWorld` | actuator/actuator.go:51-52 | the getter is consulted on every evaluation, so the components follow the dynamic set of the moment |
| `Scenarios.RemovingTheGetter` | actuator/actuator.go:31-33 | registering no getter after one drops the dynamic pass |

## Left out

- `HealthHandler` and `HealthEchoHandler` (actuator/actuator.go:77-113): HTTP and echo plumbing, JSON serialisation with `json.MarshalIndent`, and the 500 reply on a marshalling error. The rule that `omitempty` prints nil and empty maps the same way is not modelled either.
- healthindicator/http.go, healthindicator/etcd.go and healthindicator/memory.go: each gets all its observable values from the network, the etcd client or the Go runtime. The scenarios use test indicators in their place. Note that the HTTP indicator returns details on request errors even when they were not requested, so it does not satisfy `HonoursDetailFlag`.
- main.go: process start-up and the HTTP server.
- Side effects and timing of indicators: within one evaluation each indicator is a function of the detail flag. Network I/O, timeouts and results that change between calls are not modelled.
- Concurrency and deadlines: the source evaluates sequentially and has neither.
- Go's nil values that panic: a nil indicator, a getter that returns nil indicators, and an `Actuator` not built by `NewActuator` (whose nil map panics on registration). Indicators are total functions here and actuators come only from the constructor.
- Values inside details (`interface{}` in Go) are text, integers, booleans or nested maps. Floating-point values are not modelled.
- `ActuatorSpec.NoDetailsUnlessRequested`: checks the aggregate and its direct components, not records nested deeper. Dafny cannot show that a recursion through the values of a map terminates, and every indicator in the source returns a record without components.
- `Actuator.CheckDetailsParam`: when a key it reads has an empty value list, Go panics on the unguarded `value[0]`. The requires clause excludes exactly that case. Queries parsed from a URL never produce it (`ParsedQueryIsIndexable`).
