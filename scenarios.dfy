/**
 * Client code of the actuator: each method builds an actuator, registers
 * indicators and evaluates it, and its postcondition follows from the
 * contracts of Actuator alone.
 */
module Scenarios {
  import opened HealthRecord
  import opened ActuatorSpec
  import A = Actuator

  /** A test double that is always "UP" and never adds details. */
  const AlwaysUp: Indicator := (withDetails: bool) => Leaf(Up)

  /** A test double that is always "DOWN" with a timeout error among its details when they are requested. */
  const TimingOut: Indicator :=
    (withDetails: bool) => Health(Down, None, if withDetails then Some(map["error" := Text("timeout")]) else None, None)

  /** One indicator that is up, evaluated without details: "UP", one component, no details anywhere. */
  method UpWithoutDetails() returns (health: Health)
    ensures health == Health(Up, Some(map["memory" := Leaf(Up)]), None, None)
    ensures ShowsNoDetails(health)
  {
    var actuator := new A.Actuator<()>();
    actuator.RegisterHealthIndicator("memory", AlwaysUp);
    health := actuator.Health(false, ());
    assert Evaluate(map["memory" := AlwaysUp], false) == map["memory" := Leaf(Up)];
    assert map["memory" := Leaf(Up)] + map[] == map["memory" := Leaf(Up)];
  }

  /** One indicator that is down, evaluated with details: "DOWN", and the component keeps its error. */
  method DownWithDetails() returns (health: Health)
    ensures IsDown(health)
    ensures health.components == Some(map["db" := Health(Down, None, Some(map["error" := Text("timeout")]), None)])
  {
    var actuator := new A.Actuator<()>();
    actuator.RegisterHealthIndicator("db", TimingOut);
    health := actuator.Health(true, ());
    var db := Health(Down, None, Some(map["error" := Text("timeout")]), None);
    assert Evaluate(map["db" := TimingOut], true) == map["db" := db];
    assert map["db" := db] + map[] == map["db" := db];
    assert IsDown(map["db" := db]["db"]);
  }

  /**
   * A static "x" that is down, overwritten by a dynamic "x" that is up: the
   * component shows "UP", yet the aggregate stays "DOWN".
   */
  method DynamicOverwritesStatic() returns (health: Health)
    ensures IsDown(health)
    ensures health.components == Some(map["x" := Leaf(Up)])
  {
    var actuator := new A.Actuator<()>();
    actuator.RegisterHealthIndicator("x", TimingOut);
    actuator.RegisterDynamicHealthIndicator(Some((world: ()) => map["x" := AlwaysUp]));
    health := actuator.Health(false, ());
    var down := Health(Down, None, None, None);
    assert Evaluate(map["x" := TimingOut], false) == map["x" := down];
    assert Evaluate(map["x" := AlwaysUp], false) == map["x" := Leaf(Up)];
    assert map["x" := down] + map["x" := Leaf(Up)] == map["x" := Leaf(Up)];
    assert IsDown(map["x" := down]["x"]);
  }

  /**
   * The getter is asked again on every evaluation: with one member live and then
   * two, the components follow the members of the moment.
   */
  method DynamicSetFollowsWorld() returns (first: Health, second: Health)
    ensures first.components.Some? && first.components.value.Keys == {"self", "node-1"}
    ensures second.components.Some? && second.components.value.Keys == {"self", "node-1", "node-2"}
  {
    var actuator := new A.Actuator<set<string>>();
    actuator.RegisterHealthIndicator("self", AlwaysUp);
    actuator.RegisterDynamicHealthIndicator(Some((members: set<string>) => map m | m in members :: AlwaysUp));
    first := actuator.Health(false, {"node-1"});
    second := actuator.Health(false, {"node-1", "node-2"});
  }

  /** Registering no getter (Go's nil) after one drops the dynamic pass. */
  method RemovingTheGetter() returns (health: Health)
    ensures health == Health(Up, Some(map[]), None, None)
  {
    var actuator := new A.Actuator<()>();
    actuator.RegisterDynamicHealthIndicator(Some((world: ()) => map["x" := TimingOut]));
    actuator.RegisterDynamicHealthIndicator(None);
    health := actuator.Health(true, ());
    var none: map<string, Health> := map[];
    assert Evaluate(map[], true) == none;
    assert none + none == none;
  }
}
