/**
 * The actuator of actuator/actuator.go: a registry of named indicators and an
 * optional getter of dynamic indicators, evaluated on demand into one record;
 * and the parser of the detail query flag.
 *
 * The getter is called afresh on every evaluation and may return a different set
 * of indicators each time (live cluster members, say). It is modelled as a function
 * of `World`, the external state it consults; each evaluation receives the state
 * of the world at the moment of the call.
 */
module Actuator {
  import opened HealthRecord
  import opened ActuatorSpec

  type DynamicGetter<!World> = World -> map<string, Indicator>

  /**
   * One pass of the evaluation loop over every indicator of inds, in an order the
   * caller cannot predict (Go map iteration): each record is stored under its
   * name, and the status becomes "DOWN" when some record is "DOWN".
   */
  method Fold(inds: map<string, Indicator>, withDetails: bool, acc: Health) returns (r: Health)
    requires acc.components.Some?
    ensures r == acc.(status := if SomeDown(Evaluate(inds, withDetails)) then Down else acc.status,
                      components := Some(acc.components.value + Evaluate(inds, withDetails)))
  {
    r := acc;
    var todo := inds.Keys;
    ghost var done: map<string, Health> := map[];
    assert acc.components.value + done == acc.components.value;
    while todo != {}
      invariant todo <= inds.Keys
      invariant done == map n | n in inds && n !in todo :: inds[n](withDetails)
      invariant r == acc.(status := if SomeDown(done) then Down else acc.status,
                          components := Some(acc.components.value + done))
      decreases todo
    {
      var name :| name in todo;
      var componentHealth := inds[name](withDetails);
      r := r.(components := Some(r.components.value[name := componentHealth]));
      if componentHealth.status == Down {
        r := r.(status := Down);
      }
      todo := todo - {name};
      ghost var before := done;
      done := done[name := componentHealth];
      assert SomeDown(done) <==> SomeDown(before) || IsDown(componentHealth) by {
        if SomeDown(done) {
          var n :| n in done && IsDown(done[n]);
          if n != name { assert n in before && IsDown(before[n]); }
        }
        if SomeDown(before) {
          var n :| n in before && IsDown(before[n]);
          assert n in done && done[n] == before[n];
        }
        if IsDown(componentHealth) {
          assert name in done && done[name] == componentHealth;
        }
      }
      assert (acc.components.value + before)[name := componentHealth] == acc.components.value + done;
    }
    assert done == Evaluate(inds, withDetails);
  }

  class Actuator<World> {
    /** The statically registered indicators, by name. */
    var indicators: map<string, Indicator>
    /** The dynamic getter; None when none is registered (Go's nil). */
    var dynamicGetter: Option<DynamicGetter<World>>

    /** A new actuator has no indicators and no dynamic getter. */
    constructor ()
      ensures indicators == map[]
      ensures dynamicGetter == None
    {
      indicators := map[];
      dynamicGetter := None;
    }

    /** Registers the indicator under name, replacing any indicator already under it. */
    method RegisterHealthIndicator(name: string, indicator: Indicator)
      modifies this
      ensures indicators == old(indicators)[name := indicator]
      ensures name in indicators && indicators[name] == indicator
      ensures forall n | n in old(indicators) && n != name :: n in indicators && indicators[n] == old(indicators)[n]
      ensures dynamicGetter == old(dynamicGetter)
    {
      indicators := indicators[name := indicator];
    }

    /**
     * Replaces the dynamic getter, so at most one is held; registering None (Go's
     * nil) removes it.
     */
    method RegisterDynamicHealthIndicator(getter: Option<DynamicGetter<World>>)
      modifies this
      ensures dynamicGetter == getter
      ensures indicators == old(indicators)
    {
      dynamicGetter := getter;
    }

    /**
     * Evaluates every static indicator, then, when a getter is registered, every
     * indicator the getter returns for the current world. The result is the
     * aggregate of the two passes, whatever order either pass visits names in.
     */
    method Health(withDetails: bool, world: World) returns (health: HealthRecord.Health)
      ensures health == Aggregate(Evaluate(indicators, withDetails), DynamicResults(dynamicGetter, world, withDetails))
      ensures IsDown(health) <==>
                SomeDown(Evaluate(indicators, withDetails)) ||
                SomeDown(DynamicResults(dynamicGetter, world, withDetails))
      ensures health.components.Some?
      ensures health.components.value.Keys ==
                indicators.Keys + (if dynamicGetter.Some? then dynamicGetter.value(world).Keys else {})
      ensures health.details == None && health.groups == None
    {
      health := Start;
      health := Fold(indicators, withDetails, health);
      if dynamicGetter.Some? {
        var dynamicIndicators := dynamicGetter.value(world);
        health := Fold(dynamicIndicators, withDetails, health);
      }
      assert map[] + Evaluate(indicators, withDetails) == Evaluate(indicators, withDetails);
      assert Evaluate(indicators, withDetails) + map[] == Evaluate(indicators, withDetails);
    }
  }

  /** Both keys the query may use to ask for details, in the order they are tried. */
  const DetailKeys: seq<string> := ["detail", "details"]

  /** The query carries key with a first value of "" or "true". */
  predicate Enables(params: map<string, seq<string>>, key: string) {
    key in params && |params[key]| > 0 && (params[key][0] == "" || params[key][0] == "true")
  }

  /** Details are requested when "detail" or "details" enables them. */
  predicate DetailsRequested(params: map<string, seq<string>>) {
    Enables(params, "detail") || Enables(params, "details")
  }

  /** Looking up key's first value does not fail: key is absent or has a value. */
  predicate Indexable(params: map<string, seq<string>>, key: string) {
    key in params ==> |params[key]| > 0
  }

  /** What a parsed query string yields: every present key has at least one value. */
  predicate ParsedQuery(params: map<string, seq<string>>) {
    forall k | k in params :: |params[k]| > 0
  }

  /**
   * Decides whether a query asks for details. The first value of each key is read
   * without a guard, so a key that is looked at must have a value.
   */
  method CheckDetailsParam(params: map<string, seq<string>>) returns (withDetails: bool)
    requires Indexable(params, "detail")
    requires Enables(params, "detail") || Indexable(params, "details")
    ensures withDetails == DetailsRequested(params)
  {
    assert DetailKeys[0] == "detail" && DetailKeys[1] == "details";
    for i := 0 to |DetailKeys|
      invariant forall j | 0 <= j < i :: !Enables(params, DetailKeys[j])
    {
      var key := DetailKeys[i];
      if key in params {
        var value := params[key];
        if value[0] == "" || value[0] == "true" {
          return true;
        }
      }
    }
    return false;
  }

  /** A parsed query meets what CheckDetailsParam needs. */
  lemma ParsedQueryIsIndexable(params: map<string, seq<string>>)
    requires ParsedQuery(params)
    ensures Indexable(params, "detail") && Indexable(params, "details")
  {
  }

  /**
   * Only the first value of a key counts, and only "" and "true" (exactly, case
   * included) enable details: "?detail" and "?details=true" ask for them;
   * "?details=false", "?details=TRUE", "?details=false&details=true", "?detail=1"
   * and an empty query do not.
   */
  lemma DetailFlagExamples()
    ensures DetailsRequested(map["detail" := [""]])
    ensures DetailsRequested(map["details" := ["true"]])
    ensures DetailsRequested(map["detail" := ["no"], "details" := [""]])
    ensures !DetailsRequested(map["details" := ["false"]])
    ensures !DetailsRequested(map["details" := ["TRUE"]])
    ensures !DetailsRequested(map["details" := ["false", "true"]])
    ensures !DetailsRequested(map["detail" := ["1"]])
    ensures !DetailsRequested(map[])
  {
  }

  /** Further values after the first never change the decision. */
  lemma OnlyFirstValueCounts(params: map<string, seq<string>>, key: string, more: seq<string>)
    requires key in params && |params[key]| > 0
    ensures DetailsRequested(params[key := params[key] + more]) == DetailsRequested(params)
  {
  }
}
