/**
 * What one evaluation of the actuator computes (actuator/actuator.go, Health),
 * stated two ways: declaratively over the sets of names (Aggregate), and as the
 * source's loop run over an explicit visiting order (Visit). The lemmas show the
 * two agree for every order, and state the aggregate's status and components.
 */
module ActuatorSpec {
  import opened HealthRecord

  /** The record every indicator of inds returns for the flag, by name. */
  function Evaluate(inds: map<string, Indicator>, withDetails: bool): (results: map<string, Health>)
    ensures results.Keys == inds.Keys
  {
    map n | n in inds :: inds[n](withDetails)
  }

  /** Some record among results has status exactly "DOWN". */
  predicate SomeDown(results: map<string, Health>) {
    exists n | n in results :: IsDown(results[n])
  }

  /**
   * The aggregate of one evaluation: the status is "DOWN" when some evaluated
   * record, static or dynamic, was down, and the components are the static
   * results overwritten by the dynamic ones.
   */
  function Aggregate(staticResults: map<string, Health>, dynamicResults: map<string, Health>): Health {
    Health(
      if SomeDown(staticResults) || SomeDown(dynamicResults) then Down else Up,
      Some(staticResults + dynamicResults),
      None,
      None)
  }

  /** What the dynamic pass evaluates: nothing when no getter is registered. */
  function DynamicResults<World>(getter: Option<World -> map<string, Indicator>>, world: World, withDetails: bool)
    : (results: map<string, Health>)
    ensures getter.None? ==> results == map[]
    ensures getter.Some? ==> results.Keys == getter.value(world).Keys
  {
    match getter
    case None => map[]
    case Some(get) => Evaluate(get(world), withDetails)
  }

  /** The record an evaluation starts from: "UP" with an empty components map. */
  const Start: Health := Health(Up, Some(map[]), None, None)

  /** One step of either loop: store the result under its name; a "DOWN" result makes the status "DOWN". */
  function Record(acc: Health, name: string, result: Health): (r: Health)
    requires acc.components.Some?
    ensures r.components.Some?
  {
    acc.(status := if IsDown(result) then Down else acc.status,
         components := Some(acc.components.value[name := result]))
  }

  /** The loop of the source run over the names in `order`, one after the other. */
  function Visit(acc: Health, order: seq<string>, inds: map<string, Indicator>, withDetails: bool): (r: Health)
    requires acc.components.Some?
    requires forall i | 0 <= i < |order| :: order[i] in inds
    ensures r.components.Some?
    decreases |order|
  {
    if order == [] then acc
    else Visit(Record(acc, order[0], inds[order[0]](withDetails)), order[1..], inds, withDetails)
  }

  /** `order` visits every name of `keys` and nothing else (possibly some more than once). */
  predicate Enumerates(order: seq<string>, keys: set<string>) {
    && (forall i | 0 <= i < |order| :: order[i] in keys)
    && (forall k | k in keys :: k in order)
  }

  /** The records of the names visited along `order`, by name. */
  function Seen(order: seq<string>, inds: map<string, Indicator>, withDetails: bool): (seen: map<string, Health>)
    requires forall i | 0 <= i < |order| :: order[i] in inds
  {
    map n | n in inds && n in order :: inds[n](withDetails)
  }

  /** Some indicator visited along `order` returned "DOWN". */
  predicate DownAlong(order: seq<string>, inds: map<string, Indicator>, withDetails: bool)
    requires forall i | 0 <= i < |order| :: order[i] in inds
  {
    exists i | 0 <= i < |order| :: IsDown(inds[order[i]](withDetails))
  }

  /** Visiting one more name at the front adds exactly its record. */
  lemma SeenCons(order: seq<string>, inds: map<string, Indicator>, withDetails: bool)
    requires order != []
    requires forall i | 0 <= i < |order| :: order[i] in inds
    ensures Seen(order, inds, withDetails) == Seen(order[1..], inds, withDetails)[order[0] := inds[order[0]](withDetails)]
  {
  }

  /** Visiting one more name at the front is down exactly when its record or the rest is. */
  lemma DownAlongCons(order: seq<string>, inds: map<string, Indicator>, withDetails: bool)
    requires order != []
    requires forall i | 0 <= i < |order| :: order[i] in inds
    ensures DownAlong(order, inds, withDetails)
        <==> IsDown(inds[order[0]](withDetails)) || DownAlong(order[1..], inds, withDetails)
  {
  }

  /** Writing k first and then merging b is merging b with k written, when b agrees on k. */
  lemma UpdateThenMerge(a: map<string, Health>, b: map<string, Health>, k: string, v: Health)
    requires k in b ==> b[k] == v
    ensures a[k := v] + b == a + b[k := v]
  {
  }

  /**
   * Visiting any names, in any order and with repetitions, leaves the status "DOWN"
   * exactly when it was "DOWN" or some visited indicator returned "DOWN", and
   * adds each visited name with its result to the components.
   */
  lemma {:induction false} VisitAnyOrder(acc: Health, order: seq<string>, inds: map<string, Indicator>, withDetails: bool)
    requires acc.components.Some?
    requires forall i | 0 <= i < |order| :: order[i] in inds
    ensures Visit(acc, order, inds, withDetails) ==
      acc.(status := if DownAlong(order, inds, withDetails) then Down else acc.status,
           components := Some(acc.components.value + Seen(order, inds, withDetails)))
    decreases |order|
  {
    if order == [] {
      assert Seen(order, inds, withDetails) == map[];
      assert acc.components.value + map[] == acc.components.value;
    } else {
      var name, rest := order[0], order[1..];
      var result := inds[name](withDetails);
      VisitAnyOrder(Record(acc, name, result), rest, inds, withDetails);
      SeenCons(order, inds, withDetails);
      DownAlongCons(order, inds, withDetails);
      UpdateThenMerge(acc.components.value, Seen(rest, inds, withDetails), name, result);
    }
  }

  /** Visiting an enumeration of all names sees every record, and is down exactly when some record is. */
  lemma EnumerationSeesAll(inds: map<string, Indicator>, order: seq<string>, withDetails: bool)
    requires Enumerates(order, inds.Keys)
    ensures Seen(order, inds, withDetails) == Evaluate(inds, withDetails)
    ensures DownAlong(order, inds, withDetails) <==> SomeDown(Evaluate(inds, withDetails))
  {
  }

  /**
   * Order independence: the static pass over any enumeration of the static names,
   * followed by the dynamic pass over any enumeration of the dynamic names, yields
   * the aggregate.
   */
  lemma VisitYieldsAggregate(
    statics: map<string, Indicator>, staticOrder: seq<string>,
    dynamics: map<string, Indicator>, dynamicOrder: seq<string>,
    withDetails: bool)
    requires Enumerates(staticOrder, statics.Keys)
    requires Enumerates(dynamicOrder, dynamics.Keys)
    ensures Visit(Visit(Start, staticOrder, statics, withDetails), dynamicOrder, dynamics, withDetails)
         == Aggregate(Evaluate(statics, withDetails), Evaluate(dynamics, withDetails))
  {
    var afterStatic := Visit(Start, staticOrder, statics, withDetails);
    VisitAnyOrder(Start, staticOrder, statics, withDetails);
    VisitAnyOrder(afterStatic, dynamicOrder, dynamics, withDetails);
    EnumerationSeesAll(statics, staticOrder, withDetails);
    EnumerationSeesAll(dynamics, dynamicOrder, withDetails);
    var s := Evaluate(statics, withDetails);
    assert map[] + s == s;
  }

  /** Any two visiting orders give the same record. */
  lemma OrderIrrelevant(
    statics: map<string, Indicator>, order1: seq<string>, order2: seq<string>,
    dynamics: map<string, Indicator>, dynOrder1: seq<string>, dynOrder2: seq<string>,
    withDetails: bool)
    requires Enumerates(order1, statics.Keys) && Enumerates(order2, statics.Keys)
    requires Enumerates(dynOrder1, dynamics.Keys) && Enumerates(dynOrder2, dynamics.Keys)
    ensures Visit(Visit(Start, order1, statics, withDetails), dynOrder1, dynamics, withDetails)
         == Visit(Visit(Start, order2, statics, withDetails), dynOrder2, dynamics, withDetails)
  {
    VisitYieldsAggregate(statics, order1, dynamics, dynOrder1, withDetails);
    VisitYieldsAggregate(statics, order2, dynamics, dynOrder2, withDetails);
  }

  /**
   * The aggregate status is "DOWN" exactly when some evaluated record, static or
   * dynamic, had status "DOWN", and "UP" otherwise; no other string appears.
   */
  lemma AggregateStatus(staticResults: map<string, Health>, dynamicResults: map<string, Health>)
    ensures var h := Aggregate(staticResults, dynamicResults);
      && (IsDown(h) <==>
            (exists n | n in staticResults :: IsDown(staticResults[n])) ||
            (exists n | n in dynamicResults :: IsDown(dynamicResults[n])))
      && (!IsDown(h) ==> h.status == Up)
  {
  }

  /**
   * The components hold exactly the static and the dynamic names; a name on both
   * sides holds the dynamic result. The aggregate has no details and no groups.
   */
  lemma AggregateComponents(staticResults: map<string, Health>, dynamicResults: map<string, Health>)
    ensures var h := Aggregate(staticResults, dynamicResults);
      && h.components.Some?
      && h.components.value.Keys == staticResults.Keys + dynamicResults.Keys
      && (forall n | n in dynamicResults :: h.components.value[n] == dynamicResults[n])
      && (forall n | n in staticResults && n !in dynamicResults :: h.components.value[n] == staticResults[n])
      && h.details == None && h.groups == None
  {
  }

  /** A "DOWN" static result overwritten by a dynamic result that is not down still makes the aggregate "DOWN". */
  lemma OverwrittenDownStillCounts(staticResults: map<string, Health>, dynamicResults: map<string, Health>, name: string)
    requires name in staticResults && IsDown(staticResults[name])
    requires name in dynamicResults && !IsDown(dynamicResults[name])
    ensures IsDown(Aggregate(staticResults, dynamicResults))
    ensures !IsDown(Aggregate(staticResults, dynamicResults).components.value[name])
  {
  }

  /**
   * So the aggregate can be "DOWN" while none of its final components is: static
   * "x" down, dynamic "x" up.
   */
  lemma DownWithoutDownComponent()
    ensures var h := Aggregate(map["x" := Leaf(Down)], map["x" := Leaf(Up)]);
      && IsDown(h)
      && h.components == Some(map["x" := Leaf(Up)])
      && forall n | n in h.components.value :: !IsDown(h.components.value[n])
  {
    var s, d := map["x" := Leaf(Down)], map["x" := Leaf(Up)];
    assert IsDown(s["x"]);
    assert s + d == d;
  }

  /** Statuses other than "DOWN", "UNKNOWN" among them, never make the aggregate "DOWN". */
  lemma OnlyDownFlips(staticResults: map<string, Health>, dynamicResults: map<string, Health>)
    requires forall n | n in staticResults :: staticResults[n].status != Down
    requires forall n | n in dynamicResults :: dynamicResults[n].status != Down
    ensures Aggregate(staticResults, dynamicResults).status == Up
  {
  }

  /** With nothing registered the aggregate is "UP" with an empty components map. */
  lemma EmptyAggregate<World>(world: World, withDetails: bool)
    ensures Aggregate(Evaluate(map[], withDetails), DynamicResults<World>(None, world, withDetails))
         == Health(Up, Some(map[]), None, None)
  {
  }

  /**
   * When details were not requested and every indicator keeps to the flag, neither
   * the aggregate nor any of its components carries details.
   */
  lemma NoDetailsUnlessRequested(statics: map<string, Indicator>, dynamics: map<string, Indicator>)
    requires forall n | n in statics :: HonoursDetailFlag(statics[n])
    requires forall n | n in dynamics :: HonoursDetailFlag(dynamics[n])
    ensures ShowsNoDetails(Aggregate(Evaluate(statics, false), Evaluate(dynamics, false)))
  {
  }
}
