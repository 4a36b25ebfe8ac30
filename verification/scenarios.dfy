/** Properties that connect the components: the bridge built by `execute`,
    the seed serialiser with the cardinality serialiser registered, and the
    two `canHandle` policies side by side. */
module Scenarios {
  import opened Results
  import opened Jvm
  import opened Registry
  import opened Bridge
  import opened PythonGraph
  import Seeds = ElementSeedMapSerialiser
  import Hll = HyperLogLogPlusSerialiser

  /** An iterable result of an Output operation is streamed back with one
      serialiser for the whole stream, the one registered for the exact class
      of its first element: every element goes through it, whatever its own
      class, in the source's order. */
  lemma SingleSerialiserPerStream(reg: Registry, apply: Apply, engine: Engine, operation: Value, user: Value)
    requires InstanceOf(operation, OutputName)
    requires engine(operation, user).Completed?
    requires InstanceOf(engine(operation, user).result, IterableName)
    requires !InstanceOf(engine(operation, user).result, ConfigurationName)
    requires |Elements(engine(operation, user).result)| > 0
    requires !Elements(engine(operation, user).result)[0].Null?
    ensures
      var source := Elements(engine(operation, user).result);
      var r := Execute(Some(reg), engine, operation, user);
      && r.Success? && r.value.Wrapped?
      && var out := Yielded(apply, r.value.bridge);
      && |out| == |source|
      && forall i :: 0 <= i < |out| ==> out[i] == Convert(apply, Lookup(reg, ClassOf(source[0]).value), source[i])
  {
  }

  const FirstClass := JClass("example.First", Some("example.First"), {ObjectName})
  const SecondClass := JClass("example.Second", Some("example.Second"), {ObjectName, FirstClass.name})
  const ResultListClass := JClass("java.util.ArrayList", Some("java.util.ArrayList"),
    {ObjectName, IterableName, "java.util.Collection", "java.util.List", "java.util.AbstractList"})

  /** A mixed stream of three elements: only the first element's class
      decides. With a serialiser for the first class every element is
      serialised by it, even the two of another class; with a serialiser for
      the second class only, nothing is serialised. */
  lemma MixedStream(apply: Apply, engine: Engine, operation: Value, user: Value, s: JClass)
    requires InstanceOf(operation, OutputName)
    requires engine(operation, user) ==
      Completed(Obj(ResultListClass, 0, [Obj(FirstClass, 1, []), Obj(SecondClass, 2, []), Obj(SecondClass, 3, [])]))
    ensures
      var r := Execute(Some(map[FirstClass.name := s]), engine, operation, user);
      r.Success? && r.value.Wrapped? &&
      Yielded(apply, r.value.bridge) ==
        [apply(s, Obj(FirstClass, 1, [])), apply(s, Obj(SecondClass, 2, [])), apply(s, Obj(SecondClass, 3, []))]
    ensures
      var r := Execute(Some(map[SecondClass.name := s]), engine, operation, user);
      r.Success? && r.value.Wrapped? &&
      Yielded(apply, r.value.bridge) ==
        [Success(Obj(FirstClass, 1, [])), Success(Obj(SecondClass, 2, [])), Success(Obj(SecondClass, 3, []))]
  {
    SingleSerialiserPerStream(map[FirstClass.name := s], apply, engine, operation, user);
    SingleSerialiserPerStream(map[SecondClass.name := s], apply, engine, operation, user);
  }

  const HyperLogLogPlusClass := JClass(Hll.HyperLogLogPlusName, Some(Hll.HyperLogLogPlusName),
    {ObjectName, "com.clearspring.analytics.stream.cardinality.ICardinality", "java.io.Serializable"})
  const HyperLogLogPlusSerialiserClass := JClass(Hll.SerialiserName, Some(Hll.SerialiserName),
    {ObjectName, "uk.gov.gchq.gaffer.python.data.serialiser.PythonSerialiser"})

  /** Serialisers where the cardinality serialiser is the one the library
      defines: applied to a sketch, or to `null`, it is `Hll.Serialise`;
      applied to anything else its `serialise` fails the cast. Every other
      serialiser class behaves as `others` says. */
  function WithCardinalitySerialiser(cardinality: Hll.Cardinality, others: Apply): Apply {
    (s: JClass, v: Value) =>
      if s != HyperLogLogPlusSerialiserClass then others(s, v)
      else if v.Null? || InstanceOf(v, Hll.HyperLogLogPlusName) then Hll.Serialise(cardinality, v)
      else Failure(ClassCastException)
  }

  /** With the cardinality serialiser registered for `HyperLogLogPlus`, an
      entity seed whose vertex is a sketch is encoded with the vertex replaced
      by the sketch's estimated cardinality as a Long. */
  lemma SketchVertexSerialised(cardinality: Hll.Cardinality, others: Apply, reg: Registry, sketch: Value)
    requires ClassOf(sketch) == Some(HyperLogLogPlusClass)
    requires Hll.HyperLogLogPlusName in reg && reg[Hll.HyperLogLogPlusName] == HyperLogLogPlusSerialiserClass
    ensures Seeds.Serialise(Some(reg), WithCardinalitySerialiser(cardinality, others), Seeds.EntitySeed(sketch))
      == Success(map[Seeds.TypeKey := Tag(ENTITY_SEED), Seeds.VertexKey := Long(cardinality(sketch))])
  {
    var apply := WithCardinalitySerialiser(cardinality, others);
    assert InstanceOf(sketch, Hll.HyperLogLogPlusName);
    assert apply(HyperLogLogPlusSerialiserClass, sketch) == Hll.Serialise(cardinality, sketch);
  }

  /** The sketch of estimated cardinality 42: encoded as the Long 42 with the
      serialiser registered, and stored as the sketch itself without a config. */
  lemma SketchVertexScenario(cardinality: Hll.Cardinality, others: Apply, sketch: Value)
    requires ClassOf(sketch) == Some(HyperLogLogPlusClass)
    requires cardinality(sketch) == 42
    ensures Seeds.Serialise(Some(map[Hll.HyperLogLogPlusName := HyperLogLogPlusSerialiserClass]),
                            WithCardinalitySerialiser(cardinality, others), Seeds.EntitySeed(sketch))
      == Success(map[Seeds.TypeKey := Tag(ENTITY_SEED), Seeds.VertexKey := Long(42)])
    ensures Seeds.Serialise(None, WithCardinalitySerialiser(cardinality, others), Seeds.EntitySeed(sketch))
      == Success(map[Seeds.TypeKey := Tag(ENTITY_SEED), Seeds.VertexKey := sketch])
  {
    SketchVertexSerialised(cardinality, others, map[Hll.HyperLogLogPlusName := HyperLogLogPlusSerialiserClass], sketch);
  }

  const DirectedTypeClass := JClass("uk.gov.gchq.gaffer.data.element.id.DirectedType",
    Some("uk.gov.gchq.gaffer.data.element.id.DirectedType"), {ObjectName, "java.lang.Enum"})

  /** An edge seed A to B with no serialisers, or with none registered for
      its field classes, is encoded field for field. */
  lemma EdgeSeedScenario(apply: Apply, config: Option<Registry>)
    requires config.None? || config == Some(map[])
    ensures
      var directed := Obj(DirectedTypeClass, 0, []);
      Seeds.Serialise(config, apply, Seeds.EdgeSeed(Str("A"), Str("B"), directed, Str("A")))
      == Success(map[
        Seeds.TypeKey := Tag(EDGE_SEED),
        Seeds.SourceKey := Str("A"),
        Seeds.DestinationKey := Str("B"),
        Seeds.DirectedKey := directed,
        Seeds.MatchedVertexKey := Str("A")])
  {
  }

  /** A null field is stored as null when there is no config, but makes the
      encoding throw once a config is present (here the other fields are of a
      class with no serialiser, so nothing else can throw first). */
  lemma NullFieldScenario(apply: Apply, reg: Registry, source: Value)
    requires ClassOf(source).Some? ==> ClassOf(source).value.name !in reg
    ensures Seeds.Serialise(None, apply, Seeds.EdgeSeed(source, source, source, Null)).Success?
    ensures Seeds.Serialise(Some(reg), apply, Seeds.EdgeSeed(source, source, source, Null)) == Failure(NullPointerException)
  {
  }

  /** The two `canHandle` policies: the cardinality serialiser compares classes
      for equality, so it refuses a proper subclass of `HyperLogLogPlus` and
      answers false for `null`; the seed serialiser tests assignability, so it
      accepts any subtype of `ElementSeed` and throws for `null`. */
  lemma CanHandleExactVersusAssignable(sketchSubclass: JClass, seedSubtype: JClass)
    requires Hll.HyperLogLogPlusName in sketchSubclass.supertypes && sketchSubclass.name != Hll.HyperLogLogPlusName
    requires Seeds.ElementSeedName in seedSubtype.supertypes
    ensures Hll.CanHandle(Some(HyperLogLogPlusClass))
    ensures !Hll.CanHandle(Some(sketchSubclass))
    ensures !Hll.CanHandle(None)
    ensures Seeds.CanHandle(Some(seedSubtype)) == Success(true)
    ensures Seeds.CanHandle(None) == Failure(NullPointerException)
  {
  }
}
