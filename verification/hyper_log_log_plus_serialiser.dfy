/** `HyperLogLogPlusPythonSerialiser`: collapses a HyperLogLog++ cardinality
    sketch to its estimated cardinality. The serialiser has no fields, so its
    output is a function of the sketch alone. */
module HyperLogLogPlusSerialiser {
  import opened Results
  import opened Jvm

  const HyperLogLogPlusName: TypeName := "com.clearspring.analytics.stream.cardinality.HyperLogLogPlus"
  const SerialiserName: TypeName := "uk.gov.gchq.gaffer.python.data.serialiser.impl.HyperLogLogPlusPythonSerialiser"

  /** `HyperLogLogPlus.cardinality()`: the estimate computed inside the sketch library. */
  type Cardinality = Value -> int64

  /** `serialise`: the sketch's `cardinality()` boxed as a `java.lang.Long`;
      a `null` sketch throws when asked for it. */
  function Serialise(cardinality: Cardinality, hllp: Value): (r: Result<Value, JavaError>)
    requires hllp.Null? || InstanceOf(hllp, HyperLogLogPlusName)
    ensures hllp.Null? <==> r.Failure?
    ensures r.Failure? ==> r.error == NullPointerException
    ensures r.Success? ==> ClassOf(r.value) == Some(LongClass) && r.value.Long? && r.value.l == cardinality(hllp)
  {
    if hllp.Null? then Failure(NullPointerException) else Success(Long(cardinality(hllp)))
  }

  /** `canHandle`: class equality, so only `HyperLogLogPlus` itself; `equals`
      answers false for a `null` class (`None`). */
  predicate CanHandle(c: Option<JClass>) {
    c.Some? && c.value.name == HyperLogLogPlusName
  }
}
