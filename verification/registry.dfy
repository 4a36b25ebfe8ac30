/** The serialiser registry (`PythonSerialiserConfig`) as far as the modelled
    code uses it: a finite map from the class to serialise to a serialiser
    class, consulted by exact class only. How entries are added is left to
    the caller's `add` collaborator, since that code is not part of this model. */
module Registry {
  import opened Results
  import opened Jvm

  /** Class to serialise (by name) to the class of its serialiser. */
  type Registry = map<TypeName, JClass>

  /** `getSerialiser(c)` / `getSerialisers().containsKey(c)`: exact-class lookup,
      no fallback to supertypes. */
  function Lookup(reg: Registry, c: JClass): (r: Option<JClass>)
    ensures r.Some? <==> c.name in reg
    ensures r.Some? ==> r.value == reg[c.name]
  {
    if c.name in reg then Some(reg[c.name]) else None
  }

  /** Applying a serialiser: instantiating the serialiser class and calling its
      `serialise` on the value, which may throw. */
  type Apply = (JClass, Value) -> Result<Value, JavaError>
}
