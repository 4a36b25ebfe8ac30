/** The small part of the Java runtime that the marshalling layer relies on:
    classes and their supertypes, the values that cross the boundary, the
    `instanceof` test, `getClass()`, and the exceptions the layer can raise. */
module Jvm {
  import opened Results

  /** The binary name of a Java class or interface, such as "java.lang.Iterable". */
  type TypeName = string

  /** A loaded class: its name, its canonical name (absent for anonymous and
      local classes) and the names of all its proper supertypes, that is its
      superclasses and the interfaces it implements, transitively. Within one
      class loader a class is identified by its name. */
  datatype JClass = JClass(name: TypeName, canonicalName: Option<string>, supertypes: set<TypeName>)

  /** `T.class.isAssignableFrom(c)`: `c` is the type named `t` or one of its subtypes. */
  predicate SubtypeOf(c: JClass, t: TypeName) {
    c.name == t || t in c.supertypes
  }

  /** The text `getCanonicalName()` contributes to a string concatenation. */
  function CanonicalNameText(c: JClass): string {
    match c.canonicalName
    case Some(n) => n
    case None => "null"
  }

  newtype int32 = x: int | -0x8000_0000 <= x < 0x8000_0000
  newtype int64 = x: int | -0x8000_0000_0000_0000 <= x < 0x8000_0000_0000_0000

  /** The constants `ENTITY_SEED` and `EDGE_SEED` of the `Constants` enum. */
  datatype SeedTag = ENTITY_SEED | EDGE_SEED

  /** A Java object reference as seen by the marshalling layer. `Obj` stands
      for any other object: `id` distinguishes instances of one class, and
      `elements` is what its `iterator()` yields when its class is `Iterable`. */
  datatype Value =
    | Null
    | Integer(i: int32)
    | Long(l: int64)
    | Str(s: string)
    | Tag(tag: SeedTag)
    | StringMap(entries: map<string, Value>)
    | Obj(cls: JClass, id: nat, elements: seq<Value>)

  const ObjectName: TypeName := "java.lang.Object"
  const IterableName: TypeName := "java.lang.Iterable"
  const ConfigurationName: TypeName := "org.apache.hadoop.conf.Configuration"

  const IntegerClass := JClass("java.lang.Integer", Some("java.lang.Integer"),
    {ObjectName, "java.lang.Number", "java.lang.Comparable", "java.io.Serializable"})
  const LongClass := JClass("java.lang.Long", Some("java.lang.Long"),
    {ObjectName, "java.lang.Number", "java.lang.Comparable", "java.io.Serializable"})
  const StringClass := JClass("java.lang.String", Some("java.lang.String"),
    {ObjectName, "java.lang.CharSequence", "java.lang.Comparable", "java.io.Serializable"})
  const ConstantsClass := JClass("uk.gov.gchq.gaffer.python.util.Constants", Some("uk.gov.gchq.gaffer.python.util.Constants"),
    {ObjectName, "java.lang.Enum", "java.lang.Comparable", "java.io.Serializable"})
  const HashMapClass := JClass("java.util.HashMap", Some("java.util.HashMap"),
    {ObjectName, "java.util.AbstractMap", "java.util.Map", "java.lang.Cloneable", "java.io.Serializable"})

  /** `v.getClass()`; `None` for `null`, where the call throws NullPointerException. */
  function ClassOf(v: Value): Option<JClass> {
    match v
    case Null => None
    case Integer(_) => Some(IntegerClass)
    case Long(_) => Some(LongClass)
    case Str(_) => Some(StringClass)
    case Tag(_) => Some(ConstantsClass)
    case StringMap(_) => Some(HashMapClass)
    case Obj(c, _, _) => Some(c)
  }

  /** `v instanceof T`, false for `null`. */
  predicate InstanceOf(v: Value, t: TypeName) {
    ClassOf(v).Some? && SubtypeOf(ClassOf(v).value, t)
  }

  /** The exceptions the modelled code lets escape to its caller. A
      collaborator passed in as a parameter may fail with any of them. */
  datatype JavaError =
    | NullPointerException
    | NoSuchElementException
    | ClassCastException
    | IllegalArgumentException(message: string)
}
