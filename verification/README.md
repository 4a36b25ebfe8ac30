# Gaffer Python marshalling layer in Dafny

This project models the Java side of Gaffer's Python API, the layer that turns Java graph
objects into values the Python runtime can use. It covers three pieces:

- **`PythonElementSeedMapSerialiser`** encodes an `EntitySeed` or an `EdgeSeed` as a map
  keyed by strings. The map has a `type` discriminant and fixed field names. Any other seed
  is rejected with `IllegalArgumentException`. Fields are passed through a serialiser only
  when the class has a serialiser config: then the serialiser registered for a field's exact
  class, if any, is applied to it. The class as written never assigns its config, so it
  stores every field raw.
- **`PythonGraph`** classifies an operation as Output, else Input, else neither. It runs the
  operation on the graph engine and normalises the outcome to one of:
  - the result itself;
  - `null`;
  - the status 0 or 1;
  - a `PythonIterator` over an iterable result, carrying one serialiser chosen from the first
    element's class.

  It also fills the serialiser registry from pairs of class names, either of which may be
  `null`.
- **`HyperLogLogPlusPythonSerialiser`** collapses a HyperLogLog++ sketch to its estimated
  cardinality. It handles the `HyperLogLogPlus` class itself and nothing else.

The model is functional. Java objects are values of the `Jvm.Value` datatype. A class
(`Jvm.JClass`) carries its name and the names of all its supertypes, so both tests can be
stated:

- `instanceof` and `isAssignableFrom` accept the named type and its subtypes;
- exact-class comparison accepts only the named class.

Thrown exceptions are `Failure` values of `Results.Result`. A run of registrations instead
returns a `PythonGraph.Run`: the registry as it stands, since `addSerialiser` updates it in
place, together with the exception that ended the run, if any. Collaborators whose code is not
part of this model are parameters:

| collaborator | parameter |
|---|---|
| the graph engine | `Engine`: success with a value, or `OperationException` |
| `Class.forName` on a non-null name | `Resolver`: a class, or not found |
| `PythonSerialiserConfig.addSerialiser` | `Adder`: a new registry, or an exception |
| a serialiser's `serialise` | `Apply`: a value, or an exception |
| `HyperLogLogPlus.cardinality()` | `Cardinality` |

The registry is a `map` from class name to serialiser class, and every lookup in it uses the
exact class. `PythonIterator` is modelled as the sequence of outcomes of pulling it. That
sequence follows the wrapped source in order: each element is passed through the one
serialiser, or yielded unchanged when there is none, and a pull whose serialiser throws
yields that exception.

Files:

- `results.dfy`, `jvm.dfy`: the shared vocabulary.
- `registry.dfy`: exact-class lookup.
- `element_seed_map_serialiser.dfy`, `hyper_log_log_plus_serialiser.dfy`: the two serialisers.
- `bridge.dfy`: the iterator bridge.
- `python_graph.dfy`: dispatch and registration.
- `scenarios.dfy`: properties that connect the components.

## Behaviour worth noting

- **Empty iterable result.** For an empty iterable result, `it.next()` at
  `PythonGraph.java:165` throws `NoSuchElementException`. `PythonGraph.PostProcess` returns
  that failure.
- **Null operation.** A failed decode at `PythonGraph.java:120-125` leaves `operation` null.
  A null operation is neither Output nor Input, so it reaches the else-branch, where
  `operation.getClass()` at `PythonGraph.java:149` throws `NullPointerException`.
  `PythonGraph.Execute` returns that failure for a `Null` operation.
- **Discriminant.** The seed serialiser stores the enum constant `Constants.ENTITY_SEED` or
  `Constants.EDGE_SEED` itself under `type`, not its `getValue()` string. The model stores
  `Tag(ENTITY_SEED)` or `Tag(EDGE_SEED)`.
- **Unresolvable names.** A name that `Class.forName` cannot find raises
  `ClassNotFoundException`, which `setPythonSerialiser` catches and logs, leaving the
  registry unchanged. The caller is not told.
- **Null names.** A `null` class name, or a `null` serialiser name once the class name has
  resolved, makes `Class.forName` throw `NullPointerException`, which the handler does not
  catch.
- **Missing registry.** When both names resolve but there is no registry,
  `pythonSerialisers.addSerialiser` throws `NullPointerException`.
- **Seed serialiser config.** `serialiserConfig` in `PythonElementSeedMapSerialiser` is never
  assigned, so the class as written always stores fields raw. The model takes the config as
  an `Option`, so that both branches can be stated. `SerialiseWithoutConfig` states the
  branch that actually runs.

## Model

| member | source | states |
|---|---|---|
| ElementSeedMapSerialiser.StoredField | python-api/gafferpy-core/src/main/java/uk/gov/gchq/gaffer/python/data/serialiser/PythonElementSeedMapSerialiser.java:64-74 | Without a config a field is stored raw. With a config, a null field throws NullPointerException. A field whose exact class is a key is stored as that serialiser's output. A serialiser that throws makes the field throw. Any other field is stored raw. |
| ElementSeedMapSerialiser.Serialise | python-api/gafferpy-core/src/main/java/uk/gov/gchq/gaffer/python/data/serialiser/PythonElementSeedMapSerialiser.java:37-57 | An entity seed gives exactly the keys type and vertex: type holds the ENTITY_SEED constant and vertex holds the stored field. An edge seed gives exactly five keys: type holds EDGE_SEED, plus source, destination, directed (the directed type) and matchedVertex. Encoding succeeds exactly when every field can be stored. Fields are stored in the order source, destination, directed, matchedVertex, so the exception that escapes is that of the first field that fails (a null field under a config, or a serialiser that throws). Any other seed fails with IllegalArgumentException naming its canonical class name. |
| ElementSeedMapSerialiser.SerialiseWithoutConfig | python-api/gafferpy-core/src/main/java/uk/gov/gchq/gaffer/python/data/serialiser/PythonElementSeedMapSerialiser.java:39-66 | Without a config an entity or edge seed always encodes successfully, to a fresh map of the raw field values under the fixed keys, whatever the serialisers do. |
| ElementSeedMapSerialiser.ExactClassOnly | python-api/gafferpy-core/src/main/java/uk/gov/gchq/gaffer/python/data/serialiser/PythonElementSeedMapSerialiser.java:67-72 | A field whose class only extends or implements a registered type is stored unchanged. |
| ElementSeedMapSerialiser.AcceptedButRejected | python-api/gafferpy-core/src/main/java/uk/gov/gchq/gaffer/python/data/serialiser/PythonElementSeedMapSerialiser.java:41-62 | canHandle accepts every implementation of ElementSeed, but serialise then rejects one that is neither an EntitySeed nor an EdgeSeed (nor a subclass of either) with IllegalArgumentException naming its canonical class name, whatever the config. |
| Registry.Lookup | python-api/gafferpy-core/src/main/java/uk/gov/gchq/gaffer/python/data/serialiser/PythonElementSeedMapSerialiser.java:67-68 | A serialiser is found exactly when the class's own name is a registry key. |
| HyperLogLogPlusSerialiser.Serialise | python-api/gafferpy-library/gafferpy-serialisers/src/main/java/uk/gov/gchq/gaffer/python/data/serialiser/impl/HyperLogLogPlusPythonSerialiser.java:24-26 | A sketch serialises to a java.lang.Long holding its cardinality(). A null sketch throws NullPointerException. |
| Scenarios.CanHandleExactVersusAssignable | python-api/gafferpy-library/gafferpy-serialisers/src/main/java/uk/gov/gchq/gaffer/python/data/serialiser/impl/HyperLogLogPlusPythonSerialiser.java:28-30 | The cardinality serialiser handles HyperLogLogPlus itself but refuses any proper subclass of it, and answers false for a null class. The seed serialiser accepts every subtype of ElementSeed, and throws NullPointerException for a null class. |
| Bridge.Yielded | python-api/gafferpy-core/src/main/java/uk/gov/gchq/gaffer/python/graph/PythonGraph.java:166-168 | The bridge yields as many values as its source has, in source order. Each is the outcome of passing the source element through the bridge's one serialiser, which may be an exception. |
| Bridge.PassThrough | python-api/gafferpy-core/src/main/java/uk/gov/gchq/gaffer/python/graph/PythonGraph.java:166-168 | A bridge without a serialiser yields its source unchanged, and no pull throws. |
| PythonGraph.Classify | python-api/gafferpy-core/src/main/java/uk/gov/gchq/gaffer/python/graph/PythonGraph.java:129-156 | An operation is an Output operation exactly when it is an instance of Output. It is an Input operation exactly when it is an instance of Input and not of Output. |
| PythonGraph.GetSerialiser | python-api/gafferpy-core/src/main/java/uk/gov/gchq/gaffer/python/graph/PythonGraph.java:193-199 | Without a config there is no serialiser, even for null. With a config, a null object throws. Otherwise the result is the entry for the object's exact class, or none when that class is not a key. |
| PythonGraph.PostProcess | python-api/gafferpy-core/src/main/java/uk/gov/gchq/gaffer/python/graph/PythonGraph.java:158-172 | null, a Configuration (even though it is iterable) and any non-iterable value are returned unchanged. Another iterable fails with NoSuchElementException when empty. When non-empty it is wrapped over all its elements, so none is consumed, with the serialiser chosen from its first element. It throws exactly when it is empty, or when there is a config and its first element is null. |
| PythonGraph.Execute | python-api/gafferpy-core/src/main/java/uk/gov/gchq/gaffer/python/graph/PythonGraph.java:127-172 | An Output operation gives the post-processed engine result, or null when the engine throws; the error is not propagated. A non-null operation that is not Output gives status 0 on success and 1 on engine failure. A null operation throws NullPointerException. |
| PythonGraph.OutputTakesPrecedence | python-api/gafferpy-core/src/main/java/uk/gov/gchq/gaffer/python/graph/PythonGraph.java:129-146 | An operation that is both Output and Input takes the Output branch and never gets a status code. |
| PythonGraph.SetPythonSerialiser | python-api/gafferpy-core/src/main/java/uk/gov/gchq/gaffer/python/graph/PythonGraph.java:207-219 | The pair is added only when both names resolve. A name that is not found leaves the registry unchanged. A null name reached by Class.forName throws NullPointerException, and so does adding to an absent registry. An exception from addSerialiser escapes unchanged. |
| PythonGraph.RegisterAll | python-api/gafferpy-core/src/main/java/uk/gov/gchq/gaffer/python/graph/PythonGraph.java:201-219 | For keys visited in a given order: if no entry is effective (none has a null name reached or resolves both names) the registry is unchanged. Without a registry the run throws NullPointerException exactly when some entry is effective. With a registry it stays present, and the run ends without an exception whenever no name reached is null and addSerialiser does not throw. After an exception the registry keeps the pairs added before it. |
| PythonGraph.StopsAtFirstFailure | python-api/gafferpy-core/src/main/java/uk/gov/gchq/gaffer/python/graph/PythonGraph.java:201-219 | A run that throws stops at one key: the registry it leaves is exactly what the keys before that key built without an exception, and that key's setPythonSerialiser throws the reported exception on it. So the exception is a NullPointerException or one thrown by addSerialiser. |
| PythonGraph.RegisterAllAppend | python-api/gafferpy-core/src/main/java/uk/gov/gchq/gaffer/python/graph/PythonGraph.java:201-205 | Registering the entries of one run of keys and then of another is registering the joined run. An exception in the first run ends the loop, leaving the registry the first run reached. |
| PythonGraph.UnresolvableEntriesIgnored | python-api/gafferpy-core/src/main/java/uk/gov/gchq/gaffer/python/graph/PythonGraph.java:201-219 | Entries whose class or serialiser name is not found contribute nothing: registering all entries equals registering only the effective ones. |
| PythonGraph.SetPythonSerialisers | python-api/gafferpy-core/src/main/java/uk/gov/gchq/gaffer/python/graph/PythonGraph.java:201-205 | Every key is visited at most once, and all of them when nothing throws. The result is setPythonSerialiser applied entry by entry in that order, and after an exception the registry keeps the pairs added before it. In any order: without a registry it throws NullPointerException exactly when some entry is effective; with a registry it keeps one, and does not throw whenever no name reached is null and addSerialiser does not throw. It leaves the registry unchanged when no entry is effective. |
| Scenarios.SingleSerialiserPerStream | python-api/gafferpy-core/src/main/java/uk/gov/gchq/gaffer/python/graph/PythonGraph.java:162-168 | For a non-empty iterable result, every yielded element goes through the serialiser registered for the first element's exact class, whatever the element's own class. |
| Scenarios.MixedStream | python-api/gafferpy-core/src/main/java/uk/gov/gchq/gaffer/python/graph/PythonGraph.java:162-168 | In a three-element stream of two classes, registering the first element's class serialises all three elements. Registering only the other class serialises none. |
| Scenarios.SketchVertexSerialised | python-api/gafferpy-core/src/main/java/uk/gov/gchq/gaffer/python/data/serialiser/PythonElementSeedMapSerialiser.java:67-70 | When the registry maps HyperLogLogPlus to the cardinality serialiser, and that serialiser behaves as HyperLogLogPlusSerialiser.Serialise, an entity seed whose vertex is any sketch encodes its vertex as a Long holding that sketch's cardinality(). |
| Scenarios.SketchVertexScenario | python-api/gafferpy-core/src/main/java/uk/gov/gchq/gaffer/python/data/serialiser/PythonElementSeedMapSerialiser.java:41-44 | With the cardinality serialiser registered, an entity seed whose vertex is a sketch of cardinality 42 encodes its vertex as the Long 42. Without a config the sketch is stored raw. |
| Scenarios.EdgeSeedScenario | python-api/gafferpy-core/src/main/java/uk/gov/gchq/gaffer/python/data/serialiser/PythonElementSeedMapSerialiser.java:45-51 | The edge seed A to B, DIRECTED, matched vertex A, encodes field for field under the five keys when no serialiser applies. |
| Scenarios.NullFieldScenario | python-api/gafferpy-core/src/main/java/uk/gov/gchq/gaffer/python/data/serialiser/PythonElementSeedMapSerialiser.java:64-69 | A null matched vertex is stored as null without a config. With a config, and no serialiser for the other fields' class, it makes the encoding throw NullPointerException. |

## Left out

- Decoding the operation and user from JSON (PythonGraph.java:120-125) is left out. `Execute` takes them already decoded, and a failed decode is the `Null` operation or user.
- Logging is left out, because it has no effect on results.
- The constructors, `buildGraph`, `setPythonSerialisers(StoreProperties)`, `getGraph`, `getPythonSerialisers`, `getStore`, `getVertexSerialiserClassName` and `getKeyPackageClassName` are left out. They are file loading, graph building and store reflection. The registry that `setPythonSerialisers(StoreProperties)` leaves behind is the `config` parameter: `None` when the declarations file was not found.
- The graph engine can only complete or throw `OperationException`. Unchecked exceptions it might throw are not modelled, and neither is a graph that was never built.
- `PythonIterator` is modelled only by the sequence it yields. Its internals are not part of this model, so laziness, closing the underlying iterable and releasing resources on abandonment are not stated.
- `PythonSerialiserConfig` is not part of this model. `addSerialiser` is an abstract `Adder`, so no replace-on-re-registration (last-write-wins) property is claimed. An `addSerialiser` that throws is taken to leave the registry as it was. `getSerialiser` is assumed to be the exact-class map lookup that the seed serialiser's `containsKey` test implies.
- An iterable is assumed to yield the same elements each time `iterator()` is called. That is the case in which PythonGraph.java:163-168 does not consume the first element.
- The `Constants` enum is not part of this model. Its key strings are taken as `type`, `vertex`, `source`, `destination`, `directed` and `matchedVertex`, and the proofs use only that these are distinct.
- ElementSeedMapSerialiser.Serialise: a `null` seed is not modelled, because the `Seed` datatype has no null. In the source it fails the two `instanceof` tests and throws `NullPointerException` at PythonElementSeedMapSerialiser.java:53.
- ElementSeedMapSerialiser.Serialise: subclasses of `EntitySeed` and `EdgeSeed` are represented by the `EntitySeed` and `EdgeSeed` variants. The serialiser reads them only through their getters.
- PythonGraph.SetPythonSerialisers: a `null` map is not modelled, because the parameter is a Dafny `map`. In the source `serialisers.keySet()` at PythonGraph.java:202 throws `NullPointerException` for it.
- PythonGraph.SetPythonSerialisers: `Class.forName` is modelled as finding a class or raising `ClassNotFoundException`. Errors it can raise while loading or initialising a class (`LinkageError`, `ExceptionInInitializerError`) are not modelled.
- Bridge.Yielded: each pull is modelled on its own. Whether `PythonIterator` can still be pulled after its serialiser has thrown is not stated.
- `HyperLogLogPlus.cardinality()` is an uninterpreted `Cardinality` parameter, since the estimator belongs to the sketch library.
- `ui/.../query-component.js`, `PysparkElementToAccumuloKeyConverter` and `CustomPysparkElementMapSerialiser` are left out. They are a UI controller, an engine-specific key encoding and a one-line delegation to code that is not part of this model.
