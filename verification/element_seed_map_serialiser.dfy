/** `PythonElementSeedMapSerialiser`: encodes the two kinds of element seed as a
    string-keyed map with a `type` discriminant, passing each field through the
    serialiser registered for its exact class, if any. */
module ElementSeedMapSerialiser {
  import opened Results
  import opened Jvm
  import opened Registry

  const ElementSeedName: TypeName := "uk.gov.gchq.gaffer.operation.data.ElementSeed"
  const EntitySeedName: TypeName := "uk.gov.gchq.gaffer.operation.data.EntitySeed"
  const EdgeSeedName: TypeName := "uk.gov.gchq.gaffer.operation.data.EdgeSeed"

  /** An `ElementSeed` handed to the serialiser. `EntitySeed` and `EdgeSeed`
      (or subclasses of them) are read through their getters; `OtherSeed` is
      any other implementation of `ElementSeed`, known only by its class. */
  datatype Seed =
    | EntitySeed(vertex: Value)
    | EdgeSeed(source: Value, destination: Value, directedType: Value, matchedVertex: Value)
    | OtherSeed(cls: JClass)

  /** Map keys: the values of `Constants.TYPE`, `VERTEX`, `SOURCE`,
      `DESTINATION`, `DIRECTED` and `MATCHED_VERTEX`. */
  const TypeKey := "type"
  const VertexKey := "vertex"
  const SourceKey := "source"
  const DestinationKey := "destination"
  const DirectedKey := "directed"
  const MatchedVertexKey := "matchedVertex"

  const NotASeedPrefix := "not an EdgeSeed or EntitySeed, is a "

  type SeedMap = map<string, Value>

  /** What `elementMapSerialisedInsert` stores for one field value: the raw
      value when there is no config; otherwise the output of the serialiser
      registered for the value's exact class, or the raw value when that class
      has none. Asking a `null` field for its class throws, and so does a
      serialiser that throws. */
  function StoredField(config: Option<Registry>, apply: Apply, value: Value): (r: Result<Value, JavaError>)
    ensures config.None? ==> r == Success(value)
    ensures config.Some? && value.Null? ==> r == Failure(NullPointerException)
    ensures config.Some? && ClassOf(value).Some? && ClassOf(value).value.name in config.value ==>
      r == apply(config.value[ClassOf(value).value.name], value)
    ensures config.Some? && ClassOf(value).Some? && ClassOf(value).value.name !in config.value ==>
      r == Success(value)
  {
    match config
    case None => Success(value)
    case Some(reg) =>
      match ClassOf(value)
      case None => Failure(NullPointerException)
      case Some(c) =>
        match Lookup(reg, c)
        case Some(serialiser) => apply(serialiser, value)
        case None => Success(value)
  }

  function Insert(config: Option<Registry>, apply: Apply, m: SeedMap, key: string, value: Value): Result<SeedMap, JavaError> {
    var stored :- StoredField(config, apply, value);
    Success(m[key := stored])
  }

  /** The fields `serialise` stores, in the order it stores them. */
  function Fields(input: Seed): seq<Value> {
    match input
    case EntitySeed(vertex) => [vertex]
    case EdgeSeed(source, destination, directedType, matchedVertex) => [source, destination, directedType, matchedVertex]
    case OtherSeed(_) => []
  }

  /** The exception of the first field, in order, that cannot be stored. */
  function FirstFieldFailure(config: Option<Registry>, apply: Apply, fields: seq<Value>): (e: Option<JavaError>)
    ensures e.None? <==> forall i :: 0 <= i < |fields| ==> StoredField(config, apply, fields[i]).Success?
    ensures e.Some? ==>
      exists i :: && 0 <= i < |fields|
                  && StoredField(config, apply, fields[i]) == Failure(e.value)
                  && forall j :: 0 <= j < i ==> StoredField(config, apply, fields[j]).Success?
    decreases |fields|
  {
    if |fields| == 0 then None
    else match StoredField(config, apply, fields[0])
      case Failure(err) => Some(err)
      case Success(_) =>
        var rest := FirstFieldFailure(config, apply, fields[1..]);
        assert forall i :: 0 < i < |fields| ==> fields[i] == fields[1..][i - 1];
        rest
  }

  /** Storing a field in front of others: its own failure comes first. */
  lemma FirstFieldFailureCons(config: Option<Registry>, apply: Apply, field: Value, rest: seq<Value>)
    ensures FirstFieldFailure(config, apply, [field] + rest) ==
      if StoredField(config, apply, field).Failure? then Some(StoredField(config, apply, field).error)
      else FirstFieldFailure(config, apply, rest)
  {
    assert ([field] + rest)[1..] == rest;
  }

  /** `serialise`: each call starts from an empty map, so the result depends
      only on the seed, the config and the serialisers, and carries exactly
      the keys of the seed's variant. The fields are stored one by one, so
      the exception that escapes is that of the first field that fails. */
  function Serialise(config: Option<Registry>, apply: Apply, input: Seed): (r: Result<SeedMap, JavaError>)
    ensures input.EntitySeed? ==> (r.Success? <==> StoredField(config, apply, input.vertex).Success?)
    ensures input.EntitySeed? && r.Success? ==>
      && r.value.Keys == {TypeKey, VertexKey}
      && |r.value| == 2
      && r.value[TypeKey] == Tag(ENTITY_SEED)
      && StoredField(config, apply, input.vertex) == Success(r.value[VertexKey])
    ensures input.EdgeSeed? ==>
      (r.Success? <==>
        && StoredField(config, apply, input.source).Success?
        && StoredField(config, apply, input.destination).Success?
        && StoredField(config, apply, input.directedType).Success?
        && StoredField(config, apply, input.matchedVertex).Success?)
    ensures input.EdgeSeed? && r.Success? ==>
      && r.value.Keys == {TypeKey, SourceKey, DestinationKey, DirectedKey, MatchedVertexKey}
      && |r.value| == 5
      && r.value[TypeKey] == Tag(EDGE_SEED)
      && StoredField(config, apply, input.source) == Success(r.value[SourceKey])
      && StoredField(config, apply, input.destination) == Success(r.value[DestinationKey])
      && StoredField(config, apply, input.directedType) == Success(r.value[DirectedKey])
      && StoredField(config, apply, input.matchedVertex) == Success(r.value[MatchedVertexKey])
    ensures input.OtherSeed? ==>
      r == Failure(IllegalArgumentException(NotASeedPrefix + CanonicalNameText(input.cls)))
    ensures !input.OtherSeed? ==>
      (r.Failure? <==> FirstFieldFailure(config, apply, Fields(input)).Some?) &&
      (r.Failure? ==> r.error == FirstFieldFailure(config, apply, Fields(input)).value)
  {
    match input
    case EntitySeed(vertex) =>
      Insert(config, apply, map[TypeKey := Tag(ENTITY_SEED)], VertexKey, vertex)
    case EdgeSeed(source, destination, directedType, matchedVertex) =>
      FirstFieldFailureCons(config, apply, source, [destination, directedType, matchedVertex]);
      FirstFieldFailureCons(config, apply, destination, [directedType, matchedVertex]);
      FirstFieldFailureCons(config, apply, directedType, [matchedVertex]);
      var m1 :- Insert(config, apply, map[TypeKey := Tag(EDGE_SEED)], SourceKey, source);
      var m2 :- Insert(config, apply, m1, DestinationKey, destination);
      var m3 :- Insert(config, apply, m2, DirectedKey, directedType);
      Insert(config, apply, m3, MatchedVertexKey, matchedVertex)
    case OtherSeed(cls) =>
      Failure(IllegalArgumentException(NotASeedPrefix + CanonicalNameText(cls)))
  }

  /** `canHandle`: `ElementSeed` and every subtype of it. `isAssignableFrom`
      throws on a `null` class (`None`). */
  function CanHandle(c: Option<JClass>): Result<bool, JavaError> {
    match c
    case None => Failure(NullPointerException)
    case Some(cls) => Success(SubtypeOf(cls, ElementSeedName))
  }

  /** `canHandle` and `serialise` disagree: every implementation of
      `ElementSeed` is accepted, but one that is neither an entity nor an edge
      seed is then rejected by `serialise`, whatever the config. */
  lemma AcceptedButRejected(config: Option<Registry>, apply: Apply, c: JClass)
    requires ElementSeedName in c.supertypes
    requires !SubtypeOf(c, EntitySeedName) && !SubtypeOf(c, EdgeSeedName)
    ensures CanHandle(Some(c)) == Success(true)
    ensures Serialise(config, apply, OtherSeed(c)) == Failure(IllegalArgumentException(NotASeedPrefix + CanonicalNameText(c)))
  {
  }

  /** The `serialiserConfig` field is never assigned, so the class as written
      always takes the no-config branch: every field is stored raw, and an
      entity or edge seed is never rejected. */
  lemma SerialiseWithoutConfig(apply: Apply, input: Seed)
    ensures input.EntitySeed? ==>
      Serialise(None, apply, input) == Success(map[TypeKey := Tag(ENTITY_SEED), VertexKey := input.vertex])
    ensures input.EdgeSeed? ==>
      Serialise(None, apply, input) == Success(map[
        TypeKey := Tag(EDGE_SEED),
        SourceKey := input.source,
        DestinationKey := input.destination,
        DirectedKey := input.directedType,
        MatchedVertexKey := input.matchedVertex])
  {
  }

  /** With a config, a field is serialised only when its own class is
      registered: a value whose class merely extends or implements a
      registered type is stored unchanged. */
  lemma ExactClassOnly(reg: Registry, apply: Apply, value: Value, c: JClass, super: TypeName)
    requires ClassOf(value) == Some(c)
    requires super in c.supertypes && super in reg
    requires c.name !in reg
    ensures StoredField(Some(reg), apply, value) == Success(value)
    ensures Serialise(Some(reg), apply, EntitySeed(value)) ==
      Success(map[TypeKey := Tag(ENTITY_SEED), VertexKey := value])
  {
  }
}
