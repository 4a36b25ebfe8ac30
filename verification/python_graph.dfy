/** `PythonGraph`: the entry point the Python side calls. `Execute` classifies
    an already-decoded operation, runs it on the graph engine and normalises
    the outcome; the registration functions fill the serialiser registry from
    class names. The engine, `Class.forName` and the registry's
    `addSerialiser` are collaborators passed in as functions. */
module PythonGraph {
  import opened Results
  import opened Jvm
  import opened Registry
  import opened Bridge

  const OutputName: TypeName := "uk.gov.gchq.gaffer.operation.io.Output"
  const InputName: TypeName := "uk.gov.gchq.gaffer.operation.io.Input"

  /** The three capability buckets, tested in this order. */
  datatype OpKind = OutputOp | InputOp | OtherOp

  /** What `graph.execute(operation, user)` did: returned a value, or threw
      an `OperationException`. */
  datatype EngineOutcome = Completed(result: Value) | OperationFailed(message: string)

  type Engine = (Value, Value) -> EngineOutcome

  /** What `execute` hands back to Python: a plain object (a value, `null`, or
      the status 0 or 1), or a `PythonIterator` over an iterable result. */
  datatype Reply = Plain(value: Value) | Wrapped(bridge: PyIterator)

  /** `instanceof Output` is tested first, then `instanceof Input`. */
  function Classify(operation: Value): (k: OpKind)
    ensures k == OutputOp <==> InstanceOf(operation, OutputName)
    ensures k == InputOp <==> InstanceOf(operation, InputName) && !InstanceOf(operation, OutputName)
  {
    if InstanceOf(operation, OutputName) then OutputOp
    else if InstanceOf(operation, InputName) then InputOp
    else OtherOp
  }

  /** `getSerialiser`: no serialiser when there is no config; otherwise the
      serialiser registered for the object's exact class, if any. Asking a
      `null` object for its class throws. */
  function GetSerialiser(config: Option<Registry>, o: Value): (r: Result<Option<JClass>, JavaError>)
    ensures config.None? ==> r == Success(None)
    ensures config.Some? ==> (r.Failure? <==> o.Null?)
    ensures r.Failure? ==> r.error == NullPointerException
    ensures r.Success? && r.value.Some? ==>
      config.Some? && ClassOf(o).Some? && ClassOf(o).value.name in config.value
      && r.value.value == config.value[ClassOf(o).value.name]
    ensures config.Some? && ClassOf(o).Some? && ClassOf(o).value.name !in config.value ==> r == Success(None)
    ensures config.Some? && ClassOf(o).Some? && ClassOf(o).value.name in config.value ==>
      r == Success(Some(config.value[ClassOf(o).value.name]))
  {
    match config
    case None => Success(None)
    case Some(reg) =>
      match ClassOf(o)
      case None => Failure(NullPointerException)
      case Some(c) => Success(Lookup(reg, c))
  }

  /** The elements an iterable object's `iterator()` yields. */
  function Elements(v: Value): seq<Value> {
    if v.Obj? then v.elements else []
  }

  /** The tail of `execute`: a `Configuration` is handed back as it is, even
      though it is iterable; any other iterable is wrapped in a
      `PythonIterator` over a fresh iterator of the whole result, with the one
      serialiser chosen from the class of its first element, read from a
      separate iterator; everything else, `null` included, is handed back
      unchanged. An empty iterable makes `it.next()` throw. */
  function PostProcess(config: Option<Registry>, result: Value): (r: Result<Reply, JavaError>)
    ensures !InstanceOf(result, IterableName) || InstanceOf(result, ConfigurationName) ==>
      r == Success(Plain(result))
    ensures InstanceOf(result, IterableName) && !InstanceOf(result, ConfigurationName) ==>
      && (r.Failure? <==> |Elements(result)| == 0 || (config.Some? && Elements(result)[0].Null?))
      && (|Elements(result)| == 0 ==> r == Failure(NoSuchElementException))
      && (r.Failure? && |Elements(result)| > 0 ==> r.error == NullPointerException)
      && (r.Success? ==>
            && r.value.Wrapped?
            && r.value.bridge.source == Elements(result)
            && GetSerialiser(config, Elements(result)[0]) == Success(r.value.bridge.serialiser))
  {
    if result.Null? then Success(Plain(result))
    else if InstanceOf(result, ConfigurationName) then Success(Plain(result))
    else if InstanceOf(result, IterableName) then
      var elements := Elements(result);
      if |elements| == 0 then Failure(NoSuchElementException)
      else
        var serialiser :- GetSerialiser(config, elements[0]);
        Success(Wrapped(PyIterator(elements, serialiser)))
    else Success(Plain(result))
  }

  /** `execute` on an already-decoded operation and user (either may be
      `null`). An Output operation hands back the engine's result, or `null`
      when the engine throws; any other operation hands back the status 0 on
      success and 1 on failure. A `null` operation is neither Output nor
      Input and is dereferenced for its class name, which throws. */
  function Execute(config: Option<Registry>, engine: Engine, operation: Value, user: Value): (r: Result<Reply, JavaError>)
    ensures operation.Null? ==> r == Failure(NullPointerException)
    ensures InstanceOf(operation, OutputName) && engine(operation, user).OperationFailed? ==>
      r == Success(Plain(Null))
    ensures InstanceOf(operation, OutputName) && engine(operation, user).Completed? ==>
      r == PostProcess(config, engine(operation, user).result)
    ensures !operation.Null? && !InstanceOf(operation, OutputName) ==>
      r == Success(Plain(Integer(if engine(operation, user).Completed? then 0 else 1)))
  {
    match Classify(operation)
    case OutputOp =>
      var result := match engine(operation, user)
        case Completed(v) => v
        case OperationFailed(_) => Null;
      PostProcess(config, result)
    case InputOp =>
      (match engine(operation, user)
       case OperationFailed(_) => Success(Plain(Integer(1)))
       case Completed(_) => PostProcess(config, Integer(0)))
    case OtherOp =>
      if operation.Null? then Failure(NullPointerException)
      else
        match engine(operation, user)
        case OperationFailed(_) => Success(Plain(Integer(1)))
        case Completed(_) => Success(Plain(Integer(0)))
  }

  /** An operation that is both Output and Input is run as an Output
      operation: its caller gets the engine's result, or `null`, never a status. */
  lemma OutputTakesPrecedence(config: Option<Registry>, engine: Engine, operation: Value, user: Value)
    requires InstanceOf(operation, OutputName) && InstanceOf(operation, InputName)
    ensures Classify(operation) == OutputOp
    ensures engine(operation, user).OperationFailed? ==> Execute(config, engine, operation, user) == Success(Plain(Null))
    ensures engine(operation, user).Completed? ==>
      Execute(config, engine, operation, user) == PostProcess(config, engine(operation, user).result)
  {
  }

  /** A Java `String` that may be `null`, as the names in the serialiser map are. */
  type ClassName = Option<string>

  /** `Class.forName` on a non-null name: the name resolves to a loaded class,
      or not at all (ClassNotFoundException). */
  type Resolver = string -> Option<JClass>

  /** `PythonSerialiserConfig.addSerialiser(classToSerialise, serialiserClass)`,
      which may throw. */
  type Adder = (Registry, JClass, JClass) -> Result<Registry, JavaError>

  /** What the two `Class.forName` calls of `setPythonSerialiser` come to: both
      classes found; a name not found, which is caught and logged; or a `null`
      name reached, which throws NullPointerException out of the method. The
      serialiser name is only looked at once the class name has resolved. */
  datatype Resolution = Resolved(classToSerialise: JClass, serialiserClass: JClass) | Unresolved | NullName

  function ResolvePair(resolve: Resolver, className: ClassName, serialiserName: ClassName): (r: Resolution)
    ensures r.NullName? <==> className.None? || (resolve(className.value).Some? && serialiserName.None?)
    ensures r.Resolved? <==>
      className.Some? && serialiserName.Some? && resolve(className.value).Some? && resolve(serialiserName.value).Some?
    ensures r.Resolved? ==>
      r.classToSerialise == resolve(className.value).value && r.serialiserClass == resolve(serialiserName.value).value
  {
    match className
    case None => NullName
    case Some(cn) =>
      match resolve(cn)
      case None => Unresolved
      case Some(classToSerialise) =>
        match serialiserName
        case None => NullName
        case Some(sn) =>
          match resolve(sn)
          case None => Unresolved
          case Some(serialiserClass) => Resolved(classToSerialise, serialiserClass)
  }

  /** An entry that does something: it throws on a `null` name or reaches the registry. */
  predicate Effective(resolve: Resolver, className: ClassName, serialiserName: ClassName) {
    !ResolvePair(resolve, className, serialiserName).Unresolved?
  }

  /** `setPythonSerialiser`: registers the pair only when both names resolve;
      a name that is not found leaves the registry as it was. A `null` name,
      or registering into an absent registry, throws NullPointerException, and
      an exception from `addSerialiser` escapes unchanged. */
  function SetPythonSerialiser(config: Option<Registry>, resolve: Resolver, add: Adder, className: ClassName, serialiserName: ClassName)
    : (r: Result<Option<Registry>, JavaError>)
    ensures !Effective(resolve, className, serialiserName) ==> r == Success(config)
    ensures ResolvePair(resolve, className, serialiserName).NullName? ==> r == Failure(NullPointerException)
    ensures ResolvePair(resolve, className, serialiserName).Resolved? && config.None? ==> r == Failure(NullPointerException)
    ensures ResolvePair(resolve, className, serialiserName).Resolved? && config.Some? ==>
      var pair := ResolvePair(resolve, className, serialiserName);
      var added := add(config.value, pair.classToSerialise, pair.serialiserClass);
      && (r.Success? <==> added.Success?)
      && (r.Success? ==> r.value == Some(added.value))
      && (r.Failure? ==> r.error == added.error)
  {
    match ResolvePair(resolve, className, serialiserName)
    case NullName => Failure(NullPointerException)
    case Unresolved => Success(config)
    case Resolved(classToSerialise, serialiserClass) =>
      match config
      case None => Failure(NullPointerException)
      case Some(reg) =>
        var added :- add(reg, classToSerialise, serialiserClass);
        Success(Some(added))
  }

  /** What a run of `setPythonSerialiser` calls leaves behind. `addSerialiser`
      changes the shared registry in place and nothing is rolled back, so after
      an exception the registry keeps every pair added before it: `registry`
      is the registry as it stands, and `thrown` the exception that ended the
      run early, if any. */
  datatype Run = Run(registry: Option<Registry>, thrown: Option<JavaError>)

  /** `setPythonSerialisers(Map)` when the map's keys are visited in `order`:
      one `setPythonSerialiser` per entry, stopping at the first exception.
      Entries that do nothing leave the registry as it was; with no registry
      the first effective entry throws; with one, the registry stays present,
      and only a `null` name or an exception of `addSerialiser` can stop the
      run. */
  function RegisterAll(config: Option<Registry>, resolve: Resolver, add: Adder,
                       serialisers: map<ClassName, ClassName>, order: seq<ClassName>)
    : (r: Run)
    requires forall k :: k in order ==> k in serialisers
    ensures (forall k :: k in order ==> !Effective(resolve, k, serialisers[k])) ==> r == Run(config, None)
    ensures config.None? ==> r.registry.None?
    ensures config.None? ==> (r.thrown.Some? <==> exists k :: k in order && Effective(resolve, k, serialisers[k]))
    ensures config.None? && r.thrown.Some? ==> r.thrown.value == NullPointerException
    ensures config.Some? ==> r.registry.Some?
    ensures (&& config.Some?
             && (forall k :: k in order ==> !ResolvePair(resolve, k, serialisers[k]).NullName?)
             && (forall reg, c, s :: add(reg, c, s).Success?))
            ==> r.thrown.None?
    decreases |order|
  {
    if |order| == 0 then Run(config, None)
    else
      match SetPythonSerialiser(config, resolve, add, order[0], serialisers[order[0]])
      case Failure(e) => Run(config, Some(e))
      case Success(next) => RegisterAll(next, resolve, add, serialisers, order[1..])
  }

  /** The run over `order` stopped at key `i` with outcome `r`: the keys
      before `i` built `r.registry` without throwing, and key `i` threw
      `r.thrown` on it. */
  predicate StoppedAt(config: Option<Registry>, resolve: Resolver, add: Adder,
                      serialisers: map<ClassName, ClassName>, order: seq<ClassName>, r: Run, i: nat)
    requires forall k :: k in order ==> k in serialisers
  {
    && i < |order|
    && r.thrown.Some?
    && RegisterAll(config, resolve, add, serialisers, order[..i]) == Run(r.registry, None)
    && SetPythonSerialiser(r.registry, resolve, add, order[i], serialisers[order[i]]) == Failure(r.thrown.value)
  }

  /** A run that throws stops at one key: the registry it leaves is the one the
      keys before that key built without throwing, and that key's
      `setPythonSerialiser` on it throws the exception, which is therefore a
      NullPointerException or an exception of `addSerialiser`. */
  lemma {:induction false} StopsAtFirstFailure(config: Option<Registry>, resolve: Resolver, add: Adder,
                                               serialisers: map<ClassName, ClassName>, order: seq<ClassName>)
    requires forall k :: k in order ==> k in serialisers
    ensures var r := RegisterAll(config, resolve, add, serialisers, order);
      r.thrown.Some? ==> exists i: nat :: StoppedAt(config, resolve, add, serialisers, order, r, i)
    ensures var r := RegisterAll(config, resolve, add, serialisers, order);
      r.thrown.Some? ==>
        r.thrown.value == NullPointerException || exists reg, c, s :: add(reg, c, s) == Failure(r.thrown.value)
    decreases |order|
  {
    var r := RegisterAll(config, resolve, add, serialisers, order);
    if r.thrown.Some? {
      assert |order| > 0;
      match SetPythonSerialiser(config, resolve, add, order[0], serialisers[order[0]])
      case Failure(e) =>
        assert order[..0] == [];
        assert StoppedAt(config, resolve, add, serialisers, order, r, 0);
      case Success(next) =>
        var rest := order[1..];
        assert r == RegisterAll(next, resolve, add, serialisers, rest);
        StopsAtFirstFailure(next, resolve, add, serialisers, rest);
        var i: nat :| StoppedAt(next, resolve, add, serialisers, rest, r, i);
        var prefix := order[..i + 1];
        assert prefix[0] == order[0] && prefix[1..] == rest[..i];
        assert RegisterAll(config, resolve, add, serialisers, prefix) == RegisterAll(next, resolve, add, serialisers, rest[..i]);
        assert rest[i] == order[i + 1];
        assert StoppedAt(config, resolve, add, serialisers, order, r, i + 1);
    }
  }

  /** Visiting the keys in two runs is visiting them in one. */
  lemma {:induction false} RegisterAllAppend(config: Option<Registry>, resolve: Resolver, add: Adder,
                                             serialisers: map<ClassName, ClassName>, a: seq<ClassName>, b: seq<ClassName>)
    requires forall k :: k in a ==> k in serialisers
    requires forall k :: k in b ==> k in serialisers
    ensures forall k :: k in a + b ==> k in serialisers
    ensures RegisterAll(config, resolve, add, serialisers, a + b) ==
      var first := RegisterAll(config, resolve, add, serialisers, a);
      if first.thrown.Some? then first else RegisterAll(first.registry, resolve, add, serialisers, b)
    decreases |a|
  {
    if |a| == 0 {
      assert a + b == b;
    } else {
      assert (a + b)[0] == a[0];
      assert (a + b)[1..] == a[1..] + b;
      match SetPythonSerialiser(config, resolve, add, a[0], serialisers[a[0]])
      case Failure(_) =>
      case Success(next) =>
        RegisterAllAppend(next, resolve, add, serialisers, a[1..], b);
    }
  }

  /** The effective entries, in visiting order. */
  function EffectiveOnly(resolve: Resolver, serialisers: map<ClassName, ClassName>, order: seq<ClassName>): (r: seq<ClassName>)
    requires forall k :: k in order ==> k in serialisers
    ensures forall k :: k in r ==> k in order && Effective(resolve, k, serialisers[k])
    ensures |r| <= |order|
    decreases |order|
  {
    if |order| == 0 then []
    else if Effective(resolve, order[0], serialisers[order[0]]) then
      [order[0]] + EffectiveOnly(resolve, serialisers, order[1..])
    else EffectiveOnly(resolve, serialisers, order[1..])
  }

  /** The filter keeps every effective entry and the visiting order: it drops
      nothing when every entry is effective, and everything when none is. */
  lemma {:induction false} EffectiveOnlyKeepsOrder(resolve: Resolver, serialisers: map<ClassName, ClassName>, order: seq<ClassName>)
    requires forall k :: k in order ==> k in serialisers
    ensures forall k :: k in order && Effective(resolve, k, serialisers[k]) ==> k in EffectiveOnly(resolve, serialisers, order)
    ensures (forall k :: k in order ==> Effective(resolve, k, serialisers[k])) ==> EffectiveOnly(resolve, serialisers, order) == order
    ensures (forall k :: k in order ==> !Effective(resolve, k, serialisers[k])) ==> EffectiveOnly(resolve, serialisers, order) == []
    decreases |order|
  {
    if |order| > 0 {
      EffectiveOnlyKeepsOrder(resolve, serialisers, order[1..]);
      assert [order[0]] + order[1..] == order;
    }
  }

  /** Entries whose class or serialiser name is not found contribute nothing:
      registering all entries is registering the effective ones. */
  lemma {:induction false} UnresolvableEntriesIgnored(config: Option<Registry>, resolve: Resolver, add: Adder,
                                                      serialisers: map<ClassName, ClassName>, order: seq<ClassName>)
    requires forall k :: k in order ==> k in serialisers
    ensures RegisterAll(config, resolve, add, serialisers, order) ==
      RegisterAll(config, resolve, add, serialisers, EffectiveOnly(resolve, serialisers, order))
    decreases |order|
  {
    if |order| > 0 {
      var only := EffectiveOnly(resolve, serialisers, order);
      var rest := EffectiveOnly(resolve, serialisers, order[1..]);
      if Effective(resolve, order[0], serialisers[order[0]]) {
        assert only[0] == order[0] && only[1..] == rest;
        match SetPythonSerialiser(config, resolve, add, order[0], serialisers[order[0]])
        case Failure(_) =>
        case Success(next) =>
          UnresolvableEntriesIgnored(next, resolve, add, serialisers, order[1..]);
      } else {
        UnresolvableEntriesIgnored(config, resolve, add, serialisers, order[1..]);
      }
    }
  }

  /** `setPythonSerialisers(Map)`: visits every key once, in an order the map
      chooses (returned as `order`), stopping at the first exception, which
      leaves the pairs registered before it in place. Whatever the order:
      without a registry it throws exactly when some entry is effective; it
      leaves the registry unchanged when no entry is; and with a registry it
      keeps one, and does not throw when no name is `null` and
      `addSerialiser` does not throw. */
  method SetPythonSerialisers(config: Option<Registry>, resolve: Resolver, add: Adder, serialisers: map<ClassName, ClassName>)
    returns (r: Run, ghost order: seq<ClassName>)
    ensures forall k :: k in order ==> k in serialisers
    ensures forall i, j :: 0 <= i < j < |order| ==> order[i] != order[j]
    ensures r.thrown.None? ==> forall k :: k in serialisers ==> k in order
    ensures r == RegisterAll(config, resolve, add, serialisers, order)
    ensures config.None? ==> r.registry.None?
    ensures config.None? ==> (r.thrown.Some? <==> exists k :: k in serialisers && Effective(resolve, k, serialisers[k]))
    ensures config.None? && r.thrown.Some? ==> r.thrown.value == NullPointerException
    ensures config.Some? ==> r.registry.Some?
    ensures (&& config.Some?
             && (forall k :: k in serialisers ==> !ResolvePair(resolve, k, serialisers[k]).NullName?)
             && (forall reg, c, s :: add(reg, c, s).Success?))
            ==> r.thrown.None?
    ensures (forall k :: k in serialisers ==> !Effective(resolve, k, serialisers[k])) ==> r == Run(config, None)
  {
    var remaining := serialisers.Keys;
    var current := config;
    order := [];
    while remaining != {}
      invariant remaining <= serialisers.Keys
      invariant forall k :: k in order ==> k in serialisers && k !in remaining
      invariant forall k :: k in serialisers && k !in remaining ==> k in order
      invariant forall i, j :: 0 <= i < j < |order| ==> order[i] != order[j]
      invariant RegisterAll(config, resolve, add, serialisers, order) == Run(current, None)
      decreases remaining
    {
      var k :| k in remaining;
      var step := SetPythonSerialiser(current, resolve, add, k, serialisers[k]);
      RegisterAllAppend(config, resolve, add, serialisers, order, [k]);
      assert RegisterAll(current, resolve, add, serialisers, [k]) ==
        (if step.Failure? then Run(current, Some(step.error)) else Run(step.value, None)) by {
        assert [k][0] == k && [k][1..] == [];
      }
      order := order + [k];
      remaining := remaining - {k};
      if step.Failure? {
        r := Run(current, Some(step.error));
        return;
      }
      current := step.value;
    }
    r := Run(current, None);
  }
}
