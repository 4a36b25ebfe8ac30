/** The lazy result bridge (`PythonIterator`) as seen by its caller: a wrapped
    source sequence and at most one serialiser, fixed when the bridge is built.
    Pulling the bridge to the end yields the source in order, each element
    passed through that one serialiser, or unchanged when there is none; a
    pull whose serialiser throws yields that exception. */
module Bridge {
  import opened Results
  import opened Jvm
  import opened Registry

  datatype PyIterator = PyIterator(source: seq<Value>, serialiser: Option<JClass>)

  /** What the bridge yields for one source element. */
  function Convert(apply: Apply, serialiser: Option<JClass>, v: Value): Result<Value, JavaError> {
    match serialiser
    case Some(s) => apply(s, v)
    case None => Success(v)
  }

  /** The outcomes of pulling the bridge, in order. */
  function Yielded(apply: Apply, it: PyIterator): (out: seq<Result<Value, JavaError>>)
    ensures |out| == |it.source|
    ensures forall i :: 0 <= i < |out| ==> out[i] == Convert(apply, it.serialiser, it.source[i])
    decreases |it.source|
  {
    if |it.source| == 0 then []
    else [Convert(apply, it.serialiser, it.source[0])] + Yielded(apply, PyIterator(it.source[1..], it.serialiser))
  }

  /** Without a serialiser the bridge is the identity on its source. */
  lemma PassThrough(apply: Apply, source: seq<Value>)
    ensures var out := Yielded(apply, PyIterator(source, None));
      |out| == |source| && forall i :: 0 <= i < |out| ==> out[i] == Success(source[i])
  {
  }
}
