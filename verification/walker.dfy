/**
 The walker of `sanitizer/sanitizer.go` (`Sanitize`, `sanitizeValues`) and the
 decode-then-sanitize wrapper `UnmarshalAndSanitize`.

 Besides the returned outcome, a walk produces the list of handler dispatches
 it made, in order: a `Run`. The trace is what the ordering and fail-fast
 properties are stated about.
 */
module Walker {
  import opened Wrappers
  import opened Types
  import opened Registry

  /** One `HandleTag(name, arg, value)` dispatch. */
  datatype Call = Call(name: string, arg: string, value: Value)

  /** The dispatches a walk made, in order, and what it returned. */
  datatype Run = Run(calls: seq<Call>, outcome: Outcome)

  /** What the registry answers to one dispatch. */
  function Invoke(s: Sanitizer, c: Call): Outcome
  {
    HandleTag(s, c.name, c.arg, c.value)
  }

  /**
   A run is fail-fast with respect to the registry when every dispatch but the
   last one returned nil, and the outcome is explained by the trace: nil means
   every dispatch returned nil, an error or a missing handler is what the last
   dispatch produced, and any other panic came after dispatches that all passed.
   */
  predicate FailFast(s: Sanitizer, r: Run)
  {
    && (forall i :: 0 <= i < |r.calls| - 1 ==> Invoke(s, r.calls[i]) == Ok)
    && (r.outcome.Err? || r.outcome == Crash(NilHandler) ==>
          |r.calls| > 0 && Invoke(s, r.calls[|r.calls| - 1]) == r.outcome)
    && (r.outcome.Ok? || (r.outcome.Crash? && r.outcome.panic != NilHandler) ==>
          forall i :: 0 <= i < |r.calls| ==> Invoke(s, r.calls[i]) == Ok)
  }

  /** Running `first` and, only if it returned nil, `rest` after it keeps the fail-fast shape. */
  lemma SequenceFailFast(s: Sanitizer, first: Run, rest: Run)
    requires FailFast(s, first) && first.outcome.Ok? && FailFast(s, rest)
    ensures FailFast(s, Run(first.calls + rest.calls, rest.outcome))
  {
    var calls := first.calls + rest.calls;
    assert forall i :: |first.calls| <= i < |calls| ==> calls[i] == rest.calls[i - |first.calls|];
  }

  /**
   The inner loop of `sanitizeValues` for one leaf field: for each name in
   `names`, in order, dispatch it if the field's tag declares it, and stop at
   the first dispatch that does not return nil.
   */
  function DispatchLeaf(s: Sanitizer, names: seq<string>, tags: seq<Tag>, x: Value): (r: Run)
    ensures FailFast(s, r)
    ensures forall c :: c in r.calls ==> c.name in names && Lookup(tags, c.name) == Some(c.arg) && c.value == x
    decreases |names|
  {
    if |names| == 0 then Run([], Ok)
    else
      match Lookup(tags, names[0])
      case None => DispatchLeaf(s, names[1..], tags, x)
      case Some(arg) =>
        var c := Call(names[0], arg, x);
        var o := Invoke(s, c);
        if o != Ok then Run([c], o)
        else
          var rest := DispatchLeaf(s, names[1..], tags, x);
          SequenceFailFast(s, Run([c], Ok), rest);
          Run([c] + rest.calls, rest.outcome)
  }

  /**
   `sanitizeValues`: a pointer is dereferenced once, the result must be a
   struct, and its fields are walked.
   */
  function SanitizeValues(s: Sanitizer, v: Val): (r: Run)
    ensures FailFast(s, r)
    ensures forall c :: c in r.calls ==> c.name in s.names
    ensures Valid(s) ==> r.outcome != Crash(NilHandler)
    decreases v
  {
    match v
    case Scalar(_) => Run([], Crash(NotAStruct))
    case NilPtr => Run([], Crash(NilPointer))
    case Ptr(Struct(fs)) => WalkFields(s, fs, true)
    case Ptr(_) => Run([], Crash(NotAStruct))
    case Struct(fs) => WalkFields(s, fs, false)
  }

  /**
   The field loop of `sanitizeValues`, in declaration order. A leaf field is
   dispatched on; a struct or pointer field is walked recursively, which only
   works when the enclosing record was reached through a pointer
   (`viaPointer`), because the source dereferences the record again there.
   */
  function WalkFields(s: Sanitizer, fs: seq<Field>, viaPointer: bool): (r: Run)
    ensures FailFast(s, r)
    ensures forall c :: c in r.calls ==> c.name in s.names
    ensures Valid(s) ==> r.outcome != Crash(NilHandler)
    decreases fs
  {
    if |fs| == 0 then Run([], Ok)
    else
      var head :=
        if fs[0].val.Scalar? then DispatchLeaf(s, s.names, fs[0].tags, fs[0].val.leaf)
        else if !viaPointer then Run([], Crash(ElemOfNonPointer))
        else SanitizeValues(s, fs[0].val);
      if head.outcome != Ok then head
      else
        var rest := WalkFields(s, fs[1..], viaPointer);
        SequenceFailFast(s, head, rest);
        Run(head.calls + rest.calls, rest.outcome)
  }

  /** `Sanitize`: the outcome of walking `v`. */
  function Sanitize(s: Sanitizer, v: Val): (r: Outcome)
    ensures v.Scalar? || (v.Ptr? && !v.target.Struct?) ==> r == Crash(NotAStruct)
    ensures v == NilPtr ==> r == Crash(NilPointer)
    ensures Valid(s) ==> r != Crash(NilHandler)
    ensures r.Err? ==> exists n, a, x :: n in s.names && n in s.handlers && s.handlers[n](a, x) == Some(r.error)
  {
    var run := SanitizeValues(s, v);
    assert run.outcome.Err? ==> exists c :: c in run.calls && Invoke(s, c) == run.outcome by {
      if run.outcome.Err? {
        assert run.calls[|run.calls| - 1] in run.calls;
      }
    }
    run.outcome
  }

  /**
   What `json.Unmarshal(data, &v)` leaves behind. `v` is a local copy of the
   caller's interface value, so the decoder may either write through the
   pointer `v` holds or replace `v` itself (a `null` payload, a value that is
   not a non-nil pointer). `target` is the caller's value afterwards, `walked`
   is `v` afterwards, which is what `Sanitize` receives, and `error` is the
   decoder's error.
   */
  datatype Decoded = Decoded(target: Val, walked: Val, error: Option<Error>)

  /** A JSON decoder (`json.Unmarshal`), applied to the bytes and the caller's value. */
  type Decoder = (seq<bv8>, Val) -> Decoded

  /** What the caller observes after `UnmarshalAndSanitize`: its value and the returned error. */
  datatype Unmarshalled = Unmarshalled(target: Val, outcome: Outcome)

  /**
   `UnmarshalAndSanitize`: decode `data`, return the decoder's error if there
   is one, and otherwise sanitize the interface value the decoder left. The
   caller's value is whatever the decoder left it, whatever the outcome.
   */
  function UnmarshalAndSanitize(s: Sanitizer, decode: Decoder, data: seq<bv8>, target: Val): (r: Unmarshalled)
    ensures r.target == decode(data, target).target
    ensures decode(data, target).error.Some? ==> r.outcome == Err(decode(data, target).error.value)
    ensures decode(data, target).error.None? ==> r.outcome == Sanitize(s, decode(data, target).walked)
  {
    var d := decode(data, target);
    match d.error
    case Some(e) => Unmarshalled(d.target, Err(e))
    case None => Unmarshalled(d.target, Sanitize(s, d.walked))
  }
}
