/**
 The registry of a sanitizer (`sanitizer/sanitizer.go`, type `Sanitizer`): a map
 from tag name to handler and the list of tag names in registration order.
 The Go methods that mutate `*Sanitizer` are modelled as functions returning
 the updated registry.
 */
module Registry {
  import opened Wrappers
  import opened Types

  /** `TagHandler`: called with the tag's value and the field's value; `None` is a nil error. */
  type Handler = (string, Value) -> Option<Error>

  datatype Sanitizer = Sanitizer(handlers: map<string, Handler>, names: seq<string>)

  /** The set of names in the ordered list. */
  function NameSet(s: Sanitizer): set<string>
  {
    set n | n in s.names
  }

  /** The registry invariant: the listed names are exactly the names with a handler. */
  predicate Valid(s: Sanitizer)
  {
    NameSet(s) == s.handlers.Keys
  }

  /** `NewSanitizer`: no handlers and no names. */
  function NewSanitizer(): (r: Sanitizer)
    ensures |r.handlers| == 0 && |r.names| == 0
    ensures Valid(r)
  {
    Sanitizer(map[], [])
  }

  /**
   `AddTag`: binds `name` to `f`, replacing any earlier binding, and appends
   `name` to the list even when it is already there. The error result is
   always nil.
   */
  function AddTag(s: Sanitizer, name: string, f: Handler): (r: (Sanitizer, Option<Error>))
    ensures r.1 == None
    ensures name in r.0.handlers && r.0.handlers[name] == f
    ensures forall k :: k != name ==> (k in r.0.handlers <==> k in s.handlers)
    ensures forall k :: k != name && k in s.handlers ==> r.0.handlers[k] == s.handlers[k]
    ensures |r.0.names| == |s.names| + 1
    ensures r.0.names[..|s.names|] == s.names && r.0.names[|s.names|] == name
    ensures Valid(s) ==> Valid(r.0)
  {
    var s' := Sanitizer(s.handlers[name := f], s.names + [name]);
    assert NameSet(s') == NameSet(s) + {name};
    (s', None)
  }

  /**
   `HandleTag`: runs the handler registered under `name` and returns its error.
   A name with no handler reads Go's nil function value, and calling it panics.
   */
  function HandleTag(s: Sanitizer, name: string, tagValue: string, fieldValue: Value): (r: Outcome)
    ensures r == Crash(NilHandler) <==> name !in s.handlers
    ensures name in s.handlers ==>
              (r == Ok <==> s.handlers[name](tagValue, fieldValue).None?)
    ensures name in s.handlers && r != Ok ==>
              r.Err? && s.handlers[name](tagValue, fieldValue) == Some(r.error)
  {
    if name !in s.handlers then Crash(NilHandler)
    else
      match s.handlers[name](tagValue, fieldValue)
      case None => Ok
      case Some(e) => Err(e)
  }

  /** One call of `AddTag`: a name and its handler. */
  datatype Registration = Registration(name: string, handler: Handler)

  /** The registry a caller obtains from `NewSanitizer` followed by `AddTag` for each registration in order. */
  function Build(regs: seq<Registration>): Sanitizer
  {
    if |regs| == 0 then NewSanitizer()
    else AddTag(Build(regs[..|regs| - 1]), regs[|regs| - 1].name, regs[|regs| - 1].handler).0
  }

  /** The last registration appends its name and binds it, on top of the registry built before it. */
  lemma BuildSnoc(regs: seq<Registration>)
    requires |regs| > 0
    ensures Build(regs).names == Build(regs[..|regs| - 1]).names + [regs[|regs| - 1].name]
    ensures Build(regs).handlers == Build(regs[..|regs| - 1]).handlers[regs[|regs| - 1].name := regs[|regs| - 1].handler]
  {
    var b := Build(regs[..|regs| - 1]);
    var last := regs[|regs| - 1];
    assert Build(regs) == AddTag(b, last.name, last.handler).0;
    assert AddTag(b, last.name, last.handler).0 == Sanitizer(b.handlers[last.name := last.handler], b.names + [last.name]);
  }

  /** Every registry built by `NewSanitizer` and `AddTag` satisfies the registry invariant. */
  lemma {:induction false} BuildValid(regs: seq<Registration>)
    ensures Valid(Build(regs))
  {
    if |regs| > 0 {
      BuildValid(regs[..|regs| - 1]);
    }
  }

  /** The name list of a built registry is the list of registered names, duplicates included. */
  lemma {:induction false} BuildNames(regs: seq<Registration>)
    ensures |Build(regs).names| == |regs|
    ensures forall i :: 0 <= i < |regs| ==> Build(regs).names[i] == regs[i].name
  {
    if |regs| > 0 {
      var init := regs[..|regs| - 1];
      BuildNames(init);
      BuildSnoc(regs);
      var before := Build(init).names;
      var after := Build(regs).names;
      forall i | 0 <= i < |regs|
        ensures after[i] == regs[i].name
      {
        if i < |init| {
          assert after[i] == before[i] && init[i] == regs[i];
        }
      }
    }
  }

  /** A name has a handler exactly when it was registered at least once. */
  lemma {:induction false} BuildRegistered(regs: seq<Registration>, name: string)
    ensures name in Build(regs).handlers <==> exists i :: 0 <= i < |regs| && regs[i].name == name
  {
    if |regs| > 0 {
      var init := regs[..|regs| - 1];
      BuildRegistered(init, name);
      BuildSnoc(regs);
      if name in Build(init).handlers {
        var i :| 0 <= i < |init| && init[i].name == name;
        assert regs[i] == init[i];
      }
      if exists i :: 0 <= i < |regs| && regs[i].name == name {
        var i :| 0 <= i < |regs| && regs[i].name == name;
        if i < |init| { assert init[i] == regs[i]; }
      }
    }
  }

  /** A registered name maps to the handler of its LAST registration. */
  lemma {:induction false} BuildLatestWins(regs: seq<Registration>, i: nat)
    requires i < |regs|
    requires forall j :: i < j < |regs| ==> regs[j].name != regs[i].name
    ensures regs[i].name in Build(regs).handlers
    ensures Build(regs).handlers[regs[i].name] == regs[i].handler
  {
    var init := regs[..|regs| - 1];
    BuildSnoc(regs);
    if i < |init| {
      assert forall j :: 0 <= j < |init| ==> init[j] == regs[j];
      BuildLatestWins(init, i);
    }
  }
}
