/**
 Concrete walks: the record of `sanitizer/sanitizer_test.go`, dispatch order
 within one field, and the effect of registering the same name twice.
 */
module Scenarios {
  import opened Wrappers
  import opened Types
  import opened Registry
  import opened Walker

  /** `testStruct`: `Foo` and `Bar` carry only `json` tags; `Baz` also carries `phone:"ru"`. */
  function TestStruct(foo: int, bar: string, baz: string): Val
  {
    Struct([Field([Tag("json", "foo,string,omitempty")], Scalar(Int(foo))),
            Field([Tag("json", "bar")], Scalar(Str(bar))),
            Field([Tag("json", "baz"), Tag("phone", "ru")], Scalar(Str(baz)))])
  }

  /**
   With only `phone` registered, walking `&testObject` dispatches `phone`
   once, on `Baz` with argument "ru", and returns whatever the handler returns.
   */
  lemma TestStructReachesOnlyBaz(phone: Handler, foo: int, bar: string, baz: string)
    ensures var s := AddTag(NewSanitizer(), "phone", phone).0;
            var r := SanitizeValues(s, Ptr(TestStruct(foo, bar, baz)));
            && r.calls == [Call("phone", "ru", Str(baz))]
            && (r.outcome == Ok <==> phone("ru", Str(baz)).None?)
            && (r.outcome != Ok ==> r.outcome == Err(phone("ru", Str(baz)).value))
  {
    var s := AddTag(NewSanitizer(), "phone", phone).0;
    assert s == Sanitizer(map["phone" := phone], ["phone"]);
    var fs := TestStruct(foo, bar, baz).fields;
    assert s.names[1..] == [];
    assert Lookup(fs[0].tags, "phone") == None;
    assert Lookup(fs[1].tags, "phone") == None;
    assert Lookup(fs[2].tags, "phone") == Some("ru");
    var c := Call("phone", "ru", Str(baz));
    var leaf := DispatchLeaf(s, s.names, fs[2].tags, Str(baz));
    assert DispatchLeaf(s, s.names[1..], fs[2].tags, Str(baz)) == Run([], Ok);
    assert [c] + [] == [c];
    assert leaf == if Invoke(s, c) != Ok then Run([c], Invoke(s, c)) else Run([c], Ok);
    assert WalkFields(s, fs[2..], true) == leaf by {
      assert fs[2..][1..] == [];
    }
    assert WalkFields(s, fs[1..], true) == leaf by {
      assert fs[1..][1..] == fs[2..];
      assert DispatchLeaf(s, s.names, fs[1].tags, Str(bar)) == Run([], Ok);
    }
    assert DispatchLeaf(s, s.names, fs[0].tags, Int(foo)) == Run([], Ok);
  }

  /**
   Within a field, names are tried in registration order, not in the order
   the tag lists them: when the earlier-registered handler fails, the later
   one is never invoked.
   */
  lemma EarlierRegisteredFailureStops(a: string, b: string, ha: Handler, hb: Handler,
                                      argA: string, argB: string, x: Value)
    requires a != b
    requires ha(argA, x).Some?
    ensures var s := AddTag(AddTag(NewSanitizer(), a, ha).0, b, hb).0;
            SanitizeValues(s, Ptr(Struct([Field([Tag(b, argB), Tag(a, argA)], Scalar(x))])))
              == Run([Call(a, argA, x)], Err(ha(argA, x).value))
  {
    var s := AddTag(AddTag(NewSanitizer(), a, ha).0, b, hb).0;
    assert s == Sanitizer(map[a := ha, b := hb], [a, b]);
    assert Lookup([Tag(b, argB), Tag(a, argA)], a) == Some(argA);
  }

  /**
   Registering a name twice keeps it twice in the list and only the second
   handler in the map, so a field declaring that name gets the second handler
   invoked twice; the first handler is never used.
   */
  lemma DuplicateRegistrationDispatchesTwice(n: string, f: Handler, g: Handler, arg: string, x: Value)
    ensures var s := AddTag(AddTag(NewSanitizer(), n, f).0, n, g).0;
            && s.names == [n, n]
            && s.handlers == map[n := g]
            && SanitizeValues(s, Ptr(Struct([Field([Tag(n, arg)], Scalar(x))]))) ==
                 match g(arg, x)
                 case None => Run([Call(n, arg, x), Call(n, arg, x)], Ok)
                 case Some(e) => Run([Call(n, arg, x)], Err(e))
  {
    var once := AddTag(NewSanitizer(), n, f).0;
    assert once == Sanitizer(map[n := f], [n]);
    var twice := AddTag(once, n, g).0;
    assert twice.handlers == map[n := f][n := g] == map[n := g];
    assert twice.names == [n] + [n] == [n, n];
    DoubleDispatch(n, g, arg, x);
  }

  lemma DoubleDispatch(n: string, g: Handler, arg: string, x: Value)
    ensures SanitizeValues(Sanitizer(map[n := g], [n, n]), Ptr(Struct([Field([Tag(n, arg)], Scalar(x))]))) ==
              match g(arg, x)
              case None => Run([Call(n, arg, x), Call(n, arg, x)], Ok)
              case Some(e) => Run([Call(n, arg, x)], Err(e))
  {
    var s := Sanitizer(map[n := g], [n, n]);
    var tags := [Tag(n, arg)];
    var c := Call(n, arg, x);
    assert s.names[1..] == [n] && s.names[1..][1..] == [];
    assert Lookup(tags, n) == Some(arg);
    assert Invoke(s, c) == if g(arg, x).None? then Ok else Err(g(arg, x).value);
    assert DispatchLeaf(s, s.names[1..][1..], tags, x) == Run([], Ok);
    assert [c] + [] == [c];
    var second := DispatchLeaf(s, s.names[1..], tags, x);
    assert second == if g(arg, x).None? then Run([c], Ok) else Run([c], Err(g(arg, x).value));
    var both := DispatchLeaf(s, s.names, tags, x);
    assert both == if g(arg, x).None? then Run([c, c], Ok) else Run([c], Err(g(arg, x).value));
    var fs := [Field(tags, Scalar(x))];
    assert WalkFields(s, fs[1..], true) == Run([], Ok);
    assert both.calls + [] == both.calls;
  }
}
