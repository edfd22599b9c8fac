/**
 Properties of whole walks: when a walk succeeds, when it can panic, what an
 unannotated record does, and that an early failure hides every later field.
 */
module Properties {
  import opened Wrappers
  import opened Types
  import opened Registry
  import opened Walker
  import opened Reference

  /**
   The values the source can walk without panicking: a struct whose fields are
   all leaves, or a pointer to a struct whose non-leaf fields are walkable in
   turn. A struct reached by value may not contain a struct or pointer field.
   */
  predicate Walkable(v: Val)
    decreases v
  {
    match v
    case Struct(fs) => forall i :: 0 <= i < |fs| ==> fs[i].val.Scalar?
    case Ptr(Struct(fs)) => forall i :: 0 <= i < |fs| ==> fs[i].val.Scalar? || Walkable(fs[i].val)
    case _ => false
  }

  /** The fields' counterpart of `Walkable`, for a record reached through a pointer or not. */
  predicate FieldsWalkable(fs: seq<Field>, viaPointer: bool)
  {
    forall i :: 0 <= i < |fs| ==> fs[i].val.Scalar? || (viaPointer && Walkable(fs[i].val))
  }

  /** A leaf whose tag declares none of the registered names. */
  predicate LeafUntagged(names: seq<string>, tags: seq<Tag>)
  {
    forall n :: n in names ==> Lookup(tags, n).None?
  }

  /** No leaf anywhere in `v` declares a registered name. */
  predicate Untagged(names: seq<string>, v: Val)
    decreases v
  {
    match v
    case Scalar(_) => true
    case NilPtr => true
    case Ptr(t) => Untagged(names, t)
    case Struct(fs) =>
      forall i :: 0 <= i < |fs| ==>
        if fs[i].val.Scalar? then LeafUntagged(names, fs[i].tags) else Untagged(names, fs[i].val)
  }

  lemma HaltsAppend(a: seq<Step>, b: seq<Step>)
    ensures Halts(a + b) <==> Halts(a) || Halts(b)
  {
    if Halts(a + b) {
      var i :| 0 <= i < |a + b| && (a + b)[i].Halt?;
      if i < |a| {
        assert a[i] == (a + b)[i];
      } else {
        assert b[i - |a|] == (a + b)[i];
      }
    }
    if Halts(a) {
      var i :| 0 <= i < |a| && a[i].Halt?;
      assert (a + b)[i] == a[i];
    }
    if Halts(b) {
      var i :| 0 <= i < |b| && b[i].Halt?;
      assert (a + b)[|a| + i] == b[i];
    }
  }

  /** A leaf plan dispatches only names from `names`, with the declared argument, and never panics. */
  lemma {:induction false} LeafPlanShape(names: seq<string>, tags: seq<Tag>, x: Value)
    ensures !Halts(LeafPlan(names, tags, x))
    ensures forall c :: c in CallsOf(LeafPlan(names, tags, x)) ==> c.name in names
    ensures LeafUntagged(names, tags) ==> CallsOf(LeafPlan(names, tags, x)) == []
    decreases |names|
  {
    if |names| > 0 {
      LeafPlanShape(names[1..], tags, x);
      var head := match Lookup(tags, names[0])
                  case None => []
                  case Some(arg) => [Dispatch(Call(names[0], arg, x))];
      HaltsAppend(head, LeafPlan(names[1..], tags, x));
      CallsOfAppend(head, LeafPlan(names[1..], tags, x));
      assert CallsOf(head) == if head == [] then [] else [head[0].call];
    }
  }

  /** Walkability is exactly the absence of a panic from the plan. */
  lemma {:induction false} WalkableIffNoHalt(names: seq<string>, v: Val)
    ensures Walkable(v) <==> !Halts(Plan(names, v))
    decreases v
  {
    match v
    case Scalar(_) => assert Plan(names, v)[0].Halt?;
    case NilPtr => assert Plan(names, v)[0].Halt?;
    case Ptr(Struct(fs)) => FieldsWalkableIffNoHalt(names, fs, true);
    case Ptr(_) => assert Plan(names, v)[0].Halt?;
    case Struct(fs) => FieldsWalkableIffNoHalt(names, fs, false);
  }

  lemma {:induction false} FieldsWalkableIffNoHalt(names: seq<string>, fs: seq<Field>, viaPointer: bool)
    ensures FieldsWalkable(fs, viaPointer) <==> !Halts(FieldsPlan(names, fs, viaPointer))
    decreases fs
  {
    if |fs| > 0 {
      var head :=
        if fs[0].val.Scalar? then LeafPlan(names, fs[0].tags, fs[0].val.leaf)
        else if !viaPointer then [Halt(ElemOfNonPointer)]
        else Plan(names, fs[0].val);
      if fs[0].val.Scalar? {
        LeafPlanShape(names, fs[0].tags, fs[0].val.leaf);
      } else if viaPointer {
        WalkableIffNoHalt(names, fs[0].val);
      } else {
        assert head[0].Halt?;
      }
      FieldsWalkableIffNoHalt(names, fs[1..], viaPointer);
      HaltsAppend(head, FieldsPlan(names, fs[1..], viaPointer));
      assert FieldsWalkable(fs, viaPointer) <==>
               (fs[0].val.Scalar? || (viaPointer && Walkable(fs[0].val))) && FieldsWalkable(fs[1..], viaPointer) by {
        if FieldsWalkable(fs[1..], viaPointer) && (fs[0].val.Scalar? || (viaPointer && Walkable(fs[0].val))) {
          forall i | 0 <= i < |fs| ensures fs[i].val.Scalar? || (viaPointer && Walkable(fs[i].val)) {
            if i > 0 { assert fs[i] == fs[1..][i - 1]; }
          }
        }
      }
    }
  }

  /** Every planned dispatch is of a name in the registry's list. */
  lemma {:induction false} PlannedNamesListed(names: seq<string>, v: Val)
    ensures forall c :: c in CallsOf(Plan(names, v)) ==> c.name in names
    ensures Untagged(names, v) ==> CallsOf(Plan(names, v)) == []
    decreases v
  {
    match v
    case Scalar(_) =>
    case NilPtr =>
    case Ptr(Struct(fs)) =>
      assert Untagged(names, v) ==> Untagged(names, Struct(fs));
      FieldsPlannedNamesListed(names, fs, true);
    case Ptr(_) =>
    case Struct(fs) => FieldsPlannedNamesListed(names, fs, false);
  }

  lemma {:induction false} FieldsPlannedNamesListed(names: seq<string>, fs: seq<Field>, viaPointer: bool)
    ensures forall c :: c in CallsOf(FieldsPlan(names, fs, viaPointer)) ==> c.name in names
    ensures (forall i :: 0 <= i < |fs| ==>
               if fs[i].val.Scalar? then LeafUntagged(names, fs[i].tags) else Untagged(names, fs[i].val))
            ==> CallsOf(FieldsPlan(names, fs, viaPointer)) == []
    decreases fs
  {
    if |fs| > 0 {
      var head :=
        if fs[0].val.Scalar? then LeafPlan(names, fs[0].tags, fs[0].val.leaf)
        else if !viaPointer then [Halt(ElemOfNonPointer)]
        else Plan(names, fs[0].val);
      if fs[0].val.Scalar? {
        LeafPlanShape(names, fs[0].tags, fs[0].val.leaf);
      } else if viaPointer {
        PlannedNamesListed(names, fs[0].val);
      } else {
        assert CallsOf(head) == [];
      }
      FieldsPlannedNamesListed(names, fs[1..], viaPointer);
      CallsOfAppend(head, FieldsPlan(names, fs[1..], viaPointer));
      assert forall i :: 1 <= i < |fs| ==> fs[i] == fs[1..][i - 1];
    }
  }

  /** A walk dispatches a prefix of the planned calls, in the planned order. */
  lemma WalkDispatchesPlanPrefix(s: Sanitizer, v: Val)
    ensures SanitizeValues(s, v).calls <= CallsOf(Plan(s.names, v))
  {
    PlanMatchesWalk(s, v);
    ExecuteShape(s, Plan(s.names, v));
  }

  /**
   A walk returns nil exactly when the record is walkable and every planned
   dispatch has a handler that returns nil.
   */
  lemma SanitizeSucceedsIff(s: Sanitizer, v: Val)
    ensures Sanitize(s, v) == Ok <==>
              Walkable(v) && forall c :: c in CallsOf(Plan(s.names, v)) ==>
                               c.name in s.handlers && s.handlers[c.name](c.arg, c.value).None?
  {
    PlanMatchesWalk(s, v);
    ExecuteShape(s, Plan(s.names, v));
    WalkableIffNoHalt(s.names, v);
    PlannedNamesListed(s.names, v);
  }

  /**
   Decoding and sanitizing returns nil exactly when the decoder reports no
   error, the value it leaves for the walk is walkable, and every dispatch
   planned for that value has a handler that returns nil.
   */
  lemma UnmarshalSucceedsIff(s: Sanitizer, decode: Decoder, data: seq<bv8>, target: Val)
    ensures UnmarshalAndSanitize(s, decode, data, target).outcome == Ok <==>
              var d := decode(data, target);
              d.error.None? && Walkable(d.walked) &&
              forall c :: c in CallsOf(Plan(s.names, d.walked)) ==>
                            c.name in s.handlers && s.handlers[c.name](c.arg, c.value).None?
  {
    SanitizeSucceedsIff(s, decode(data, target).walked);
  }

  /** With a valid registry, a walkable record never panics. */
  lemma WalkableNeverPanics(s: Sanitizer, v: Val)
    requires Valid(s) && Walkable(v)
    ensures !Sanitize(s, v).Crash?
  {
    PlanMatchesWalk(s, v);
    ExecuteShape(s, Plan(s.names, v));
    WalkableIffNoHalt(s.names, v);
  }

  /**
   If no leaf declares a registered name (in particular, when nothing is
   registered), no handler runs: a walkable record passes and any other
   value panics.
   */
  lemma UntaggedNeverDispatches(s: Sanitizer, v: Val)
    requires Untagged(s.names, v)
    ensures SanitizeValues(s, v).calls == []
    ensures Sanitize(s, v) == Ok <==> Walkable(v)
    ensures !Walkable(v) ==> Sanitize(s, v).Crash?
  {
    PlanMatchesWalk(s, v);
    ExecuteShape(s, Plan(s.names, v));
    WalkableIffNoHalt(s.names, v);
    PlannedNamesListed(s.names, v);
  }

  /** A registry with no names accepts every walkable record and dispatches nothing. */
  lemma {:induction false} EmptyRegistryChecksShapeOnly(v: Val)
    ensures SanitizeValues(NewSanitizer(), v).calls == []
    ensures Sanitize(NewSanitizer(), v) == Ok <==> Walkable(v)
  {
    NothingUntaggedForNoNames(v);
    UntaggedNeverDispatches(NewSanitizer(), v);
  }

  lemma {:induction false} NothingUntaggedForNoNames(v: Val)
    ensures Untagged([], v)
    decreases v
  {
    match v
    case Scalar(_) =>
    case NilPtr =>
    case Ptr(t) => NothingUntaggedForNoNames(t);
    case Struct(fs) =>
      forall i | 0 <= i < |fs|
        ensures if fs[i].val.Scalar? then LeafUntagged([], fs[i].tags) else Untagged([], fs[i].val)
      {
        NothingUntaggedForNoNames(fs[i].val);
      }
  }

  lemma {:induction false} FieldsPlanAppend(names: seq<string>, front: seq<Field>, back: seq<Field>, viaPointer: bool)
    ensures FieldsPlan(names, front + back, viaPointer) ==
              FieldsPlan(names, front, viaPointer) + FieldsPlan(names, back, viaPointer)
    decreases |front|
  {
    if |front| == 0 {
      assert front + back == back;
    } else {
      var all := front + back;
      assert all[0] == front[0];
      assert all[1..] == front[1..] + back;
      FieldsPlanAppend(names, front[1..], back, viaPointer);
      FieldsPlanCons(names, all, viaPointer);
      FieldsPlanCons(names, front, viaPointer);
      var head := FieldPlan(names, front[0], viaPointer);
      var mid := FieldsPlan(names, front[1..], viaPointer);
      var tail := FieldsPlan(names, back, viaPointer);
      assert head + (mid + tail) == (head + mid) + tail;
    }
  }

  /**
   The tags of a struct or pointer field are never consulted: replacing them
   does not change the walk.
   */
  lemma {:induction false} NestedFieldTagsIgnored(s: Sanitizer, fs: seq<Field>, i: nat, tags: seq<Tag>, viaPointer: bool)
    requires i < |fs| && !fs[i].val.Scalar?
    ensures WalkFields(s, fs[i := Field(tags, fs[i].val)], viaPointer) == WalkFields(s, fs, viaPointer)
    decreases i
  {
    var fs' := fs[i := Field(tags, fs[i].val)];
    if i > 0 {
      assert fs'[0] == fs[0];
      assert fs'[1..] == fs[1..][i - 1 := Field(tags, fs[i].val)];
      NestedFieldTagsIgnored(s, fs[1..], i - 1, tags, viaPointer);
    } else {
      assert fs'[1..] == fs[1..];
    }
  }

  /**
   Fields are walked in declaration order: the fields after a prefix that did
   not return nil are never visited, and otherwise their dispatches follow the
   prefix's.
   */
  lemma {:induction false} FailFastAcrossFields(s: Sanitizer, front: seq<Field>, back: seq<Field>, viaPointer: bool)
    ensures WalkFields(s, front + back, viaPointer) ==
              (var r := WalkFields(s, front, viaPointer);
               if r.outcome.Ok? then Run(r.calls + WalkFields(s, back, viaPointer).calls,
                                         WalkFields(s, back, viaPointer).outcome)
               else r)
  {
    FieldsMatchPlan(s, front + back, viaPointer);
    FieldsMatchPlan(s, front, viaPointer);
    FieldsMatchPlan(s, back, viaPointer);
    FieldsPlanAppend(s.names, front, back, viaPointer);
    ExecuteAppend(s, FieldsPlan(s.names, front, viaPointer), FieldsPlan(s.names, back, viaPointer));
  }

  /**
   A failure inside a record reached through a pointer field is the failure of
   the enclosing walk, at any depth, unless an earlier field failed first: the
   dispatches of the fields before it come first, then those of the nested
   walk, and the fields after it are not visited.
   */
  lemma {:induction false} NestedFailurePropagates(s: Sanitizer, before: seq<Field>, tags: seq<Tag>, inner: Val, after: seq<Field>)
    requires !inner.Scalar?
    requires SanitizeValues(s, inner).outcome != Ok
    ensures SanitizeValues(s, Ptr(Struct(before + [Field(tags, inner)] + after))) ==
              (var r := WalkFields(s, before, true);
               if r.outcome.Ok? then Run(r.calls + SanitizeValues(s, inner).calls, SanitizeValues(s, inner).outcome)
               else r)
  {
    var nested := [Field(tags, inner)];
    FailFastAcrossFields(s, before + nested, after, true);
    FailFastAcrossFields(s, before, nested, true);
    assert WalkFields(s, nested[1..], true) == Run([], Ok);
  }
}
