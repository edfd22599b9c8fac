/**
 An independent description of a walk: the record is first flattened into a
 plan (the dispatches the walker would make, in order, and the points where it
 would panic), then the plan is executed step by step until the first step
 that does not return nil. `PlanMatchesWalk` shows that the recursive walker
 is exactly this.
 */
module Reference {
  import opened Wrappers
  import opened Types
  import opened Registry
  import opened Walker

  /** The panics of the walker itself, as opposed to those of a dispatch. */
  type WalkPanic = p: Panic | p != NilHandler witness NotAStruct

  /** One step of a plan: a handler dispatch, or a point where the walker panics. */
  datatype Step = Dispatch(call: Call) | Halt(panic: WalkPanic)

  /** The dispatches for one leaf field: the registered names it declares, in registration order. */
  function LeafPlan(names: seq<string>, tags: seq<Tag>, x: Value): seq<Step>
    decreases |names|
  {
    if |names| == 0 then []
    else
      (match Lookup(tags, names[0])
       case None => []
       case Some(arg) => [Dispatch(Call(names[0], arg, x))])
      + LeafPlan(names[1..], tags, x)
  }

  /** The plan for a record value: where the walker stops at once, or the plan of its fields. */
  function Plan(names: seq<string>, v: Val): seq<Step>
    decreases v
  {
    match v
    case Scalar(_) => [Halt(NotAStruct)]
    case NilPtr => [Halt(NilPointer)]
    case Ptr(Struct(fs)) => FieldsPlan(names, fs, true)
    case Ptr(_) => [Halt(NotAStruct)]
    case Struct(fs) => FieldsPlan(names, fs, false)
  }

  /** The plans of the fields, concatenated in declaration order. */
  function FieldsPlan(names: seq<string>, fs: seq<Field>, viaPointer: bool): seq<Step>
    decreases fs
  {
    if |fs| == 0 then []
    else FieldPlan(names, fs[0], viaPointer) + FieldsPlan(names, fs[1..], viaPointer)
  }

  /** The plan of one field: its dispatches if it is a leaf, otherwise the nested walk's plan or a panic. */
  function FieldPlan(names: seq<string>, f: Field, viaPointer: bool): seq<Step>
    decreases f
  {
    if f.val.Scalar? then LeafPlan(names, f.tags, f.val.leaf)
    else if !viaPointer then [Halt(ElemOfNonPointer)]
    else Plan(names, f.val)
  }

  /** The plan of a non-empty field list is the first field's plan followed by the rest's. */
  lemma FieldsPlanCons(names: seq<string>, fs: seq<Field>, viaPointer: bool)
    requires |fs| > 0
    ensures FieldsPlan(names, fs, viaPointer) ==
              FieldPlan(names, fs[0], viaPointer) + FieldsPlan(names, fs[1..], viaPointer)
  {
  }

  /** The dispatches of a plan, in order. */
  function CallsOf(plan: seq<Step>): seq<Call>
  {
    if |plan| == 0 then []
    else (if plan[0].Dispatch? then [plan[0].call] else []) + CallsOf(plan[1..])
  }

  /** Whether a plan contains a panic. */
  predicate Halts(plan: seq<Step>)
  {
    exists i :: 0 <= i < |plan| && plan[i].Halt?
  }

  /**
   Execute a plan against a registry, stopping at the first panic or at the
   first dispatch that does not return nil.
   */
  function Execute(s: Sanitizer, plan: seq<Step>): Run
  {
    if |plan| == 0 then Run([], Ok)
    else
      match plan[0]
      case Halt(p) => Run([], Crash(p))
      case Dispatch(c) =>
        var o := Invoke(s, c);
        if o != Ok then Run([c], o)
        else
          var rest := Execute(s, plan[1..]);
          Run([c] + rest.calls, rest.outcome)
  }

  /** Nothing planned at or after a panic point is dispatched. */
  lemma {:induction false} ExecuteStopsAtHalt(s: Sanitizer, plan: seq<Step>, k: nat)
    requires k < |plan| && plan[k].Halt?
    ensures Execute(s, plan).calls <= CallsOf(plan[..k])
  {
    if k > 0 && plan[0].Dispatch? {
      var c := plan[0].call;
      var prefix := plan[..k];
      assert prefix[0] == plan[0] && prefix[1..] == plan[1..][..k - 1];
      assert CallsOf(prefix) == [c] + CallsOf(plan[1..][..k - 1]);
      if Invoke(s, c) == Ok {
        ExecuteStopsAtHalt(s, plan[1..], k - 1);
      }
    }
  }

  /** A walker panic that a run reports is the plan's first panic point. */
  lemma {:induction false} ExecuteReportsFirstHalt(s: Sanitizer, plan: seq<Step>)
    requires Execute(s, plan).outcome.Crash? && Execute(s, plan).outcome.panic != NilHandler
    ensures exists k :: 0 <= k < |plan| && plan[k] == Halt(Execute(s, plan).outcome.panic) && !Halts(plan[..k])
  {
    var p := Execute(s, plan).outcome.panic;
    if plan[0].Halt? {
      assert plan[0] == Halt(p) && plan[..0] == [];
    } else {
      ExecuteReportsFirstHalt(s, plan[1..]);
      var k :| 0 <= k < |plan[1..]| && plan[1..][k] == Halt(p) && !Halts(plan[1..][..k]);
      assert plan[k + 1] == Halt(p);
      var prefix := plan[..k + 1];
      forall i | 0 <= i < |prefix|
        ensures !prefix[i].Halt?
      {
        if i > 0 { assert prefix[i] == plan[1..][..k][i - 1]; }
      }
    }
  }

  /**
   Executing a plan is fail-fast, dispatches a prefix of the planned calls and
   nothing planned after a panic point, returns nil exactly when the plan has
   no panic and every planned call returns nil, and reports only the first
   panic point of the plan.
   */
  lemma {:induction false} ExecuteShape(s: Sanitizer, plan: seq<Step>)
    ensures FailFast(s, Execute(s, plan))
    ensures Execute(s, plan).calls <= CallsOf(plan)
    ensures Execute(s, plan).outcome.Ok? <==>
              !Halts(plan) && forall c :: c in CallsOf(plan) ==> Invoke(s, c) == Ok
    ensures Execute(s, plan).outcome.Ok? ==> Execute(s, plan).calls == CallsOf(plan)
    ensures Execute(s, plan).outcome.Crash? && Execute(s, plan).outcome.panic != NilHandler ==>
              Halt(Execute(s, plan).outcome.panic) in plan
    ensures forall k :: 0 <= k < |plan| && plan[k].Halt? ==> Execute(s, plan).calls <= CallsOf(plan[..k])
    ensures Execute(s, plan).outcome.Crash? && Execute(s, plan).outcome.panic != NilHandler ==>
              exists k :: 0 <= k < |plan| && plan[k] == Halt(Execute(s, plan).outcome.panic) && !Halts(plan[..k])
  {
    if Execute(s, plan).outcome.Crash? && Execute(s, plan).outcome.panic != NilHandler {
      ExecuteReportsFirstHalt(s, plan);
    }
    forall k | 0 <= k < |plan| && plan[k].Halt?
      ensures Execute(s, plan).calls <= CallsOf(plan[..k])
    {
      ExecuteStopsAtHalt(s, plan, k);
    }
    if |plan| > 0 && plan[0].Dispatch? && Invoke(s, plan[0].call) == Ok {
      var c := plan[0].call;
      var rest := Execute(s, plan[1..]);
      ExecuteShape(s, plan[1..]);
      SequenceFailFast(s, Run([c], Ok), rest);
      assert !Halts(plan[1..]) ==> !Halts(plan) by {
        if !Halts(plan[1..]) {
          forall i | 0 <= i < |plan| ensures !plan[i].Halt? {
            if i > 0 { assert plan[i] == plan[1..][i - 1]; }
          }
        }
      }
    }
  }

  lemma {:induction false} CallsOfAppend(a: seq<Step>, b: seq<Step>)
    ensures CallsOf(a + b) == CallsOf(a) + CallsOf(b)
  {
    if |a| > 0 {
      CallsOfAppend(a[1..], b);
      assert (a + b)[1..] == a[1..] + b;
    } else {
      assert a + b == b;
    }
  }

  /** Executing `a` and then, only if it returned nil, `b`. */
  function Sequenced(s: Sanitizer, a: seq<Step>, b: seq<Step>): Run
  {
    var ra := Execute(s, a);
    if ra.outcome.Ok? then Run(ra.calls + Execute(s, b).calls, Execute(s, b).outcome) else ra
  }

  lemma ExecuteAppendCons(s: Sanitizer, step: Step, t: seq<Step>, b: seq<Step>)
    requires Execute(s, t + b) == Sequenced(s, t, b)
    ensures Execute(s, [step] + (t + b)) == Sequenced(s, [step] + t, b)
  {
    assert ([step] + (t + b))[1..] == t + b;
    assert ([step] + t)[1..] == t;
    if step.Dispatch? && Invoke(s, step.call) == Ok {
      var c := step.call;
      var ta := Execute(s, t);
      var tb := Execute(s, b);
      if ta.outcome.Ok? {
        assert [c] + (ta.calls + tb.calls) == ([c] + ta.calls) + tb.calls;
      }
    }
  }

  /** Executing two plans in a row: the second runs only when the first returned nil. */
  lemma {:induction false} ExecuteAppend(s: Sanitizer, a: seq<Step>, b: seq<Step>)
    ensures Execute(s, a + b) == Sequenced(s, a, b)
  {
    if |a| == 0 {
      assert a + b == b;
    } else {
      ExecuteAppend(s, a[1..], b);
      ExecuteAppendCons(s, a[0], a[1..], b);
      assert a == [a[0]] + a[1..];
      assert a + b == [a[0]] + (a[1..] + b);
    }
  }

  /** A dispatch of one leaf is the execution of its plan. */
  lemma {:induction false} LeafMatchesPlan(s: Sanitizer, names: seq<string>, tags: seq<Tag>, x: Value)
    ensures DispatchLeaf(s, names, tags, x) == Execute(s, LeafPlan(names, tags, x))
    decreases |names|
  {
    if |names| > 0 {
      LeafMatchesPlan(s, names[1..], tags, x);
      var head := match Lookup(tags, names[0])
                  case None => []
                  case Some(arg) => [Dispatch(Call(names[0], arg, x))];
      ExecuteAppend(s, head, LeafPlan(names[1..], tags, x));
    }
  }

  /** The recursive walker makes exactly the dispatches of the plan, up to the first failure. */
  lemma {:induction false} PlanMatchesWalk(s: Sanitizer, v: Val)
    ensures SanitizeValues(s, v) == Execute(s, Plan(s.names, v))
    decreases v
  {
    match v
    case Scalar(_) =>
    case NilPtr =>
    case Ptr(Struct(fs)) => FieldsMatchPlan(s, fs, true);
    case Ptr(_) =>
    case Struct(fs) => FieldsMatchPlan(s, fs, false);
  }

  lemma {:induction false} FieldsMatchPlan(s: Sanitizer, fs: seq<Field>, viaPointer: bool)
    ensures WalkFields(s, fs, viaPointer) == Execute(s, FieldsPlan(s.names, fs, viaPointer))
    decreases fs
  {
    if |fs| > 0 {
      var head :=
        if fs[0].val.Scalar? then LeafPlan(s.names, fs[0].tags, fs[0].val.leaf)
        else if !viaPointer then [Halt(ElemOfNonPointer)]
        else Plan(s.names, fs[0].val);
      if fs[0].val.Scalar? {
        LeafMatchesPlan(s, s.names, fs[0].tags, fs[0].val.leaf);
      } else if viaPointer {
        PlanMatchesWalk(s, fs[0].val);
      }
      FieldsMatchPlan(s, fs[1..], viaPointer);
      ExecuteAppend(s, head, FieldsPlan(s.names, fs[1..], viaPointer));
    }
  }
}
