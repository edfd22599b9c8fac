# struct-sanitizer in Dafny

A model of `sanitizer/sanitizer.go`, a tag-dispatch validator for Go structs.
Callers register named tag handlers in a `Sanitizer`. `Sanitize` then walks a
struct's fields in declaration order and recurses into struct and pointer
fields. For every other (leaf) field, it dispatches each registered tag name
that the field's struct tag declares, in registration order. The first non-nil
error ends the walk.

## Layout

- `wrappers.dfy` (`Wrappers`): `Option` and `Result`.
- `types.dfy` (`Types`): the explicit replacement for Go reflection.
  - `Val` is one of `Scalar` (any kind other than struct or ptr), `Struct(fields)`, `Ptr(target)` or `NilPtr`.
  - `Field` is a struct tag (a list of `key:"value"` pairs) plus a value.
  - `Lookup` is first-match tag lookup.
  - `Outcome` is `Ok | Err(error) | Crash(panic)`. `Crash` names the four modelled places where the Go code panics (see Panics).
- `registry.dfy` (`Registry`): `Sanitizer`, `NewSanitizer`, `AddTag`, `HandleTag`, the registry invariant `Valid`, and `Build`. `Build` is the registry that results from `NewSanitizer` followed by a series of `AddTag` calls.
- `walker.dfy` (`Walker`): `sanitizeValues` as `SanitizeValues`/`WalkFields`/`DispatchLeaf`, plus `Sanitize` and `UnmarshalAndSanitize`.
  - A walk returns a `Run`: the handler dispatches it made, in order, and its outcome.
  - `FailFast` says that every dispatch except the last returned nil, and that the trace explains the outcome.
- `reference.dfy` (`Reference`): an independent flat semantics.
  - A record is flattened into a plan: the dispatches and panic points in order.
  - `Execute` runs the plan until the first step that does not return nil. `ExecuteShape` states what such a run looks like.
  - `PlanMatchesWalk` proves that the recursive walker is exactly this.
- `properties.dfy` (`Properties`): whole-walk theorems.
- `scenarios.dfy` (`Scenarios`): the test file's record, dispatch order, and duplicate registration.

## Panics

The Go code panics in four places that the model represents as `Crash`:

- **Nil pointer field.** The code calls `v.Elem().Type()` on a nil pointer (sanitizer/sanitizer.go:49), which panics. Modelled as `Crash(NilPointer)`.
- **Name with no handler.**
  - `HandleTag` reads the map entry for the name and calls it (sanitizer/sanitizer.go:86-87). For a name with no entry, that value is a nil function, and calling it panics. Modelled as `Crash(NilHandler)`.
  - The walker only looks up registered names. So a field tagged with an unregistered name is ignored (`UntaggedNeverDispatches`).
- **Nested records reached by value.** The code reads a nested field through `v.Elem()` (sanitizer/sanitizer.go:68) instead of `workVal`. That panics whenever the enclosing record was reached by value: at the top level, or as a struct-valued field. Modelled as `Crash(ElemOfNonPointer)`. `Walkable` characterises the values that do not panic.
- **Non-struct values.** A top-level value that is neither a struct nor a pointer to a struct panics at `NumField` (sanitizer/sanitizer.go:53). A nil pointer panics earlier, at line 49. Modelled as `Crash(NotAStruct)`.

## Model

| member | source | states |
|---|---|---|
| Types.Lookup | sanitizer/sanitizer.go:59 | A tag lookup finds a value exactly when some pair has the key. The value comes from the first pair with that key. |
| Registry.NewSanitizer | sanitizer/sanitizer.go:95-100 | A new registry has no handlers and no names, and it satisfies the registry invariant. |
| Registry.AddTag | sanitizer/sanitizer.go:79-83 | Always returns a nil error. Binds the name to the new handler and leaves every other map entry as it was. Appends the name after an unchanged prefix of the earlier names. Preserves the registry invariant. |
| Registry.HandleTag | sanitizer/sanitizer.go:85-93 | Panics exactly when the name has no handler. Otherwise returns nil exactly when the handler returns nil, and returns the handler's error when it does not. |
| Registry.BuildValid | sanitizer/sanitizer.go:79-83 | Every registry reached from `NewSanitizer` by `AddTag` calls has a name list whose set of names equals the handler map's key set. |
| Registry.BuildNames | sanitizer/sanitizer.go:81 | The name list of a built registry is the sequence of registered names in registration order, duplicates included. |
| Registry.BuildRegistered | sanitizer/sanitizer.go:80 | A name has a handler in a built registry exactly when it was registered at least once. |
| Registry.BuildLatestWins | sanitizer/sanitizer.go:80 | A registered name maps to the handler from its last registration. |
| Walker.DispatchLeaf | sanitizer/sanitizer.go:58-66 | A leaf's dispatches are fail-fast. Each dispatch is of a name in the list, declared by the field's tag, with the tag's argument and the field's value. |
| Walker.SanitizeValues | sanitizer/sanitizer.go:40-76 | A walk is fail-fast: every dispatch but the last returned nil, and an error is the one the last dispatch returned. It dispatches only listed names. Under the registry invariant it never reaches a missing handler. |
| Walker.WalkFields | sanitizer/sanitizer.go:53-75 | The field loop is fail-fast and dispatches only listed names. Under the registry invariant it never reaches a missing handler. |
| Walker.Sanitize | sanitizer/sanitizer.go:29-38 | Panics on a scalar, a nil pointer or a pointer to a non-struct. Never reaches a missing handler under the invariant. Any error it returns is one a registered handler produced. |
| Walker.UnmarshalAndSanitize | sanitizer/sanitizer.go:15-27 | The caller's value is what the decoder left it, whatever the outcome. A decode failure is returned as is. Otherwise the result is that of sanitizing the interface value the decoder left, which is not necessarily the caller's value. |
| Properties.UnmarshalSucceedsIff | sanitizer/sanitizer.go:15-27 | Decoding and sanitizing returns nil exactly when the decoder reports no error, the value it leaves for the walk is walkable, and every dispatch planned for that value has a handler that returns nil. |
| Reference.ExecuteShape | sanitizer/sanitizer.go:53-75 | Running a flat plan is fail-fast and dispatches a prefix of the planned calls, and nothing planned after a panic point. It returns nil exactly when the plan has no panic and every planned call returns nil. Any walker panic it reports is the plan's first panic point. |
| Reference.LeafMatchesPlan | sanitizer/sanitizer.go:58-66 | The leaf loop equals executing the registered names the tag declares, in registration order. |
| Reference.PlanMatchesWalk | sanitizer/sanitizer.go:40-76 | The recursive walk equals executing the flattened plan of the record: declaration order, with recursion into nested records. |
| Reference.FieldsMatchPlan | sanitizer/sanitizer.go:53-75 | The field loop equals executing the concatenated plans of the fields. |
| Reference.ExecuteAppend | sanitizer/sanitizer.go:62-64 | Executing two plans in sequence runs the second only if the first returned nil, and then concatenates their dispatches. |
| Properties.WalkableIffNoHalt | sanitizer/sanitizer.go:45-73 | A value is walkable exactly when its plan has no panic point. |
| Properties.PlannedNamesListed | sanitizer/sanitizer.go:58-61 | Every planned dispatch is of a listed name. A record where no leaf declares a listed name plans no dispatch. |
| Properties.WalkDispatchesPlanPrefix | sanitizer/sanitizer.go:53-75 | A walk's dispatches are a prefix of the planned dispatches, in planned order. |
| Properties.SanitizeSucceedsIff | sanitizer/sanitizer.go:53-75 | `Sanitize` returns nil exactly when the record is walkable and every planned dispatch has a handler that returns nil. |
| Properties.WalkableNeverPanics | sanitizer/sanitizer.go:45-73 | Under the registry invariant, a walkable record never panics. |
| Properties.UntaggedNeverDispatches | sanitizer/sanitizer.go:58-60 | When no leaf declares a registered name, no handler runs. The walk returns nil exactly when the record is walkable, and panics otherwise. |
| Properties.EmptyRegistryChecksShapeOnly | sanitizer/sanitizer.go:95-100 | With a fresh registry, nothing is dispatched, and `Sanitize` returns nil exactly on walkable records. |
| Properties.FailFastAcrossFields | sanitizer/sanitizer.go:53-75 | Walking `front + back`: if `front` does not return nil, `back` is never visited. Otherwise the dispatches of `back` follow those of `front` and its outcome is the result. |
| Scenarios.TestStructReachesOnlyBaz | sanitizer/sanitizer_test.go:39-43 | With only `phone` registered, walking `&testObject` dispatches exactly once: `phone` on `Baz` with argument "ru". The walk returns the handler's verdict. `Foo` and `Bar` are never dispatched. |
| Scenarios.EarlierRegisteredFailureStops | sanitizer/sanitizer.go:58-64 | When the handler registered first fails on a field declaring two names, its error is returned. The later-registered name is never dispatched, even though the tag lists it first. |
| Properties.NestedFailurePropagates | sanitizer/sanitizer.go:67-72 | When a nested record reached through a pointer fails and the earlier fields passed, the enclosing walk fails with the same outcome; if an earlier field failed, that failure is the result. The dispatches are those of the earlier fields followed by the nested walk's, and the later fields are not visited. |
| Properties.NestedFieldTagsIgnored | sanitizer/sanitizer.go:56-73 | The tags of a struct or pointer field are never consulted: replacing them leaves the walk's dispatches and outcome unchanged. |
| Scenarios.DuplicateRegistrationDispatchesTwice | sanitizer/sanitizer.go:80-81 | Registering a name twice lists it twice and maps it only to the second handler. A field declaring it gets the second handler dispatched twice, or once if the first dispatch fails. |

## Left out

- JSON decoding in `UnmarshalAndSanitize` (`json.Unmarshal`) is a standard-library decoder. It is a parameter: a function from the bytes and the caller's value to a `Decoded` with three parts. `target` is the caller's value afterwards, `walked` is the local interface `v` afterwards (what `Sanitize` receives), and `error` is the decoder's error.
- Walker.UnmarshalAndSanitize: the relation between `target` and `walked` is left to the decoder parameter. In Go they coincide only when `v` holds a non-nil pointer and the payload is not `null`. Otherwise `json.Unmarshal` replaces the local `v` (sanitizer/sanitizer.go:16), the caller keeps its value, and the walk sees the replacement. A `null` payload leaves `v` nil, which panics at `v.Type()` (line 46); `Val` cannot represent that value (see the untyped nil below).
- Handler bodies are caller-supplied, such as the phone-number regex handler of the test file. Handlers are uninterpreted total functions from the tag argument and field value to an optional error. So they are pure, and calling `Sanitize` twice on the same record gives the same result by construction.
- Go reflection and struct-tag string parsing (`reflect`, `StructTag.Lookup` on the raw tag string) are replaced by the explicit `Val` tree and a pre-parsed tag list. Malformed tag strings are not modelled.
- Leaf values are a simplified `interface{}`. `Str` and `Bool` are Go's `string` and `bool`. `Int` is a Go `int` (a 64-bit value); the model leaves it unbounded because the walker never computes with it. A value of a defined type is `Named(typeName, underlying)`, so a handler can tell it apart, as a `.(string)` assertion does. A field of interface type is represented by the value it holds, because `Interface()` hands the content to the handler; a nil interface field is `Other("nil", "<nil>")`. Every other leaf (floats, slices, maps, and a struct or pointer held in an interface) is `Other(kind, repr)`: its kind and printed form, without its structure. The walker never inspects leaf values; it only passes them to handlers.
- Registry.HandleTag: handlers are never nil, because `Handler` is a total function type. A nil `TagHandler` passed to `AddTag` would panic at sanitizer/sanitizer.go:87 like a missing one. So `HandleTag`'s "panics exactly when the name has no handler" and `WalkableNeverPanics` hold only for non-nil handlers.
- Registry.AddTag: copies of a Go `Sanitizer` value share one handler map but each has its own name list. So registering on one copy changes another copy's handlers but not its names, which can break `Valid` or `BuildLatestWins` for the other copy. The model treats every registry as an independent value, and `Build` describes a single registry that is never copied.
- Registry.AddTag: registries come from `NewSanitizer`. A zero-value `Sanitizer{}` has a nil map, and `AddTag` on it panics at sanitizer/sanitizer.go:80. That registry is not representable.
- A top-level untyped nil (the zero `reflect.Value`) panics at `v.Type()`. It has no representation in `Val`.
- Panics from `Interface()` on unexported fields are not modelled: every field is treated as exported.
- Cyclic pointer graphs are not modelled. `Val` is a finite tree, so the source's unbounded recursion on a cycle cannot be expressed.
- Concurrency: there is none in the source. Keeping the registry read-only after setup is the caller's job.
- `AddTag` mutates the `*Sanitizer` receiver. It is modelled as a function that returns the updated registry together with the error result.
