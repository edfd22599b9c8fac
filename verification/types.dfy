/**
 The data the sanitizer works on, with Go reflection replaced by explicit datatypes.

 A Go value handed to the walker is one of four shapes: a leaf (any kind other
 than `struct` and `ptr`), a struct with its fields in declaration order, a
 non-nil pointer to some value, or a nil pointer. Each struct field carries its
 struct tag, written out as a list of `key:"value"` pairs.
 */
module Types {
  import opened Wrappers

  /**
   The value a handler receives (`valueField.Interface()`), with its dynamic
   type: `Str` and `Bool` are Go's `string` and `bool`, and `Int` is a Go
   `int` (a 64-bit value; the model leaves it unbounded because nothing
   computes with it). A value of a defined type (`type Phone string`) is
   `Named`, so a handler's `.(string)` assertion can tell it apart. A field of
   interface type is the value it holds, since `Interface()` hands over the
   content; a nil one is `Other("nil", "<nil>")`. Every other leaf (other
   integer widths, floats, slices, maps, and a struct or pointer held in an
   interface) is `Other`, carrying its kind and its printed form.
   */
  datatype Value =
    | Str(s: string)
    | Int(i: int)
    | Bool(b: bool)
    | Named(typeName: string, underlying: Value)
    | Other(kind: string, repr: string)

  /** A non-nil Go `error`; the sanitizer never looks inside it. */
  datatype Error = Error(message: string)

  /** The places where the walker or the dispatcher panics instead of returning an error. */
  datatype Panic =
    | NotAStruct        // `NumField` on a type that is not a struct
    | NilPointer        // `Elem().Type()` on a nil pointer
    | ElemOfNonPointer  // `v.Elem()` when the record was reached by value
    | NilHandler        // calling the handler of a name that was never registered

  /** What a call returns: nil, an error, or a panic. */
  datatype Outcome = Ok | Err(error: Error) | Crash(panic: Panic)

  /** One `key:"value"` pair of a struct tag. */
  datatype Tag = Tag(key: string, value: string)

  /** A Go value as seen by reflection. */
  datatype Val =
    | Scalar(leaf: Value)
    | Struct(fields: seq<Field>)
    | Ptr(target: Val)
    | NilPtr

  /** A struct field: its tag and its current value. */
  datatype Field = Field(tags: seq<Tag>, val: Val)

  /** `StructTag.Lookup`: the value of the first pair whose key is `key`, if any. */
  function Lookup(tags: seq<Tag>, key: string): (r: Option<string>)
    ensures r.None? <==> forall i :: 0 <= i < |tags| ==> tags[i].key != key
    ensures r.Some? ==> exists i :: 0 <= i < |tags| && tags[i] == Tag(key, r.value)
                                    && forall j :: 0 <= j < i ==> tags[j].key != key
  {
    if |tags| == 0 then None
    else if tags[0].key == key then Some(tags[0].value)
    else
      var r := Lookup(tags[1..], key);
      assert r.Some? ==> exists i :: 1 <= i < |tags| && tags[i] == Tag(key, r.value)
                                     && forall j :: 0 <= j < i ==> tags[j].key != key by {
        if r.Some? {
          var i :| 0 <= i < |tags[1..]| && tags[1..][i] == Tag(key, r.value)
                   && forall j :: 0 <= j < i ==> tags[1..][j].key != key;
          assert forall j :: 0 <= j < i + 1 ==> tags[j].key != key by {
            forall j | 0 <= j < i + 1 ensures tags[j].key != key {
              if j > 0 { assert tags[j] == tags[1..][j - 1]; }
            }
          }
        }
      }
      r
  }
}
