/**
 * The slice of JavaScript's value domain that an option field handles:
 * strings (choice keys, field values), booleans (the simple checkbox),
 * arrays (multi-checkbox values) and `undefined`, together with the two
 * comparisons the field uses, strict equality `===` and `Array.prototype.includes`.
 */
module JsValues {

  datatype Option<T> = None | Some(value: T)

  datatype Value = Str(s: string) | Bool(b: bool) | Arr(items: seq<Value>) | Undefined

  /**
   * JavaScript `===` on the values above. Strings and booleans compare by
   * content and `undefined === undefined`. Arrays compare by identity; every
   * array an option field compares (a schema literal, another field's fresh
   * `getValue()` result) is a distinct object, so an array is never strictly
   * equal to anything here, not even to an array with the same items.
   */
  predicate StrictEquals(a: Value, b: Value) {
    match (a, b)
    case (Str(x), Str(y)) => x == y
    case (Bool(x), Bool(y)) => x == y
    case (Undefined, Undefined) => true
    case _ => false
  }

  /** `xs.includes(v)`: some element of `xs` is (for these values) strictly equal to `v`. */
  predicate Includes(xs: seq<Value>, v: Value) {
    exists i :: 0 <= i < |xs| && StrictEquals(xs[i], v)
  }

  /** Strict equality is structural equality restricted to non-array values. */
  lemma StrictEqualsIsScalarEquality(a: Value, b: Value)
    ensures StrictEquals(a, b) <==> a == b && !a.Arr?
  {
  }

  /** Looking up a string with `includes` is plain sequence membership. */
  lemma IncludesString(xs: seq<Value>, s: string)
    ensures Includes(xs, Str(s)) <==> Str(s) in xs
  {
    if Str(s) in xs {
      var i :| 0 <= i < |xs| && xs[i] == Str(s);
      assert StrictEquals(xs[i], Str(s));
    }
  }
}
