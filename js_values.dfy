/** The few JavaScript values the tab hook handles: tab values (`string | number`),
    the two "nullish" values `null` and `undefined`, and optional strings. */
module JsValues {

  datatype Option<+T> = None | Some(value: T)

  /** A tab value: `string | number`.  Numbers are integers here; the hook only
      ever generates integers, and callers' values are compared, never computed on. */
  datatype TabValue = StrValue(s: string) | NumValue(n: int)

  /** A tab value that may also be `null` or `undefined`.  Dafny's `==` on this
      type is JavaScript's `===`: same kind and same content. */
  datatype JsOptional = Value(v: TabValue) | JsNull | JsUndefined {

    /** The operand test of `??`: true exactly for `null` and `undefined`. */
    predicate IsNullish() {
      JsNull? || JsUndefined?
    }
  }

  /** JavaScript truthiness of a tab value, the test `||` would use. */
  predicate Truthy(v: JsOptional) {
    match v
    case Value(StrValue(s)) => s != ""
    case Value(NumValue(n)) => n != 0
    case JsNull => false
    case JsUndefined => false
  }
}
