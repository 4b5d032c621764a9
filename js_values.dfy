/**
 * The JavaScript runtime values the storage layer sees: what callers pass to
 * `setItem` and `setJsonItem`, and what `JSON.parse` hands back.
 *
 * Numbers are modelled by their integer values only. A `Date` carries the two
 * renderings the layer ever observes, as two independent given strings:
 * `toString`, which depends on the host's locale and time zone, and
 * `toISOString`, the UTC form YYYY-MM-DDTHH:mm:ss.sssZ (read by `JSON.stringify`
 * through `toJSON`). Neither is derived from a time value here.
 */
module JsValues {

  datatype Option<+T> = None | Some(value: T)

  /** The exceptions the layer and its host functions can throw. */
  datatype JsError =
    | TypeError      // `BigInt` met by `JSON.stringify`, `Symbol` met by `+ ''`
    | SyntaxError    // `JSON.parse` on text that is not a JSON text
    | OutsideModel   // well-formed JSON whose value this model cannot represent

  datatype Result<+T> = Ok(value: T) | Err(error: JsError)

  datatype JsValue =
    | JsUndefined
    | JsNull
    | JsBool(b: bool)
    | JsNumber(n: int)
    | JsBigInt(big: int)
    | JsString(s: string)
    | JsArray(items: seq<JsValue>)
    | JsObject(props: seq<Prop>)
    | JsDate(text: string, iso: string)
    | JsFunction(source: string)
    | JsSymbol(description: string)

  /** An own enumerable property of a plain object, in property order. */
  datatype Prop = Prop(key: string, value: JsValue)

  /** A JavaScript object never has two own properties with the same name. */
  predicate DistinctKeys(props: seq<Prop>)
  {
    forall i, j :: 0 <= i < j < |props| ==> props[i].key != props[j].key
  }

  predicate HasKey(props: seq<Prop>, k: string)
  {
    exists i :: 0 <= i < |props| && props[i].key == k
  }
}
