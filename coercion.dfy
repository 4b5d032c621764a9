/**
 * The string coercion `value + ''` that the store applies to every value it is
 * given (ECMAScript ToString after ToPrimitive with the default hint). Plain
 * objects are taken to carry no own `toString`, `valueOf` or
 * `Symbol.toPrimitive`, so they render through Object.prototype.toString.
 */
module Coercion {
  import opened JsValues
  import opened Numbers

  function BoolText(b: bool): (t: string)
    ensures t == "true" || t == "false"
  {
    if b then "true" else "false"
  }

  /** A symbol is `v` itself, or an element of an array reached through arrays only. */
  predicate HoldsSymbol(v: JsValue)
  {
    match v
    case JsSymbol(_) => true
    case JsArray(items) => exists i :: 0 <= i < |items| && HoldsSymbol(items[i])
    case _ => false
  }

  /**
   * `value + ''`. Arrays render through Array.prototype.join with ",", where
   * `undefined` and `null` elements become empty; plain objects render as
   * "[object Object]"; a Date renders through its `toString`; a function through
   * its source text; a Symbol cannot be converted and throws a TypeError.
   */
  function ToText(v: JsValue): (r: Result<string>)
    ensures r.Err? ==> r.error == TypeError
    ensures r.Err? <==> HoldsSymbol(v)
    ensures !v.JsArray? ==> (r.Err? <==> v.JsSymbol?)
    ensures v.JsString? ==> r == Ok(v.s)
  {
    match v
    case JsUndefined => Ok("undefined")
    case JsNull => Ok("null")
    case JsBool(b) => Ok(BoolText(b))
    case JsNumber(n) => Ok(IntText(n))
    case JsBigInt(n) => Ok(IntText(n))
    case JsString(s) => Ok(s)
    case JsArray(items) => JoinText(items)
    case JsObject(_) => Ok("[object Object]")
    case JsDate(text, _) => Ok(text)
    case JsFunction(source) => Ok(source)
    case JsSymbol(_) => Err(TypeError)
  }

  /**
   * Array.prototype.join(",") over the elements: one comma fewer than there
   * are elements, and a TypeError exactly when a symbol is inside.
   */
  function JoinText(items: seq<JsValue>): (r: Result<string>)
    ensures r.Err? ==> r.error == TypeError
    ensures r.Err? <==> exists i :: 0 <= i < |items| && HoldsSymbol(items[i])
    ensures r.Ok? && items != [] ==> |r.value| >= |items| - 1
    ensures (forall i :: 0 <= i < |items| ==> items[i].JsUndefined? || items[i].JsNull? || items[i] == JsString(""))
            ==> r == Ok(Commas(|items|))
  {
    if items == [] then Ok("")
    else
      var first := if items[0].JsUndefined? || items[0].JsNull? then Ok("") else ToText(items[0]);
      match first
      case Err(e) => Err(e)
      case Ok(a) =>
        assert forall i :: 1 <= i < |items| ==> items[1..][i - 1] == items[i];
        if |items| == 1 then Ok(a)
        else
          match JoinText(items[1..])
          case Err(e) => Err(e)
          case Ok(b) =>
            assert (forall i :: 0 <= i < |items| ==> items[i].JsUndefined? || items[i].JsNull? || items[i] == JsString(""))
                   ==> a == "" && b == Commas(|items| - 1) && a + ("," + b) == Commas(|items|);
            Ok(a + ("," + b))
  }

  /** The text one element contributes to a join: empty for undefined and null. */
  function ElementText(x: JsValue): (r: Result<string>)
    ensures r.Err? <==> HoldsSymbol(x)
    ensures x.JsUndefined? || x.JsNull? ==> r == Ok("")
  {
    if x.JsUndefined? || x.JsNull? then Ok("") else ToText(x)
  }

  /** A one-element array renders as its element's text. */
  lemma JoinSingle(x: JsValue)
    ensures JoinText([x]) == ElementText(x)
  {
  }

  /** Joining one more element appends a comma and that element's text. */
  lemma {:induction false} JoinAppend(xs: seq<JsValue>, x: JsValue)
    requires xs != []
    ensures JoinText(xs).Ok? && ElementText(x).Ok? ==> JoinText(xs + [x]) == Ok(JoinText(xs).value + "," + ElementText(x).value)
    decreases |xs|
  {
    var ys := xs + [x];
    assert ys[0] == xs[0];
    if |xs| == 1 {
      assert ys[1..] == [x];
      assert xs == [xs[0]];
      JoinSingle(x);
      JoinSingle(xs[0]);
      if JoinText(xs).Ok? && ElementText(x).Ok? {
        var a := ElementText(xs[0]).value;
        assert JoinText(ys) == Ok(a + ("," + ElementText(x).value));
        assert a + ("," + ElementText(x).value) == a + "," + ElementText(x).value;
      }
    } else {
      assert ys[1..] == xs[1..] + [x];
      JoinAppend(xs[1..], x);
      if JoinText(xs).Ok? && ElementText(x).Ok? {
        var a := ElementText(xs[0]).value;
        var b := JoinText(xs[1..]).value;
        assert JoinText(xs) == Ok(a + ("," + b));
        assert JoinText(ys) == Ok(a + ("," + (b + "," + ElementText(x).value)));
        assert a + ("," + (b + "," + ElementText(x).value)) == a + ("," + b) + "," + ElementText(x).value;
      }
    }
  }

  /** The text of `n` empty elements joined by commas. */
  function Commas(n: nat): (s: string)
    ensures n > 0 ==> |s| == n - 1
  {
    if n <= 1 then "" else "," + Commas(n - 1)
  }
}
