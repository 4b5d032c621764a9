/**
 * `getJsonItem` and `setJsonItem`, the JSON mode the typed layer adds to the
 * store. Both go through the global `localStorage`; here the store is passed in.
 */
module JsonStorage {
  import opened JsValues
  import opened Numbers
  import opened Coercion
  import opened JsonText
  import opened JsonApi
  import opened LocalStorageMock

  /**
   * What `getJsonItem` makes of what `getItem` returned: null for a missing
   * key, undefined for the exact text "undefined" (never parsed), and otherwise
   * whatever JSON.parse returns or throws.
   */
  function ReadJson(stored: Option<string>): (r: Result<JsValue>)
    ensures stored.None? ==> r == Ok(JsNull)
    ensures r == Ok(JsUndefined) <==> stored == Some("undefined")
    ensures r.Ok? && !r.value.JsUndefined? ==> JsonSafe(r.value)
    ensures r.Err? <==> stored.Some? && stored.value != "undefined" && Decode(stored.value).Err?
  {
    match stored
    case None => Ok(JsNull)
    case Some(text) => if text == "undefined" then Ok(JsUndefined) else Parse(text)
  }

  /**
   * The string `setJsonItem` leaves in the store: JSON.stringify's text, or
   * "undefined" when JSON.stringify returns undefined and `+ ''` coerces it.
   */
  function WrittenText(v: JsValue): (r: Result<string>)
    ensures r.Err? <==> HasBigInt(v)
    ensures r.Err? ==> r.error == TypeError
  {
    match Stringify(v)
    case Err(e) => Err(e)
    case Ok(None) => Ok(ToText(JsUndefined).value)
    case Ok(Some(text)) => Ok(ToText(JsString(text)).value)
  }

  /** `getJsonItem(key)`. */
  method GetJsonItem(ls: Storage, key: string) returns (r: Result<JsValue>)
    requires ls.Valid()
    ensures r == ReadJson(ls.GetItem(key))
    ensures key !in ls.items ==> r == Ok(JsNull)
    ensures key in ls.items && ls.items[key] == "undefined" ==> r == Ok(JsUndefined)
    ensures key in ls.items && ls.items[key] != "undefined" ==> r == Parse(ls.items[key])
  {
    var strVal := ls.GetItem(key);
    if strVal.None? {
      return Ok(JsNull);
    }
    if strVal.value == "undefined" {
      return Ok(JsUndefined);
    }
    r := Parse(strVal.value);
  }

  /**
   * `setJsonItem(key, value)`: `setItem(key, JSON.stringify(value))`. A BigInt
   * makes JSON.stringify throw before anything is written.
   */
  method SetJsonItem(ls: Storage, key: string, value: JsValue) returns (r: Result<()>)
    requires ls.Valid()
    modifies ls
    ensures ls.Valid()
    ensures HasBigInt(value) ==> r == Err(TypeError) && ls.items == old(ls.items) && ls.order == old(ls.order)
    ensures !HasBigInt(value) ==> r == Ok(())
    ensures !HasBigInt(value) ==> ls.items == old(ls.items)[key := WrittenText(value).value]
    ensures !HasBigInt(value) ==> ls.order == if key in old(ls.items) then old(ls.order) else old(ls.order) + [key]
  {
    match Stringify(value)
    case Err(e) =>
      r := Err(e);
    case Ok(json) =>
      var arg := if json.Some? then JsString(json.value) else JsUndefined;
      r := ls.SetItem(key, arg);
  }

  /** setJsonItem followed by getJsonItem on the same key. */
  method WriteThenRead(ls: Storage, key: string, value: JsValue) returns (r: Result<JsValue>)
    requires ls.Valid()
    requires JsonSafe(value) || value.JsUndefined?
    modifies ls
    ensures r == Ok(value)
  {
    var w := SetJsonItem(ls, key, value);
    JsonRoundTrip(value);
    r := GetJsonItem(ls, key);
  }

  // ---------------------------------------------------------------------------
  // Properties

  /**
   * getJsonItem after setJsonItem gives back the value written, for undefined
   * and for every value JSON.parse can produce.
   */
  lemma JsonRoundTrip(v: JsValue)
    requires JsonSafe(v) || v.JsUndefined?
    ensures WrittenText(v).Ok? && ReadJson(Some(WrittenText(v).value)) == Ok(v)
  {
    if !v.JsUndefined? {
      ParseStringify(v);
    }
  }

  /** The sentinels: undefined is stored as "undefined", null as "null". */
  lemma SentinelTexts()
    ensures WrittenText(JsUndefined) == Ok("undefined")
    ensures WrittenText(JsNull) == Ok("null")
  {
    assert Encode(JNull) == "null" + "" == "null";
    assert ToText(JsString("null")) == Ok("null");
  }

  /**
   * Two of the three states a nullable JSON key can be in read back the same:
   * a missing key and a stored null both give null.
   */
  lemma AbsentAndNullAgree()
    ensures ReadJson(None) == ReadJson(Some(WrittenText(JsNull).value)) == Ok(JsNull)
    ensures ReadJson(Some(WrittenText(JsUndefined).value)) == Ok(JsUndefined)
  {
    DecodeEncode(JNull);
  }

  /** A plain string stored in raw mode makes getJsonItem throw a SyntaxError. */
  lemma RawStringIsNotJson(text: string)
    requires |text| >= 1 && ('a' <= text[0] <= 'z' || 'A' <= text[0] <= 'Z')
    requires text[0] != 'n' && text[0] != 't' && text[0] != 'f' && text != "undefined"
    ensures ReadJson(Some(text)) == Err(SyntaxError)
  {
    PlainWordIsSyntaxError(text);
  }

  /** The test's own example: "str" stored raw cannot be read as JSON. */
  lemma StrIsSyntaxError()
    ensures ReadJson(Some("str")) == Err(SyntaxError)
  {
    RawStringIsNotJson("str");
  }

  /** The sentinel is never a JSON text, so only getJsonItem's own branch can return undefined. */
  lemma UndefinedIsNotJson()
    ensures Parse("undefined") == Err(SyntaxError)
  {
    PlainWordIsSyntaxError("undefined");
  }

  /**
   * Values JSON.stringify skips altogether (undefined, functions, symbols) are
   * stored as "undefined" and read back as undefined.
   */
  lemma SkippedReadsUndefined(v: JsValue)
    requires Unserializable(v)
    ensures WrittenText(v) == Ok("undefined")
    ensures ReadJson(Some(WrittenText(v).value)) == Ok(JsUndefined)
  {
  }

  /** A BigInt anywhere inside the value makes setJsonItem throw a TypeError. */
  lemma BigIntThrows(n: int)
    ensures WrittenText(JsBigInt(n)) == Err(TypeError)
    ensures WrittenText(JsArray([JsNumber(1), JsBigInt(n)])) == Err(TypeError)
  {
    assert HasBigInt(JsArray([JsNumber(1), JsBigInt(n)]).items[1]);
  }

  /** A Date is written through toISOString and comes back as that string. */
  lemma DateReadsAsString(text: string, iso: string)
    ensures ReadJson(Some(WrittenText(JsDate(text, iso)).value)) == Ok(JsString(iso))
  {
    assert ToJson(JsDate(text, iso)) == ToJson(JsString(iso));
    assert WrittenText(JsDate(text, iso)) == WrittenText(JsString(iso));
    JsonRoundTrip(JsString(iso));
  }

  /**
   * An array element JSON.stringify skips is written as null, so an array
   * holding undefined, a function or a symbol does not read back as written.
   */
  lemma SkippedElementReadsNull(v: JsValue)
    requires Unserializable(v)
    ensures WrittenText(JsArray([v])).Ok?
    ensures ReadJson(Some(WrittenText(JsArray([v])).value)) == Ok(JsArray([JsNull]))
  {
    assert ToJson([v][0]) == Ok(None) && !HasBigInt([v][0]);
    var js := ItemsToJson([v]);
    assert js.Ok? && |js.value| == 1 && js.value[0] == JNull;
    assert js.value == [JNull];
    assert ToJson(JsArray([v])) == Ok(Some(JArray([JNull])));
    DecodeEncode(JArray([JNull]));
    assert FromItems([JNull]) == [JsNull];
  }

  /** An object property JSON.stringify skips is dropped, so it does not read back either. */
  lemma SkippedPropertyDropped(k: string, v: JsValue)
    requires Unserializable(v)
    ensures WrittenText(JsObject([Prop(k, v)])).Ok?
    ensures ReadJson(Some(WrittenText(JsObject([Prop(k, v)])).value)) == Ok(JsObject([]))
  {
    var props := [Prop(k, v)];
    assert !HasBigInt(props[0].value) && props[1..] == [];
    assert Kept(props) == [];
    PropsToJsonKept(props);
    assert PropsToJson(props) == Ok([]);
    assert ToJson(JsObject([Prop(k, v)])) == Ok(Some(JObject([])));
    DecodeEncode(JObject([]));
  }

  /** A number or boolean stored through raw setItem reads back as that value in JSON mode. */
  lemma RawPrimitiveReadsAsJson(n: int, b: bool)
    ensures ReadJson(Some(ToText(JsNumber(n)).value)) == Ok(JsNumber(n))
    ensures ReadJson(Some(ToText(JsBool(b)).value)) == Ok(JsBool(b))
  {
    DecodeEncode(JNumber(n));
    assert Encode(JNumber(n)) == IntText(n);
    DecodeEncode(JBool(b));
    assert Encode(JBool(b)) == BoolText(b);
    assert IntText(n) != "undefined" by {
      assert IntText(n)[0] == '-' || IsDigit(IntText(n)[0]) by {
        if n >= 0 { assert AllDigits(IntText(n)); }
      }
    }
  }
}
