/**
 * What the types promise against what the store does: a value the typed
 * overloads accept, written and read back through the same mode, has the type
 * the read overload announces; where the two modes or the JSON codec part
 * ways, the lemmas below show the value that breaks the promise.
 */
module TypedStorage {
  import opened JsValues
  import opened Numbers
  import opened Coercion
  import opened JsonText
  import opened JsonApi
  import opened JsonStorage
  import opened Schema

  // ---------------------------------------------------------------------------
  // Raw mode: setItem then getItem

  /** Every value the typed `setItem` accepts, once coerced and read back, fits `GetValue`. */
  lemma RawWriteReadConforms(d: Domain, v: JsValue)
    requires InType(v, SetValue(d))
    ensures ToText(v).Ok?
    ensures RawConforms(d, Some(ToText(v).value))
  {
    var b :| b in SetValue(d) && InAtom(v, b);
    var a :| a in d && b in SetAtom(a);
    var o := AtomWriteRead(a, b, v);
    assert o in GetValue(d);
  }

  /** The same for one member `a` of the type: the text read back fits `GetValue` of `a` through `o`. */
  lemma AtomWriteRead(a: Atom, b: Atom, v: JsValue) returns (o: RawOut)
    requires b in SetAtom(a) && InAtom(v, b)
    ensures ToText(v).Ok? && o in GetAtom(a) && Admits(o, Some(ToText(v).value))
  {
    match a {
      case String => o := AnyText;
      case StringLit(s) => o := Exact(s);
      case Number =>
        IntTextIsNumeric(v.n);
        o := NumericText;
      case NumberLit(n) => o := Exact(IntText(n));
      case BigInt =>
        IntTextIsNumeric(v.big);
        o := NumericText;
      case Boolean => o := Exact(BoolText(v.b));
      case BoolLit(x) => o := Exact(BoolText(x));
      case Object => o := AnyText;
      case Date => o := AnyText;
    }
  }

  /** A missing key fits `GetValue` exactly when the key is nullable. */
  lemma AbsentConformsIffNullable(d: Domain)
    ensures RawConforms(d, None) <==> NullableDomain(d)
  {
    NullOutIffNullable(d);
    if RawConforms(d, None) {
      var o :| o in GetValue(d) && Admits(o, None);
      assert o == NullOut;
    }
  }

  // ---------------------------------------------------------------------------
  // JSON mode: setJsonItem then getJsonItem

  /**
   * A value of `StorageJson<T>` comes back unchanged when it is not a Date or a
   * BigInt and, being an array or object, holds only JSON-safe values.
   */
  lemma JsonTypedRoundTrip(d: Domain, v: JsValue)
    requires InType(v, StorageJson(d))
    requires !v.JsDate? && !v.JsBigInt?
    requires (v.JsArray? || v.JsObject?) ==> JsonSafe(v)
    ensures WrittenText(v).Ok? && ReadJson(Some(WrittenText(v).value)) == Ok(v)
  {
    StorageJsonShape(d);
    var a :| a in StorageJson(d) && InAtom(v, a);
    assert !a.Function? && !a.Symbol?;
    JsonRoundTrip(v);
  }

  /** A missing key's null fits `StorageJson` exactly when the key is nullable. */
  lemma AbsentJsonConformsIffNullable(d: Domain)
    ensures InType(ReadJson(None).value, StorageJson(d)) <==> NullableDomain(d)
  {
    StorageJsonShape(d);
    if NullableDomain(d) {
      assert InAtom(JsNull, Null);
    }
  }

  /**
   * A key typed `Date | number` is a JSON key, but a Date written through
   * setJsonItem reads back as a string, which its type does not admit.
   */
  lemma DateJsonKeyBreaksRoundTrip(text: string, iso: string)
    ensures var d := {Date, Number};
            JsonDomain(d) && InType(JsDate(text, iso), StorageJson(d))
            && ReadJson(Some(WrittenText(JsDate(text, iso)).value)) == Ok(JsString(iso))
            && !InType(JsString(iso), StorageJson(d))
  {
    var d := {Date, Number};
    assert !IsNonJsonAtom(Number);
    StorageJsonShape(d);
    assert InAtom(JsDate(text, iso), Date);
    DateReadsAsString(text, iso);
  }

  /** A key typed `bigint | number` is a JSON key, yet its bigint values make setJsonItem throw. */
  lemma BigIntJsonKeyThrows(n: int)
    ensures var d := {BigInt, Number};
            JsonDomain(d) && InType(JsBigInt(n), StorageJson(d)) && WrittenText(JsBigInt(n)) == Err(TypeError)
  {
    var d := {BigInt, Number};
    assert !IsNonJsonAtom(Number);
    StorageJsonShape(d);
    assert InAtom(JsBigInt(n), BigInt);
  }

  // ---------------------------------------------------------------------------
  // Mixing the modes

  /**
   * `numberOpt` allows both modes. After setJsonItem(undefined), getItem
   * returns "undefined", which `GetValue<number | undefined>` (a numeric text
   * or null) does not admit.
   */
  lemma UndefinedBreaksRawRead()
    ensures var d := {Number, Undefined};
            RawDomain(d) && JsonDomain(d) && InType(JsUndefined, StorageJson(d))
            && WrittenText(JsUndefined) == Ok("undefined")
            && !RawConforms(d, Some("undefined"))
  {
    NumberOptModes();
    SentinelTexts();
    NumberOptRejectsUndefined();
  }

  /** `number | undefined` is both a raw-mode and a JSON-mode type, and takes undefined in JSON mode. */
  lemma NumberOptModes()
    ensures var d := {Number, Undefined};
            RawDomain(d) && JsonDomain(d) && InType(JsUndefined, StorageJson(d))
  {
    var d := {Number, Undefined};
    assert !IsNonJsonAtom(Number);
    StorageJsonShape(d);
    assert InAtom(JsUndefined, Undefined);
  }

  /** The text "undefined" is neither a numeric text nor null. */
  lemma NumberOptRejectsUndefined()
    ensures !RawConforms({Number, Undefined}, Some("undefined"))
  {
    assert !IsNumericText("undefined") by {
      assert !IsDigit('u');
    }
    NumberOptReads();
  }

  /** `GetValue<number | undefined>` is a numeric text or null. */
  lemma NumberOptReads()
    ensures forall o :: o in GetValue({Number, Undefined}) ==> o == NumericText || o == NullOut
  {
    forall o | o in GetValue({Number, Undefined})
      ensures o == NumericText || o == NullOut
    {
      var a :| a in {Number, Undefined} && o in GetAtom(a);
    }
  }

  // ---------------------------------------------------------------------------
  // The schema the repository's tests declare

  const TestSchema: Schema := map[
    "undefined" := {Undefined},
    "null" := {Null},
    "nullOpt" := {Null, Undefined},
    "string" := {String},
    "stringOpt" := {String, Undefined},
    "stringOrNull" := {String, Null},
    "stringOrNullOpt" := {String, Null, Undefined},
    "stringLiteral" := {StringLit("a"), StringLit("b"), StringLit("c")},
    "stringAndLiteral" := {StringLit("a"), String},
    "number" := {Number},
    "numberOpt" := {Number, Undefined},
    "numberOrNull" := {Number, Null},
    "numberOrNullOpt" := {Number, Null, Undefined},
    "numberLiteral" := {NumberLit(1), NumberLit(2), NumberLit(3)},
    "numberAndLiteral" := {NumberLit(1), Number},
    "obj" := {Object},
    "objOpt" := {Object, Undefined},
    "objOrNull" := {Object, Null},
    "objOrNullOpt" := {Object, Null, Undefined},
    "boolean" := {Boolean},
    "date" := {Date},
    "bigint" := {BigInt},
    "fn" := {Function},
    "symbol" := {Symbol}
  ]

  /** Test keys that are raw-mode keys. */
  lemma TestRawKeys()
    ensures "date" in NonJsonStorageKey(TestSchema) && "bigint" in NonJsonStorageKey(TestSchema)
    ensures "null" in NonJsonStorageKey(TestSchema) && "string" in NonJsonStorageKey(TestSchema)
  {
    assert RawDomain(TestSchema["date"]) && RawDomain(TestSchema["bigint"]);
    assert RawDomain(TestSchema["null"]) && RawDomain(TestSchema["string"]);
  }

  /** Test keys that are not: an object, a function or a symbol in the type. */
  lemma TestNonRawKeys()
    ensures "obj" !in NonJsonStorageKey(TestSchema) && "fn" !in NonJsonStorageKey(TestSchema)
    ensures "symbol" !in NonJsonStorageKey(TestSchema)
  {
    assert !IsRawAtom(Object) && !IsRawAtom(Function) && !IsRawAtom(Symbol);
  }

  /** Test keys that are JSON-mode keys. */
  lemma TestJsonKeys()
    ensures forall k :: k in ["number", "numberOpt", "boolean", "obj"] ==> k in JsonStorageKey(TestSchema)
  {
    assert !IsNonJsonAtom(Number) && !IsNonJsonAtom(Boolean) && !IsNonJsonAtom(Object);
  }

  /** The undefined, null and optional-null test keys are not JSON-mode keys. */
  lemma TestNullishNotJson()
    ensures forall k :: k in ["undefined", "null", "nullOpt"] ==> k !in JsonStorageKey(TestSchema)
  {
  }

  /** Nor are the string keys, optional or nullable, nor the string-literal one. */
  lemma TestStringsNotJson()
    ensures forall k :: k in ["string", "stringOpt", "stringOrNull", "stringOrNullOpt", "stringLiteral"]
                        ==> k !in JsonStorageKey(TestSchema)
  {
  }

  /** Nor are the Date and bigint keys. */
  lemma TestDateBigIntNotJson()
    ensures "date" !in JsonStorageKey(TestSchema) && "bigint" !in JsonStorageKey(TestSchema)
  {
  }

  /** Which test keys are nullable. */
  lemma TestNullableKeys()
    ensures "stringOpt" in NullableKey(TestSchema) && "stringOrNull" in NullableKey(TestSchema)
    ensures "string" !in NullableKey(TestSchema)
  {
  }

  /** `getItem`'s announced types for the number, boolean and bigint keys. */
  lemma TestGetValues()
    ensures GetValue(TestSchema["number"]) == {NumericText}
    ensures GetValue(TestSchema["boolean"]) == {Exact("true"), Exact("false")}
    ensures GetValue(TestSchema["bigint"]) == {NumericText}
  {
    assert NumericText in GetAtom(Number);
    assert Exact("true") in GetAtom(Boolean) && Exact("false") in GetAtom(Boolean);
    assert NumericText in GetAtom(BigInt);
  }

  /** The tests' `getItem` after `setItem` on the number key. */
  lemma TestNumberRead()
    ensures ToText(JsNumber(2)) == Ok("2") && RawConforms(TestSchema["number"], Some("2"))
  {
    SingleRawRead(Number, JsNumber(2));
    assert TestSchema["number"] == {Number};
  }

  /** The same on the boolean key. */
  lemma TestBooleanRead()
    ensures ToText(JsBool(false)) == Ok("false") && RawConforms(TestSchema["boolean"], Some("false"))
  {
    SingleRawRead(Boolean, JsBool(false));
    assert TestSchema["boolean"] == {Boolean};
  }

  /** The same on the bigint key. */
  lemma TestBigIntRead()
    ensures ToText(JsBigInt(3)) == Ok("3") && RawConforms(TestSchema["bigint"], Some("3"))
  {
    SingleRawRead(BigInt, JsBigInt(3));
    assert TestSchema["bigint"] == {BigInt};
  }

  /** `RawWriteReadConforms` for a type with the one member `a`, which accepts its own values. */
  lemma SingleRawRead(a: Atom, v: JsValue)
    requires a in SetAtom(a) && InAtom(v, a)
    ensures ToText(v).Ok? && RawConforms({a}, Some(ToText(v).value))
  {
    assert a in SetValue({a});
    RawWriteReadConforms({a}, v);
  }
}
