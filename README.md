# LocalStorageType in Dafny

LocalStorageType is a thin typed layer over the browser's `localStorage`: a flat
store from string keys to string values. An application declares, in the
interface `StorageKeyValue`, the type each key holds. The library then derives:

- which keys may use the raw `getItem`/`setItem` pair (`NonJsonStorageKey`);
- which keys may use the JSON pair `getJsonItem`/`setJsonItem` (`JsonStorageKey`);
- which keys may be removed (`NullableKey`);
- the types each accessor reads and writes (`GetValue`, `SetValue`, `StorageJson`).

At run time it adds only `getJsonItem` and `setJsonItem`. The repository's tests run
against an in-memory `Storage` class that stands in for the browser store.

This project models these three parts and proves what they promise:

| file | module | what it models |
|---|---|---|
| `js_values.dfy` | `JsValues` | JavaScript runtime values (undefined, null, booleans, integer numbers, bigints, strings, arrays, plain objects, Dates, functions, symbols) and the errors the layer can raise |
| `numbers.dfy` | `Numbers` | decimal text of integers and the `${number}` template type |
| `coercion.dfy` | `Coercion` | the `value + ''` coercion the store applies to every value |
| `json_text.dfy` | `JsonText` | JSON texts (RFC 8259): a compact writer and a reader, with the round trip proved |
| `json_api.dfy` | `JsonApi` | `JSON.stringify` and `JSON.parse` over JavaScript values, after ECMA-262 |
| `storage.dfy` | `LocalStorageMock` | the test `Storage` class: a mutable map and its key order |
| `json_storage.dfy` | `JsonStorage` | `getJsonItem` and `setJsonItem` |
| `schema.dfy` | `Schema` | the type-level classifier: key predicates and value maps over union types |
| `typed_storage.dfy` | `TypedStorage` | what the types promise against what the store does, and the test schema |

A declared type is a union. The model represents it as the set of its members
(`Schema.Atom`); an optional key has `Undefined` among them. The three key
predicates test the whole union, so they are "every member lies in X". The three
value maps distribute over the members, so they are unions of per-member images.

In these points the model follows the code where one might expect otherwise:

- Object-typed keys are not raw-mode keys. `NonJsonStorage` (index.ts:5) has no
  object member, so `obj` fails `NonJsonStorageKey` and is JSON-only.
- `getJsonItem` cannot tell a missing key from a stored `null`. Both read as `null`
  (`JsonStorage.AbsentAndNullAgree`). Only `undefined` is distinguished, through
  the stored text "undefined".
- `JSON.stringify` of a function or a symbol does not throw. It returns
  `undefined`, which the store's coercion writes as "undefined". Only a bigint
  throws, with a TypeError (`JsonStorage.SkippedReadsUndefined`, `JsonStorage.BigIntThrows`).
- The JSON codec is written out, not assumed. Its round trip
  (`JsonText.DecodeEncode`) and the fact that no JSON text is "undefined"
  (`JsonText.Encode`) are proved.

`getJsonItem` and `setJsonItem` use the global `localStorage`. Here they take the
store as a parameter (`ls`).

## Model

| member | source | states |
|---|---|---|
| `Schema.RawKeyIffExtends` | index.ts:5-9 | a key is in `NonJsonStorageKey` exactly when its declared type extends `NonJsonStorage`, i.e. every value of the type is undefined, null, a string, a number, a bigint, a boolean or a Date |
| `Schema.RawDomainExtends` | index.ts:5-9 | the member-wise test `RawDomain` agrees with `extends NonJsonStorage` on the whole union |
| `Schema.RawAtomExtends` | index.ts:5 | a member is one of the `NonJsonStorage` members or a literal of one exactly when all its values lie in `NonJsonStorage` |
| `Schema.JsonKeyIffNotExtends` | index.ts:11-15 | a key is in `JsonStorageKey` exactly when its declared type does not extend Function, symbol, string, Date, bigint, undefined or null |
| `Schema.JsonDomainExtends` | index.ts:11-15 | the member-wise test `JsonDomain` agrees with "does not extend the non-JSON union" on the whole union |
| `Schema.NonJsonAtomExtends` | index.ts:13 | a member belongs to the non-JSON union, or is a string literal, exactly when all its values lie in that union |
| `Schema.NullableKeyIffInhabited` | index.ts:18-23 | a key is in `NullableKey` exactly when undefined or null is a value of its declared type, and exactly when `GetValue` of the type contains null |
| `Schema.NullableInhabits` | index.ts:20-21 | `undefined extends T` or `null extends T` holds exactly when `Undefined` or `Null` is a member |
| `Schema.GetAtom` | index.ts:26-36 | `GetValue` of one member: never for a function or symbol; null exactly for null and undefined; any string exactly for string, object and Date; `${number}` exactly for number and bigint; exactly the literal's own text for a string, number or boolean literal, and exactly "true" or "false" for boolean |
| `Schema.JsonAtom` | index.ts:40-43 | `StorageJson` of one member: never for a function or symbol; exactly `undefined` or `null` for undefined; otherwise only the member itself |
| `Schema.SetAtom` | index.ts:47-54 | `SetValue` of one member: never exactly for undefined, null, functions and symbols; a string for an object; the member itself for every other raw member |
| `Schema.NullOutIffNullable` | index.ts:18-28 | `GetValue` contains `null` exactly when the key is nullable, i.e. `undefined` or `null` is a member |
| `Schema.GetValueEmptyIff` | index.ts:26-36 | `GetValue` is `never` exactly when every member is a function or a symbol |
| `Schema.SetValueShape` | index.ts:47-54 | `SetValue` never admits undefined, null, functions, symbols or objects, and is exactly the raw members other than undefined and null, plus `string` when `object` is a member |
| `Schema.ObjectTakesString` | index.ts:52 | `SetValue<object>` is `string` |
| `Schema.StorageJsonShape` | index.ts:40-43 | `StorageJson<T>` is `T` without functions and symbols, plus `null` exactly when `undefined` is a member |
| `Schema.BothModes` | index.ts:7-15 | a key allows both raw and JSON access exactly when it is raw and has a number or boolean member |
| `Schema.NeitherMode` | index.ts:7-15 | a key allows neither mode exactly when all its members are non-JSON and one is a function or a symbol |
| `Schema.SingleMemberHasMode` | index.ts:7-15 | a type with one member allows some mode unless that member is a function or a symbol |
| `TypedStorage.RawWriteReadConforms` | index.ts:26-55 | every value the typed `setItem` accepts can be coerced, and the text `getItem` then returns fits `GetValue` of the key's type |
| `TypedStorage.AtomWriteRead` | index.ts:26-54 | the same for one member of the type, naming the `GetValue` member that admits the text |
| `TypedStorage.AbsentConformsIffNullable` | index.ts:18-37 | the `null` of a missing key fits `GetValue` exactly when the key is nullable |
| `TypedStorage.JsonTypedRoundTrip` | index.ts:40-98 | a `StorageJson` value that is not a Date or bigint, and is JSON-safe when it is an array or object, reads back unchanged through setJsonItem/getJsonItem |
| `TypedStorage.AbsentJsonConformsIffNullable` | index.ts:40-71 | the `null` getJsonItem returns for a missing key fits `StorageJson` exactly when the key is nullable |
| `TypedStorage.DateJsonKeyBreaksRoundTrip` | index.ts:11-15 | `Date` or `number` is a JSON key, yet a Date written to it reads back as its ISO string, which the type does not admit |
| `TypedStorage.BigIntJsonKeyThrows` | index.ts:11-15 | `bigint` or `number` is a JSON key, yet setJsonItem throws a TypeError on its bigint values |
| `TypedStorage.UndefinedBreaksRawRead` | index.ts:26-37 | `number` or `undefined` allows both modes; after setJsonItem(undefined), getItem returns "undefined", which its `GetValue` does not admit |
| `TypedStorage.NumberOptReads` | index.ts:26-37 | `GetValue` of `number` or `undefined` is a numeric text or null |
| `TypedStorage.TestRawKeys` | __test__/index.test.ts:5-41 | `date`, `bigint`, `null` and `string` are raw-mode keys |
| `TypedStorage.TestNonRawKeys` | __test__/index.test.ts:5-41 | `obj`, `fn` and `symbol` are not raw-mode keys |
| `TypedStorage.TestJsonKeys` | __test__/index.test.ts:5-41 | `number`, `numberOpt`, `boolean` and `obj` are JSON-mode keys |
| `TypedStorage.TestNullishNotJson` | __test__/index.test.ts:91-220 | `undefined`, `null` and `nullOpt` are not JSON-mode keys, so getJsonItem and setJsonItem on them are type errors |
| `TypedStorage.TestStringsNotJson` | __test__/index.test.ts:224-373 | `string`, `stringOpt`, `stringOrNull`, `stringOrNullOpt` and `stringLiteral` are not JSON-mode keys (the tests reject the JSON pair on the first four; `stringLiteral` follows from its type) |
| `TypedStorage.TestDateBigIntNotJson` | __test__/index.test.ts:763-805 | `date` and `bigint` are not JSON-mode keys |
| `TypedStorage.TestNullableKeys` | __test__/index.test.ts:79-88 | `stringOpt` and `stringOrNull` are nullable keys and `string` is not |
| `TypedStorage.TestGetValues` | index.ts:31-34 | `getItem` is typed `${number}` for `number` and `bigint`, and "true" or "false" for `boolean` |
| `TypedStorage.TestNumberRead` | index.ts:31-34 | setItem of a number, then getItem, gives its decimal text, which fits the type |
| `TypedStorage.TestBooleanRead` | index.ts:31-34 | setItem(false), then getItem, gives "false", which fits the type |
| `TypedStorage.TestBigIntRead` | __test__/index.test.ts:789-793 | setItem(3n), then getItem, gives "3", which fits `${number}` |
| `TypedStorage.SingleRawRead` | index.ts:26-55 | for a type with one raw member, the text read back after setItem fits `GetValue` |
| `JsonStorage.GetJsonItem` | index.ts:69-90 | a missing key gives null; the stored text "undefined" gives undefined without parsing; any other text gives what JSON.parse returns or throws |
| `JsonStorage.SetJsonItem` | index.ts:92-98 | a bigint anywhere in the value throws a TypeError and leaves the store unchanged; otherwise the key holds JSON.stringify's text, or "undefined", and is appended to the key order when new |
| `JsonStorage.WriteThenRead` | index.ts:69-98 | setJsonItem then getJsonItem on the same key returns the value written, for undefined and every JSON-safe value |
| `JsonStorage.WrittenText` | index.ts:92-98 | the text setJsonItem stores exists exactly when the value holds no bigint; otherwise the error is a TypeError |
| `JsonStorage.JsonRoundTrip` | index.ts:69-98 | the text written for undefined or a JSON-safe value reads back as that value |
| `JsonStorage.SentinelTexts` | index.ts:92-97 | undefined is stored as "undefined" and null as "null" |
| `JsonStorage.AbsentAndNullAgree` | index.ts:69-90 | a missing key and a stored null both read as null, and a stored undefined reads as undefined |
| `JsonStorage.RawStringIsNotJson` | index.ts:88-89 | a word stored in raw mode that starts with a letter other than n, t or f makes getJsonItem throw a SyntaxError |
| `JsonStorage.StrIsSyntaxError` | __test__/index.test.ts:234-242 | "str" stored in raw mode makes getJsonItem throw a SyntaxError |
| `JsonStorage.UndefinedIsNotJson` | index.ts:73-89 | JSON.parse("undefined") throws a SyntaxError |
| `JsonStorage.ReadJson` | index.ts:69-90 | a missing key reads as null; the result is undefined exactly when the stored text is "undefined"; any other result is JSON-safe; it throws exactly when the stored text is not a JSON text |
| `JsonStorage.SkippedReadsUndefined` | index.ts:92-98 | undefined, a function or a symbol is stored as "undefined" and reads back as undefined |
| `JsonStorage.BigIntThrows` | __test__/index.test.ts:795-803 | setJsonItem of a bigint, alone or inside an array, throws a TypeError |
| `JsonStorage.DateReadsAsString` | __test__/index.test.ts:32-33 | a Date written by setJsonItem reads back as the string of its ISO form |
| `JsonStorage.SkippedElementReadsNull` | index.ts:92-98 | an array element that JSON.stringify skips (undefined, a function, a symbol) is written as null, so `[undefined]` reads back as `[null]` |
| `JsonStorage.SkippedPropertyDropped` | index.ts:92-98 | an object property that JSON.stringify skips is dropped, so it reads back as an empty object |
| `JsonStorage.RawPrimitiveReadsAsJson` | __test__/index.test.ts:408-412 | a number or boolean stored by raw setItem reads back as that value through getJsonItem |
| `JsonApi.ToJson` | index.ts:97 | serializing fails exactly when a bigint is reached, with a TypeError; it yields nothing exactly for undefined, functions and symbols |
| `JsonApi.ItemsToJson` | index.ts:97 | array elements serialize one for one, each to its own serialization or to null when JSON.stringify skips it, failing exactly when one holds a bigint |
| `JsonApi.PropsToJson` | index.ts:97 | object properties serialize, failing with a TypeError exactly when one holds a bigint |
| `JsonApi.PropsToJsonKept` | index.ts:97 | when object properties serialize, the members written are exactly the properties JSON.stringify does not skip (`Kept`), in order, each under its own name with its serialized value |
| `JsonApi.Kept` | index.ts:97 | the properties kept are properties of the object whose values are not skipped |
| `JsonApi.Stringify` | index.ts:97 | JSON.stringify throws exactly on a bigint, returns undefined exactly for undefined, functions and symbols, and never returns the text "undefined" |
| `JsonApi.Lookup` | index.ts:89 | a property lookup finds a value exactly when the key is present |
| `JsonApi.Put` | index.ts:89 | a repeated member key in parsed JSON takes the later value and leaves other keys alone |
| `JsonApi.Assemble` | index.ts:89 | folding the members of a parsed object in keeps property names distinct |
| `JsonApi.FromJson` | index.ts:89 | JSON.parse never builds undefined, a bigint, a Date, a function or a symbol; it builds an object exactly for a JSON object and an array exactly for a JSON array |
| `JsonApi.Parse` | index.ts:89 | JSON.parse throws exactly when the text is not a JSON text, with the reader's error, and otherwise returns a JSON-safe value |
| `JsonApi.PutKeys` | index.ts:89 | a repeated key keeps its first position; a new key is appended |
| `JsonApi.AssembleDistinct` | index.ts:89 | when no member name repeats, JSON.parse keeps an object's members in order |
| `JsonApi.FromJsonSafe` | index.ts:89 | everything JSON.parse returns is JSON-safe |
| `JsonApi.SafeToJson` | index.ts:97 | a JSON-safe value always serializes, and reading the result back gives the value |
| `JsonApi.ParseStringify` | index.ts:89-97 | JSON.parse(JSON.stringify(v)) is v for every JSON-safe v |
| `JsonApi.ParseIsSafe` | index.ts:89-97 | what JSON.parse returns is JSON-safe and survives another stringify and parse |
| `JsonText.DecodeEncode` | index.ts:89-97 | reading the text the writer produces gives back the JSON value |
| `JsonText.ParseValueEncode` | index.ts:89-97 | reading a value's text followed by a delimiter gives the value and leaves the delimiter |
| `JsonText.ParseStringEscape` | index.ts:89-97 | reading an escaped string gives back the string |
| `JsonText.ParseNumberEncode` | index.ts:89-97 | reading an integer's decimal text gives back the integer |
| `JsonText.Encode` | index.ts:88-97 | a JSON text is never empty, starts with a character that can begin a value, and is never the sentinel "undefined" |
| `JsonText.Decode` | index.ts:89 | an empty or all-whitespace text is a syntax error |
| `JsonText.PlainWordIsSyntaxError` | index.ts:89 | text that starts with a letter other than n, t or f is a syntax error |
| `Numbers.NatTextValue` | index.ts:33 | the digits of a natural number's text have that value |
| `Numbers.DigitsValueText` | index.ts:33 | a digit run without a leading zero is the text of its value |
| `Numbers.IntTextIsNumeric` | index.ts:33 | the text of every integer is a `${number}` |
| `Coercion.ToText` | __test__/localStorageMock.ts:40 | `value + ''` throws, with a TypeError, exactly for a symbol, alone or as an element of an array at any depth, and leaves a string unchanged |
| `Coercion.JoinText` | __test__/localStorageMock.ts:40 | an array's `+ ''` throws a TypeError exactly when an element holds a symbol, has at least one comma fewer than elements in length, and is only commas when every element is undefined, null or empty |
| `Coercion.JoinSingle` | __test__/localStorageMock.ts:40 | a one-element array renders as its element's text, empty for undefined and null |
| `Coercion.JoinAppend` | __test__/localStorageMock.ts:40 | joining one more element appends a comma and that element's text, so an array renders as its element texts separated by commas |
| `Coercion.ElementText` | __test__/localStorageMock.ts:40 | an element's text in a join is empty for undefined and null, and fails exactly when the element holds a symbol |
| `LocalStorageMock.Without` | __test__/localStorageMock.ts:29-31 | deleting a key from the key order removes exactly that key, keeps distinctness and shortens the order by one when the key was present |
| `LocalStorageMock.DistinctCard` | __test__/localStorageMock.ts:5 | a key list without repetitions has as many entries as keys |
| `LocalStorageMock.KeyAdded` | __test__/localStorageMock.ts:39-41 | storing a key keeps the key list free of repetitions and in step with the map, growing by one exactly when the key is new |
| `LocalStorageMock.Storage.constructor` | __test__/localStorageMock.ts:1-2 | a new store is empty |
| `LocalStorageMock.Storage.Length` | __test__/localStorageMock.ts:5 | `length` is the number of stored pairs |
| `LocalStorageMock.Storage.GetItem` | __test__/localStorageMock.ts:16-19 | getItem is the stored string for a present key and null for an absent one |
| `LocalStorageMock.Storage.Key` | __test__/localStorageMock.ts:21-23 | key(i) is a stored key, the i-th in order, for 0 <= i < length, and null otherwise |
| `LocalStorageMock.Storage.SetItem` | __test__/localStorageMock.ts:39-41 | setItem stores `value + ''`, overwriting any earlier value; `length` grows by one exactly for a new key; other keys are unchanged; a symbol throws a TypeError and changes nothing |
| `LocalStorageMock.Storage.Store` | __test__/localStorageMock.ts:40 | the assignment `this[key] = ...` overwrites any earlier value, appends a new key to the key order and leaves other keys unchanged |
| `LocalStorageMock.Storage.RemoveItem` | __test__/localStorageMock.ts:29-31 | removeItem deletes only that key, is a no-op when the key is absent, and getItem then returns null |
| `LocalStorageMock.Storage.Clear` | __test__/localStorageMock.ts:11-13 | after clear, `length` is 0 and every getItem returns null |

## Left out

- Non-integral numbers and NaN are not modelled. `JsNumber` holds an integer, and JSON.parse of a number with a non-integral value gives the `OutsideModel` error. The tests' `2.2` is therefore replaced by integers.
- `JsNumber` is an unbounded integer. It agrees with JavaScript's IEEE-754 doubles only for safe integers, |n| <= 2^53. Beyond that the model differs: JSON.parse rounds a long digit string to the nearest double while the model keeps it exact; `+ ''` and JSON.stringify write magnitudes from 10^21 up in exponent form ("1e+21") while the model writes every digit; and a number text whose value overflows a double (such as `1e400`) is Infinity in JavaScript, which JSON.stringify writes as `null`, while the model reads it as a huge integer. Infinity itself is not a value of the model.
- Surrogate escapes are not modelled. Strings are sequences of Unicode scalar values, and every `\u` escape that names a surrogate gives `OutsideModel`. That covers lone surrogates, which the model cannot represent, and also valid escaped pairs such as `"\ud83d\ude00"`: JSON.parse decodes such a pair to one astral character, which the model could represent but does not decode.
- A Date is not derived from a time value. `JsDate(text, iso)` carries its two renderings as independent given strings: `text`, the `toString` form, which depends on the host's locale and time zone, and `iso`, the `toISOString` form, which is always UTC in the form YYYY-MM-DDTHH:mm:ss.sssZ. The model does not require `iso` to have that form or the two strings to name the same instant. An invalid Date, whose `toJSON` gives null, is not modelled.
- Plain objects are taken to carry no callable `toJSON`, `toString`, `valueOf` or `Symbol.toPrimitive` property. JSON.stringify would serialize an object with a callable `toJSON` through it, and `+ ''` would use such methods; the model instead skips a function-valued property when writing JSON and renders every plain object as "[object Object]". Cyclic values, on which JSON.stringify throws a TypeError, cannot be represented.
- Property order of plain objects is taken as given. `Object.keys` lists integer-like keys first; the store's key order is insertion order only.
- Keys that name members of the store's prototype chain (such as "getItem" or "__proto__") behave as ordinary keys in the model. The mock's index signature lets them collide with its methods.
- `LocalStorageMock.Storage.Key`: the index is an integer. Non-integral and non-numeric indices are not modelled.
- The built-in DOM overloads that the global `Storage` declaration merges with (index.ts:58-66) are not modelled. They are why `obj` still accepts a plain string in `setItem` at run time. Only the typed overloads are.
- The brand types `string & {}` and `number & {}` are not modelled. A type such as `"a" | (string & {})` is the union of its literal and `string`. The `-?` and optional-property mechanics are reduced to "`Undefined` is a member".
- The `${number}` template type is approximated by `Numbers.IsNumericText`: an optional minus sign, digits and an optional fraction.
- Installing the mock as the global `localStorage` (__test__/localStorageMock.ts:45-46) is not modelled. The facade takes the store as a parameter instead.
- Storage events, quota errors and persistence are host behaviour and are not modelled.
- The test helpers `expectType` and `expectObjType` are compile-time checks and are not modelled.
