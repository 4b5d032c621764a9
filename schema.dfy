/**
 * The type-level classifier of the typed layer. A key's declared type in
 * `StorageKeyValue` is a union, modelled as the finite set of its members
 * (atoms). The key predicates test the union as a whole; the value maps
 * distribute over its members.
 */
module Schema {
  import opened JsValues
  import opened Numbers
  import opened Coercion

  /** One member of a union type. An optional key has `Undefined` among its members. */
  datatype Atom =
    | Undefined
    | Null
    | String
    | StringLit(s: string)
    | Number
    | NumberLit(n: int)
    | BigInt
    | Boolean
    | BoolLit(b: bool)
    | Object
    | Date
    | Function
    | Symbol

  type Domain = set<Atom>

  /** `StorageKeyValue`: each key with its declared type. */
  type Schema = map<string, Domain>

  // ---------------------------------------------------------------------------
  // Key predicates (not distributive: `KV[K] extends X` tests the whole union)

  /**
   * A member of `NonJsonStorage`: undefined | null | string | number | bigint |
   * boolean | Date, or a literal of string, number or boolean.
   */
  predicate IsRawAtom(a: Atom)
  {
    a.Undefined? || a.Null? || a.String? || a.StringLit? || a.Number? || a.NumberLit?
    || a.BigInt? || a.Boolean? || a.BoolLit? || a.Date?
  }

  /** A member of Function | symbol | string | Date | bigint | undefined | null. */
  predicate IsNonJsonAtom(a: Atom)
  {
    a.Function? || a.Symbol? || a.String? || a.StringLit? || a.Date? || a.BigInt? || a.Undefined? || a.Null?
  }

  /** `NonJsonStorageKey`: every member of the type is a `NonJsonStorage` member. */
  predicate RawDomain(d: Domain)
  {
    forall a :: a in d ==> IsRawAtom(a)
  }

  /** `JsonStorageKey`: the type is not wholly made of non-JSON members. */
  predicate JsonDomain(d: Domain)
  {
    !(forall a :: a in d ==> IsNonJsonAtom(a))
  }

  /** `NullableKey`: undefined or null is a member. */
  predicate NullableDomain(d: Domain)
  {
    Undefined in d || Null in d
  }

  /** The keys that allow the raw `getItem`/`setItem` pair: `KV[K] extends NonJsonStorage`. */
  function NonJsonStorageKey(kv: Schema): (ks: set<string>)
    ensures forall k :: k in ks <==> k in kv && forall a :: a in kv[k] ==> IsRawAtom(a)
  {
    set k | k in kv && RawDomain(kv[k])
  }

  /** The keys that allow `getJsonItem`/`setJsonItem`: `KV[K]` does not extend the non-JSON union. */
  function JsonStorageKey(kv: Schema): (ks: set<string>)
    ensures forall k :: k in ks <==> k in kv && exists a :: a in kv[k] && !IsNonJsonAtom(a)
  {
    set k | k in kv && JsonDomain(kv[k])
  }

  /** The keys that `removeItem` accepts: `undefined extends KV[K]` or `null extends KV[K]`. */
  function NullableKey(kv: Schema): (ks: set<string>)
    ensures forall k :: k in ks <==> k in kv && (Undefined in kv[k] || Null in kv[k])
  {
    set k | k in kv && NullableDomain(kv[k])
  }

  // ---------------------------------------------------------------------------
  // Value maps (distributive over the members)

  /** What `getItem` is typed to return, member by member. */
  datatype RawOut =
    | NullOut       // null
    | AnyText       // string
    | NumericText   // `${number}`
    | Exact(text: string)

  /** `GetValue<T>` for one member. */
  function GetAtom(a: Atom): (r: set<RawOut>)
    ensures r == {} <==> a.Function? || a.Symbol?
    ensures NullOut in r <==> a.Null? || a.Undefined?
    ensures AnyText in r <==> a.String? || a.Object? || a.Date?
    ensures NumericText in r <==> a.Number? || a.BigInt?
    ensures forall o :: o in r && o.Exact? ==> a.StringLit? || a.NumberLit? || a.Boolean? || a.BoolLit?
    ensures a.StringLit? ==> r == {Exact(a.s)}
    ensures a.NumberLit? ==> r == {Exact(IntText(a.n))}
    ensures a.Boolean? ==> r == {Exact("true"), Exact("false")}
    ensures a.BoolLit? ==> r == {Exact(BoolText(a.b))}
  {
    match a
    case Null => {NullOut}
    case Undefined => {NullOut}
    case Function => {}
    case Symbol => {}
    case String => {AnyText}
    case StringLit(s) => {Exact(s)}
    case Number => {NumericText}
    case NumberLit(n) => {Exact(IntText(n))}
    case BigInt => {NumericText}
    case Boolean => {Exact("true"), Exact("false")}
    case BoolLit(b) => {Exact(BoolText(b))}
    case Object => {AnyText}
    case Date => {AnyText}
  }

  /** `GetValue<T>` distributes over the members of `T`. */
  function GetValue(d: Domain): (r: set<RawOut>)
  {
    set a, o | a in d && o in GetAtom(a) :: o
  }

  /** `SetValue<T>` for one member: what the typed `setItem` accepts for it. */
  function SetAtom(a: Atom): (r: set<Atom>)
    ensures r == {} <==> a.Undefined? || a.Null? || a.Function? || a.Symbol?
    ensures IsRawAtom(a) && !a.Undefined? && !a.Null? ==> r == {a}
    ensures a.Object? ==> r == {String}
  {
    match a
    case Undefined => {}
    case Null => {}
    case Function => {}
    case Symbol => {}
    case Date => {Date}
    case Object => {String}
    case _ => {a}
  }

  /** `SetValue<T>` distributes over the members of `T`. */
  function SetValue(d: Domain): (r: set<Atom>)
  {
    set a, b | a in d && b in SetAtom(a) :: b
  }

  /** `StorageJson<T>` for one member: undefined widens to undefined | null. */
  function JsonAtom(a: Atom): (r: set<Atom>)
    ensures r == {} <==> a.Function? || a.Symbol?
    ensures !(a.Function? || a.Symbol?) ==> a in r
    ensures forall b :: b in r ==> b == a || (a.Undefined? && b.Null?)
    ensures a.Undefined? ==> r == {Undefined, Null}
  {
    match a
    case Function => {}
    case Symbol => {}
    case Undefined => {Undefined, Null}
    case _ => {a}
  }

  /** `StorageJson<T>` distributes over the members of `T`. */
  function StorageJson(d: Domain): (r: set<Atom>)
  {
    set a, b | a in d && b in JsonAtom(a) :: b
  }

  // ---------------------------------------------------------------------------
  // Runtime values and types

  /** The runtime value `v` inhabits the member `a`. */
  predicate InAtom(v: JsValue, a: Atom)
  {
    match a
    case Undefined => v.JsUndefined?
    case Null => v.JsNull?
    case String => v.JsString?
    case StringLit(s) => v == JsString(s)
    case Number => v.JsNumber?
    case NumberLit(n) => v == JsNumber(n)
    case BigInt => v.JsBigInt?
    case Boolean => v.JsBool?
    case BoolLit(b) => v == JsBool(b)
    case Object => v.JsObject? || v.JsArray?
    case Date => v.JsDate?
    case Function => v.JsFunction?
    case Symbol => v.JsSymbol?
  }

  predicate InType(v: JsValue, d: set<Atom>)
  {
    exists a :: a in d && InAtom(v, a)
  }

  /** What `getItem` returned (`None` for null) fits the member type `o`. */
  predicate Admits(o: RawOut, r: Option<string>)
  {
    match o
    case NullOut => r.None?
    case AnyText => r.Some?
    case NumericText => r.Some? && IsNumericText(r.value)
    case Exact(s) => r == Some(s)
  }

  /** What `getItem` returned fits `GetValue` of the key's type. */
  predicate RawConforms(d: Domain, r: Option<string>)
  {
    exists o :: o in GetValue(d) && Admits(o, r)
  }

  // ---------------------------------------------------------------------------
  // The key predicates against assignability

  /** `NonJsonStorage` (index.ts:5). */
  const NonJsonStorage: Domain := {Undefined, Null, String, Number, BigInt, Boolean, Date}

  /** The union `JsonStorageKey` excludes: Function | symbol | string | Date | bigint | undefined | null. */
  const NonJsonUnion: Domain := {Function, Symbol, String, Date, BigInt, Undefined, Null}

  /** `d extends u`: every value of the type `d` is a value of the type `u`. */
  ghost predicate Extends(d: Domain, u: Domain)
  {
    forall v :: InType(v, d) ==> InType(v, u)
  }

  /** A member lies in `NonJsonStorage` exactly when all its values do. */
  lemma RawAtomExtends(a: Atom)
    ensures IsRawAtom(a) <==> forall v :: InAtom(v, a) ==> InType(v, NonJsonStorage)
  {
    if IsRawAtom(a) {
      forall v | InAtom(v, a)
        ensures InType(v, NonJsonStorage)
      {
        var b := match a
          case StringLit(_) => String
          case NumberLit(_) => Number
          case BoolLit(_) => Boolean
          case _ => a;
        assert b in NonJsonStorage && InAtom(v, b);
      }
    } else {
      var v := match a
        case Object => JsObject([])
        case Function => JsFunction("")
        case _ => JsSymbol("");
      assert InAtom(v, a);
      assert !InType(v, NonJsonStorage);
    }
  }

  /** A member lies in the non-JSON union exactly when all its values do. */
  lemma NonJsonAtomExtends(a: Atom)
    ensures IsNonJsonAtom(a) <==> forall v :: InAtom(v, a) ==> InType(v, NonJsonUnion)
  {
    if IsNonJsonAtom(a) {
      forall v | InAtom(v, a)
        ensures InType(v, NonJsonUnion)
      {
        var b := if a.StringLit? then String else a;
        assert b in NonJsonUnion && InAtom(v, b);
      }
    } else {
      var v := match a
        case NumberLit(n) => JsNumber(n)
        case Number => JsNumber(0)
        case BoolLit(b) => JsBool(b)
        case Boolean => JsBool(true)
        case _ => JsObject([]);
      assert InAtom(v, a);
      assert !InType(v, NonJsonUnion);
    }
  }

  /** `RawDomain` is `extends NonJsonStorage` on the whole union. */
  lemma RawDomainExtends(d: Domain)
    ensures RawDomain(d) <==> Extends(d, NonJsonStorage)
  {
    if RawDomain(d) {
      forall v | InType(v, d)
        ensures InType(v, NonJsonStorage)
      {
        var a :| a in d && InAtom(v, a);
        RawAtomExtends(a);
      }
    } else {
      var a :| a in d && !IsRawAtom(a);
      RawAtomExtends(a);
      var v :| InAtom(v, a) && !InType(v, NonJsonStorage);
      assert InType(v, d);
    }
  }

  /** `JsonDomain` is "does not extend the non-JSON union" on the whole union. */
  lemma JsonDomainExtends(d: Domain)
    ensures JsonDomain(d) <==> !Extends(d, NonJsonUnion)
  {
    if JsonDomain(d) {
      var a :| a in d && !IsNonJsonAtom(a);
      NonJsonAtomExtends(a);
      var v :| InAtom(v, a) && !InType(v, NonJsonUnion);
      assert InType(v, d);
    } else {
      forall v | InType(v, d)
        ensures InType(v, NonJsonUnion)
      {
        var a :| a in d && InAtom(v, a);
        NonJsonAtomExtends(a);
      }
    }
  }

  /** `NullableDomain` is `undefined extends T` or `null extends T`. */
  lemma NullableInhabits(d: Domain)
    ensures NullableDomain(d) <==> InType(JsUndefined, d) || InType(JsNull, d)
  {
    if InType(JsUndefined, d) {
      var a :| a in d && InAtom(JsUndefined, a);
      assert a == Undefined;
    }
    if InType(JsNull, d) {
      var a :| a in d && InAtom(JsNull, a);
      assert a == Null;
    }
    if Undefined in d {
      assert InAtom(JsUndefined, Undefined);
    }
    if Null in d {
      assert InAtom(JsNull, Null);
    }
  }

  /** A key is a raw-mode key exactly when its type extends `NonJsonStorage` (index.ts:8). */
  lemma RawKeyIffExtends(kv: Schema, k: string)
    ensures k in kv ==> (k in NonJsonStorageKey(kv) <==> Extends(kv[k], NonJsonStorage))
  {
    if k in kv {
      RawDomainExtends(kv[k]);
    }
  }

  /** A key is a JSON-mode key exactly when its type does not extend the non-JSON union (index.ts:13). */
  lemma JsonKeyIffNotExtends(kv: Schema, k: string)
    ensures k in kv ==> (k in JsonStorageKey(kv) <==> !Extends(kv[k], NonJsonUnion))
  {
    if k in kv {
      JsonDomainExtends(kv[k]);
    }
  }

  /**
   * A key is removable exactly when undefined or null is a value of its type
   * (index.ts:20-21), which is exactly when `getItem` is typed to return null.
   */
  lemma NullableKeyIffInhabited(kv: Schema, k: string)
    ensures k in kv ==> (k in NullableKey(kv) <==> InType(JsUndefined, kv[k]) || InType(JsNull, kv[k]))
    ensures k in kv ==> (k in NullableKey(kv) <==> NullOut in GetValue(kv[k]))
  {
    if k in kv {
      NullableInhabits(kv[k]);
      NullOutIffNullable(kv[k]);
    }
  }

  // ---------------------------------------------------------------------------
  // Properties of the classifier

  /** Undefined and null, and nothing else, make `getItem` typed to return null. */
  lemma NullOutIffNullable(d: Domain)
    ensures NullOut in GetValue(d) <==> NullableDomain(d)
  {
    if NullOut in GetValue(d) {
      var a :| a in d && NullOut in GetAtom(a);
      assert a == Null || a == Undefined;
    }
    if Undefined in d {
      assert NullOut in GetAtom(Undefined);
    }
    if Null in d {
      assert NullOut in GetAtom(Null);
    }
  }

  /** `GetValue` is never for a type made only of functions and symbols. */
  lemma GetValueEmptyIff(d: Domain)
    ensures GetValue(d) == {} <==> forall a :: a in d ==> a.Function? || a.Symbol?
  {
    if exists a :: a in d && !(a.Function? || a.Symbol?) {
      var a :| a in d && !(a.Function? || a.Symbol?);
      var o :| o in GetAtom(a);
      assert o in GetValue(d);
    }
  }

  /**
   * The typed `setItem` never accepts undefined, null, a function, a symbol or
   * an object: it accepts exactly the raw members other than undefined and
   * null, and a string when an object is a member.
   */
  lemma SetValueShape(d: Domain)
    ensures forall b :: b in SetValue(d) ==> !(b.Undefined? || b.Null? || b.Function? || b.Symbol? || b.Object?)
    ensures SetValue(d) == (set a | a in d && IsRawAtom(a) && !a.Undefined? && !a.Null?)
                           + (if Object in d then {String} else {})
  {
    var want := (set a | a in d && IsRawAtom(a) && !a.Undefined? && !a.Null?) + (if Object in d then {String} else {});
    forall b | b in SetValue(d)
      ensures b in want
    {
      var a :| a in d && b in SetAtom(a);
    }
    forall b | b in want
      ensures b in SetValue(d)
    {
      if b in d && IsRawAtom(b) && !b.Undefined? && !b.Null? {
        assert b in SetAtom(b);
      } else {
        assert b in SetAtom(Object);
      }
    }
  }

  /** An object member accepts only a string. */
  lemma ObjectTakesString()
    ensures SetValue({Object}) == {String}
  {
    SetValueShape({Object});
    assert (set a | a in {Object} && IsRawAtom(a) && !a.Undefined? && !a.Null?) == {};
  }

  /** `StorageJson<T>` is T without functions and symbols, with null added exactly when undefined is a member. */
  lemma StorageJsonShape(d: Domain)
    ensures StorageJson(d) == (d - {Function, Symbol}) + (if Undefined in d then {Null} else {})
  {
    var want := (d - {Function, Symbol}) + (if Undefined in d then {Null} else {});
    forall b | b in StorageJson(d)
      ensures b in want
    {
      var a :| a in d && b in JsonAtom(a);
    }
    forall b | b in want
      ensures b in StorageJson(d)
    {
      if b in d - {Function, Symbol} {
        assert b in JsonAtom(b);
      } else {
        assert b in JsonAtom(Undefined);
      }
    }
  }

  /** A key allows both modes exactly when its type is raw and has a number or boolean member. */
  lemma BothModes(d: Domain)
    ensures RawDomain(d) && JsonDomain(d)
            <==> RawDomain(d) && exists a :: a in d && (a.Number? || a.NumberLit? || a.Boolean? || a.BoolLit?)
  {
  }

  /** A key allows neither mode exactly when its type is non-JSON throughout and has a function or symbol member. */
  lemma NeitherMode(d: Domain)
    ensures !RawDomain(d) && !JsonDomain(d)
            <==> (forall a :: a in d ==> IsNonJsonAtom(a)) && (Function in d || (exists a :: a in d && a.Symbol?))
  {
    if Function in d {
      assert !IsRawAtom(Function);
    }
    if exists a :: a in d && a.Symbol? {
      var a :| a in d && a.Symbol?;
      assert !IsRawAtom(a);
    }
  }

  /** A single-member type allows at least one mode unless it is a function or a symbol. */
  lemma SingleMemberHasMode(a: Atom)
    ensures RawDomain({a}) || JsonDomain({a}) <==> !(a.Function? || a.Symbol?)
  {
    if !(a.Function? || a.Symbol?) && !IsRawAtom(a) {
      assert a == Object && !IsNonJsonAtom(a);
    }
  }
}
