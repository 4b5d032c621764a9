/**
 * `JSON.stringify` and `JSON.parse` over JavaScript values (ECMA-262,
 * SerializeJSONProperty and InternalizeJSONProperty without replacer, reviver
 * or indentation), on top of the JSON texts of `JsonText`. Plain objects are
 * taken to carry no callable `toJSON` property, so none is called.
 */
module JsonApi {
  import opened JsValues
  import opened JsonText

  // ---------------------------------------------------------------------------
  // JSON.stringify

  /** True when JSON.stringify has no text for `v` and skips it. */
  predicate Unserializable(v: JsValue)
  {
    v.JsUndefined? || v.JsFunction? || v.JsSymbol?
  }

  /** True when a BigInt is reached while serializing `v`. */
  predicate HasBigInt(v: JsValue)
  {
    match v
    case JsBigInt(_) => true
    case JsArray(items) => exists i :: 0 <= i < |items| && HasBigInt(items[i])
    case JsObject(props) => exists i :: 0 <= i < |props| && HasBigInt(props[i].value)
    case _ => false
  }

  /**
   * SerializeJSONProperty: the JSON value `v` is written as; `None` when
   * JSON.stringify skips it (undefined, functions, symbols); a TypeError for a
   * BigInt anywhere inside. A Date is written through its `toJSON`, which is
   * its `toISOString`. Inside an array a skipped element becomes `null`; inside
   * an object a skipped property is left out.
   */
  function ToJson(v: JsValue): (r: Result<Option<JsonValue>>)
    ensures r.Err? <==> HasBigInt(v)
    ensures r.Err? ==> r.error == TypeError
    ensures r == Ok(None) <==> Unserializable(v)
  {
    match v
    case JsUndefined => Ok(None)
    case JsNull => Ok(Some(JNull))
    case JsBool(b) => Ok(Some(JBool(b)))
    case JsNumber(n) => Ok(Some(JNumber(n)))
    case JsBigInt(_) => Err(TypeError)
    case JsString(s) => Ok(Some(JString(s)))
    case JsArray(items) =>
      (match ItemsToJson(items)
       case Err(e) => Err(e)
       case Ok(js) => Ok(Some(JArray(js))))
    case JsObject(props) =>
      (match PropsToJson(props)
       case Err(e) => Err(e)
       case Ok(ms) => Ok(Some(JObject(ms))))
    case JsDate(_, iso) => Ok(Some(JString(iso)))
    case JsFunction(_) => Ok(None)
    case JsSymbol(_) => Ok(None)
  }

  function ItemsToJson(items: seq<JsValue>): (r: Result<seq<JsonValue>>)
    ensures r.Err? <==> exists i :: 0 <= i < |items| && HasBigInt(items[i])
    ensures r.Err? ==> r.error == TypeError
    ensures r.Ok? ==> |r.value| == |items|
    ensures r.Ok? ==> forall i :: 0 <= i < |items| ==>
                        ToJson(items[i]) == Ok(Some(r.value[i])) || (ToJson(items[i]) == Ok(None) && r.value[i] == JNull)
  {
    if items == [] then Ok([])
    else
      match ToJson(items[0])
      case Err(e) => Err(e)
      case Ok(head) =>
        match ItemsToJson(items[1..])
        case Err(e) => Err(e)
        case Ok(tail) =>
          assert forall i :: 1 <= i < |items| ==> items[1..][i - 1] == items[i];
          Ok([if head.Some? then head.value else JNull] + tail)
  }

  function PropsToJson(props: seq<Prop>): (r: Result<seq<JMember>>)
    ensures r.Err? <==> exists i :: 0 <= i < |props| && HasBigInt(props[i].value)
    ensures r.Err? ==> r.error == TypeError
  {
    if props == [] then Ok([])
    else
      match ToJson(props[0].value)
      case Err(e) => Err(e)
      case Ok(head) =>
        match PropsToJson(props[1..])
        case Err(e) => Err(e)
        case Ok(tail) =>
          assert forall i :: 1 <= i < |props| ==> props[1..][i - 1] == props[i];
          Ok((if head.Some? then [JMember(props[0].key, head.value)] else []) + tail)
  }

  /**
   * The members JSON.stringify writes for an object are its kept properties, in
   * order, each under its own name with its serialized value.
   */
  lemma {:induction false} PropsToJsonKept(props: seq<Prop>)
    ensures PropsToJson(props).Ok? ==> Serializes(props, PropsToJson(props).value)
  {
    if props != [] && PropsToJson(props).Ok? {
      PropsToJsonKept(props[1..]);
      var head := ToJson(props[0].value).value;
      var tail := PropsToJson(props[1..]).value;
      assert PropsToJson(props).value == (if head.Some? then [JMember(props[0].key, head.value)] else []) + tail;
      SerializesStep(props, head, tail);
    }
  }

  lemma SerializesStep(props: seq<Prop>, head: Option<JsonValue>, tail: seq<JMember>)
    requires props != [] && ToJson(props[0].value) == Ok(head)
    requires Serializes(props[1..], tail)
    ensures Serializes(props, (if head.Some? then [JMember(props[0].key, head.value)] else []) + tail)
  {
    if head.Some? {
      assert Kept(props) == [props[0]] + Kept(props[1..]);
      MatchesCons(props[0], Kept(props[1..]), JMember(props[0].key, head.value), tail);
    } else {
      assert Kept(props) == Kept(props[1..]);
      assert [] + tail == tail;
    }
  }

  lemma MatchesCons(p: Prop, kept: seq<Prop>, m: JMember, ms: seq<JMember>)
    requires m.name == p.key && ToJson(p.value) == Ok(Some(m.value))
    requires Matches(kept, ms)
    ensures Matches([p] + kept, [m] + ms)
  {
    assert forall i :: 1 <= i < |ms| + 1 ==> ([m] + ms)[i] == ms[i - 1] && ([p] + kept)[i] == kept[i - 1];
  }

  /** `ms` are the kept properties of `props`, in order, each with its name and serialized value. */
  predicate Serializes(props: seq<Prop>, ms: seq<JMember>)
  {
    Matches(Kept(props), ms)
  }

  /** `ms` are `kept`, pointwise, each with its name and serialized value. */
  predicate Matches(kept: seq<Prop>, ms: seq<JMember>)
  {
    |ms| == |kept|
    && forall i :: 0 <= i < |ms| ==> ms[i].name == kept[i].key && ToJson(kept[i].value) == Ok(Some(ms[i].value))
  }

  /** The properties JSON.stringify writes: those whose value it does not skip, in order. */
  function Kept(props: seq<Prop>): (r: seq<Prop>)
    ensures forall i :: 0 <= i < |r| ==> r[i] in props && !Unserializable(r[i].value)
    ensures |r| <= |props|
  {
    if props == [] then []
    else (if Unserializable(props[0].value) then [] else [props[0]]) + Kept(props[1..])
  }

  /** JSON.stringify(v): the text, `None` for the JavaScript value undefined, or a TypeError. */
  function Stringify(v: JsValue): (r: Result<Option<string>>)
    ensures r.Err? <==> HasBigInt(v)
    ensures r == Ok(None) <==> Unserializable(v)
    ensures r.Ok? && r.value.Some? ==> r.value.value != "undefined"
  {
    match ToJson(v)
    case Err(e) => Err(e)
    case Ok(None) => Ok(None)
    case Ok(Some(j)) =>
      Ok(Some(Encode(j)))
  }

  // ---------------------------------------------------------------------------
  // JSON.parse

  /** The first value stored under `k`, if any. */
  function Lookup(props: seq<Prop>, k: string): (r: Option<JsValue>)
    ensures r.Some? <==> HasKey(props, k)
  {
    if props == [] then None
    else if props[0].key == k then Some(props[0].value)
    else
      var r := Lookup(props[1..], k);
      HasKeyTail(props, k);
      r
  }

  function Keys(props: seq<Prop>): (ks: seq<string>)
    ensures |ks| == |props| && forall i :: 0 <= i < |props| ==> ks[i] == props[i].key
  {
    if props == [] then [] else [props[0].key] + Keys(props[1..])
  }

  /**
   * CreateDataProperty as JSON.parse applies it member by member: an existing
   * property keeps its place and takes the new value; a new one goes last.
   */
  function Put(props: seq<Prop>, k: string, v: JsValue): (r: seq<Prop>)
    ensures Lookup(r, k) == Some(v)
    ensures forall other :: other != k ==> Lookup(r, other) == Lookup(props, other)
  {
    if props == [] then [Prop(k, v)]
    else
      if props[0].key == k then [Prop(k, v)] + props[1..]
      else
        var r := [props[0]] + Put(props[1..], k, v);
        assert r[1..] == Put(props[1..], k, v);
        r
  }

  /** Every member of a parsed object, folded in from left to right. */
  function Assemble(acc: seq<Prop>, members: seq<JMember>): (r: seq<Prop>)
    ensures DistinctKeys(acc) ==> DistinctKeys(r)
    decreases members
  {
    if members == [] then acc
    else
      var next := Put(acc, members[0].name, FromJson(members[0].value));
      PutDistinct(acc, members[0].name, FromJson(members[0].value));
      Assemble(next, members[1..])
  }

  /** The JavaScript value JSON.parse builds for a JSON value. */
  function FromJson(j: JsonValue): (r: JsValue)
    ensures !r.JsUndefined? && !r.JsBigInt? && !r.JsDate? && !r.JsFunction? && !r.JsSymbol?
    ensures j.JObject? <==> r.JsObject?
    ensures j.JArray? <==> r.JsArray?
    decreases j
  {
    match j
    case JNull => JsNull
    case JBool(b) => JsBool(b)
    case JNumber(n) => JsNumber(n)
    case JString(s) => JsString(s)
    case JArray(items) => JsArray(FromItems(items))
    case JObject(members) => JsObject(Assemble([], members))
  }

  function FromItems(items: seq<JsonValue>): (r: seq<JsValue>)
    ensures |r| == |items|
    ensures forall i :: 0 <= i < |items| ==> r[i] == FromJson(items[i])
    decreases items
  {
    if items == [] then [] else [FromJson(items[0])] + FromItems(items[1..])
  }

  /** JSON.parse(text): the value, or the SyntaxError it throws. */
  function Parse(text: string): (r: Result<JsValue>)
    ensures r.Err? <==> Decode(text).Err?
    ensures r.Err? ==> r.error == Decode(text).error
    ensures r.Ok? ==> JsonSafe(r.value)
  {
    match Decode(text)
    case Err(e) => Err(e)
    case Ok(j) =>
      FromJsonSafe(j);
      Ok(FromJson(j))
  }

  // ---------------------------------------------------------------------------
  // The values that survive a JSON round trip

  /**
   * null, booleans, numbers, strings, and arrays and plain objects of such
   * values: exactly what JSON.parse can return.
   */
  predicate JsonSafe(v: JsValue)
  {
    match v
    case JsNull => true
    case JsBool(_) => true
    case JsNumber(_) => true
    case JsString(_) => true
    case JsArray(items) => forall i :: 0 <= i < |items| ==> JsonSafe(items[i])
    case JsObject(props) => DistinctKeys(props) && forall i :: 0 <= i < |props| ==> JsonSafe(props[i].value)
    case _ => false
  }

  lemma HasKeyTail(props: seq<Prop>, k: string)
    requires props != []
    ensures HasKey(props, k) <==> props[0].key == k || HasKey(props[1..], k)
  {
    assert forall i :: 0 <= i < |props[1..]| ==> props[1..][i] == props[i + 1];
  }

  /** Put changes only the property named `k`, or adds it. */
  lemma {:induction false} PutMembers(props: seq<Prop>, k: string, v: JsValue)
    ensures forall p :: p in Put(props, k, v) ==> p == Prop(k, v) || p in props
  {
    if props != [] && props[0].key != k {
      PutMembers(props[1..], k, v);
    }
  }

  /** A key already present keeps its position; a new one goes last. */
  lemma {:induction false} PutKeys(props: seq<Prop>, k: string, v: JsValue)
    ensures Keys(Put(props, k, v)) == if HasKey(props, k) then Keys(props) else Keys(props) + [k]
  {
    if props == [] {
      assert Keys(Put(props, k, v)) == [k];
    } else if props[0].key == k {
      PutKeysHere(props, k, v);
    } else {
      PutKeys(props[1..], k, v);
      PutKeysStep(props, k, v);
    }
  }

  lemma PutKeysHere(props: seq<Prop>, k: string, v: JsValue)
    requires props != [] && props[0].key == k
    ensures HasKey(props, k)
    ensures Keys(Put(props, k, v)) == Keys(props)
  {
    assert props[0].key == k;
    assert Put(props, k, v) == [Prop(k, v)] + props[1..];
  }

  lemma PutKeysStep(props: seq<Prop>, k: string, v: JsValue)
    requires props != [] && props[0].key != k
    requires Keys(Put(props[1..], k, v)) == if HasKey(props[1..], k) then Keys(props[1..]) else Keys(props[1..]) + [k]
    ensures Keys(Put(props, k, v)) == if HasKey(props, k) then Keys(props) else Keys(props) + [k]
  {
    HasKeyTail(props, k);
    PutKeysPast(props, k, v);
    var h, ks := props[0].key, Keys(props[1..]);
    if HasKey(props[1..], k) {
      assert Keys(Put(props, k, v)) == [h] + ks == Keys(props);
    } else {
      assert Keys(Put(props, k, v)) == [h] + (ks + [k]) == ([h] + ks) + [k];
    }
  }

  lemma PutKeysPast(props: seq<Prop>, k: string, v: JsValue)
    requires props != [] && props[0].key != k
    ensures Keys(props) == [props[0].key] + Keys(props[1..])
    ensures Keys(Put(props, k, v)) == [props[0].key] + Keys(Put(props[1..], k, v))
    ensures Put(props, k, v) == [props[0]] + Put(props[1..], k, v)
  {
    assert Put(props, k, v) == [props[0]] + Put(props[1..], k, v);
  }

  /** Put keeps the property names distinct. */
  lemma {:induction false} PutDistinct(props: seq<Prop>, k: string, v: JsValue)
    ensures DistinctKeys(props) ==> DistinctKeys(Put(props, k, v))
  {
    var r := Put(props, k, v);
    PutKeys(props, k, v);
    if !DistinctKeys(props) {
    } else if HasKey(props, k) {
      assert Keys(r) == Keys(props);
    } else {
      forall i, j | 0 <= i < j < |r|
        ensures r[i].key != r[j].key
      {
        if j == |props| {
          assert Keys(r)[j] == k && Keys(r)[i] == props[i].key;
        } else {
          assert Keys(r)[j] == props[j].key && Keys(r)[i] == props[i].key;
        }
      }
    }
  }

  /** Put of a fresh key appends it. */
  lemma {:induction false} PutAppends(props: seq<Prop>, k: string, v: JsValue)
    requires !HasKey(props, k)
    ensures Put(props, k, v) == props + [Prop(k, v)]
  {
    if props != [] {
      HasKeyTail(props, k);
      PutAppends(props[1..], k, v);
      PutKeysPast(props, k, v);
      ConsAppend(props, Prop(k, v));
    }
  }

  lemma ConsAppend(props: seq<Prop>, p: Prop)
    requires props != []
    ensures props + [p] == [props[0]] + (props[1..] + [p])
  {
  }

  lemma DistinctPrefix(a: seq<Prop>, b: seq<Prop>)
    requires DistinctKeys(a + b)
    ensures DistinctKeys(a)
  {
    assert forall i :: 0 <= i < |a| ==> (a + b)[i] == a[i];
  }

  lemma LastIsFresh(a: seq<Prop>, p: Prop)
    requires DistinctKeys(a + [p])
    ensures !HasKey(a, p.key)
  {
    assert forall i :: 0 <= i < |a| ==> (a + [p])[i] == a[i];
    assert (a + [p])[|a|] == p;
  }

  /** The properties members become when their names are all different. */
  function FromMembers(members: seq<JMember>): (r: seq<Prop>)
    ensures |r| == |members|
    ensures forall i :: 0 <= i < |members| ==> r[i] == Prop(members[i].name, FromJson(members[i].value))
  {
    if members == [] then [] else [Prop(members[0].name, FromJson(members[0].value))] + FromMembers(members[1..])
  }

  /** With no repeated name, parsing an object keeps its members in order. */
  lemma {:induction false} AssembleDistinct(acc: seq<Prop>, members: seq<JMember>)
    requires DistinctKeys(acc + FromMembers(members))
    ensures Assemble(acc, members) == acc + FromMembers(members)
    decreases members
  {
    if members != [] {
      var p := Prop(members[0].name, FromJson(members[0].value));
      var rest := FromMembers(members[1..]);
      assert FromMembers(members) == [p] + rest;
      assert acc + FromMembers(members) == (acc + [p]) + rest;
      DistinctPrefix(acc + [p], rest);
      LastIsFresh(acc, p);
      PutAppends(acc, p.key, p.value);
      AssembleDistinct(acc + [p], members[1..]);
    }
  }

  /** Every value JSON.parse builds is JSON-safe. */
  lemma {:induction false} FromJsonSafe(j: JsonValue)
    ensures JsonSafe(FromJson(j))
    decreases j, 1
  {
    match j
    case JNull =>
    case JBool(_) =>
    case JNumber(_) =>
    case JString(_) =>
    case JArray(items) => FromItemsSafe(items);
    case JObject(members) =>
      AssembleSafe([], members);
  }

  lemma {:induction false} FromItemsSafe(items: seq<JsonValue>)
    ensures forall i :: 0 <= i < |items| ==> JsonSafe(FromItems(items)[i])
    decreases items, 0
  {
    if items != [] {
      FromJsonSafe(items[0]);
      FromItemsSafe(items[1..]);
      assert forall i :: 1 <= i < |items| ==> FromItems(items)[i] == FromItems(items[1..])[i - 1];
    }
  }

  lemma {:induction false} AssembleSafe(acc: seq<Prop>, members: seq<JMember>)
    requires DistinctKeys(acc) && forall i :: 0 <= i < |acc| ==> JsonSafe(acc[i].value)
    ensures var r := Assemble(acc, members);
            DistinctKeys(r) && forall i :: 0 <= i < |r| ==> JsonSafe(r[i].value)
    decreases members, 0
  {
    if members != [] {
      var v := FromJson(members[0].value);
      FromJsonSafe(members[0].value);
      var next := Put(acc, members[0].name, v);
      PutDistinct(acc, members[0].name, v);
      PutMembers(acc, members[0].name, v);
      forall i | 0 <= i < |next|
        ensures JsonSafe(next[i].value)
      {
        assert next[i] in next;
      }
      AssembleSafe(next, members[1..]);
    }
  }

  /** JSON.parse(JSON.stringify(v)) gives back every JSON-safe value. */
  lemma {:induction false} SafeToJson(v: JsValue)
    requires JsonSafe(v)
    ensures ToJson(v).Ok? && ToJson(v).value.Some? && FromJson(ToJson(v).value.value) == v
    decreases v, 1
  {
    match v
    case JsNull =>
    case JsBool(_) =>
    case JsNumber(_) =>
    case JsString(_) =>
    case JsArray(items) =>
      SafeArrayToJson(items);
    case JsObject(props) =>
      SafeObjectToJson(props);
  }

  lemma {:induction false} SafeArrayToJson(items: seq<JsValue>)
    requires JsonSafe(JsArray(items))
    ensures ItemsToJson(items).Ok? && ToJson(JsArray(items)) == Ok(Some(JArray(ItemsToJson(items).value)))
    ensures FromJson(JArray(ItemsToJson(items).value)) == JsArray(items)
    decreases JsArray(items), 0
  {
    SafeItemsToJson(items);
  }

  lemma {:induction false} SafeObjectToJson(props: seq<Prop>)
    requires JsonSafe(JsObject(props))
    ensures PropsToJson(props).Ok? && ToJson(JsObject(props)) == Ok(Some(JObject(PropsToJson(props).value)))
    ensures FromJson(JObject(PropsToJson(props).value)) == JsObject(props)
    decreases JsObject(props), 0
  {
    SafePropsToJson(props);
    var ms := PropsToJson(props).value;
    assert DistinctKeys(props);
    assert [] + FromMembers(ms) == props;
    AssembleDistinct([], ms);
    FromObject(ms);
  }

  lemma FromObject(ms: seq<JMember>)
    ensures FromJson(JObject(ms)) == JsObject(Assemble([], ms))
  {
  }

  lemma {:induction false} SafeItemsToJson(items: seq<JsValue>)
    requires forall i :: 0 <= i < |items| ==> JsonSafe(items[i])
    ensures ItemsToJson(items).Ok? && FromItems(ItemsToJson(items).value) == items
    decreases items, 0
  {
    forall i | 0 <= i < |items|
      ensures !HasBigInt(items[i])
    {
      SafeToJson(items[i]);
    }
    var js := ItemsToJson(items).value;
    forall i | 0 <= i < |items|
      ensures FromJson(js[i]) == items[i]
    {
      SafeToJson(items[i]);
    }
    assert FromItems(js) == items;
  }

  lemma {:induction false} SafePropsToJson(props: seq<Prop>)
    requires forall i :: 0 <= i < |props| ==> JsonSafe(props[i].value)
    ensures PropsToJson(props).Ok? && FromMembers(PropsToJson(props).value) == props
    decreases props, 0
  {
    if props != [] {
      SafeToJson(props[0].value);
      SafePropsToJson(props[1..]);
      var ms := PropsToJson(props).value;
      var m := JMember(props[0].key, ToJson(props[0].value).value.value);
      assert ms == [m] + PropsToJson(props[1..]).value;
      assert ms[1..] == PropsToJson(props[1..]).value;
      assert FromMembers(ms) == [Prop(m.name, FromJson(m.value))] + FromMembers(ms[1..]);
      assert props == [props[0]] + props[1..];
    }
  }

  /** The round trip: a JSON-safe value is written as a text that JSON.parse reads back as it. */
  lemma ParseStringify(v: JsValue)
    requires JsonSafe(v)
    ensures Stringify(v).Ok? && Stringify(v).value.Some?
    ensures Parse(Stringify(v).value.value) == Ok(v)
  {
    SafeToJson(v);
    DecodeEncode(ToJson(v).value.value);
  }

  /** And JSON.parse returns nothing else: what it reads is JSON-safe and survives a rewrite. */
  lemma ParseIsSafe(text: string)
    requires Parse(text).Ok?
    ensures JsonSafe(Parse(text).value)
    ensures var v := Parse(text).value;
            Stringify(v).Ok? && Stringify(v).value.Some? && Parse(Stringify(v).value.value) == Parse(text)
  {
    FromJsonSafe(Decode(text).value);
    ParseStringify(Parse(text).value);
  }
}
