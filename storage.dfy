/**
 * The in-memory `Storage` of the test harness: a string-to-string store that
 * keeps its entries as the object's own properties. `order` is the order in
 * which `Object.keys` lists them (insertion order).
 */
module LocalStorageMock {
  import opened JsValues
  import opened Coercion

  predicate Distinct(s: seq<string>)
  {
    forall i, j :: 0 <= i < j < |s| ==> s[i] != s[j]
  }

  /** `s` without the element `k`. */
  function Without(s: seq<string>, k: string): (r: seq<string>)
    ensures forall x :: x in r <==> x in s && x != k
    ensures Distinct(s) ==> Distinct(r)
    ensures k !in s ==> r == s
    ensures k in s && Distinct(s) ==> |r| == |s| - 1
  {
    if s == [] then []
    else if s[0] == k then
      HeadNotInTail(s);
      Without(s[1..], k)
    else
      var r := [s[0]] + Without(s[1..], k);
      HeadNotInTail(s);
      assert forall i :: 1 <= i < |r| ==> r[i] in Without(s[1..], k);
      r
  }

  lemma HeadNotInTail(s: seq<string>)
    requires s != []
    ensures Distinct(s) ==> s[0] !in s[1..] && Distinct(s[1..])
  {
    assert forall j :: 0 <= j < |s[1..]| ==> s[1..][j] == s[j + 1];
  }

  /** The set of the elements of a sequence without repetitions has its length. */
  lemma {:induction false} DistinctCard(s: seq<string>)
    requires Distinct(s)
    ensures |set x | x in s| == |s|
  {
    if s != [] {
      var t := s[1..];
      HeadNotInTail(s);
      DistinctCard(t);
      assert (set x | x in s) == (set x | x in t) + {s[0]};
    }
  }

  /** Storing `key` keeps the keys listed once each, appending `key` when it is new. */
  lemma KeyAdded(items: map<string, string>, order: seq<string>, key: string, text: string)
    requires Distinct(order) && items.Keys == set k | k in order
    ensures var after := if key in items then order else order + [key];
            Distinct(after) && items[key := text].Keys == (set k | k in after)
            && |after| == |order| + (if key in items then 0 else 1)
  {
    if key !in items {
      assert (set k | k in order + [key]) == (set k | k in order) + {key};
    }
  }

  class Storage {
    /** The stored pairs. */
    var items: map<string, string>
    /** The keys, in the order `Object.keys` lists them. */
    var order: seq<string>

    ghost predicate Valid()
      reads this
    {
      Distinct(order) && items.Keys == set k | k in order
    }

    constructor ()
      ensures Valid() && items == map[] && order == []
    {
      items := map[];
      order := [];
    }

    /** `length`: the number of stored pairs. */
    function Length(): (n: nat)
      reads this
      requires Valid()
      ensures n == |items|
    {
      DistinctCard(order);
      |order|
    }

    /** `getItem(key)`: the stored string, or null (`None`) when there is none. */
    function GetItem(key: string): (r: Option<string>)
      reads this
      ensures r.Some? <==> key in items
      ensures r.Some? ==> r.value == items[key]
    {
      if key in items then Some(items[key]) else None
    }

    /** `key(index)`: the key at that position of `Object.keys`, or null past either end. */
    function Key(index: int): (r: Option<string>)
      reads this
      requires Valid()
      ensures r.Some? <==> 0 <= index < Length()
      ensures r.Some? ==> r.value in items && r.value == order[index]
    {
      if 0 <= index < |order| then Some(order[index]) else None
    }

    /**
     * `setItem(key, value)`: stores `value + ''`. The coercion runs first, so a
     * Symbol throws a TypeError and nothing is stored.
     */
    method SetItem(key: string, value: JsValue) returns (r: Result<()>)
      requires Valid()
      modifies this
      ensures Valid()
      ensures ToText(value).Err? ==> r == Err(TypeError) && items == old(items) && order == old(order)
      ensures ToText(value).Ok? ==> r == Ok(())
      ensures ToText(value).Ok? ==> items == old(items)[key := ToText(value).value]
      ensures ToText(value).Ok? ==> order == if key in old(items) then old(order) else old(order) + [key]
      ensures ToText(value).Ok? ==> GetItem(key) == Some(ToText(value).value)
      ensures ToText(value).Ok? ==> Length() == old(Length()) + (if key in old(items) then 0 else 1)
      ensures forall k :: k != key ==> GetItem(k) == old(GetItem(k))
    {
      var coerced := ToText(value);
      if coerced.Err? {
        return Err(TypeError);
      }
      Store(key, coerced.value);
      r := Ok(());
    }

    /** The assignment `this[key] = text` once the value is coerced. */
    method Store(key: string, text: string)
      requires Valid()
      modifies this
      ensures Valid()
      ensures items == old(items)[key := text]
      ensures order == if key in old(items) then old(order) else old(order) + [key]
      ensures GetItem(key) == Some(text)
      ensures Length() == old(Length()) + (if key in old(items) then 0 else 1)
      ensures forall k :: k != key ==> GetItem(k) == old(GetItem(k))
    {
      KeyAdded(items, order, key, text);
      if key !in items {
        order := order + [key];
      }
      items := items[key := text];
      assert forall k :: k != key ==> GetItem(k) == old(GetItem(k));
    }

    /** `removeItem(key)`: deletes the pair if there is one, and does nothing otherwise. */
    method RemoveItem(key: string)
      requires Valid()
      modifies this
      ensures Valid()
      ensures items == old(items) - {key} && order == Without(old(order), key)
      ensures GetItem(key) == None
      ensures key !in old(items) ==> items == old(items) && order == old(order)
      ensures Length() == old(Length()) - (if key in old(items) then 1 else 0)
      ensures forall k :: k != key ==> GetItem(k) == old(GetItem(k))
    {
      items := items - {key};
      order := Without(order, key);
    }

    /** `clear()`: deletes every key that `Object.keys` listed when it was called. */
    method Clear()
      requires Valid()
      modifies this
      ensures Valid() && items == map[] && order == []
      ensures Length() == 0 && forall k :: GetItem(k) == None
    {
      var keys := order;
      var i := 0;
      while i < |keys|
        invariant 0 <= i <= |keys|
        invariant Valid() && order == keys[i..]
      {
        assert keys[i..][1..] == keys[i + 1..];
        HeadNotInTail(keys[i..]);
        RemoveItem(keys[i]);
        i := i + 1;
      }
      assert items.Keys == {};
    }
  }
}
