/**
 * The case-insensitive key lookups of the scraper
 * (scripts/fetch-characters.mjs): `pickValue`, which looks at an object's
 * own keys and then searches breadth-first; `pickFirst`, which tries
 * aliases on a detail record and a fallback record; and `toArray`.
 * Lower-casing is ASCII only.
 */
module Picking {
  import opened Text
  import opened JsonValues
  import opened ObjectGraph
  import opened ShapeTests
  import opened BreadthFirst

  /** `value && typeof value === 'object'` for a queued child: a reference. */
  function ObjectChildren(vs: seq<Val>): (r: seq<Val>)
    ensures forall v :: v in r ==> v.VRef? && v in vs
  {
    if vs == [] then []
    else (if vs[0].VRef? then [vs[0]] else []) + ObjectChildren(vs[1..])
  }

  /**
   * The queue loop of `pickValue`, from `queue` with `seen` already marked:
   * the value of the first key, in the order the loop scans objects and
   * their fields, that is the same key as `key`.
   */
  function PickFrom(h: Heap, key: string, queue: seq<Val>, seen: set<nat>): Option<Val>
    decreases h.Keys - seen, |queue|
  {
    if queue == [] then None
    else
      var v := queue[0];
      if !IsObject(h, v) || v.r in seen then PickFrom(h, key, queue[1..], seen)
      else
        var n := h[v.r];
        var hit := if n.NObj? then FirstSameKey(Keys(n), key) else None;
        if hit.Some? then Some(n.fields[hit.value].1)
        else PickFrom(h, key, queue[1..] + ObjectChildren(Children(n)), seen + {v.r})
  }

  /** `pickValue(object, key)`. */
  function PickValue(h: Heap, obj: Val, key: string): (r: Val)
    ensures !IsObject(h, obj) ==> r == VNull
  {
    if !IsObject(h, obj) then VNull
    else
      var n := h[obj.r];
      var direct := FirstSameKey(Keys(n), key);
      if direct.Some? && Keys(n)[direct.value] != "" then Children(n)[direct.value]
      else
        match PickFrom(h, key, [obj], {})
        case Some(x) => x
        case None => VNull
  }

  /** `pickValue(object, key)`, with its `find` and its queue loop run as loops. */
  method PickValueRun(h: Heap, obj: Val, key: string) returns (r: Val)
    ensures r == PickValue(h, obj, key)
  {
    if !IsObject(h, obj) {
      return VNull;
    }
    var n := h[obj.r];
    var keys := Keys(n);
    var direct := FindSameKey(keys, key);
    if direct.Some? && keys[direct.value] != "" {
      return Children(n)[direct.value];
    }
    var found := PickLoop(h, obj, key);
    r := if found.Some? then found.value else VNull;
  }

  /** `Object.keys(object).find(…)`. */
  method FindSameKey(keys: seq<string>, key: string) returns (r: Option<nat>)
    ensures r == FirstSameKey(keys, key)
  {
    var i := 0;
    while i < |keys|
      invariant 0 <= i <= |keys|
      invariant forall j :: 0 <= j < i ==> !SameKey(keys[j], key)
    {
      if Lower(keys[i]) == Lower(key) {
        return Some(i);
      }
      i := i + 1;
    }
    return None;
  }

  /** The queue loop of `pickValue`. */
  method PickLoop(h: Heap, root: Val, key: string) returns (r: Option<Val>)
    ensures r == PickFrom(h, key, [root], {})
  {
    var queue := [root];
    var seen: set<nat> := {};
    while queue != []
      invariant PickFrom(h, key, queue, seen) == PickFrom(h, key, [root], {})
      decreases h.Keys - seen, |queue|
    {
      var node := queue[0];
      var rest := queue[1..];
      if !IsObject(h, node) || node.r in seen {
        queue := rest;
        continue;
      }
      var n := h[node.r];
      if n.NObj? {
        var hit := FindSameKey(Keys(n), key);
        if hit.Some? {
          return Some(n.fields[hit.value].1);
        }
      }
      seen := seen + {node.r};
      queue := rest + ObjectChildren(Children(n));
    }
    return None;
  }

  /** `value !== undefined && value !== null && value !== ''`. */
  predicate Present(v: Val)
  {
    v != VNull && v != VStr("")
  }

  /** `fallback && pickValue(fallback, key)`: a falsy fallback is itself the value. */
  function FallbackValue(h: Heap, fallback: Val, key: string): Val
  {
    if Truthy(fallback) then PickValue(h, fallback, key) else fallback
  }

  /** What one alias yields: the detail's value when present, else the fallback's. */
  function AliasValue(h: Heap, detail: Val, fallback: Val, key: string): (r: Val)
    ensures Present(r) <==> Present(PickValue(h, detail, key)) || Present(FallbackValue(h, fallback, key))
  {
    if Present(PickValue(h, detail, key)) then PickValue(h, detail, key) else FallbackValue(h, fallback, key)
  }

  /** What each alias yields, in order. */
  function Aliases(h: Heap, detail: Val, fallback: Val, keys: seq<string>): (vs: seq<Val>)
    ensures |vs| == |keys|
  {
    seq(|keys|, i requires 0 <= i < |keys| => AliasValue(h, detail, fallback, keys[i]))
  }

  /** The first present value of `vs`, or `null`. */
  function FirstPresent(vs: seq<Val>): (r: Val)
    ensures r == VNull || (Present(r) && r in vs)
  {
    if vs == [] then VNull
    else if Present(vs[0]) then vs[0]
    else FirstPresent(vs[1..])
  }

  /** `pickFirst(detail, fallback, keys)`. */
  function PickFirst(h: Heap, detail: Val, fallback: Val, keys: seq<string>): (r: Val)
    ensures r == VNull || Present(r)
    ensures Present(r) ==> exists i :: 0 <= i < |keys| && r == AliasValue(h, detail, fallback, keys[i])
  {
    FirstPresent(Aliases(h, detail, fallback, keys))
  }

  /** `pickFirst(detail, fallback, keys)`, alias by alias. */
  method PickFirstRun(h: Heap, detail: Val, fallback: Val, keys: seq<string>) returns (r: Val)
    ensures r == PickFirst(h, detail, fallback, keys)
  {
    var vs := Aliases(h, detail, fallback, keys);
    assert PickFirst(h, detail, fallback, keys) == FirstPresent(vs[0..]) by {
      assert vs[0..] == vs;
    }
    var i := 0;
    while i < |keys|
      invariant 0 <= i <= |keys|
      invariant PickFirst(h, detail, fallback, keys) == FirstPresent(vs[i..])
    {
      assert vs[i] == AliasValue(h, detail, fallback, keys[i]);
      var value := PickValueRun(h, detail, keys[i]);
      if Present(value) {
        FirstPresentStep(vs, i);
        return value;
      }
      var fallbackValue := fallback;
      if Truthy(fallback) {
        fallbackValue := PickValueRun(h, fallback, keys[i]);
      }
      FirstPresentStep(vs, i);
      if Present(fallbackValue) {
        return fallbackValue;
      }
      i := i + 1;
    }
    return VNull;
  }

  /** One step of the scan for the first present value. */
  lemma FirstPresentStep(vs: seq<Val>, i: nat)
    requires i < |vs|
    ensures FirstPresent(vs[i..]) == if Present(vs[i]) then vs[i] else FirstPresent(vs[i + 1..])
  {
    assert vs[i..][1..] == vs[i + 1..];
  }

  /** No value of `vs` before `i` is present. */
  predicate NoneBefore(vs: seq<Val>, i: int)
    requires 0 <= i <= |vs|
  {
    forall j :: 0 <= j < i ==> !Present(vs[j])
  }

  lemma {:induction false} FirstPresentAt(vs: seq<Val>, i: int)
    requires 0 <= i < |vs| && NoneBefore(vs, i) && Present(vs[i])
    ensures FirstPresent(vs) == vs[i]
  {
    if i > 0 {
      assert !Present(vs[0]);
      assert NoneBefore(vs[1..], i - 1) by {
        forall j | 0 <= j < i - 1 ensures vs[1..][j] == vs[j + 1] { }
      }
      FirstPresentAt(vs[1..], i - 1);
    }
  }

  lemma {:induction false} FirstPresentNone(vs: seq<Val>)
    requires NoneBefore(vs, |vs|)
    ensures FirstPresent(vs) == VNull
  {
    if vs != [] {
      assert !Present(vs[0]);
      assert NoneBefore(vs[1..], |vs| - 1) by {
        forall j | 0 <= j < |vs| - 1 ensures vs[1..][j] == vs[j + 1] { }
      }
      FirstPresentNone(vs[1..]);
    }
  }

  /**
   * `pickFirst` returns the value of the first alias that yields a present
   * value, trying the detail before the fallback for each alias.
   */
  lemma PickFirstFound(h: Heap, detail: Val, fallback: Val, keys: seq<string>, i: int)
    requires 0 <= i < |keys|
    requires forall j :: 0 <= j < i ==> !Present(AliasValue(h, detail, fallback, keys[j]))
    requires Present(AliasValue(h, detail, fallback, keys[i]))
    ensures PickFirst(h, detail, fallback, keys) == AliasValue(h, detail, fallback, keys[i])
  {
    FirstPresentAt(Aliases(h, detail, fallback, keys), i);
  }

  /** `pickFirst` returns `null` when no alias yields a present value. */
  lemma PickFirstAbsent(h: Heap, detail: Val, fallback: Val, keys: seq<string>)
    requires forall j :: 0 <= j < |keys| ==> !Present(AliasValue(h, detail, fallback, keys[j]))
    ensures PickFirst(h, detail, fallback, keys) == VNull
  {
    FirstPresentNone(Aliases(h, detail, fallback, keys));
  }

  /** `0` and `false` are present values: `pickFirst` returns them rather than trying the next alias. */
  lemma ZeroIsPicked(h: Heap, detail: Val, fallback: Val, keys: seq<string>)
    requires keys != [] && PickValue(h, detail, keys[0]) in {VNum(0), VBool(false)}
    ensures PickFirst(h, detail, fallback, keys) == PickValue(h, detail, keys[0])
  {
  }

  /** With a `null` fallback only the detail is consulted. */
  lemma {:induction false} NullFallback(h: Heap, detail: Val, keys: seq<string>, other: Val)
    requires IsObject(h, other) && forall i :: 0 <= i < |keys| ==> !Present(PickValue(h, other, keys[i]))
    ensures PickFirst(h, detail, VNull, keys) == PickFirst(h, detail, other, keys)
  {
    SamePresent(Aliases(h, detail, VNull, keys), Aliases(h, detail, other, keys));
  }

  /** Two sequences that agree wherever either is present have the same first present value. */
  lemma {:induction false} SamePresent(vs: seq<Val>, ws: seq<Val>)
    requires |vs| == |ws|
    requires forall i :: 0 <= i < |vs| ==> (Present(vs[i]) || Present(ws[i])) ==> vs[i] == ws[i]
    ensures FirstPresent(vs) == FirstPresent(ws)
  {
    if vs != [] {
      SamePresent(vs[1..], ws[1..]);
    }
  }

  /**
   * An own key that is the same key, ignoring case, wins over everything
   * the search would find, even when its value is `null`.
   */
  lemma OwnKeyFirst(h: Heap, r: nat, key: string, i: nat)
    requires r in h && h[r].NObj? && i < |h[r].fields|
    requires SameKey(h[r].fields[i].0, key) && h[r].fields[i].0 != ""
    requires forall j :: 0 <= j < i ==> !SameKey(h[r].fields[j].0, key)
    ensures PickValue(h, VRef(r), key) == h[r].fields[i].1
  {
    var d := FirstSameKey(Keys(h[r]), key);
    assert d.Some?;
    assert d.value == i;
  }

  /** The value of the first field of object `r` that is the same key as `key`. */
  function HeldValue(h: Heap, key: string, r: nat): Val
    requires r in h && Matches(h, KeyHolder(key), r)
  {
    h[r].fields[FirstSameKey(Keys(h[r]), key).value].1
  }

  lemma {:induction false} ObjectChildrenAppend(a: seq<Val>, b: seq<Val>)
    ensures ObjectChildren(a + b) == ObjectChildren(a) + ObjectChildren(b)
  {
    if a != [] {
      assert (a + b)[0] == a[0] && (a + b)[1..] == a[1..] + b;
      ObjectChildrenAppend(a[1..], b);
    } else {
      assert a + b == b;
    }
  }

  lemma {:induction false} ObjectChildrenTwice(a: seq<Val>)
    ensures ObjectChildren(ObjectChildren(a)) == ObjectChildren(a)
  {
    if a != [] {
      ObjectChildrenTwice(a[1..]);
      ObjectChildrenAppend(if a[0].VRef? then [a[0]] else [], ObjectChildren(a[1..]));
    }
  }

  /**
   * Dropping the primitives from a queue changes nothing: the loop skips
   * them when they come up.
   */
  lemma {:induction false} VisitsSkipPrimitives(h: Heap, q: seq<Val>, seen: set<nat>)
    ensures Visits(h, ObjectChildren(q), seen) == Visits(h, q, seen)
    decreases h.Keys - seen, |q|
  {
    if q != [] {
      var v := q[0];
      var oq := ObjectChildren(q);
      if !v.VRef? {
        assert oq == ObjectChildren(q[1..]);
        VisitsSkipPrimitives(h, q[1..], seen);
      } else {
        assert oq == [v] + ObjectChildren(q[1..]);
        assert oq[0] == v && oq[1..] == ObjectChildren(q[1..]);
        if !IsObject(h, v) || v.r in seen {
          VisitsSkipPrimitives(h, q[1..], seen);
        } else {
          var c := Children(h[v.r]);
          var s2 := seen + {v.r};
          VisitsSkipPrimitives(h, q[1..] + c, s2);
          VisitsSkipPrimitives(h, ObjectChildren(q[1..]) + c, s2);
          ObjectChildrenAppend(q[1..], c);
          ObjectChildrenAppend(ObjectChildren(q[1..]), c);
          ObjectChildrenTwice(q[1..]);
        }
      }
    }
  }

  /**
   * The queue loop of `pickValue` returns the value of the first matching
   * field of the first object, in the order the breadth-first loop expands
   * nodes, that has such a field; it finds nothing when no object it
   * reaches has one.
   */
  lemma {:induction false} PickFromIsFirstHolder(h: Heap, key: string, queue: seq<Val>, seen: set<nat>)
    ensures var f := FirstMatching(h, KeyHolder(key), Visits(h, queue, seen));
      PickFrom(h, key, queue, seen) == if f.Some? then Some(HeldValue(h, key, f.value)) else None
    decreases h.Keys - seen, |queue|
  {
    if queue != [] {
      var v := queue[0];
      if !IsObject(h, v) || v.r in seen {
        PickFromIsFirstHolder(h, key, queue[1..], seen);
      } else if !Matches(h, KeyHolder(key), v.r) {
        var c := Children(h[v.r]);
        var s2 := seen + {v.r};
        var q1 := queue[1..] + ObjectChildren(c);
        var q2 := queue[1..] + c;
        PickFromIsFirstHolder(h, key, q1, s2);
        VisitsSkipPrimitives(h, q1, s2);
        VisitsSkipPrimitives(h, q2, s2);
        ObjectChildrenAppend(queue[1..], ObjectChildren(c));
        ObjectChildrenAppend(queue[1..], c);
        ObjectChildrenTwice(c);
        var vs := Visits(h, queue, seen);
        assert vs == [v.r] + Visits(h, q2, s2);
        assert vs[1..] == Visits(h, q1, s2);
      }
    }
  }

  /** No own key of `obj` decides: none is the same key, or the one that is is `''`. */
  predicate NoOwnHit(h: Heap, obj: Val, key: string)
    requires IsObject(h, obj)
  {
    var d := FirstSameKey(Keys(h[obj.r]), key);
    d.None? || Keys(h[obj.r])[d.value] == ""
  }

  /**
   * Past its own keys, `pickValue` returns the value of the first matching
   * field of the first object, in breadth-first order from `obj`, that has
   * one, and `null` when no object reachable from `obj` has one.
   */
  lemma PickValueFirstHolder(h: Heap, obj: Val, key: string)
    requires IsObject(h, obj) && NoOwnHit(h, obj, key)
    ensures var f := FirstMatching(h, KeyHolder(key), Visits(h, [obj], {}));
      PickValue(h, obj, key) == if f.Some? then HeldValue(h, key, f.value) else VNull
  {
    PickFromIsFirstHolder(h, key, [obj], {});
  }

  /**
   * `pickValue` returns `null` for a key that no object reachable from
   * `obj` holds (and that is not an index of the array looked in).
   */
  lemma PickAbsent(h: Heap, obj: Val, key: string)
    requires var vs := Visits(h, [obj], {});
      forall j :: 0 <= j < |vs| ==> !Matches(h, KeyHolder(key), vs[j])
    requires IsObject(h, obj) && h[obj.r].NArr? ==> forall i :: 0 <= i < |h[obj.r].items| ==> !SameKey(NatToString(i), key)
    ensures PickValue(h, obj, key) == VNull
  {
    if IsObject(h, obj) {
      var vs := Visits(h, [obj], {});
      assert vs[0] == obj.r;
      PickFromIsFirstHolder(h, key, [obj], {});
      var n := h[obj.r];
      var d := FirstSameKey(Keys(n), key);
      if d.Some? {
        assert false;
      }
    }
  }

  /** The array `toArray` returns: an existing array, or a new one with these items. */
  datatype ArrayValue = Existing(r: nat) | Built(items: seq<Val>)

  /** `toArray(value)`. */
  function ToArray(h: Heap, v: Val): (r: ArrayValue)
    ensures r.Existing? <==> IsObject(h, v) && h[v.r].NArr?
    ensures r.Existing? ==> v == VRef(r.r)
    ensures r.Built? ==> |r.items| <= 1 && (r.items == [] <==> !Truthy(v) && v != VNum(0))
  {
    if !Truthy(v) && v != VNum(0) then Built([])
    else if IsObject(h, v) && h[v.r].NArr? then Existing(v.r)
    else Built([v])
  }

  /** The items of the array `toArray` returns. */
  function ArrayItems(h: Heap, a: ArrayValue): seq<Val>
  {
    match a
    case Existing(r) => if r in h && h[r].NArr? then h[r].items else []
    case Built(items) => items
  }

  /**
   * `toArray` keeps an array as it is, wraps `0` and every other truthy
   * value in a one-item array, and turns the other falsy values into `[]`.
   */
  lemma ToArrayItems(h: Heap, v: Val)
    ensures IsObject(h, v) && h[v.r].NArr? ==> ArrayItems(h, ToArray(h, v)) == h[v.r].items
    ensures !(IsObject(h, v) && h[v.r].NArr?) ==>
      ArrayItems(h, ToArray(h, v)) == (if Truthy(v) || v == VNum(0) then [v] else [])
    ensures ToArray(h, v).Existing? ==> ToArray(h, VRef(ToArray(h, v).r)) == ToArray(h, v)
  {
  }
}
