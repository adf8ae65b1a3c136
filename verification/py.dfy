/**
 * Parsed JSON as the Python script (public/process_nikke_data.py) sees it:
 * Python truthiness, dictionary keys (with `True == 1`), insertion-ordered
 * dictionaries whose assignment to an existing key keeps its position, and
 * the exceptions the script's expressions can raise.
 */
module PyValues {
  import opened Text
  import opened JsonValues

  datatype PyError = AttributeError | TypeError | KeyError

  /** A value, or the exception its computation raises. */
  datatype Outcome<+T> = Ok(value: T) | Raise(error: PyError)

  /** Python truth: `None`, `False`, `0`, `''`, `[]` and `{}` are false. */
  predicate PyTruthy(v: Json)
  {
    match v
    case JNull => false
    case JBool(b) => b
    case JNum(n) => n != 0
    case JStr(s) => s != ""
    case JArr(items) => items != []
    case JObj(fields) => fields != []
  }

  /** A hashable value as a dictionary key; `True` and `False` are the keys `1` and `0`. */
  datatype Key = KNone | KInt(i: int) | KStr(s: string)

  /** `hash(v)` succeeds: lists and dictionaries are unhashable. */
  function ToKey(v: Json): (r: Option<Key>)
    ensures r.None? <==> v.JArr? || v.JObj?
  {
    match v
    case JNull => Some(KNone)
    case JBool(b) => Some(KInt(if b then 1 else 0))
    case JNum(n) => Some(KInt(n))
    case JStr(s) => Some(KStr(s))
    case _ => None
  }

  /** `v == 1` in Python. */
  predicate EqualsOne(v: Json)
  {
    v == JNum(1) || v == JBool(true)
  }

  /** `str(v)` for a hashable value. */
  function PyStr(v: Json): string
    requires ToKey(v).Some?
  {
    match v
    case JNull => "None"
    case JBool(b) => if b then "True" else "False"
    case JNum(n) => IntToString(n)
    case JStr(s) => s
  }

  /** `d.get(key, default)` on a JSON object. */
  function Get(fields: seq<(string, Json)>, key: string, default: Json): Json
  {
    match Lookup(fields, key)
    case Some(v) => v
    case None => default
  }

  /** A dictionary: keys in insertion order, each once. */
  type Dict<V> = seq<(Key, V)>

  predicate DistinctKeys<V>(d: Dict<V>)
  {
    forall i, j :: 0 <= i < j < |d| ==> d[i].0 != d[j].0
  }

  /** Where `k` sits in `d`. */
  function IndexOf<V>(d: Dict<V>, k: Key): (r: Option<nat>)
    ensures r.Some? ==> r.value < |d| && d[r.value].0 == k
    ensures r.None? ==> forall i :: 0 <= i < |d| ==> d[i].0 != k
  {
    if d == [] then None
    else if d[|d| - 1].0 == k then Some(|d| - 1)
    else IndexOf(d[..|d| - 1], k)
  }

  /** `d.get(k)`. */
  function DictGet<V>(d: Dict<V>, k: Key): Option<V>
  {
    match IndexOf(d, k)
    case Some(i) => Some(d[i].1)
    case None => None
  }

  /** `d[k] = v`: a new key goes last, an existing key keeps its place. */
  function Put<V>(d: Dict<V>, k: Key, v: V): (r: Dict<V>)
    ensures DistinctKeys(d) ==> DistinctKeys(r)
  {
    match IndexOf(d, k)
    case Some(i) => d[i := (k, v)]
    case None => d + [(k, v)]
  }

  /** After `d[k] = v`, `k` maps to `v` and every other key is unchanged. */
  lemma PutGet<V>(d: Dict<V>, k: Key, v: V, k2: Key)
    requires DistinctKeys(d)
    ensures DictGet(Put(d, k, v), k2) == if k2 == k then Some(v) else DictGet(d, k2)
  {
    var r := Put(d, k, v);
    assert DistinctKeys(r);
    var at := if IndexOf(d, k).Some? then IndexOf(d, k).value else |d|;
    assert at < |r| && r[at] == (k, v);
    if k2 == k {
      var j := IndexOf(r, k2);
      assert j.Some?;
      UniqueIndex(r, k, j.value, at);
    } else if IndexOf(d, k2).Some? {
      var i := IndexOf(d, k2).value;
      assert r[i] == d[i];
      var j := IndexOf(r, k2);
      assert j.Some?;
      UniqueIndex(r, k2, j.value, i);
    }
  }

  /** In a dictionary with distinct keys a key sits at one index only. */
  lemma UniqueIndex<V>(d: Dict<V>, k: Key, i: nat, j: nat)
    requires DistinctKeys(d) && i < |d| && j < |d| && d[i].0 == k && d[j].0 == k
    ensures i == j
  {
  }

  /** Iterating `for x in v`: a list's items, a dictionary's keys, a string's characters. */
  function Iterate(v: Json): Outcome<seq<Json>>
  {
    match v
    case JArr(items) => Ok(items)
    case JObj(fields) => Ok(seq(|fields|, i requires 0 <= i < |fields| => JStr(fields[i].0)))
    case JStr(s) => Ok(seq(|s|, i requires 0 <= i < |s| => JStr([s[i]])))
    case _ => Raise(TypeError)
  }

  /**
   * The values a loop collects when each iteration that raises is caught
   * and skipped (`try: ... except Exception: continue`).
   */
  function Successes<T>(os: seq<Outcome<T>>): (r: seq<T>)
    ensures |r| <= |os|
  {
    if os == [] then []
    else
      var rest := Successes(os[..|os| - 1]);
      match os[|os| - 1]
      case Ok(v) => rest + [v]
      case Raise(_) => rest
  }

  /** Every collected value is the result of some iteration. */
  lemma {:induction false} SuccessesFrom<T>(os: seq<Outcome<T>>)
    ensures forall j :: 0 <= j < |Successes(os)| ==> Ok(Successes(os)[j]) in os
  {
    if os != [] {
      var init := os[..|os| - 1];
      SuccessesFrom(init);
      forall j | 0 <= j < |Successes(os)| ensures Ok(Successes(os)[j]) in os {
        if j < |Successes(init)| {
          assert Successes(os)[j] == Successes(init)[j];
          assert Ok(Successes(init)[j]) in init;
        }
      }
    }
  }

  /** One more iteration appends its value when it does not raise. */
  lemma SuccessesSnoc<T>(os: seq<Outcome<T>>, i: nat)
    requires i < |os|
    ensures Successes(os[..i + 1]) == Successes(os[..i]) + (if os[i].Ok? then [os[i].value] else [])
  {
    assert os[..i + 1][..i] == os[..i];
  }

  /** Every iteration that does not raise contributes its value, in order. */
  lemma {:induction false} SuccessesKeep<T>(os: seq<Outcome<T>>)
    ensures |Successes(os)| == |os| - Failures(os)
  {
    if os != [] {
      SuccessesKeep(os[..|os| - 1]);
    }
  }

  /**
   * `ks` lists, in increasing order, exactly the positions of the
   * iterations that do not raise, and `r` holds their values in that order.
   */
  ghost predicate OkValuesAt<T>(os: seq<Outcome<T>>, ks: seq<nat>, r: seq<T>)
  {
    && |ks| == |r|
    && (forall a, b :: 0 <= a < b < |ks| ==> ks[a] < ks[b])
    && (forall a :: 0 <= a < |ks| ==> ks[a] < |os| && os[ks[a]].Ok? && os[ks[a]].value == r[a])
    && (forall i :: 0 <= i < |os| && os[i].Ok? ==> i in ks)
  }

  /**
   * The collected values are the values of the iterations that do not
   * raise, all of them, each once, in iteration order.
   */
  lemma {:induction false} SuccessesInOrder<T>(os: seq<Outcome<T>>)
    ensures exists ks: seq<nat> :: OkValuesAt(os, ks, Successes(os))
  {
    if os == [] {
      var none: seq<nat> := [];
      assert OkValuesAt(os, none, Successes(os));
    } else {
      var n := |os| - 1;
      var init := os[..n];
      SuccessesInOrder(init);
      var ks: seq<nat> :| OkValuesAt(init, ks, Successes(init));
      if os[n].Ok? {
        assert Successes(os) == Successes(init) + [os[n].value];
        OkValuesSnoc(os, ks, Successes(init));
      } else {
        assert Successes(os) == Successes(init);
        OkValuesSkip(os, ks, Successes(init));
      }
    }
  }

  lemma OkValuesSnoc<T>(os: seq<Outcome<T>>, ks: seq<nat>, r: seq<T>)
    requires os != [] && os[|os| - 1].Ok?
    requires OkValuesAt(os[..|os| - 1], ks, r)
    ensures OkValuesAt(os, ks + [|os| - 1], r + [os[|os| - 1].value])
  {
    var n := |os| - 1;
    forall i | 0 <= i < n ensures os[i] == os[..n][i] { }
    var ks2, r2 := ks + [n], r + [os[n].value];
    forall a | 0 <= a < |ks2| ensures ks2[a] < |os| && os[ks2[a]].Ok? && os[ks2[a]].value == r2[a] {
      if a < |ks| {
        assert ks2[a] == ks[a] && r2[a] == r[a];
      }
    }
    forall i | 0 <= i < |os| && os[i].Ok? ensures i in ks2 {
      if i < n {
        assert os[..n][i].Ok?;
      }
    }
  }

  lemma OkValuesSkip<T>(os: seq<Outcome<T>>, ks: seq<nat>, r: seq<T>)
    requires os != [] && os[|os| - 1].Raise?
    requires OkValuesAt(os[..|os| - 1], ks, r)
    ensures OkValuesAt(os, ks, r)
  {
    var n := |os| - 1;
    forall i | 0 <= i < n ensures os[i] == os[..n][i] { }
  }

  /** Every iteration that does not raise has its value collected. */
  lemma SuccessesComplete<T>(os: seq<Outcome<T>>, i: nat)
    requires i < |os| && os[i].Ok?
    ensures os[i].value in Successes(os)
  {
    SuccessesInOrder(os);
    var ks: seq<nat> :| OkValuesAt(os, ks, Successes(os));
    var a :| 0 <= a < |ks| && ks[a] == i;
  }

  /** How many iterations raise. */
  function Failures<T>(os: seq<Outcome<T>>): nat
  {
    if os == [] then 0 else Failures(os[..|os| - 1]) + (if os[|os| - 1].Raise? then 1 else 0)
  }
}
