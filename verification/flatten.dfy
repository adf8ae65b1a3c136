/**
 * `flattenRecord` (public/app.js): a depth-first walk that emits one leaf
 * entry per non-container value, with its dotted path, its last path
 * segment as key, and its depth.
 */
module Flattening {
  import opened Text
  import opened JsonValues
  import opened Normalizers

  /** One path segment: an array index or an object key. */
  datatype Segment = Idx(i: nat) | Name(k: string)

  /** `{ path, key, depth, value }`; the root key is `''`, written `Name("")`. */
  datatype LeafEntry = LeafEntry(path: string, key: Segment, depth: nat, value: Json)

  /** The segment as JavaScript holds it: a number for an index, a string for a key. */
  function SegmentValue(s: Segment): Json
  {
    match s
    case Idx(i) => JNum(i)
    case Name(k) => JStr(k)
  }

  /** The segment's text, `String(segment)`. */
  function SegmentText(s: Segment): string
  {
    match s
    case Idx(i) => NatToString(i)
    case Name(k) => k
  }

  lemma SegmentTextIsString(s: Segment)
    ensures SegmentText(s) == JsString(SegmentValue(s))
  {
  }

  /** `path.join('.')`. */
  function JoinPath(segs: seq<Segment>): string
  {
    Join(seq(|segs|, i requires 0 <= i < |segs| => SegmentText(segs[i])), ".")
  }

  /** Extending a path by one segment adds a dot (unless the path was empty) and the segment. */
  lemma JoinPathSnoc(segs: seq<Segment>, s: Segment)
    ensures JoinPath(segs + [s])
      == if segs == [] then SegmentText(s) else JoinPath(segs) + "." + SegmentText(s)
  {
    var t := seq(|segs + [s]|, i requires 0 <= i < |segs + [s]| => SegmentText((segs + [s])[i]));
    assert t[..|t| - 1] == seq(|segs|, i requires 0 <= i < |segs| => SegmentText(segs[i]));
  }

  /** `path[path.length - 1] ?? ''`. */
  function KeyOf(segs: seq<Segment>): Segment
  {
    if segs == [] then Name("") else segs[|segs| - 1]
  }

  /** The entry a scalar at `segs` receives. */
  function EntryAt(segs: seq<Segment>, depth: nat, v: Json): LeafEntry
  {
    LeafEntry(JoinPath(segs), KeyOf(segs), depth, v)
  }

  /** The entries `flattenRecord(v, path, depth)` appends to its accumulator. */
  function Leaves(v: Json, path: seq<Segment>, depth: nat): seq<LeafEntry>
    decreases v, 1
  {
    match v
    case JArr(items) => ItemLeaves(items, |items|, path, depth)
    case JObj(fields) => FieldLeaves(fields, |fields|, path, depth)
    case _ => [EntryAt(path, depth, v)]
  }

  /** The leaves of the first `n` array items, each under its index. */
  function ItemLeaves(items: seq<Json>, n: nat, path: seq<Segment>, depth: nat): seq<LeafEntry>
    requires n <= |items|
    decreases JArr(items), 0, n
  {
    if n == 0 then []
    else ItemLeaves(items, n - 1, path, depth) + Leaves(items[n - 1], path + [Idx(n - 1)], depth + 1)
  }

  /** The leaves of the first `n` field values, each under its key. */
  function FieldLeaves(fields: seq<(string, Json)>, n: nat, path: seq<Segment>, depth: nat): seq<LeafEntry>
    requires n <= |fields|
    decreases JObj(fields), 0, n
  {
    if n == 0 then []
    else
      FieldLeaves(fields, n - 1, path, depth)
      + Leaves(fields[n - 1].1, path + [Name(fields[n - 1].0)], depth + 1)
  }

  /** `flattenRecord(value)` on a whole record. */
  function Flatten(v: Json): seq<LeafEntry>
  {
    Leaves(v, [], 0)
  }

  /** `flattenRecord(value, path, depth, acc)`: pushes the leaves of `value` onto `acc`. */
  method FlattenRecord(value: Json, path: seq<Segment>, depth: nat, acc: seq<LeafEntry>)
    returns (out: seq<LeafEntry>)
    ensures out == acc + Leaves(value, path, depth)
    decreases value, 1
  {
    match value
    case JArr(items) =>
      out := acc;
      var i := 0;
      while i < |items|
        invariant 0 <= i <= |items|
        invariant out == acc + ItemLeaves(items, i, path, depth)
      {
        out := FlattenRecord(items[i], path + [Idx(i)], depth + 1, out);
        i := i + 1;
      }
    case JObj(fields) =>
      out := acc;
      var i := 0;
      while i < |fields|
        invariant 0 <= i <= |fields|
        invariant out == acc + FieldLeaves(fields, i, path, depth)
      {
        var (key, val) := fields[i];
        out := FlattenRecord(val, path + [Name(key)], depth + 1, out);
        i := i + 1;
      }
    case _ =>
      out := acc + [EntryAt(path, depth, value)];
  }

  /** The child of `v` under one segment, if there is one. */
  function Child(v: Json, seg: Segment): Option<Json>
  {
    if v.JArr? && seg.Idx? then
      (if seg.i < |v.items| then Some(v.items[seg.i]) else None)
    else if v.JObj? && seg.Name? then Lookup(v.fields, seg.k)
    else None
  }

  /** The value reached from `v` by following `segs`, if any. */
  function Select(v: Json, segs: seq<Segment>): Option<Json>
    decreases |segs|
  {
    if segs == [] then Some(v)
    else
      match Child(v, segs[0])
      case Some(c) => Select(c, segs[1..])
      case None => None
  }

  /** The number of non-container values inside `v`, counted without paths. */
  function ScalarCount(v: Json): nat
    decreases v, 1
  {
    match v
    case JArr(items) => ItemCount(items, |items|)
    case JObj(fields) => FieldCount(fields, |fields|)
    case _ => 1
  }

  function ItemCount(items: seq<Json>, n: nat): nat
    requires n <= |items|
    decreases JArr(items), 0, n
  {
    if n == 0 then 0 else ItemCount(items, n - 1) + ScalarCount(items[n - 1])
  }

  function FieldCount(fields: seq<(string, Json)>, n: nat): nat
    requires n <= |fields|
    decreases JObj(fields), 0, n
  {
    if n == 0 then 0 else FieldCount(fields, n - 1) + ScalarCount(fields[n - 1].1)
  }

  /** `flattenRecord` emits exactly as many entries as there are non-container values. */
  lemma {:induction false} LeavesCount(v: Json, path: seq<Segment>, depth: nat)
    ensures |Leaves(v, path, depth)| == ScalarCount(v)
    decreases v, 1
  {
    match v
    case JArr(items) => ItemLeavesCount(items, |items|, path, depth);
    case JObj(fields) => FieldLeavesCount(fields, |fields|, path, depth);
    case _ =>
  }

  lemma {:induction false} ItemLeavesCount(items: seq<Json>, n: nat, path: seq<Segment>, depth: nat)
    requires n <= |items|
    ensures |ItemLeaves(items, n, path, depth)| == ItemCount(items, n)
    decreases JArr(items), 0, n
  {
    if n > 0 {
      ItemLeavesCount(items, n - 1, path, depth);
      LeavesCount(items[n - 1], path + [Idx(n - 1)], depth + 1);
    }
  }

  lemma {:induction false} FieldLeavesCount(fields: seq<(string, Json)>, n: nat, path: seq<Segment>, depth: nat)
    requires n <= |fields|
    ensures |FieldLeaves(fields, n, path, depth)| == FieldCount(fields, n)
    decreases JObj(fields), 0, n
  {
    if n > 0 {
      FieldLeavesCount(fields, n - 1, path, depth);
      LeavesCount(fields[n - 1].1, path + [Name(fields[n - 1].0)], depth + 1);
    }
  }

  /** An entry of the first `n` items comes from one of them. */
  lemma {:induction false} ItemLeavesMember(items: seq<Json>, n: nat, path: seq<Segment>, depth: nat, e: LeafEntry)
    requires n <= |items|
    ensures e in ItemLeaves(items, n, path, depth) <==>
      exists i :: 0 <= i < n && e in Leaves(items[i], path + [Idx(i)], depth + 1)
  {
    if n > 0 {
      ItemLeavesMember(items, n - 1, path, depth, e);
      var last := Leaves(items[n - 1], path + [Idx(n - 1)], depth + 1);
      assert ItemLeaves(items, n, path, depth) == ItemLeaves(items, n - 1, path, depth) + last;
      if e in last {
        assert e in Leaves(items[n - 1], path + [Idx(n - 1)], depth + 1);
      } else if e !in ItemLeaves(items, n - 1, path, depth) {
        forall i | 0 <= i < n ensures e !in Leaves(items[i], path + [Idx(i)], depth + 1) {
          if i == n - 1 {
            assert e !in last;
          }
        }
      }
    }
  }

  /** An entry of the first `n` fields comes from one of them. */
  lemma {:induction false} FieldLeavesMember(fields: seq<(string, Json)>, n: nat, path: seq<Segment>, depth: nat, e: LeafEntry)
    requires n <= |fields|
    ensures e in FieldLeaves(fields, n, path, depth) <==>
      exists i :: 0 <= i < n && e in Leaves(fields[i].1, path + [Name(fields[i].0)], depth + 1)
  {
    if n > 0 {
      FieldLeavesMember(fields, n - 1, path, depth, e);
      var last := Leaves(fields[n - 1].1, path + [Name(fields[n - 1].0)], depth + 1);
      assert FieldLeaves(fields, n, path, depth) == FieldLeaves(fields, n - 1, path, depth) + last;
      if e in last {
        assert e in Leaves(fields[n - 1].1, path + [Name(fields[n - 1].0)], depth + 1);
      } else if e !in FieldLeaves(fields, n - 1, path, depth) {
        forall i | 0 <= i < n ensures e !in Leaves(fields[i].1, path + [Name(fields[i].0)], depth + 1) {
          if i == n - 1 {
            assert e !in last;
          }
        }
      }
    }
  }

  /** Containers, empty ones included, never become entries. */
  lemma {:induction false} LeavesAreScalars(v: Json, path: seq<Segment>, depth: nat, e: LeafEntry)
    requires e in Leaves(v, path, depth)
    ensures !IsContainer(e.value)
    decreases v
  {
    match v
    case JArr(items) =>
      ItemLeavesMember(items, |items|, path, depth, e);
      var i :| 0 <= i < |items| && e in Leaves(items[i], path + [Idx(i)], depth + 1);
      LeavesAreScalars(items[i], path + [Idx(i)], depth + 1, e);
    case JObj(fields) =>
      FieldLeavesMember(fields, |fields|, path, depth, e);
      var i :| 0 <= i < |fields| && e in Leaves(fields[i].1, path + [Name(fields[i].0)], depth + 1);
      LeavesAreScalars(fields[i].1, path + [Name(fields[i].0)], depth + 1, e);
    case _ =>
  }

  /**
   * `e` is the entry of the value at relative position `rel` inside `v`,
   * when `v` itself sits at `path` and `depth`.
   */
  predicate LocatedAt(e: LeafEntry, v: Json, path: seq<Segment>, depth: nat, rel: seq<Segment>)
  {
    && e == EntryAt(path + rel, depth + |rel|, e.value)
    && Select(v, rel) == Some(e.value)
  }

  /**
   * Every entry describes a scalar inside `v`: it sits at some relative
   * position `rel`, its depth counts the path segments, its key is the
   * last segment and its value is the value found there.
   */
  lemma {:induction false} LeavesSound(v: Json, path: seq<Segment>, depth: nat, e: LeafEntry)
    requires WellFormed(v)
    requires e in Leaves(v, path, depth)
    ensures exists rel: seq<Segment> :: LocatedAt(e, v, path, depth, rel)
    decreases v
  {
    if v.JArr? {
      var items := v.items;
      ItemLeavesMember(items, |items|, path, depth, e);
      var i :| 0 <= i < |items| && e in Leaves(items[i], path + [Idx(i)], depth + 1);
      LeavesSound(items[i], path + [Idx(i)], depth + 1, e);
      var rel :| LocatedAt(e, items[i], path + [Idx(i)], depth + 1, rel);
      StepInto(v, Idx(i), items[i], path, depth, rel, e);
      assert LocatedAt(e, v, path, depth, [Idx(i)] + rel);
    } else if v.JObj? {
      var fields := v.fields;
      FieldLeavesMember(fields, |fields|, path, depth, e);
      var i :| 0 <= i < |fields| && e in Leaves(fields[i].1, path + [Name(fields[i].0)], depth + 1);
      LeavesSound(fields[i].1, path + [Name(fields[i].0)], depth + 1, e);
      var rel :| LocatedAt(e, fields[i].1, path + [Name(fields[i].0)], depth + 1, rel);
      FirstLookup(fields, i);
      StepInto(v, Name(fields[i].0), fields[i].1, path, depth, rel, e);
      assert LocatedAt(e, v, path, depth, [Name(fields[i].0)] + rel);
    } else {
      var rel: seq<Segment> := [];
      assert path + rel == path;
      assert LocatedAt(e, v, path, depth, rel);
    }
  }

  /** An entry found one segment down is found from `v` along the longer path. */
  lemma StepInto(v: Json, seg: Segment, c: Json, path: seq<Segment>, depth: nat, rel: seq<Segment>, e: LeafEntry)
    requires Child(v, seg) == Some(c)
    requires LocatedAt(e, c, path + [seg], depth + 1, rel)
    ensures LocatedAt(e, v, path, depth, [seg] + rel)
  {
    var full := [seg] + rel;
    assert path + [seg] + rel == path + full;
    assert full[0] == seg && full[1..] == rel;
  }

  /** With unique keys, looking up the `i`-th key finds the `i`-th value. */
  lemma {:induction false} FirstLookup(fields: seq<(string, Json)>, i: nat)
    requires UniqueKeys(fields) && i < |fields|
    ensures Lookup(fields, fields[i].0) == Some(fields[i].1)
  {
    if i > 0 {
      assert fields[0].0 != fields[i].0;
      assert fields[1..][i - 1] == fields[i];
      FirstLookup(fields[1..], i - 1);
    }
  }

  /** Every non-container value inside `v`, `null` included, receives an entry. */
  lemma {:induction false} LeavesComplete(v: Json, path: seq<Segment>, depth: nat, rel: seq<Segment>, x: Json)
    requires Select(v, rel) == Some(x) && !IsContainer(x)
    ensures EntryAt(path + rel, depth + |rel|, x) in Leaves(v, path, depth)
    decreases |rel|
  {
    if rel == [] {
      assert path + rel == path;
    } else {
      var c := Child(v, rel[0]).value;
      LeavesComplete(c, path + [rel[0]], depth + 1, rel[1..], x);
      assert path + [rel[0]] + rel[1..] == path + rel;
      ChildLeaves(v, rel[0], path, depth, EntryAt(path + rel, depth + |rel|, x));
    }
  }

  /** The entries of a child are entries of its parent. */
  lemma ChildLeaves(v: Json, seg: Segment, path: seq<Segment>, depth: nat, e: LeafEntry)
    requires Child(v, seg).Some?
    requires e in Leaves(Child(v, seg).value, path + [seg], depth + 1)
    ensures e in Leaves(v, path, depth)
  {
    if v.JArr? {
      ItemLeavesMember(v.items, |v.items|, path, depth, e);
    } else {
      var fields, k := v.fields, seg.k;
      var j :| 0 <= j < |fields| && fields[j] == (k, Lookup(fields, k).value);
      FieldLeavesMember(fields, |fields|, path, depth, e);
    }
  }

  /** The entries of the first `n` fields do not depend on the fields after them. */
  lemma {:induction false} FieldLeavesPrefix(fields: seq<(string, Json)>, more: seq<(string, Json)>, n: nat, path: seq<Segment>, depth: nat)
    requires n <= |fields|
    ensures FieldLeaves(fields + more, n, path, depth) == FieldLeaves(fields, n, path, depth)
  {
    if n > 0 {
      FieldLeavesPrefix(fields, more, n - 1, path, depth);
      assert (fields + more)[n - 1] == fields[n - 1];
    }
  }

  lemma {:induction false} FieldLeavesShift(a: seq<(string, Json)>, b: seq<(string, Json)>, k: nat, path: seq<Segment>, depth: nat)
    requires k <= |b|
    ensures FieldLeaves(a + b, |a| + k, path, depth) == FieldLeaves(a, |a|, path, depth) + FieldLeaves(b, k, path, depth)
  {
    if k == 0 {
      FieldLeavesPrefix(a, b, |a|, path, depth);
    } else {
      FieldLeavesShift(a, b, k - 1, path, depth);
      assert (a + b)[|a| + k - 1] == b[k - 1];
    }
  }

  /**
   * Document order: the entries of an object's earlier fields all come
   * before the entries of its later fields, each group in its own order.
   */
  lemma FieldsInOrder(a: seq<(string, Json)>, b: seq<(string, Json)>, path: seq<Segment>, depth: nat)
    ensures Leaves(JObj(a + b), path, depth) == Leaves(JObj(a), path, depth) + Leaves(JObj(b), path, depth)
  {
    FieldLeavesShift(a, b, |b|, path, depth);
  }

  /**
   * Document order in an array: the entries of its first `n` items, each
   * under its index, are the start of the array's entries.
   */
  lemma {:induction false} ItemsInOrder(items: seq<Json>, n: nat, path: seq<Segment>, depth: nat)
    requires n <= |items|
    ensures ItemLeaves(items, n, path, depth) <= Leaves(JArr(items), path, depth)
    decreases |items| - n
  {
    if n < |items| {
      ItemsInOrder(items, n + 1, path, depth);
      var longer := ItemLeaves(items, n + 1, path, depth);
      assert ItemLeaves(items, n, path, depth) <= longer;
    }
  }

  /** `flattenRecord({a: {b: 1, c: 2}, d: 3})`: depth-first, in key order. */
  lemma FlattenExample()
    ensures Flatten(JObj([("a", JObj([("b", JNum(1)), ("c", JNum(2))])), ("d", JNum(3))]))
      == [LeafEntry("a.b", Name("b"), 2, JNum(1)),
          LeafEntry("a.c", Name("c"), 2, JNum(2)),
          LeafEntry("d", Name("d"), 1, JNum(3))]
  {
    var fs := [("b", JNum(1)), ("c", JNum(2))];
    var top := [("a", JObj(fs)), ("d", JNum(3))];
    var pa, pd := [Name("a")], [Name("d")];
    JoinPathSnoc([], Name("a"));
    JoinPathSnoc([], Name("d"));
    JoinPathSnoc(pa, Name("b"));
    JoinPathSnoc(pa, Name("c"));
    assert [] + pa == pa && [] + pd == pd;
    var ab, ac := LeafEntry("a.b", Name("b"), 2, JNum(1)), LeafEntry("a.c", Name("c"), 2, JNum(2));
    assert JoinPath(pa) == "a";
    assert JoinPath(pa + [Name("b")]) == "a" + "." + "b" == "a.b";
    assert JoinPath(pa + [Name("c")]) == "a" + "." + "c" == "a.c";
    assert Leaves(JNum(1), pa + [Name("b")], 2) == [ab];
    assert Leaves(JNum(2), pa + [Name("c")], 2) == [ac];
    assert FieldLeaves(fs, 1, pa, 1) == [ab];
    assert FieldLeaves(fs, 2, pa, 1) == [ab, ac];
    assert FieldLeaves(top, 1, [], 0) == [ab, ac];
    assert Leaves(JNum(3), [] + pd, 1) == [LeafEntry("d", Name("d"), 1, JNum(3))];
  }

  /** `flattenRecord` of a scalar is the single root entry, with path and key `''`. */
  lemma FlattenScalar(v: Json)
    requires !IsContainer(v)
    ensures Flatten(v) == [LeafEntry("", Name(""), 0, v)]
  {
  }

  /**
   * The normalised path ends with the normalised key: the exact-key bonus
   * of the resolver always comes with the path-suffix bonus.
   */
  lemma PathTokenEndsWithKeyToken(segs: seq<Segment>)
    ensures EndsWith(TokenOf(JoinPath(segs)), KeyToken(KeyOf(segs)))
  {
    if segs != [] {
      var last := segs[|segs| - 1];
      if |segs| == 1 {
        assert JoinPath(segs) == SegmentText(last);
      } else {
        var init := segs[..|segs| - 1];
        assert segs == init + [last];
        JoinPathSnoc(init, last);
        TokenAppend(JoinPath(init) + ".", SegmentText(last));
      }
    }
  }

  /** `normalizeToken(entry.key)`, as the token of the key's text. */
  function KeyToken(k: Segment): string
  {
    TokenOf(SegmentText(k))
  }

  /** The key token is what `normalizeToken` makes of the key, index or name. */
  lemma KeyTokenNormalizes(k: Segment)
    ensures NormalizeToken(SegmentValue(k)) == KeyToken(k)
  {
    match k
    case Idx(i) =>
    case Name(n) =>
  }

  /** `normalizeToken` of a path string is its token. */
  lemma PathToken(s: string)
    ensures NormalizeToken(JStr(s)) == TokenOf(s)
  {
  }

  lemma TokenAppend(a: string, b: string)
    ensures EndsWith(TokenOf(a + b), TokenOf(b))
  {
    LowerAppend(a, b);
    KeepAlnumAppend(Lower(a), Lower(b));
    var t := TokenOf(a + b);
    assert t == TokenOf(a) + TokenOf(b);
    assert t[|t| - |TokenOf(b)|..] == TokenOf(b);
  }
}
