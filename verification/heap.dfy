/**
 * The object graph the scraper (scripts/fetch-characters.mjs) walks. A
 * parsed page can share objects, so an array or object is a node of a heap
 * and is referred to by its identity; the `seen` sets of the breadth-first
 * searches hold such identities.
 */
module ObjectGraph {
  import opened Text

  /** A JavaScript value: a primitive, or a reference to an array or object. */
  datatype Val = VNull | VBool(b: bool) | VNum(n: int) | VStr(s: string) | VRef(r: nat)

  /** An array or an object; an object's fields are in enumeration order. */
  datatype Node = NArr(items: seq<Val>) | NObj(fields: seq<(string, Val)>)

  type Heap = map<nat, Node>

  /** JavaScript `ToBoolean`. */
  predicate Truthy(v: Val)
  {
    match v
    case VNull => false
    case VBool(b) => b
    case VNum(n) => n != 0
    case VStr(s) => s != ""
    case VRef(_) => true
  }

  /** `value && typeof value === 'object'`: a reference to a node of the heap. */
  predicate IsObject(h: Heap, v: Val)
  {
    v.VRef? && v.r in h
  }

  /** `Object.values(node)`: the items of an array, the field values of an object. */
  function Children(n: Node): (r: seq<Val>)
    ensures n.NArr? ==> r == n.items
    ensures n.NObj? ==> |r| == |n.fields| && forall i :: 0 <= i < |r| ==> r[i] == n.fields[i].1
  {
    match n
    case NArr(items) => items
    case NObj(fields) => seq(|fields|, i requires 0 <= i < |fields| => fields[i].1)
  }

  /** `Object.keys(node)`: the indices of an array as decimal strings, the field names of an object. */
  function Keys(n: Node): (r: seq<string>)
    ensures n.NArr? ==> |r| == |n.items|
    ensures n.NObj? ==> |r| == |n.fields| && forall i :: 0 <= i < |r| ==> r[i] == n.fields[i].0
  {
    match n
    case NArr(items) => seq(|items|, i requires 0 <= i < |items| => NatToString(i))
    case NObj(fields) => seq(|fields|, i requires 0 <= i < |fields| => fields[i].0)
  }
}
