/**
 * The key-substring tests of the scraper (scripts/fetch-characters.mjs):
 * `isCharacterLike`, `isStatsObject` and `isSkillLike`, and the node tests
 * `findCharacterArray`, `findCharacterObject` and `normalizeCharacter` hand
 * to `findMatchingNode`.
 */
module ShapeTests {
  import opened Text
  import opened JsonValues
  import opened ObjectGraph

  const CHARACTER_HINTS: seq<string> := ["nikkename", "name", "code", "burst", "manufacturer"]
  const STATS_HINTS: seq<string> := ["power", "hp", "atk", "def"]
  const SKILL_HINTS: seq<string> := ["skill", "cooldown", "trigger"]

  /** `keys.some((key) => key.includes(hint))` over the lower-cased keys. */
  predicate HintInKeys(keys: seq<string>, hint: string)
  {
    exists k :: k in keys && Contains(Lower(k), hint)
  }

  /** `hints.filter((hint) => keys.some(…))`. */
  function MatchedHints(keys: seq<string>, hints: seq<string>): (r: seq<string>)
    ensures |r| <= |hints|
  {
    if hints == [] then []
    else MatchedHints(keys, hints[..|hints| - 1]) + (if HintInKeys(keys, hints[|hints| - 1]) then [hints[|hints| - 1]] else [])
  }

  /** `isCharacterLike(entry)`: at least two of the character hints occur in its keys. */
  predicate IsCharacterLike(h: Heap, v: Val)
  {
    IsObject(h, v) && |MatchedHints(Keys(h[v.r]), CHARACTER_HINTS)| >= 2
  }

  /** `isStatsObject(entry)`: an object (not an array) whose keys hold every stat hint. */
  predicate IsStatsObject(h: Heap, v: Val)
  {
    IsObject(h, v) && h[v.r].NObj? && forall i :: 0 <= i < |STATS_HINTS| ==> HintInKeys(Keys(h[v.r]), STATS_HINTS[i])
  }

  /** `isSkillLike(entry)`: its keys hold some skill hint. */
  predicate IsSkillLike(h: Heap, v: Val)
  {
    IsObject(h, v) && exists i :: 0 <= i < |SKILL_HINTS| && HintInKeys(Keys(h[v.r]), SKILL_HINTS[i])
  }

  /** A non-empty array every element of which passes `isCharacterLike`. */
  predicate IsCharacterArray(h: Heap, r: nat)
    requires r in h
  {
    h[r].NArr? && |h[r].items| > 0 && forall i :: 0 <= i < |h[r].items| ==> IsCharacterLike(h, h[r].items[i])
  }

  /** A non-empty array every element of which passes `isSkillLike`. */
  predicate IsSkillArray(h: Heap, r: nat)
    requires r in h
  {
    h[r].NArr? && |h[r].items| > 0 && forall i :: 0 <= i < |h[r].items| ==> IsSkillLike(h, h[r].items[i])
  }

  /** `candidate.toLowerCase() === key.toLowerCase()`. */
  predicate SameKey(candidate: string, key: string)
  {
    Lower(candidate) == Lower(key)
  }

  /** The first of `keys` that is the same key as `key`, ignoring case, with its index. */
  function FirstSameKey(keys: seq<string>, key: string): (r: Option<nat>)
    ensures r.Some? ==> r.value < |keys| && SameKey(keys[r.value], key)
    ensures r.Some? ==> forall j :: 0 <= j < r.value ==> !SameKey(keys[j], key)
    ensures r.None? ==> forall j :: 0 <= j < |keys| ==> !SameKey(keys[j], key)
  {
    if keys == [] then None
    else if SameKey(keys[0], key) then Some(0)
    else match FirstSameKey(keys[1..], key)
      case Some(k) => Some(k + 1)
      case None => None
  }

  /**
   * The node tests given to `findMatchingNode`, and the test the queue loop
   * of `pickValue` applies to each object: a field that is the same key.
   */
  datatype Target = CharacterArray | CharacterObject | StatsObject | KeyHolder(key: string)

  predicate Matches(h: Heap, t: Target, r: nat)
    requires r in h
  {
    match t
    case CharacterArray => IsCharacterArray(h, r)
    case CharacterObject => IsCharacterLike(h, VRef(r))
    case StatsObject => IsStatsObject(h, VRef(r))
    case KeyHolder(key) => h[r].NObj? && FirstSameKey(Keys(h[r]), key).Some?
  }

  /** A hint is counted exactly when it occurs in some key. */
  lemma {:induction false} MatchedHintsIff(keys: seq<string>, hints: seq<string>, x: string)
    ensures x in MatchedHints(keys, hints) <==> x in hints && HintInKeys(keys, x)
  {
    if hints != [] {
      MatchedHintsIff(keys, hints[..|hints| - 1], x);
      assert hints == hints[..|hints| - 1] + [hints[|hints| - 1]];
    }
  }

  /** Two distinct hints found in the keys make a node character-like. */
  lemma {:induction false} TwoHintsMakeCharacter(h: Heap, r: nat, a: nat, b: nat)
    requires r in h && a < b < |CHARACTER_HINTS|
    requires HintInKeys(Keys(h[r]), CHARACTER_HINTS[a]) && HintInKeys(Keys(h[r]), CHARACTER_HINTS[b])
    ensures IsCharacterLike(h, VRef(r))
  {
    var keys := Keys(h[r]);
    var m := MatchedHints(keys, CHARACTER_HINTS);
    MatchedHintsIff(keys, CHARACTER_HINTS, CHARACTER_HINTS[a]);
    MatchedHintsIff(keys, CHARACTER_HINTS, CHARACTER_HINTS[b]);
    HintsDistinct();
    MatchedDistinct(keys, CHARACTER_HINTS);
    var i :| 0 <= i < |m| && m[i] == CHARACTER_HINTS[a];
    var j :| 0 <= j < |m| && m[j] == CHARACTER_HINTS[b];
    assert i != j;
  }

  lemma HintsDistinct()
    ensures forall i, j :: 0 <= i < j < |CHARACTER_HINTS| ==> CHARACTER_HINTS[i] != CHARACTER_HINTS[j]
  {
  }

  /** The counted hints are listed without repetition when the hints are. */
  lemma {:induction false} MatchedDistinct(keys: seq<string>, hints: seq<string>)
    requires forall i, j :: 0 <= i < j < |hints| ==> hints[i] != hints[j]
    ensures forall i, j :: 0 <= i < j < |MatchedHints(keys, hints)| ==> MatchedHints(keys, hints)[i] != MatchedHints(keys, hints)[j]
  {
    if hints != [] {
      var init := hints[..|hints| - 1];
      MatchedDistinct(keys, init);
      var last := hints[|hints| - 1];
      MatchedHintsIff(keys, init, last);
      assert last !in init;
    }
  }

  /** With fewer than two hints found in its keys, a node is not character-like. */
  lemma OneHintIsNotEnough(h: Heap, r: nat, a: nat)
    requires r in h && a < |CHARACTER_HINTS|
    requires forall i :: 0 <= i < |CHARACTER_HINTS| && i != a ==> !HintInKeys(Keys(h[r]), CHARACTER_HINTS[i])
    ensures !IsCharacterLike(h, VRef(r))
  {
    var keys := Keys(h[r]);
    var m := MatchedHints(keys, CHARACTER_HINTS);
    MatchedDistinct(keys, CHARACTER_HINTS);
    if |m| >= 2 {
      MatchedHintsIff(keys, CHARACTER_HINTS, m[0]);
      MatchedHintsIff(keys, CHARACTER_HINTS, m[1]);
      assert false;
    }
  }

  /**
   * A `nikkeName` key holds two hints, `nikkename` and `name`, so any object
   * with that key is character-like, whatever its other keys.
   */
  lemma {:induction false} NikkeNameIsCharacter(h: Heap, r: nat)
    requires r in h && h[r].NObj? && "nikkeName" in Keys(h[r])
    ensures IsCharacterLike(h, VRef(r))
  {
    NikkeNameHints();
    TwoHintsMakeCharacter(h, r, 0, 1);
  }

  lemma NikkeNameHints()
    ensures Contains(Lower("nikkeName"), "nikkename") && Contains(Lower("nikkeName"), "name")
  {
    NikkeNameLower();
    ContainsSelf("nikkename");
    NameInNikkename();
  }

  lemma NameInNikkename()
    ensures Contains("nikkename", "name")
  {
    assert "nikkename"[5..9] == "name";
    ContainsAt("nikkename", "name", 5);
  }

  lemma NikkeNameLower()
    ensures Lower("nikkeName") == "nikkename"
  {
    var a, b := "nikke", "Name";
    LowerAppend(a, b);
    LowerNoUpper(a);
    LowerName();
    SplitNikkeName();
  }

  lemma SplitNikkeName()
    ensures "nikke" + "Name" == "nikkeName" && "nikke" + "name" == "nikkename"
  {
  }

  lemma LowerName()
    ensures Lower("Name") == "name"
  {
    LowerNoUpper("ame");
    assert "Name"[1..] == "ame";
    assert LowerChar('N') == 'n';
  }
}
