/**
 * The record normaliser of the scraper (scripts/fetch-characters.mjs):
 * `collectSkillEntries` and `normalizeSkills`, the object literal built by
 * `normalizeCharacter`, and the searches that locate the character data in
 * a page (`findCharacterArray`, `findCharacterObject`,
 * `ensureCharacterDetail`).
 */
module CharacterRecords {
  import opened JsonValues
  import opened ObjectGraph
  import opened ShapeTests
  import opened BreadthFirst
  import opened Picking

  /** The nodes of `vs` that are non-empty arrays of skill-like elements, in order. */
  function SkillArrays(h: Heap, vs: seq<nat>): (r: seq<nat>)
    requires forall i :: 0 <= i < |vs| ==> vs[i] in h
    ensures forall x :: x in r <==> x in vs && IsSkillArray(h, x)
  {
    if vs == [] then []
    else
      var last := vs[|vs| - 1];
      SkillArrays(h, vs[..|vs| - 1]) + (if IsSkillArray(h, last) then [last] else [])
  }

  /**
   * `collectSkillEntries(root)`: the skill arrays among the nodes `traverse`
   * visits, in the order it visits them.
   */
  function CollectSkillEntries(h: Heap, root: Val): seq<nat>
  {
    SkillArrays(h, Visits(h, [root], {}))
  }

  /** `collectSkillEntries(root)`, with the visitor run on each node `traverse` reaches. */
  method CollectSkillEntriesRun(h: Heap, root: Val) returns (result: seq<nat>)
    ensures result == CollectSkillEntries(h, root)
  {
    var visited := Traverse(h, root);
    result := [];
    var i := 0;
    while i < |visited|
      invariant 0 <= i <= |visited|
      invariant result == SkillArrays(h, visited[..i])
    {
      assert visited[..i + 1][..i] == visited[..i];
      if IsSkillArray(h, visited[i]) {
        result := result + [visited[i]];
      }
      i := i + 1;
    }
    assert visited[..|visited|] == visited;
  }

  /**
   * A node is collected exactly when the traversal visits it and it is a
   * non-empty array of skill-like elements; each is collected once.
   */
  lemma CollectedSkillArrays(h: Heap, root: Val, x: nat)
    ensures x in CollectSkillEntries(h, root) <==> x in Visits(h, [root], {}) && IsSkillArray(h, x)
    ensures forall i, j :: 0 <= i < j < |CollectSkillEntries(h, root)| ==>
      CollectSkillEntries(h, root)[i] != CollectSkillEntries(h, root)[j]
  {
    SkillArraysDistinct(h, Visits(h, [root], {}));
  }

  lemma {:induction false} SkillArraysDistinct(h: Heap, vs: seq<nat>)
    requires forall i :: 0 <= i < |vs| ==> vs[i] in h
    requires forall i, j :: 0 <= i < j < |vs| ==> vs[i] != vs[j]
    ensures forall i, j :: 0 <= i < j < |SkillArrays(h, vs)| ==> SkillArrays(h, vs)[i] != SkillArrays(h, vs)[j]
  {
    if vs != [] {
      var init := vs[..|vs| - 1];
      SkillArraysDistinct(h, init);
      var last := vs[|vs| - 1];
      assert last !in init;
      assert last !in SkillArrays(h, init);
    }
  }

  /** One output field of a normalised skill: its key, and the alias `||` falls back to. */
  datatype SkillField = SkillField(name: string, key: string, alt: Option<string>)

  const SKILL_FIELDS: seq<SkillField> := [
    SkillField("skillName", "skillName", Some("name")),
    SkillField("skillRank", "skillRank", Some("rank")),
    SkillField("type", "type", None),
    SkillField("cooldown", "cooldown", None),
    SkillField("trigger", "trigger", None),
    SkillField("triggerQuantity", "triggerQuantity", Some("triggerCount")),
    SkillField("effect", "effect", Some("description")),
    SkillField("magnitude", "magnitude", None),
    SkillField("maxStacks", "maxStacks", Some("maxStack")),
    SkillField("magnitudeProperty", "magnitudeProperty", None),
    SkillField("target", "target", None),
    SkillField("targetCondition", "targetCondition", None),
    SkillField("casterCondition", "casterCondition", None),
    SkillField("duration", "duration", None)
  ]

  /** A normalised skill: field names with their values, in the literal's order. */
  type SkillRecord = seq<(string, Val)>

  /** `pickValue(skill, key) || pickValue(skill, alt)`, or `pickValue(skill, key)` alone. */
  function SkillFieldValue(h: Heap, skill: Val, f: SkillField): Val
  {
    var v := PickValue(h, skill, f.key);
    if f.alt.Some? && !Truthy(v) then PickValue(h, skill, f.alt.value) else v
  }

  /** The object `normalizeSkills` maps one skill to. */
  function NormalizeSkill(h: Heap, skill: Val): (r: SkillRecord)
    ensures |r| == |SKILL_FIELDS|
    ensures forall i :: 0 <= i < |r| ==> r[i] == (SKILL_FIELDS[i].name, SkillFieldValue(h, skill, SKILL_FIELDS[i]))
  {
    seq(|SKILL_FIELDS|, i requires 0 <= i < |SKILL_FIELDS| => (SKILL_FIELDS[i].name, SkillFieldValue(h, skill, SKILL_FIELDS[i])))
  }

  /**
   * With `||`, a falsy first alias gives way to the second: `0`, `false`
   * and `''` fall through, unlike in `pickFirst`.
   */
  lemma FalsyFallsThrough(h: Heap, skill: Val, f: SkillField)
    requires f.alt.Some? && !Truthy(PickValue(h, skill, f.key))
    ensures SkillFieldValue(h, skill, f) == PickValue(h, skill, f.alt.value)
  {
  }

  /** `Object.values(item).some(Boolean)`. */
  predicate Meaningful(rec: SkillRecord)
  {
    exists i | 0 <= i < |rec| :: Truthy(rec[i].1)
  }

  /** The items of an array node. */
  function ArrayOf(h: Heap, r: nat): seq<Val>
  {
    if r in h && h[r].NArr? then h[r].items else []
  }

  /** `collection.map(normalizeSkill)`. */
  function NormalizedSkills(h: Heap, items: seq<Val>): (r: seq<SkillRecord>)
    ensures |r| == |items|
  {
    seq(|items|, i requires 0 <= i < |items| => NormalizeSkill(h, items[i]))
  }

  /** `.filter(…)`: the meaningful records, in order. */
  function KeepMeaningful(recs: seq<SkillRecord>): (r: seq<SkillRecord>)
    ensures |r| <= |recs|
    ensures forall k :: 0 <= k < |r| ==> Meaningful(r[k])
  {
    if recs == [] then []
    else
      var rec := recs[|recs| - 1];
      KeepMeaningful(recs[..|recs| - 1]) + (if Meaningful(rec) then [rec] else [])
  }

  /** `collection.map(…).filter(…)`: the meaningful normalised skills, in order. */
  function MeaningfulSkills(h: Heap, items: seq<Val>): seq<SkillRecord>
  {
    KeepMeaningful(NormalizedSkills(h, items))
  }

  /** The filter keeps a record exactly when it is meaningful. */
  lemma {:induction false} KeepMeaningfulIff(recs: seq<SkillRecord>, rec: SkillRecord)
    ensures rec in KeepMeaningful(recs) <==> Meaningful(rec) && rec in recs
  {
    if recs != [] {
      var init := recs[..|recs| - 1];
      KeepMeaningfulIff(init, rec);
      assert recs == init + [recs[|recs| - 1]];
    }
  }

  /** A normalised skill is kept exactly when it is meaningful. */
  lemma MeaningfulSkillsIff(h: Heap, items: seq<Val>, rec: SkillRecord)
    ensures rec in MeaningfulSkills(h, items) <==>
      Meaningful(rec) && exists j :: 0 <= j < |items| && rec == NormalizeSkill(h, items[j])
  {
    var recs := NormalizedSkills(h, items);
    KeepMeaningfulIff(recs, rec);
    if rec in recs {
      var j :| 0 <= j < |recs| && recs[j] == rec;
      assert rec == NormalizeSkill(h, items[j]);
    }
    if exists j :: 0 <= j < |items| && rec == NormalizeSkill(h, items[j]) {
      var j :| 0 <= j < |items| && rec == NormalizeSkill(h, items[j]);
      assert recs[j] == rec;
    }
  }

  /** The array node `c` holds a meaningful skill. */
  predicate HasMeaningful(h: Heap, c: nat)
  {
    MeaningfulSkills(h, ArrayOf(h, c)) != []
  }

  /** Whether each collection holds a meaningful skill, in order. */
  function MeaningfulFlags(h: Heap, collections: seq<nat>): (flags: seq<bool>)
    ensures |flags| == |collections|
    ensures forall j :: 0 <= j < |flags| ==> (flags[j] <==> HasMeaningful(h, collections[j]))
  {
    seq(|collections|, j requires 0 <= j < |collections| => HasMeaningful(h, collections[j]))
  }

  /** The index of the first collection with a meaningful skill. */
  function FirstMeaningful(h: Heap, collections: seq<nat>): (r: Option<nat>)
    ensures r.Some? ==> r.value < |collections| && HasMeaningful(h, collections[r.value])
    ensures r.Some? ==> forall j :: 0 <= j < r.value ==> !HasMeaningful(h, collections[j])
    ensures r.None? ==> forall j :: 0 <= j < |collections| ==> !HasMeaningful(h, collections[j])
  {
    var flags := MeaningfulFlags(h, collections);
    var r := FirstSet(flags, 0);
    assert r.None? ==> forall j :: 0 <= j < |collections| ==> !flags[j];
    r
  }

  /** The index of the first set flag from `start` on. */
  function FirstSet(flags: seq<bool>, start: nat): (r: Option<nat>)
    requires start <= |flags|
    ensures r.Some? ==> start <= r.value < |flags| && flags[r.value]
    ensures r.Some? ==> forall j :: start <= j < r.value ==> !flags[j]
    ensures r.None? ==> forall j :: start <= j < |flags| ==> !flags[j]
    decreases |flags| - start
  {
    if start == |flags| then None
    else if flags[start] then Some(start)
    else FirstSet(flags, start + 1)
  }

  /**
   * `normalizeSkills(collections)`: the meaningful skills of the first
   * collection that has any, otherwise `[]`.
   */
  function NormalizeSkills(h: Heap, collections: seq<nat>): seq<SkillRecord>
  {
    match FirstMeaningful(h, collections)
    case Some(k) => MeaningfulSkills(h, ArrayOf(h, collections[k]))
    case None => []
  }

  /** `normalizeSkills(collections)`, collection by collection with an early return. */
  method NormalizeSkillsRun(h: Heap, collections: seq<nat>) returns (r: seq<SkillRecord>)
    ensures r == NormalizeSkills(h, collections)
  {
    var c := 0;
    while c < |collections|
      invariant 0 <= c <= |collections|
      invariant forall j :: 0 <= j < c ==> !HasMeaningful(h, collections[j])
    {
      var meaningful := MeaningfulSkillsRun(h, ArrayOf(h, collections[c]));
      if |meaningful| > 0 {
        assert HasMeaningful(h, collections[c]);
        FirstMeaningfulIs(h, collections, c);
        return meaningful;
      }
      c := c + 1;
    }
    FirstMeaningfulNone(h, collections);
    return [];
  }

  lemma FirstMeaningfulNone(h: Heap, collections: seq<nat>)
    requires forall j :: 0 <= j < |collections| ==> !HasMeaningful(h, collections[j])
    ensures NormalizeSkills(h, collections) == []
  {
  }

  lemma FirstMeaningfulIs(h: Heap, collections: seq<nat>, c: nat)
    requires c < |collections| && HasMeaningful(h, collections[c])
    requires forall j :: 0 <= j < c ==> !HasMeaningful(h, collections[j])
    ensures FirstMeaningful(h, collections) == Some(c)
  {
  }

  /** One collection's `map` and `filter`. */
  method MeaningfulSkillsRun(h: Heap, items: seq<Val>) returns (r: seq<SkillRecord>)
    ensures r == MeaningfulSkills(h, items)
  {
    var recs := NormalizedSkills(h, items);
    r := [];
    var k := 0;
    while k < |items|
      invariant 0 <= k <= |items|
      invariant r == KeepMeaningful(recs[..k])
    {
      var rec := NormalizeSkill(h, items[k]);
      assert rec == recs[k];
      KeepMeaningfulSnoc(recs, k);
      if Meaningful(rec) {
        r := r + [rec];
      }
      k := k + 1;
    }
    assert recs[..|items|] == recs;
  }

  /** Filtering one more record extends the kept prefix by that record when it is meaningful. */
  lemma KeepMeaningfulSnoc(recs: seq<SkillRecord>, k: nat)
    requires k < |recs|
    ensures KeepMeaningful(recs[..k + 1]) ==
      KeepMeaningful(recs[..k]) + (if Meaningful(recs[k]) then [recs[k]] else [])
  {
    assert recs[..k + 1][..k] == recs[..k];
  }

  /** With no collection, or none holding a meaningful skill, there are no skills. */
  lemma NoMeaningfulSkills(h: Heap, collections: seq<nat>)
    requires forall j :: 0 <= j < |collections| ==> forall x :: x in ArrayOf(h, collections[j]) ==> !Meaningful(NormalizeSkill(h, x))
    ensures NormalizeSkills(h, collections) == []
  {
    if FirstMeaningful(h, collections).Some? {
      var k := FirstMeaningful(h, collections).value;
      var items := ArrayOf(h, collections[k]);
      var rec := MeaningfulSkills(h, items)[0];
      MeaningfulSkillsIff(h, items, rec);
      assert false;
    }
  }

  // The record `normalizeCharacter` builds.

  /** Where a field of the normalised character comes from. */
  datatype Source =
    | Detail(aliases: seq<string>)       // pickFirst(detail, base, aliases)
    | DetailArray(aliases: seq<string>)  // toArray(pickFirst(detail, base, aliases))
    | Stats(aliases: seq<string>)        // pickFirst(stats, null, aliases)
    | SkillsOf                           // normalizeSkills(collectSkillEntries(detail))
    | SlugOf                             // the slug argument

  const CHARACTER_FIELDS: seq<(string, Source)> := [
    ("slug", SlugOf),
    ("nikkeName", Detail(["nikkeName", "name", "displayName"])),
    ("class", Detail(["class", "type", "classType"])),
    ("code", Detail(["code", "nikkeCode"])),
    ("burst", Detail(["burst", "burstType"])),
    ("buffs", DetailArray(["buffs", "buff"])),
    ("weapon", Detail(["weapon", "weaponType"])),
    ("avatar", Detail(["avatar", "icon", "image"])),
    ("role", Detail(["role"])),
    ("roleSimple", Detail(["roleSimple", "simpleRole", "roleShort"])),
    ("specialBuff", Detail(["specialBuff", "uniqueSkill"])),
    ("specialBuffCondition", Detail(["specialBuffCondition"])),
    ("specialBuff2", Detail(["specialBuff2"])),
    ("specialBuff2Condition", Detail(["specialBuff2Condition"])),
    ("debuffs", DetailArray(["debuffs", "debuff"])),
    ("synergyConstant", Detail(["synergyConstant", "synergy"])),
    ("burstCooldown", Detail(["burstCooldown", "burstCooldownSeconds"])),
    ("burstCooldownAlt", Detail(["burstCooldown2", "burstCooldownAlt", "burstCooldownAuto"])),
    ("skills", SkillsOf),
    ("altName", Detail(["altName", "fullName", "alias"])),
    ("rarity", Detail(["rarity"])),
    ("manufacturer", Detail(["manufacturer", "company"])),
    ("squad", Detail(["squad", "group"])),
    ("type", Detail(["type", "classType"])),
    ("element", Detail(["element", "codeElement"])),
    ("burstType", Detail(["burstType", "burst"])),
    ("power", Stats(["power"])),
    ("hp", Stats(["hp", "health"])),
    ("atk", Stats(["atk", "attack"])),
    ("def", Stats(["def", "defense"])),
    ("weaponType", Detail(["weaponType", "gunType"])),
    ("ammo", Detail(["ammo", "magazine"])),
    ("atkPerHit", Detail(["atkPerHit", "damagePerHit"])),
    ("fullMagazineDamage", Detail(["fullMagazineDamage", "fullMagazineDamageValue"])),
    ("chargeTime", Detail(["chargeTime"])),
    ("fullChargeMagnitude", Detail(["fullChargeMagnitude"])),
    ("fullChargeTotalDamage", Detail(["fullChargeTotalDamage"])),
    ("totalDualWieldingDamage", Detail(["totalDualWieldingDamage"])),
    ("coreDamage", Detail(["coreDamage"])),
    ("reloadTime", Detail(["reloadTime"])),
    ("controlMode", Detail(["controlMode"]))
  ]

  /** A value of the normalised character. */
  datatype FieldValue = Scalar(v: Val) | Items(a: ArrayValue) | SkillList(skills: seq<SkillRecord>)

  /**
   * `listEntry && typeof listEntry === 'object' ? listEntry : {}`. The empty
   * object is written `null` here: as a fallback of `pickFirst` both yield
   * nothing for every key.
   */
  function Base(h: Heap, listEntry: Val): Val
  {
    if IsObject(h, listEntry) then listEntry else VNull
  }

  /** `findMatchingNode(detail, isStatsObject)`, as a value. */
  function StatsNode(h: Heap, detail: Val): (r: Val)
    ensures r == VNull || IsStatsObject(h, r)
  {
    match FindFrom(h, StatsObject, [detail], {})
    case Some(r) => VRef(r)
    case None => VNull
  }

  /** The value of one field, given the pieces `normalizeCharacter` computes first. */
  function FieldOf(h: Heap, detail: Val, base: Val, stats: Val, skills: seq<SkillRecord>, slug: Val, src: Source): FieldValue
  {
    match src
    case Detail(aliases) => Scalar(PickFirst(h, detail, base, aliases))
    case DetailArray(aliases) => Items(ToArray(h, PickFirst(h, detail, base, aliases)))
    case Stats(aliases) => Scalar(PickFirst(h, stats, VNull, aliases))
    case SkillsOf => SkillList(skills)
    case SlugOf => Scalar(slug)
  }

  /** `normalizeCharacter(detail, listEntry, slug)`: the fields in the literal's order. */
  function NormalizeCharacter(h: Heap, detail: Val, listEntry: Val, slug: Val): (r: seq<(string, FieldValue)>)
    ensures |r| == |CHARACTER_FIELDS|
    ensures forall i :: 0 <= i < |r| ==> r[i].0 == CHARACTER_FIELDS[i].0
  {
    var base := Base(h, listEntry);
    var stats := StatsNode(h, detail);
    var skills := NormalizeSkills(h, CollectSkillEntries(h, detail));
    seq(|CHARACTER_FIELDS|, i requires 0 <= i < |CHARACTER_FIELDS| =>
      (CHARACTER_FIELDS[i].0, FieldOf(h, detail, base, stats, skills, slug, CHARACTER_FIELDS[i].1)))
  }

  /** `pickFirst` on something that is not an object, with no fallback, finds nothing. */
  lemma PickFirstOnNothing(h: Heap, v: Val, aliases: seq<string>)
    requires !IsObject(h, v)
    ensures PickFirst(h, v, VNull, aliases) == VNull
  {
    PickFirstAbsent(h, v, VNull, aliases);
  }

  /**
   * The stat fields are read from the first stats-like node of the detail,
   * in breadth-first order, and nowhere else (not from the list entry);
   * with no such node they are all `null`.
   */
  lemma {:induction false} StatsScoped(h: Heap, detail: Val, listEntry: Val, slug: Val, i: nat)
    requires i < |CHARACTER_FIELDS| && CHARACTER_FIELDS[i].1.Stats?
    ensures var aliases := CHARACTER_FIELDS[i].1.aliases;
      match FindFrom(h, StatsObject, [detail], {})
      case Some(r) =>
        && NormalizeCharacter(h, detail, listEntry, slug)[i].1 == Scalar(PickFirst(h, VRef(r), VNull, aliases))
        && FirstMatching(h, StatsObject, Visits(h, [detail], {})) == Some(r)
      case None =>
        NormalizeCharacter(h, detail, listEntry, slug)[i].1 == Scalar(VNull)
  {
    var aliases := CHARACTER_FIELDS[i].1.aliases;
    FindIsFirstVisit(h, StatsObject, [detail], {});
    if FindFrom(h, StatsObject, [detail], {}).None? {
      PickFirstOnNothing(h, VNull, aliases);
    }
  }

  /**
   * Every other field looks at the detail first and then at the list entry,
   * and does not depend on the stats node.
   */
  lemma DetailFields(h: Heap, detail: Val, listEntry: Val, slug: Val, i: nat)
    requires i < |CHARACTER_FIELDS| && (CHARACTER_FIELDS[i].1.Detail? || CHARACTER_FIELDS[i].1.DetailArray?)
    ensures var aliases := CHARACTER_FIELDS[i].1.aliases;
      var v := PickFirst(h, detail, Base(h, listEntry), aliases);
      NormalizeCharacter(h, detail, listEntry, slug)[i].1 == (if CHARACTER_FIELDS[i].1.Detail? then Scalar(v) else Items(ToArray(h, v)))
  {
  }

  /** With a list entry that is not an object, only the detail is consulted. */
  lemma NonObjectListEntry(h: Heap, detail: Val, listEntry: Val, slug: Val)
    requires !IsObject(h, listEntry)
    ensures NormalizeCharacter(h, detail, listEntry, slug) == NormalizeCharacter(h, detail, VNull, slug)
  {
  }

  /** `findCharacterArray(root)`. */
  function FindCharacterArray(h: Heap, root: Val): (r: Option<nat>)
    ensures r.Some? ==> r.value in h && IsCharacterArray(h, r.value)
  {
    FindFrom(h, CharacterArray, [root], {})
  }

  /** `findCharacterObject(root)`. */
  function FindCharacterObject(h: Heap, root: Val): (r: Option<nat>)
    ensures r.Some? ==> IsCharacterLike(h, VRef(r.value))
  {
    FindFrom(h, CharacterObject, [root], {})
  }

  /** `ensureCharacterDetail(value)`: the value itself when character-like, else the first character-like node inside it. */
  function EnsureCharacterDetail(h: Heap, v: Val): (r: Val)
    ensures r == VNull || IsCharacterLike(h, r)
    ensures IsCharacterLike(h, v) ==> r == v
  {
    if !Truthy(v) then VNull
    else if IsCharacterLike(h, v) then v
    else match FindCharacterObject(h, v)
      case Some(r) => VRef(r)
      case None => VNull
  }

  /** Applying `ensureCharacterDetail` to its own result changes nothing. */
  lemma EnsureIdempotent(h: Heap, v: Val)
    ensures EnsureCharacterDetail(h, EnsureCharacterDetail(h, v)) == EnsureCharacterDetail(h, v)
  {
  }

  /**
   * A value that is not character-like yields the first character-like
   * node in breadth-first order below it, or `null`.
   */
  lemma EnsureFindsFirst(h: Heap, v: Val)
    requires Truthy(v) && !IsCharacterLike(h, v)
    ensures EnsureCharacterDetail(h, v) ==
      match FirstMatching(h, CharacterObject, Visits(h, [v], {}))
      case Some(r) => VRef(r)
      case None => VNull
  {
    FindIsFirstVisit(h, CharacterObject, [v], {});
  }
}
