/**
 * The table join of public/process_nikke_data.py: the visible base-grade
 * characters keyed by `resource_id`, the skill and stat tables keyed by
 * `id`, the element names, and the record `format_character_data` builds.
 */
module TableJoin {
  import opened Text
  import opened JsonValues
  import opened PyValues

  type Fields = seq<(string, Json)>

  // Building dictionaries from a table's records.

  /** The two dictionary-building loops of the script. */
  datatype IndexKind =
    | VisibleBase  // get_visible_base_characters: visible, base grade, keyed by resource_id
    | ById         // create_character_lookup_tables: keyed by a truthy id

  /** What one loop iteration does with a record. */
  datatype Step = Skip | Store(k: Key) | Fail(e: PyError)

  /** `char.get('is_visible', False)` is true and `char.get('grade_core_id', 1) == 1`. */
  predicate VisibleBaseGrade(f: Fields)
  {
    PyTruthy(Get(f, "is_visible", JBool(false))) && EqualsOne(Get(f, "grade_core_id", JNum(1)))
  }

  /** Store under `hash(v)`, which raises for a list or a dictionary. */
  function KeyStep(v: Json): Step
  {
    match ToKey(v)
    case Some(k) => Store(k)
    case None => Fail(TypeError)
  }

  /** One iteration of the loop of `kind` on record `c`. */
  function StepOf(kind: IndexKind, c: Json): Step
  {
    if !c.JObj? then Fail(AttributeError)  // `.get` on something that is not a dict
    else if kind == VisibleBase then
      if VisibleBaseGrade(c.fields) then KeyStep(Get(c.fields, "resource_id", JNull)) else Skip
    else
      var id := Get(c.fields, "id", JNull);
      if PyTruthy(id) then KeyStep(id) else Skip
  }

  /** The dictionary the loop of `kind` builds from `records`, or the exception it raises. */
  function Index(kind: IndexKind, records: seq<Json>): (r: Outcome<Dict<Fields>>)
    ensures r.Ok? ==> DistinctKeys(r.value)
  {
    if records == [] then Ok([])
    else
      match Index(kind, records[..|records| - 1])
      case Raise(e) => Raise(e)
      case Ok(d) =>
        var c := records[|records| - 1];
        match StepOf(kind, c)
        case Skip => Ok(d)
        case Store(k) => Ok(Put(d, k, c.fields))
        case Fail(e) => Raise(e)
  }

  /** The loop of `kind` over `records`. */
  method IndexRun(kind: IndexKind, records: seq<Json>) returns (r: Outcome<Dict<Fields>>)
    ensures r == Index(kind, records)
  {
    var d: Dict<Fields> := [];
    var i := 0;
    while i < |records|
      invariant 0 <= i <= |records|
      invariant Index(kind, records[..i]) == Ok(d)
    {
      var step := StepOf(kind, records[i]);
      IndexExtend(kind, records, i, d);
      if step.Fail? {
        IndexFailureSticks(kind, records, i + 1);
        return Raise(step.e);
      }
      if step.Store? {
        d := Put(d, step.k, records[i].fields);
      }
      i := i + 1;
    }
    assert records[..|records|] == records;
    return Ok(d);
  }

  /** One more iteration of the loop. */
  lemma IndexExtend(kind: IndexKind, records: seq<Json>, i: nat, d: Dict<Fields>)
    requires i < |records| && Index(kind, records[..i]) == Ok(d)
    ensures var step := StepOf(kind, records[i]);
      && (step.Skip? ==> Index(kind, records[..i + 1]) == Ok(d))
      && (step.Store? ==> Index(kind, records[..i + 1]) == Ok(Put(d, step.k, records[i].fields)))
      && (step.Fail? ==> Index(kind, records[..i + 1]) == Raise(step.e))
  {
    assert records[..i + 1][..i] == records[..i];
  }

  /** Once an iteration raises, the whole loop has raised that exception. */
  lemma {:induction false} IndexFailureSticks(kind: IndexKind, records: seq<Json>, n: nat)
    requires 0 < n <= |records| && Index(kind, records[..n - 1]).Ok? && StepOf(kind, records[n - 1]).Fail?
    ensures Index(kind, records) == Raise(StepOf(kind, records[n - 1]).e)
    decreases |records|
  {
    if n < |records| {
      assert records[..|records| - 1][..n - 1] == records[..n - 1];
      IndexFailureSticks(kind, records[..|records| - 1], n);
    } else {
      assert records[..|records| - 1] == records[..n - 1];
    }
  }

  /** The fields of the last record of `records` that the loop of `kind` stores under `k`. */
  function LastStored(kind: IndexKind, records: seq<Json>, k: Key): Option<Fields>
  {
    if records == [] then None
    else
      var c := records[|records| - 1];
      if StepOf(kind, c) == Store(k) then Some(c.fields) else LastStored(kind, records[..|records| - 1], k)
  }

  /** A later record stored under a key overwrites an earlier one: the last one wins. */
  lemma {:induction false} LastWins(kind: IndexKind, records: seq<Json>, k: Key)
    requires Index(kind, records).Ok?
    ensures DictGet(Index(kind, records).value, k) == LastStored(kind, records, k)
  {
    if records != [] {
      var init := records[..|records| - 1];
      LastWins(kind, init, k);
      var c := records[|records| - 1];
      var step := StepOf(kind, c);
      if step.Store? {
        PutGet(Index(kind, init).value, step.k, c.fields, k);
      }
    }
  }

  /** Every entry of `d` is a record the loop of `kind` stores, under the key it stores it by. */
  predicate StoredBy(kind: IndexKind, d: Dict<Fields>)
  {
    forall i :: 0 <= i < |d| ==> StepOf(kind, JObj(d[i].1)) == Store(d[i].0)
  }

  /** The dictionary holds only records the loop stores, each under its own key. */
  lemma {:induction false} IndexSound(kind: IndexKind, records: seq<Json>)
    requires Index(kind, records).Ok?
    ensures StoredBy(kind, Index(kind, records).value)
  {
    if records != [] {
      var init := records[..|records| - 1];
      IndexSound(kind, init);
      var c := records[|records| - 1];
      var step := StepOf(kind, c);
      if step.Store? {
        var d := Index(kind, init).value;
        assert c == JObj(c.fields);
        PutStoredBy(kind, d, step.k, c.fields);
      }
    }
  }

  lemma PutStoredBy(kind: IndexKind, d: Dict<Fields>, k: Key, f: Fields)
    requires StoredBy(kind, d) && StepOf(kind, JObj(f)) == Store(k)
    ensures StoredBy(kind, Put(d, k, f))
  {
    match IndexOf(d, k)
    case Some(j) =>
      var r := d[j := (k, f)];
      assert Put(d, k, f) == r;
      forall i | 0 <= i < |r| ensures StepOf(kind, JObj(r[i].1)) == Store(r[i].0) {
        if i != j {
          assert r[i] == d[i];
        }
      }
    case None =>
      var r := d + [(k, f)];
      assert Put(d, k, f) == r;
      forall i | 0 <= i < |r| ensures StepOf(kind, JObj(r[i].1)) == Store(r[i].0) {
        if i < |d| {
          assert r[i] == d[i];
        }
      }
  }

  /** Every record `get_visible_base_characters` keeps is filed under its own hashable `resource_id`. */
  lemma VisibleKeysAreResourceIds(records: seq<Json>)
    requires Index(VisibleBase, records).Ok?
    ensures var d := Index(VisibleBase, records).value;
      forall i :: 0 <= i < |d| ==>
        VisibleBaseGrade(d[i].1) && ToKey(Get(d[i].1, "resource_id", JNull)) == Some(d[i].0)
  {
    IndexSound(VisibleBase, records);
    var d := Index(VisibleBase, records).value;
    forall i | 0 <= i < |d|
      ensures VisibleBaseGrade(d[i].1) && ToKey(Get(d[i].1, "resource_id", JNull)) == Some(d[i].0)
    {
      assert StepOf(VisibleBase, JObj(d[i].1)) == Store(d[i].0);
    }
  }

  /** Ids of `0`, `None`, `False` or `''` are never keys of a lookup table. */
  lemma FalsyIdsSkipped(records: seq<Json>)
    requires Index(ById, records).Ok?
    ensures forall i :: 0 <= i < |Index(ById, records).value| ==>
      Index(ById, records).value[i].0 !in {KInt(0), KNone, KStr("")}
  {
    IndexSound(ById, records);
    var d := Index(ById, records).value;
    forall i | 0 <= i < |d| ensures d[i].0 !in {KInt(0), KNone, KStr("")} {
      assert StepOf(ById, JObj(d[i].1)) == Store(d[i].0);
    }
  }

  /** A visible base-grade record is in the dictionary, under its `resource_id`. */
  lemma VisibleRecordKept(records: seq<Json>, j: nat)
    requires Index(VisibleBase, records).Ok? && j < |records|
    requires records[j].JObj? && VisibleBaseGrade(records[j].fields)
    ensures ToKey(Get(records[j].fields, "resource_id", JNull)).Some?
    ensures DictGet(Index(VisibleBase, records).value, ToKey(Get(records[j].fields, "resource_id", JNull)).value).Some?
  {
    var k := ToKey(Get(records[j].fields, "resource_id", JNull));
    if k.None? {
      IndexFailsOn(VisibleBase, records, j);
      assert false;
    }
    StoredIsFound(VisibleBase, records, j);
    LastWins(VisibleBase, records, k.value);
  }

  lemma {:induction false} IndexFailsOn(kind: IndexKind, records: seq<Json>, j: nat)
    requires j < |records| && StepOf(kind, records[j]).Fail?
    ensures Index(kind, records).Raise?
  {
    if j < |records| - 1 {
      IndexFailsOn(kind, records[..|records| - 1], j);
    }
  }

  lemma {:induction false} StoredIsFound(kind: IndexKind, records: seq<Json>, j: nat)
    requires j < |records| && StepOf(kind, records[j]).Store?
    ensures LastStored(kind, records, StepOf(kind, records[j]).k).Some?
  {
    if j < |records| - 1 && StepOf(kind, records[|records| - 1]) != StepOf(kind, records[j]) {
      StoredIsFound(kind, records[..|records| - 1], j);
    }
  }

  /** `get_visible_base_characters(character_table)`. */
  function GetVisibleBaseCharacters(table: Json): (r: Outcome<Dict<Fields>>)
    ensures !table.JObj? ==> r == Raise(AttributeError)
    ensures r.Ok? ==> DistinctKeys(r.value)
    ensures r.Ok? ==> forall i :: 0 <= i < |r.value| ==>
      VisibleBaseGrade(r.value[i].1) && ToKey(Get(r.value[i].1, "resource_id", JNull)) == Some(r.value[i].0)
  {
    if !table.JObj? then Raise(AttributeError)
    else match Iterate(Get(table.fields, "records", JArr([])))
      case Raise(e) => Raise(e)
      case Ok(records) =>
        if Index(VisibleBase, records).Ok? then
          VisibleKeysAreResourceIds(records);
          Index(VisibleBase, records)
        else Index(VisibleBase, records)
  }

  /** `table and 'records' in table`, then `table['records']`. */
  function TableRecords(table: Json): Outcome<Option<Json>>
  {
    if !PyTruthy(table) then Ok(None)
    else match table
      case JObj(fields) => Ok(Lookup(fields, "records"))
      case JArr(items) => if JStr("records") in items then Raise(TypeError) else Ok(None)
      case JStr(s) => if Contains(s, "records") then Raise(TypeError) else Ok(None)
      case _ => Raise(TypeError)  // `in` on a number
  }

  /** One of the two loops of `create_character_lookup_tables`. */
  function LookupTable(table: Json): (r: Outcome<Dict<Fields>>)
    ensures !PyTruthy(table) ==> r == Ok([])
    ensures r.Ok? ==> DistinctKeys(r.value)
    ensures r.Ok? ==> forall i :: 0 <= i < |r.value| ==> r.value[i].0 !in {KInt(0), KNone, KStr("")}
  {
    match TableRecords(table)
    case Raise(e) => Raise(e)
    case Ok(None) => Ok([])
    case Ok(Some(records)) =>
      match Iterate(records)
      case Raise(e) => Raise(e)
      case Ok(rs) =>
        if Index(ById, rs).Ok? then
          FalsyIdsSkipped(rs);
          Index(ById, rs)
        else Index(ById, rs)
  }

  /** A missing table, or one without `records`, gives an empty lookup table. */
  lemma EmptyWithoutRecords(table: Json)
    requires !PyTruthy(table) || (table.JObj? && Lookup(table.fields, "records").None?)
    ensures LookupTable(table) == Ok([])
  {
  }

  /** `create_character_lookup_tables(skill_table, stat_table)`: skills first, then stats. */
  function CreateLookupTables(skillTable: Json, statTable: Json): (r: Outcome<(Dict<Fields>, Dict<Fields>)>)
    ensures LookupTable(skillTable).Raise? ==> r == Raise(LookupTable(skillTable).error)
    ensures r.Ok? <==> LookupTable(skillTable).Ok? && LookupTable(statTable).Ok?
    ensures r.Ok? ==> DistinctKeys(r.value.0) && DistinctKeys(r.value.1)
  {
    match LookupTable(skillTable)
    case Raise(e) => Raise(e)
    case Ok(skills) =>
      match LookupTable(statTable)
      case Raise(e) => Raise(e)
      case Ok(stats) => Ok((skills, stats))
  }

  // Elements.

  /** `element_map.get(id, "Unknown")`. */
  function ElementOf(id: int): string
  {
    if id == 100001 then "Electric"
    else if id == 200001 then "Fire"
    else if id == 300001 then "Water"
    else if id == 400001 then "Wind"
    else if id == 500001 then "Iron"
    else "Unknown"
  }

  const ELEMENT_NAMES: seq<string> := ["Electric", "Fire", "Water", "Wind", "Iron"]

  /** The id `element_map` gives each name. */
  function ElementId(name: string): int
    requires name in ELEMENT_NAMES
  {
    if name == "Electric" then 100001
    else if name == "Fire" then 200001
    else if name == "Water" then 300001
    else if name == "Wind" then 400001
    else 500001
  }

  /** `get_element_name(element_id_list)`. */
  function GetElementName(v: Json): (r: Outcome<string>)
    ensures r.Ok? ==> r.value in ELEMENT_NAMES || r.value == "Unknown"
    ensures !PyTruthy(v) ==> r == Ok("Unknown")
  {
    if !PyTruthy(v) then Ok("Unknown")
    else match v
      case JArr(items) => FirstElement(items[0])
      case JStr(_) => Ok("Unknown")       // the first character is never a key
      case JObj(_) => Raise(KeyError)     // `d[0]` on a dict with string keys
      case _ => Raise(TypeError)          // `len` of a number
  }

  /** `element_map.get(element_id_list[0], "Unknown")`. */
  function FirstElement(id: Json): (r: Outcome<string>)
    ensures r.Ok? ==> r.value in ELEMENT_NAMES || r.value == "Unknown"
  {
    match id
    case JNum(n) => Ok(ElementOf(n))
    case JBool(b) => Ok(ElementOf(if b then 1 else 0))
    case JArr(_) => Raise(TypeError)  // unhashable
    case JObj(_) => Raise(TypeError)
    case _ => Ok("Unknown")
  }

  /** Each element name comes back from a list holding its id, and no two names share an id. */
  lemma ElementRoundTrip(name: string)
    requires name in ELEMENT_NAMES
    ensures GetElementName(JArr([JNum(ElementId(name))])) == Ok(name)
    ensures forall other :: other in ELEMENT_NAMES && other != name ==> ElementId(other) != ElementId(name)
  {
  }

  /** Only the first id of the list counts. */
  lemma FirstIdDecides(n: int, rest: seq<Json>)
    ensures GetElementName(JArr([JNum(n)] + rest)) == Ok(ElementOf(n))
  {
    assert ([JNum(n)] + rest)[0] == JNum(n);
  }

  // The formatted record.

  /** A skill of the output record; the burst skill adds its cooldown. */
  datatype SkillOut = SkillOut(id: Json, name: Json, description: Json)

  /** The record `format_character_data` returns, without the two float ratios. */
  datatype CharacterOut = CharacterOut(
    id: Json, name: Json, rarity: Json, element: string, role: Json,
    corporation: Json, squad: Json, burstCd: Json, weaponType: string,
    hp: Json, atk: Json, def: Json, coverageMin: Json, coverageMax: Json,
    skill1: SkillOut, skill2: SkillOut, burstSkill: SkillOut, burstCooldown: Json,
    order: Json, pieceId: Json, cv: Json, prismActive: Json)

  const NO_DESCRIPTION := "No description available"

  /** `lookup.get(id, {})`, for a hashable id. */
  function RecordFor(lookup: Dict<Fields>, k: Key): Fields
  {
    match DictGet(lookup, k)
    case Some(f) => f
    case None => []
  }

  /** A skill entry: the id, and the record's name and description or their fallbacks. */
  function SkillEntry(id: Json, skill: Fields, prefix: string): SkillOut
    requires ToKey(id).Some?
  {
    SkillOut(id, Get(skill, "name", JStr(prefix + PyStr(id))), Get(skill, "description", JStr(NO_DESCRIPTION)))
  }

  /** `x / 100` raises unless `x` is a number (or a bool). */
  predicate Divisible(v: Json)
  {
    v.JNum? || v.JBool?
  }

  /**
   * `format_character_data(char, skills_by_id, stats_by_id)`. The record's
   * `resource_id` is hashable, as every record `get_visible_base_characters`
   * keeps is.
   */
  function FormatCharacterData(c: Fields, skills: Dict<Fields>, stats: Dict<Fields>): (r: Outcome<CharacterOut>)
    requires ToKey(Get(c, "resource_id", JNull)).Some?
    ensures !HashableIds(c) ==> r == Raise(TypeError)
    ensures r.Ok? ==> r.value.id == Get(c, "resource_id", JNull)
    ensures r.Ok? ==> r.value.element in ELEMENT_NAMES || r.value.element == "Unknown"
  {
    var characterId := Get(c, "id", JNull);
    var resourceId := Get(c, "resource_id", JNull);
    var skill1Id := Get(c, "skill1_id", JNull);
    var skill2Id := Get(c, "skill2_id", JNull);
    var ultiId := Get(c, "ulti_skill_id", JNull);
    if !HashableIds(c) then
      Raise(TypeError)
    else
      var charStats := RecordFor(stats, ToKey(characterId).value);
      match GetElementName(Get(c, "element_id", JArr([])))
      case Raise(e) => Raise(e)
      case Ok(element) =>
        if !Divisible(Get(c, "critical_ratio", JNum(0))) || !Divisible(Get(c, "critical_damage", JNum(0))) then
          Raise(TypeError)
        else
          Ok(CharacterOut(
            resourceId,
            Get(c, "name_localkey", JStr("Character_" + PyStr(resourceId))),
            Get(c, "original_rare", JStr("Unknown")),
            element,
            Get(c, "class", JStr("Unknown")),
            Get(c, "corporation", JStr("Unknown")),
            Get(c, "squad", JStr("Unknown")),
            Get(c, "use_burst_skill", JStr("Unknown")),
            "Unknown",
            Get(charStats, "hp", JNum(0)),
            Get(charStats, "atk", JNum(0)),
            Get(charStats, "def", JNum(0)),
            Get(c, "bonusrange_min", JNum(0)),
            Get(c, "bonusrange_max", JNum(0)),
            SkillEntry(skill1Id, RecordFor(skills, ToKey(skill1Id).value), "Skill_"),
            SkillEntry(skill2Id, RecordFor(skills, ToKey(skill2Id).value), "Skill_"),
            SkillEntry(ultiId, RecordFor(skills, ToKey(ultiId).value), "Burst_"),
            Get(c, "burst_duration", JNum(0)),
            Get(c, "order", JNum(0)),
            Get(c, "piece_id", JNum(0)),
            Get(c, "cv_localkey", JStr("")),
            Get(c, "prism_is_active", JBool(false))))
  }

  /**
   * The output id is the `resource_id`; `hp`, `atk` and `def` come from the
   * stat record keyed by the character's own `id`, and are `0` without one.
   */
  lemma StatsFromOwnId(c: Fields, skills: Dict<Fields>, stats: Dict<Fields>)
    requires ToKey(Get(c, "resource_id", JNull)).Some?
    requires FormatCharacterData(c, skills, stats).Ok?
    ensures var out := FormatCharacterData(c, skills, stats).value;
      var k := ToKey(Get(c, "id", JNull)).value;
      && out.id == Get(c, "resource_id", JNull)
      && (DictGet(stats, k).None? ==> out.hp == JNum(0) && out.atk == JNum(0) && out.def == JNum(0))
      && (DictGet(stats, k).Some? ==>
           && out.hp == Get(DictGet(stats, k).value, "hp", JNum(0))
           && out.atk == Get(DictGet(stats, k).value, "atk", JNum(0))
           && out.def == Get(DictGet(stats, k).value, "def", JNum(0)))
      && out.weaponType == "Unknown"
      && out.burstCooldown == Get(c, "burst_duration", JNum(0))
  {
  }

  /**
   * A skill id the lookup table misses gets the name `Skill_<id>` (or
   * `Burst_<id>`) and the stock description.
   */
  lemma MissingSkillFallbacks(c: Fields, skills: Dict<Fields>, stats: Dict<Fields>)
    requires ToKey(Get(c, "resource_id", JNull)).Some?
    requires FormatCharacterData(c, skills, stats).Ok?
    ensures var out := FormatCharacterData(c, skills, stats).value;
      var id1 := Get(c, "skill1_id", JNull);
      var ulti := Get(c, "ulti_skill_id", JNull);
      && out.skill1.id == id1 && out.burstSkill.id == ulti
      && (DictGet(skills, ToKey(id1).value).None? ==>
           out.skill1.name == JStr("Skill_" + PyStr(id1)) && out.skill1.description == JStr(NO_DESCRIPTION))
      && (DictGet(skills, ToKey(ulti).value).None? ==>
           out.burstSkill.name == JStr("Burst_" + PyStr(ulti)) && out.burstSkill.description == JStr(NO_DESCRIPTION))
  {
  }

  /** `id`, `skill1_id`, `skill2_id` and `ulti_skill_id` can all be hashed. */
  predicate HashableIds(c: Fields)
  {
    && ToKey(Get(c, "id", JNull)).Some?
    && ToKey(Get(c, "skill1_id", JNull)).Some?
    && ToKey(Get(c, "skill2_id", JNull)).Some?
    && ToKey(Get(c, "ulti_skill_id", JNull)).Some?
  }

  /** The record fails exactly when an id is unhashable, the element lookup raises, or a ratio is not a number. */
  lemma FormatFailsIff(c: Fields, skills: Dict<Fields>, stats: Dict<Fields>)
    requires ToKey(Get(c, "resource_id", JNull)).Some?
    ensures FormatCharacterData(c, skills, stats).Raise? <==>
      || !HashableIds(c)
      || GetElementName(Get(c, "element_id", JArr([]))).Raise?
      || !Divisible(Get(c, "critical_ratio", JNum(0)))
      || !Divisible(Get(c, "critical_damage", JNum(0)))
  {
  }
}
