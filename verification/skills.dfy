/**
 * `extractSkills` and `extractSkillNames` of the browser code
 * (public/app.js): the skill list of a record of unknown shape, and the
 * comma-separated skill names shown for the `skills` field.
 */
module SkillsView {
  import opened Text
  import opened JsonValues
  import opened Flattening
  import opened FieldResolver

  /** `a ?? b` on property reads: `a` unless it is missing or `null`. */
  function Nullish(a: Option<Json>, b: Option<Json>): Option<Json>
  {
    if a.Some? && a.value != JNull then a else b
  }

  /** `Object.values(value)` of an object. */
  function Values(fields: seq<(string, Json)>): (r: seq<Json>)
    ensures |r| == |fields|
    ensures forall i :: 0 <= i < |fields| ==> r[i] == fields[i].1
  {
    seq(|fields|, i requires 0 <= i < |fields| => fields[i].1)
  }

  /** `/skill/i.test(key)`. */
  predicate SkillKey(key: string)
  {
    Contains(Lower(key), "skill")
  }

  /** What the `for (const [key, value] of Object.entries(raw))` loop pushes for one field. */
  function FieldCandidates(key: string, value: Json): seq<Json>
  {
    if !SkillKey(key) then []
    else if value.JArr? then value.items
    else if value.JObj? then Values(value.fields)
    else []
  }

  /** `candidates` after the loop has seen the first `n` fields. */
  function Candidates(fields: seq<(string, Json)>, n: nat): seq<Json>
    requires n <= |fields|
  {
    if n == 0 then [] else Candidates(fields, n - 1) + FieldCandidates(fields[n - 1].0, fields[n - 1].1)
  }

  /** `candidates.filter((item) => item && typeof item === 'object')`. */
  function Containers(xs: seq<Json>): (r: seq<Json>)
    ensures forall x :: x in r ==> IsContainer(x) && x in xs
  {
    if xs == [] then []
    else Containers(xs[..|xs| - 1]) + (if IsContainer(xs[|xs| - 1]) then [xs[|xs| - 1]] else [])
  }

  /**
   * `character.raw ?? character`: a catalogue entry is read through its
   * `raw` record unless that is missing or `null`.
   */
  function RawOf(character: Json): (raw: Json)
    requires character != JNull
    ensures raw != JNull
    ensures raw == character || (character.JObj? && Lookup(character.fields, "raw") == Some(raw))
  {
    assert "raw"[0] in "raw" && !IsDigit("raw"[0]);
    Nullish(OwnProperty(character, "raw"), Some(character)).value
  }

  /**
   * The body of `extractSkills` once `raw` is known.
   * `raw.skills ?? raw.Skills` wins when it is an array or an object;
   * otherwise the values under every key naming a skill are gathered.
   */
  function SkillsOf(raw: Json): (r: seq<Json>)
    requires raw != JNull
    ensures raw.JObj? && Lookup(raw.fields, "skills").Some? && Lookup(raw.fields, "skills").value.JArr? ==>
      r == Lookup(raw.fields, "skills").value.items
    ensures !raw.JObj? && !raw.JArr? && !raw.JStr? ==> r == []
  {
    var direct := Nullish(OwnProperty(raw, "skills"), OwnProperty(raw, "Skills"));
    if direct.Some? && direct.value.JArr? then direct.value.items
    else if direct.Some? && direct.value.JObj? then Values(direct.value.fields)
    else if raw.JObj? then Containers(Candidates(raw.fields, |raw.fields|))
    else []
  }

  /**
   * `extractSkills(character)`; `None` is the `TypeError` that reading
   * `character.raw` raises on a `null` record.
   */
  function ExtractSkills(character: Json): (r: Option<seq<Json>>)
    ensures r.None? <==> character == JNull
    ensures character.JObj? && Lookup(character.fields, "raw").Some? && Lookup(character.fields, "raw").value != JNull ==>
      r == Some(SkillsOf(Lookup(character.fields, "raw").value))
    ensures character.JObj? && (Lookup(character.fields, "raw").None? || Lookup(character.fields, "raw").value == JNull) ==>
      r == Some(SkillsOf(character))
  {
    if character == JNull then None else Some(SkillsOf(RawOf(character)))
  }

  /**
   * A catalogue entry whose `raw` record holds a `skills` array yields
   * that array, whatever the entry itself holds.
   */
  lemma CatalogueEntrySkills(fields: seq<(string, Json)>, rawFields: seq<(string, Json)>, items: seq<Json>)
    requires Lookup(fields, "raw") == Some(JObj(rawFields))
    requires Lookup(rawFields, "skills") == Some(JArr(items))
    ensures ExtractSkills(JObj(fields)) == Some(items)
  {
  }

  /** The `Object.entries(raw)` loop of `extractSkills`. */
  method CollectCandidates(fields: seq<(string, Json)>) returns (candidates: seq<Json>)
    ensures candidates == Candidates(fields, |fields|)
  {
    candidates := [];
    var i := 0;
    while i < |fields|
      invariant 0 <= i <= |fields|
      invariant candidates == Candidates(fields, i)
    {
      var (key, value) := fields[i];
      if SkillKey(key) {
        if value.JArr? {
          candidates := candidates + value.items;
        } else if value.JObj? {
          candidates := candidates + Values(value.fields);
        }
      }
      i := i + 1;
    }
  }

  /** `extractSkills(character)`, with the candidate loop run as a loop. */
  method ExtractSkillsRun(character: Json) returns (r: Option<seq<Json>>)
    ensures r == ExtractSkills(character)
  {
    if character == JNull {
      return None;
    }
    var raw := character;
    var wrapped := OwnProperty(character, "raw");
    if wrapped.Some? && wrapped.value != JNull {
      raw := wrapped.value;
    }
    var direct := Nullish(OwnProperty(raw, "skills"), OwnProperty(raw, "Skills"));
    if direct.Some? && direct.value.JArr? {
      return Some(direct.value.items);
    }
    if direct.Some? && direct.value.JObj? {
      return Some(Values(direct.value.fields));
    }
    if !raw.JObj? {
      return Some([]);
    }
    var candidates := CollectCandidates(raw.fields);
    r := Some(Containers(candidates));
  }

  /** Every gathered candidate comes from a field whose key names a skill. */
  lemma {:induction false} CandidateOrigin(fields: seq<(string, Json)>, n: nat, x: Json)
    requires n <= |fields| && x in Candidates(fields, n)
    ensures exists i :: 0 <= i < n && SkillKey(fields[i].0) && x in FieldCandidates(fields[i].0, fields[i].1)
  {
    var last := FieldCandidates(fields[n - 1].0, fields[n - 1].1);
    if x in last {
      assert SkillKey(fields[n - 1].0);
    } else {
      CandidateOrigin(fields, n - 1, x);
    }
  }

  /** Every item under a key naming a skill is gathered. */
  lemma {:induction false} CandidateComplete(fields: seq<(string, Json)>, n: nat, i: nat, x: Json)
    requires i < n <= |fields| && x in FieldCandidates(fields[i].0, fields[i].1)
    ensures x in Candidates(fields, n)
  {
    if i < n - 1 {
      CandidateComplete(fields, n - 1, i, x);
    }
  }

  /** Neither `skills` nor `Skills` holds an array or an object, so the keys naming a skill decide. */
  predicate NoDirectSkills(fields: seq<(string, Json)>)
  {
    var d := Nullish(Lookup(fields, "skills"), Lookup(fields, "Skills"));
    d.None? || !IsContainer(d.value)
  }

  /** Without a direct list, every skill found is an array or object under a key naming a skill. */
  lemma FallbackSound(fields: seq<(string, Json)>, x: Json)
    requires NoDirectSkills(fields)
    requires x in SkillsOf(JObj(fields))
    ensures IsContainer(x)
    ensures exists i :: 0 <= i < |fields| && SkillKey(fields[i].0) && x in FieldCandidates(fields[i].0, fields[i].1)
  {
    CandidateOrigin(fields, |fields|, x);
  }

  /** Without a direct list, every array or object under a key naming a skill is found. */
  lemma FallbackComplete(fields: seq<(string, Json)>, i: nat, x: Json)
    requires NoDirectSkills(fields)
    requires i < |fields| && x in FieldCandidates(fields[i].0, fields[i].1) && IsContainer(x)
    ensures x in SkillsOf(JObj(fields))
  {
    CandidateComplete(fields, |fields|, i, x);
    ContainersKeep(Candidates(fields, |fields|), x);
  }

  lemma {:induction false} ContainersKeep(xs: seq<Json>, x: Json)
    requires x in xs && IsContainer(x)
    ensures x in Containers(xs)
  {
    if x != xs[|xs| - 1] {
      assert x in xs[..|xs| - 1];
      ContainersKeep(xs[..|xs| - 1], x);
    }
  }

  /** The field definition `extractSkillNames` resolves each skill with. */
  const SKILL_NAME_DEF := FieldDef(Some(["skillName", "name"]), ["skillname", "name"])

  /** `getValueFromRecord(skill, flattenRecord(skill), …) || ''`, kept when truthy. */
  function SkillName(skill: Json): Option<string>
  {
    var v := Resolve(skill, Some(Flatten(skill)), SKILL_NAME_DEF);
    if v.Some? && JsTruthy(v.value) then Some(JsString(v.value)) else None
  }

  /** `skills.map(…)`, with `None` for each value `filter(Boolean)` drops. */
  function NameOptions(skills: seq<Json>): (r: seq<Option<string>>)
    ensures |r| == |skills|
    ensures forall i :: 0 <= i < |skills| ==> r[i] == SkillName(skills[i])
  {
    seq(|skills|, i requires 0 <= i < |skills| => SkillName(skills[i]))
  }

  /** `.filter(Boolean)`: the names that are present, in order. */
  function Kept(xs: seq<Option<string>>): (r: seq<string>)
    ensures |r| <= |xs|
  {
    if xs == [] then []
    else Kept(xs[..|xs| - 1]) + (if xs[|xs| - 1].Some? then [xs[|xs| - 1].value] else [])
  }

  /** The names the `map(…).filter(Boolean)` chain keeps, in skill order. */
  function SkillNames(skills: seq<Json>): (r: seq<string>)
    ensures |r| <= |skills|
  {
    Kept(NameOptions(skills))
  }

  /** `extractSkillNames(character)`; `None` is the error `extractSkills` raises. */
  function ExtractSkillNames(character: Json): (r: Option<string>)
    ensures r.None? <==> character == JNull
    ensures ExtractSkills(character) == Some([]) ==> r == Some("")
    ensures ExtractSkills(character).Some? && SkillNames(ExtractSkills(character).value) == [] ==> r == Some("")
  {
    match ExtractSkills(character)
    case None => None
    case Some(skills) => if skills == [] then Some("") else Some(Join(SkillNames(skills), ", "))
  }

  /** A skill object with a non-empty string `skillName` is listed under that name. */
  lemma SkillNameDirect(fields: seq<(string, Json)>, n: string)
    requires Lookup(fields, "skillName") == Some(JStr(n)) && n != ""
    ensures SkillName(JObj(fields)) == Some(n)
  {
    DirectKeyPrecedence(JObj(fields), Some(Flatten(JObj(fields))), None, ["skillName", "name"], ["skillname", "name"], 0);
  }

  /** When every skill has a non-empty string `skillName`, the names are exactly those, in order. */
  lemma SkillNamesDirect(skills: seq<Json>, names: seq<string>)
    requires |names| == |skills|
    requires forall i :: 0 <= i < |skills| ==>
      skills[i].JObj? && Lookup(skills[i].fields, "skillName") == Some(JStr(names[i])) && names[i] != ""
    ensures SkillNames(skills) == names
  {
    var xs := NameOptions(skills);
    forall i | 0 <= i < |xs| ensures xs[i] == Some(names[i]) {
      SkillNameDirect(skills[i].fields, names[i]);
    }
    KeptAllPresent(xs, names);
  }

  lemma {:induction false} KeptAllPresent(xs: seq<Option<string>>, names: seq<string>)
    requires |xs| == |names| && forall i :: 0 <= i < |xs| ==> xs[i] == Some(names[i])
    ensures Kept(xs) == names
  {
    if xs != [] {
      var k := |xs| - 1;
      KeptAllPresent(xs[..k], names[..k]);
      assert names == names[..k] + [names[k]];
    }
  }

  /** Without a non-null `skillName`, a non-empty string `name` is the name. */
  lemma SkillNameFallback(fields: seq<(string, Json)>, n: string)
    requires !Qualifies(JObj(fields), "skillName")
    requires Lookup(fields, "name") == Some(JStr(n)) && n != ""
    ensures SkillName(JObj(fields)) == Some(n)
  {
    DirectKeyPrecedence(JObj(fields), Some(Flatten(JObj(fields))), None, ["skillName", "name"], ["skillname", "name"], 1);
  }

  /**
   * A falsy `skillName` other than `null`, such as `''`, is still the
   * direct value: `name` is not consulted, and the skill is dropped.
   */
  lemma SkillNameFalsy(fields: seq<(string, Json)>, v: Json)
    requires Lookup(fields, "skillName") == Some(v) && v != JNull && !JsTruthy(v)
    ensures SkillName(JObj(fields)) == None
  {
    DirectKeyPrecedence(JObj(fields), Some(Flatten(JObj(fields))), None, ["skillName", "name"], ["skillname", "name"], 0);
  }

  /** With neither direct key usable, the fuzzy match on `skillname` and `name` decides. */
  lemma SkillNameFuzzy(skill: Json)
    requires NoDirectHit(skill, SKILL_NAME_DEF)
    ensures var v := FuzzyPick(Flatten(skill), NormalizedHints(["skillname", "name"]));
      SkillName(skill) == if v.Some? && JsTruthy(v.value) then Some(JsString(v.value)) else None
  {
  }

  /**
   * `ks` lists, in increasing order, exactly the positions of `xs` that
   * hold a name, and `r` holds those names in that order.
   */
  ghost predicate KeptAt(xs: seq<Option<string>>, ks: seq<nat>, r: seq<string>)
  {
    && |ks| == |r|
    && (forall a, b :: 0 <= a < b < |ks| ==> ks[a] < ks[b])
    && (forall a :: 0 <= a < |ks| ==> ks[a] < |xs| && xs[ks[a]] == Some(r[a]))
    && (forall i :: 0 <= i < |xs| && xs[i].Some? ==> i in ks)
  }

  lemma {:induction false} KeptInOrder(xs: seq<Option<string>>)
    ensures exists ks: seq<nat> :: KeptAt(xs, ks, Kept(xs))
  {
    if xs == [] {
      var none: seq<nat> := [];
      assert KeptAt(xs, none, Kept(xs));
    } else {
      var n := |xs| - 1;
      KeptInOrder(xs[..n]);
      var ks: seq<nat> :| KeptAt(xs[..n], ks, Kept(xs[..n]));
      if xs[n].Some? {
        assert Kept(xs) == Kept(xs[..n]) + [xs[n].value];
        KeptAtSnoc(xs, ks, Kept(xs[..n]));
      } else {
        assert Kept(xs) == Kept(xs[..n]);
        KeptAtSkip(xs, ks, Kept(xs[..n]));
      }
    }
  }

  lemma KeptAtSnoc(xs: seq<Option<string>>, ks: seq<nat>, r: seq<string>)
    requires xs != [] && xs[|xs| - 1].Some? && KeptAt(xs[..|xs| - 1], ks, r)
    ensures KeptAt(xs, ks + [|xs| - 1], r + [xs[|xs| - 1].value])
  {
    var n := |xs| - 1;
    forall i | 0 <= i < n ensures xs[i] == xs[..n][i] { }
    var ks2, r2 := ks + [n], r + [xs[n].value];
    forall a | 0 <= a < |ks2| ensures ks2[a] < |xs| && xs[ks2[a]] == Some(r2[a]) {
      if a < |ks| {
        assert ks2[a] == ks[a] && r2[a] == r[a];
      }
    }
    forall i | 0 <= i < |xs| && xs[i].Some? ensures i in ks2 {
      if i < n {
        assert xs[..n][i].Some?;
      }
    }
  }

  lemma KeptAtSkip(xs: seq<Option<string>>, ks: seq<nat>, r: seq<string>)
    requires xs != [] && xs[|xs| - 1].None? && KeptAt(xs[..|xs| - 1], ks, r)
    ensures KeptAt(xs, ks, r)
  {
    var n := |xs| - 1;
    forall i | 0 <= i < n ensures xs[i] == xs[..n][i] { }
  }

  /**
   * The names are those of the skills whose resolved value is truthy, all
   * of them, in skill order; a skill with a falsy value adds nothing.
   */
  lemma SkillNamesInOrder(skills: seq<Json>)
    ensures exists ks: seq<nat> :: KeptAt(NameOptions(skills), ks, SkillNames(skills))
  {
    var xs := NameOptions(skills);
    KeptInOrder(xs);
    var ks: seq<nat> :| KeptAt(xs, ks, Kept(xs));
    assert KeptAt(xs, ks, SkillNames(skills));
  }
}
