/**
 * `getValueFromRecord` (public/app.js): a field is read from a record of
 * unknown shape by trying its direct keys first and otherwise by scoring
 * every flattened leaf against the field's hints.
 */
module FieldResolver {
  import opened Text
  import opened JsonValues
  import opened Normalizers
  import opened Flattening

  /** A field definition: optional direct keys and the hints (`fieldDef.hints || []`). */
  datatype FieldDef = FieldDef(directKeys: Option<seq<string>>, hints: seq<string>)

  const EXACT_KEY_BONUS := 200
  const PATH_SUFFIX_BONUS := 120
  const PATH_CONTAINS_BONUS := 80
  const SHALLOW_BONUS := 20
  const SHALLOW_DEPTH := 2

  /** Every character of `s` is a decimal digit. */
  predicate AllDigits(s: string)
  {
    forall c :: c in s ==> IsDigit(c)
  }

  /** The value of a string of decimal digits. */
  function DecimalValue(s: string): nat
    requires AllDigits(s)
  {
    if s == [] then 0
    else
      assert s[|s| - 1] in s;
      DecimalValue(s[..|s| - 1]) * 10 + (s[|s| - 1] as int - '0' as int)
  }

  /** The array index a property key names: a canonical decimal numeral. */
  function ArrayIndex(key: string): (r: Option<nat>)
    ensures r.Some? ==> key != [] && AllDigits(key)
  {
    if key == [] || !AllDigits(key) || (|key| > 1 && key[0] == '0') then None
    else Some(DecimalValue(key))
  }

  /**
   * `raw[key]` when `raw` is truthy and owns `key`. Objects own their
   * fields; arrays and strings own their indices and `length`; other
   * values own nothing.
   */
  function OwnProperty(raw: Json, key: string): (r: Option<Json>)
    ensures raw.JObj? ==> r == Lookup(raw.fields, key)
    ensures !JsTruthy(raw) || raw.JNum? || raw.JBool? ==> r.None?
  {
    match raw
    case JObj(fields) => Lookup(fields, key)
    case JArr(items) =>
      if key == "length" then Some(JNum(|items|))
      else
        (match ArrayIndex(key)
         case Some(i) => if i < |items| then Some(items[i]) else None
         case None => None)
    case JStr(s) =>
      if key == "length" then (if s == "" then None else Some(JNum(|s|)))
      else
        (match ArrayIndex(key)
         case Some(i) => if i < |s| then Some(JStr([s[i]])) else None
         case None => None)
    case _ => None
  }

  /** `raw` owns `key` with a value that is not `null`. */
  predicate Qualifies(raw: Json, key: string)
  {
    OwnProperty(raw, key).Some? && OwnProperty(raw, key).value != JNull
  }

  /** The value of the first direct key that qualifies. */
  function DirectValue(raw: Json, keys: seq<string>): (r: Option<Json>)
    ensures r.Some? ==> r.value != JNull
  {
    if keys == [] then None
    else if Qualifies(raw, keys[0]) then OwnProperty(raw, keys[0])
    else DirectValue(raw, keys[1..])
  }

  /** `(fieldDef.hints || []).map(normalizeToken)`. */
  function NormalizedHints(hints: seq<string>): (r: seq<string>)
    ensures |r| == |hints|
    ensures forall i :: 0 <= i < |hints| ==> r[i] == NormalizeToken(JStr(hints[i]))
  {
    seq(|hints|, i requires 0 <= i < |hints| => NormalizeToken(JStr(hints[i])))
  }

  /** What one hint adds to an entry's score. */
  function HintScore(normKey: string, normPath: string, hint: string): nat
  {
    if hint == "" then 0
    else
      (if normKey == hint then EXACT_KEY_BONUS else 0)
      + (if EndsWith(normPath, hint) then PATH_SUFFIX_BONUS
         else if Contains(normPath, hint) then PATH_CONTAINS_BONUS
         else 0)
  }

  /** The hint scores added up, hint by hint. */
  function HintsScore(normKey: string, normPath: string, hints: seq<string>): nat
  {
    if hints == [] then 0
    else HintsScore(normKey, normPath, hints[..|hints| - 1]) + HintScore(normKey, normPath, hints[|hints| - 1])
  }

  /** An entry whose value is `null` or `''` is skipped. */
  predicate Eligible(e: LeafEntry)
  {
    e.value != JNull && e.value != JStr("")
  }

  /** The score of one entry: hints, then the shallow bonus; 0 for a skipped entry. */
  function EntryScore(e: LeafEntry, hints: seq<string>): nat
  {
    if !Eligible(e) then 0
    else
      var s := HintsScore(KeyToken(e.key), TokenOf(e.path), hints);
      if s != 0 && e.depth <= SHALLOW_DEPTH then s + SHALLOW_BONUS else s
  }

  /** The score of every entry, in entry order. */
  function Scores(es: seq<LeafEntry>, hints: seq<string>): (r: seq<nat>)
    ensures |r| == |es|
  {
    if es == [] then [] else Scores(es[..|es| - 1], hints) + [EntryScore(es[|es| - 1], hints)]
  }

  lemma {:induction false} ScoreAt(es: seq<LeafEntry>, hints: seq<string>, i: nat)
    requires i < |es|
    ensures Scores(es, hints)[i] == EntryScore(es[i], hints)
  {
    if i < |es| - 1 {
      ScoreAt(es[..|es| - 1], hints, i);
    }
  }

  /**
   * The index `bestMatch` holds after the first `n` scores: a later entry
   * replaces it only with a strictly greater positive score.
   */
  function BestUpTo(scores: seq<nat>, n: nat): (r: Option<nat>)
    requires n <= |scores|
    ensures r.Some? ==> r.value < n && scores[r.value] > 0
  {
    if n == 0 then None
    else
      var prev := BestUpTo(scores, n - 1);
      if scores[n - 1] > 0 && (prev.None? || scores[n - 1] > scores[prev.value]) then Some(n - 1) else prev
  }

  /** The entries actually scanned: the given ones, or `flattenRecord(raw)`. */
  function SourceEntries(raw: Json, entries: Option<seq<LeafEntry>>): seq<LeafEntry>
  {
    if entries.Some? then entries.value else Flatten(raw)
  }

  /** `getValueFromRecord(raw, entries, fieldDef)`; `None` is `undefined`. */
  function Resolve(raw: Json, entries: Option<seq<LeafEntry>>, def: FieldDef): Option<Json>
  {
    if NoDirectHit(raw, def) then FuzzyPick(SourceEntries(raw, entries), NormalizedHints(def.hints))
    else DirectValue(raw, def.directKeys.value)
  }

  /** No direct key qualifies, so the entries decide. */
  predicate NoDirectHit(raw: Json, def: FieldDef)
  {
    def.directKeys.None? || DirectValue(raw, def.directKeys.value).None?
  }

  /** The value of the entry `bestMatch` ends with, if any. */
  function FuzzyPick(es: seq<LeafEntry>, hints: seq<string>): Option<Json>
  {
    match BestUpTo(Scores(es, hints), |es|)
    case Some(k) => Some(es[k].value)
    case None => None
  }

  /** `getValueFromRecord(raw, entries, fieldDef)`. */
  method GetValueFromRecord(raw: Json, entries: Option<seq<LeafEntry>>, def: FieldDef)
    returns (r: Option<Json>)
    ensures r == Resolve(raw, entries, def)
  {
    if def.directKeys.Some? {
      r := FindDirect(raw, def.directKeys.value);
      if r.Some? {
        return;
      }
    }
    var es: seq<LeafEntry>;
    if entries.Some? {
      es := entries.value;
    } else {
      es := FlattenRecord(raw, [], 0, []);
      assert es == Flatten(raw);
    }
    var best := BestMatch(es, NormalizedHints(def.hints));
    if best.Some? {
      r := Some(best.value.0.value);
    } else {
      r := None;
    }
  }

  /** The `sourceEntries.forEach` loop: the entry and score `bestMatch` ends with. */
  method BestMatch(es: seq<LeafEntry>, hints: seq<string>) returns (best: Option<(LeafEntry, nat)>)
    ensures var k := BestUpTo(Scores(es, hints), |es|);
      && (best.None? <==> k.None?)
      && (best.Some? ==> best.value.0 == es[k.value] && best.value.1 == EntryScore(es[k.value], hints))
  {
    ghost var scores := Scores(es, hints);
    best := None;
    var j := 0;
    while j < |es|
      invariant 0 <= j <= |es|
      invariant best.None? <==> BestUpTo(scores, j).None?
      invariant best.Some? ==> best.value.1 == scores[BestUpTo(scores, j).value]
      invariant best.Some? ==> best.value.0 == es[BestUpTo(scores, j).value]
    {
      var e := es[j];
      ScoreAt(es, hints, j);
      if e.value != JNull && e.value != JStr("") {
        var score := ScoreEntry(e, hints);
        if score > 0 && (best.None? || score > best.value.1) {
          best := Some((e, score));
        }
      }
      j := j + 1;
    }
    if best.Some? {
      ScoreAt(es, hints, BestUpTo(scores, j).value);
    }
  }

  /** The `for (const key of fieldDef.directKeys)` loop. */
  method FindDirect(raw: Json, keys: seq<string>) returns (r: Option<Json>)
    ensures r == DirectValue(raw, keys)
  {
    var i := 0;
    while i < |keys|
      invariant 0 <= i <= |keys|
      invariant DirectValue(raw, keys) == DirectValue(raw, keys[i..])
    {
      assert keys[i..][1..] == keys[i + 1..];
      var own := OwnProperty(raw, keys[i]);
      if own.Some? && own.value != JNull {
        return own;
      }
      i := i + 1;
    }
    return None;
  }

  /** One more hint adds its own score. */
  lemma HintsScoreSnoc(normKey: string, normPath: string, hints: seq<string>, h: nat)
    requires h < |hints|
    ensures HintsScore(normKey, normPath, hints[..h + 1])
      == HintsScore(normKey, normPath, hints[..h]) + HintScore(normKey, normPath, hints[h])
  {
    assert hints[..h + 1][..h] == hints[..h];
  }

  /** The score computed for one non-skipped entry: the hint loop, then the shallow bonus. */
  method ScoreEntry(e: LeafEntry, hints: seq<string>) returns (score: nat)
    requires Eligible(e)
    ensures score == EntryScore(e, hints)
  {
    var normPath := NormalizeToken(JStr(e.path));
    var normKey := NormalizeToken(SegmentValue(e.key));
    PathToken(e.path);
    KeyTokenNormalizes(e.key);
    score := 0;
    var h := 0;
    while h < |hints|
      invariant 0 <= h <= |hints|
      invariant score == HintsScore(normKey, normPath, hints[..h])
    {
      HintsScoreSnoc(normKey, normPath, hints, h);
      var hint := hints[h];
      if hint != "" {
        if normKey == hint {
          score := score + EXACT_KEY_BONUS;
        }
        if EndsWith(normPath, hint) {
          score := score + PATH_SUFFIX_BONUS;
        } else if Contains(normPath, hint) {
          score := score + PATH_CONTAINS_BONUS;
        }
      }
      h := h + 1;
    }
    assert hints[..|hints|] == hints;
    if score != 0 && e.depth <= SHALLOW_DEPTH {
      score := score + SHALLOW_BONUS;
    }
  }

  /**
   * The fuzzy pick is the first entry reaching the maximum positive score:
   * every entry scores at most as much, every earlier entry strictly less.
   */
  lemma {:induction false} BestIsFirstMaximum(scores: seq<nat>, n: nat)
    requires n <= |scores|
    ensures BestUpTo(scores, n).None? <==> forall j :: 0 <= j < n ==> scores[j] == 0
    ensures BestUpTo(scores, n).Some? ==>
      var k := BestUpTo(scores, n).value;
      && (forall j :: 0 <= j < n ==> scores[j] <= scores[k])
      && (forall j :: 0 <= j < k ==> scores[j] < scores[k])
  {
    if n > 0 {
      BestIsFirstMaximum(scores, n - 1);
    }
  }

  /** Conversely, the first maximum positive score is the one picked. */
  lemma FirstMaximumIsBest(scores: seq<nat>, k: nat)
    requires k < |scores| && scores[k] > 0
    requires forall j :: 0 <= j < |scores| ==> scores[j] <= scores[k]
    requires forall j :: 0 <= j < k ==> scores[j] < scores[k]
    ensures BestUpTo(scores, |scores|) == Some(k)
  {
    BestIsFirstMaximum(scores, |scores|);
    var b := BestUpTo(scores, |scores|).value;
    assert scores[b] == scores[k];
  }

  /**
   * Direct-key precedence: the first direct key that `raw` owns with a
   * non-null value decides, and the entries are never consulted.
   */
  lemma DirectKeyPrecedence(raw: Json, e1: Option<seq<LeafEntry>>, e2: Option<seq<LeafEntry>>,
                            keys: seq<string>, hints: seq<string>, i: nat)
    requires i < |keys| && Qualifies(raw, keys[i])
    requires forall j :: 0 <= j < i ==> !Qualifies(raw, keys[j])
    ensures Resolve(raw, e1, FieldDef(Some(keys), hints)) == OwnProperty(raw, keys[i])
    ensures Resolve(raw, e1, FieldDef(Some(keys), hints)) == Resolve(raw, e2, FieldDef(Some(keys), hints))
  {
    DirectValueAt(raw, keys, i);
  }

  lemma {:induction false} DirectValueAt(raw: Json, keys: seq<string>, i: nat)
    requires i < |keys| && Qualifies(raw, keys[i])
    requires forall j :: 0 <= j < i ==> !Qualifies(raw, keys[j])
    ensures DirectValue(raw, keys) == OwnProperty(raw, keys[i])
  {
    if i > 0 {
      assert !Qualifies(raw, keys[0]);
      DirectValueAt(raw, keys[1..], i - 1);
    }
  }

  /** The fuzzy result is `undefined` exactly when no entry scores above 0. */
  lemma UndefinedIffNothingScores(es: seq<LeafEntry>, hints: seq<string>)
    ensures FuzzyPick(es, hints).None? <==> forall j :: 0 <= j < |es| ==> Scores(es, hints)[j] == 0
  {
    FuzzyNoneIff(es, hints);
    BestIsFirstMaximum(Scores(es, hints), |es|);
  }

  lemma FuzzyNoneIff(es: seq<LeafEntry>, hints: seq<string>)
    ensures FuzzyPick(es, hints).None? <==> BestUpTo(Scores(es, hints), |es|).None?
  {
  }

  /** The fuzzy result is the value of the first entry reaching the maximum positive score. */
  lemma PicksFirstMaximum(es: seq<LeafEntry>, hints: seq<string>, k: nat)
    requires k < |es| && Scores(es, hints)[k] > 0
    requires forall j :: 0 <= j < |es| ==> Scores(es, hints)[j] <= Scores(es, hints)[k]
    requires forall j :: 0 <= j < k ==> Scores(es, hints)[j] < Scores(es, hints)[k]
    ensures FuzzyPick(es, hints) == Some(es[k].value)
  {
    FirstMaximumIsBest(Scores(es, hints), k);
  }

  /** An entry whose value is `null` or `''` is never the fuzzy result. */
  lemma NeverNullOrEmpty(es: seq<LeafEntry>, hints: seq<string>)
    ensures FuzzyPick(es, hints) != Some(JNull) && FuzzyPick(es, hints) != Some(JStr(""))
  {
    var b := BestUpTo(Scores(es, hints), |es|);
    if b.Some? {
      ScoreAt(es, hints, b.value);
    }
  }

  /** An empty normalised hint adds nothing, wherever it stands. */
  lemma EmptyHintIgnored(normKey: string, normPath: string, a: seq<string>, b: seq<string>)
    ensures HintsScore(normKey, normPath, a + [""] + b) == HintsScore(normKey, normPath, a + b)
  {
    HintsScoreAppend(normKey, normPath, a + [""], b);
    HintsScoreAppend(normKey, normPath, a, b);
    assert (a + [""])[..|a|] == a;
  }

  lemma {:induction false} HintsScoreAppend(normKey: string, normPath: string, a: seq<string>, b: seq<string>)
    ensures HintsScore(normKey, normPath, a + b) == HintsScore(normKey, normPath, a) + HintsScore(normKey, normPath, b)
    decreases |b|
  {
    if b == [] {
      assert a + b == a;
    } else {
      var init := b[..|b| - 1];
      HintsScoreAppend(normKey, normPath, a, init);
      assert (a + b)[..|a + b| - 1] == a + init;
    }
  }

  /**
   * For one hint, an entry whose key is that hint scores at least 320,
   * while an entry that only contains it in its path scores at most 100.
   */
  lemma ExactKeyBeatsContains(hint: string, segs: seq<Segment>, d1: nat, v1: Json, e2: LeafEntry)
    requires hint != ""
    requires Eligible(EntryAt(segs, d1, v1))
    requires KeyToken(KeyOf(segs)) == hint
    requires KeyToken(e2.key) != hint && !EndsWith(TokenOf(e2.path), hint)
    ensures EntryScore(EntryAt(segs, d1, v1), [hint]) >= 320
    ensures EntryScore(e2, [hint]) <= 100
  {
    var e1 := EntryAt(segs, d1, v1);
    PathTokenEndsWithKeyToken(segs);
    assert [hint][..0] == [];
    assert HintsScore(KeyToken(e1.key), TokenOf(e1.path), [hint]) == HintScore(KeyToken(e1.key), TokenOf(e1.path), hint);
    assert HintsScore(KeyToken(e2.key), TokenOf(e2.path), [hint]) == HintScore(KeyToken(e2.key), TokenOf(e2.path), hint);
  }
}
