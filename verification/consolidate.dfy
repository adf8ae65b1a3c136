/**
 * `main` of public/process_nikke_data.py: join the three tables, format
 * every visible base character (skipping the ones that raise), sort by
 * `(order, id)`, count the characters and tally them by rarity.
 */
module Consolidation {
  import opened JsonValues
  import opened PyValues
  import opened TableJoin

  /** Every record of `chars` can be formatted, since its `resource_id` is hashable. */
  predicate Formattable(chars: Dict<Fields>)
  {
    forall i :: 0 <= i < |chars| ==> ToKey(Get(chars[i].1, "resource_id", JNull)).Some?
  }

  /** `format_character_data` on each base character, in dictionary order. */
  function Outcomes(chars: Dict<Fields>, skills: Dict<Fields>, stats: Dict<Fields>): (r: seq<Outcome<CharacterOut>>)
    requires Formattable(chars)
    ensures |r| == |chars|
  {
    seq(|chars|, i requires 0 <= i < |chars| => FormatCharacterData(chars[i].1, skills, stats))
  }

  /** The records that format without raising, in dictionary order; the others are skipped. */
  function FormatAll(chars: Dict<Fields>, skills: Dict<Fields>, stats: Dict<Fields>): seq<CharacterOut>
    requires Formattable(chars)
  {
    Successes(Outcomes(chars, skills, stats))
  }

  /** The loop of `main` over `base_characters.items()` with its `try`/`except`. */
  method FormatAllRun(chars: Dict<Fields>, skills: Dict<Fields>, stats: Dict<Fields>) returns (r: seq<CharacterOut>)
    requires Formattable(chars)
    ensures r == FormatAll(chars, skills, stats)
  {
    var os := Outcomes(chars, skills, stats);
    r := [];
    var i := 0;
    while i < |chars|
      invariant 0 <= i <= |chars|
      invariant r == Successes(os[..i])
    {
      var formatted := FormatCharacterData(chars[i].1, skills, stats);
      assert formatted == os[i];
      SuccessesSnoc(os, i);
      if formatted.Ok? {
        r := r + [formatted.value];
      }
      i := i + 1;
    }
    assert os[..|chars|] == os;
  }

  /**
   * The formatted records are the outputs of the base characters whose
   * formatting does not raise, all of them, in dictionary order: only the
   * characters whose formatting raises are missing.
   */
  lemma FormatAllExact(chars: Dict<Fields>, skills: Dict<Fields>, stats: Dict<Fields>)
    requires Formattable(chars)
    ensures var r := FormatAll(chars, skills, stats);
      && (exists ks: seq<nat> :: OkValuesAt(Outcomes(chars, skills, stats), ks, r))
      && (forall i :: 0 <= i < |chars| && Outcomes(chars, skills, stats)[i].Ok? ==>
            Outcomes(chars, skills, stats)[i].value in r)
      && |r| == |chars| - Failures(Outcomes(chars, skills, stats))
  {
    var os := Outcomes(chars, skills, stats);
    SuccessesInOrder(os);
    var ks: seq<nat> :| OkValuesAt(os, ks, Successes(os));
    assert OkValuesAt(Outcomes(chars, skills, stats), ks, FormatAll(chars, skills, stats));
    SuccessesKeep(os);
    forall i | 0 <= i < |chars| && os[i].Ok? ensures os[i].value in Successes(os) {
      SuccessesComplete(os, i);
    }
  }

  // Sorting by `(order, id)`.

  /** A Python number: an int, or a bool standing for 0 or 1. */
  predicate IsNumber(v: Json)
  {
    v.JNum? || v.JBool?
  }

  function NumberOf(v: Json): int
    requires IsNumber(v)
  {
    if v.JNum? then v.n else if v.b then 1 else 0
  }

  /** The sort key `(order, id)` is a pair of numbers. */
  predicate NumericKey(c: CharacterOut)
  {
    IsNumber(c.order) && IsNumber(c.id)
  }

  /** Tuple order on `(order, id)`. */
  predicate KeyLe(a: CharacterOut, b: CharacterOut)
    requires NumericKey(a) && NumericKey(b)
  {
    NumberOf(a.order) < NumberOf(b.order) || (NumberOf(a.order) == NumberOf(b.order) && NumberOf(a.id) <= NumberOf(b.id))
  }

  predicate AllNumeric(s: seq<CharacterOut>)
  {
    forall i :: 0 <= i < |s| ==> NumericKey(s[i])
  }

  predicate SortedByKey(s: seq<CharacterOut>)
    requires AllNumeric(s)
  {
    forall i, j :: 0 <= i < j < |s| ==> KeyLe(s[i], s[j])
  }

  /** Put `x` in front of the first element of `s` whose key is not below it. */
  function Insert(x: CharacterOut, s: seq<CharacterOut>): (r: seq<CharacterOut>)
    requires NumericKey(x) && AllNumeric(s)
    ensures multiset(r) == multiset(s) + multiset{x} && |r| == |s| + 1
    ensures AllNumeric(r)
  {
    if s == [] then [x]
    else if KeyLe(x, s[0]) then [x] + s
    else
      assert s == [s[0]] + s[1..];
      [s[0]] + Insert(x, s[1..])
  }

  /**
   * `list.sort` with the key `(order, id)`: stable, so characters with the
   * same key stay in dictionary order.
   */
  function SortByKey(s: seq<CharacterOut>): (r: seq<CharacterOut>)
    requires AllNumeric(s)
    ensures multiset(r) == multiset(s) && AllNumeric(r)
  {
    if s == [] then []
    else
      assert s == [s[0]] + s[1..];
      Insert(s[0], SortByKey(s[1..]))
  }

  lemma {:induction false} InsertSorted(x: CharacterOut, s: seq<CharacterOut>)
    requires NumericKey(x) && AllNumeric(s) && SortedByKey(s)
    ensures SortedByKey(Insert(x, s))
  {
    if s == [] {
    } else if KeyLe(x, s[0]) {
      ConsSorted(x, s);
    } else {
      var t := s[1..];
      InsertSorted(x, t);
      assert AllAbove(s[0], t) by {
        forall k | 0 <= k < |t| ensures KeyLe(s[0], t[k]) {
          assert t[k] == s[k + 1];
        }
      }
      InsertAbove(s[0], x, t);
      ConsSorted(s[0], Insert(x, t));
    }
  }

  /** No key of `s` is below that of `y`. */
  predicate AllAbove(y: CharacterOut, s: seq<CharacterOut>)
    requires NumericKey(y) && AllNumeric(s)
  {
    forall k :: 0 <= k < |s| ==> KeyLe(y, s[k])
  }

  lemma {:induction false} InsertAbove(y: CharacterOut, x: CharacterOut, s: seq<CharacterOut>)
    requires NumericKey(y) && NumericKey(x) && AllNumeric(s)
    requires KeyLe(y, x) && AllAbove(y, s)
    ensures AllAbove(y, Insert(x, s))
  {
    if s != [] && !KeyLe(x, s[0]) {
      InsertAbove(y, x, s[1..]);
    }
  }

  lemma ConsSorted(y: CharacterOut, s: seq<CharacterOut>)
    requires NumericKey(y) && AllNumeric(s) && AllAbove(y, s) && SortedByKey(s)
    ensures AllNumeric([y] + s) && SortedByKey([y] + s)
  {
    var r := [y] + s;
    forall i, j | 0 <= i < j < |r| ensures KeyLe(r[i], r[j]) {
      assert r[j] == s[j - 1];
      if i > 0 {
        assert r[i] == s[i - 1];
      }
    }
  }

  /** The sort leaves characters in `(order, id)` order, a permutation of its input. */
  lemma {:induction false} SortSorted(s: seq<CharacterOut>)
    requires AllNumeric(s)
    ensures SortedByKey(SortByKey(s)) && multiset(SortByKey(s)) == multiset(s)
  {
    if s != [] {
      SortSorted(s[1..]);
      InsertSorted(s[0], SortByKey(s[1..]));
    }
  }

  /** A list already in key order is left as it is. */
  lemma {:induction false} SortKeepsSorted(s: seq<CharacterOut>)
    requires AllNumeric(s) && SortedByKey(s)
    ensures SortByKey(s) == s
  {
    if s != [] {
      SortKeepsSorted(s[1..]);
      assert s == [s[0]] + s[1..];
      if |s| > 1 {
        assert KeyLe(s[0], s[1]);
      }
    }
  }

  /**
   * `formatted_characters.sort(...)`. With a key that is not a pair of
   * numbers the comparison is modelled as raising `TypeError`.
   */
  function SortCharacters(s: seq<CharacterOut>): (r: Outcome<seq<CharacterOut>>)
    ensures r.Ok? ==> multiset(r.value) == multiset(s)
  {
    if |s| <= 1 then Ok(s)
    else if AllNumeric(s) then Ok(SortByKey(s))
    else Raise(TypeError)
  }

  // The rarity tally.

  /** `rarity_stats.get(rarity, 0)`. */
  function CountOf(d: Dict<int>, k: Key): int
  {
    match DictGet(d, k)
    case Some(n) => n
    case None => 0
  }

  /** `rarity_stats` after the loop over `cs`, or the exception an unhashable rarity raises. */
  function Tally(cs: seq<CharacterOut>): (r: Outcome<Dict<int>>)
    ensures r.Ok? ==> DistinctKeys(r.value)
  {
    if cs == [] then Ok([])
    else
      match Tally(cs[..|cs| - 1])
      case Raise(e) => Raise(e)
      case Ok(d) =>
        match ToKey(cs[|cs| - 1].rarity)
        case None => Raise(TypeError)
        case Some(k) => Ok(Put(d, k, CountOf(d, k) + 1))
  }

  /** The tally loop of `main`. */
  method TallyRun(cs: seq<CharacterOut>) returns (r: Outcome<Dict<int>>)
    ensures r == Tally(cs)
  {
    var d: Dict<int> := [];
    var i := 0;
    while i < |cs|
      invariant 0 <= i <= |cs|
      invariant Tally(cs[..i]) == Ok(d)
    {
      assert cs[..i + 1][..i] == cs[..i];
      var k := ToKey(cs[i].rarity);
      if k.None? {
        TallyRaiseSticks(cs, i + 1);
        return Raise(TypeError);
      }
      d := Put(d, k.value, CountOf(d, k.value) + 1);
      i := i + 1;
    }
    assert cs[..|cs|] == cs;
    return Ok(d);
  }

  lemma {:induction false} TallyRaiseSticks(cs: seq<CharacterOut>, n: nat)
    requires 0 < n <= |cs| && Tally(cs[..n - 1]).Ok? && ToKey(cs[n - 1].rarity).None?
    ensures Tally(cs) == Raise(TypeError)
  {
    if n < |cs| {
      assert cs[..|cs| - 1][..n - 1] == cs[..n - 1];
      TallyRaiseSticks(cs[..|cs| - 1], n);
    } else {
      assert cs[..|cs| - 1] == cs[..n - 1];
    }
  }

  /** How many of `cs` have the rarity `k`. */
  function RarityCount(cs: seq<CharacterOut>, k: Key): nat
  {
    if cs == [] then 0
    else RarityCount(cs[..|cs| - 1], k) + (if ToKey(cs[|cs| - 1].rarity) == Some(k) then 1 else 0)
  }

  /** Each rarity maps to the number of characters that have it, and no other rarity is a key. */
  lemma {:induction false} TallyCounts(cs: seq<CharacterOut>, k: Key)
    requires Tally(cs).Ok?
    ensures DictGet(Tally(cs).value, k) == if RarityCount(cs, k) == 0 then None else Some(RarityCount(cs, k))
  {
    if cs != [] {
      var init := cs[..|cs| - 1];
      var d, key := TallyStep(cs);
      TallyCounts(init, k);
      RarityCountLast(cs, k, key);
      TallyCountStep(d, key, k, RarityCount(init, k));
    }
  }

  /** Counting one more `key` in a tally that held `n` of `k`. */
  lemma TallyCountStep(d: Dict<int>, key: Key, k: Key, n: nat)
    requires DistinctKeys(d)
    requires DictGet(d, k) == if n == 0 then None else Some(n)
    ensures var m := n + (if key == k then 1 else 0);
      DictGet(Put(d, key, CountOf(d, key) + 1), k) == if m == 0 then None else Some(m)
  {
    if key == k {
      CountBumped(d, k, n);
    } else {
      PutGet(d, key, CountOf(d, key) + 1, k);
    }
  }

  /** The last character adds one to the count of its own rarity only. */
  lemma RarityCountLast(cs: seq<CharacterOut>, k: Key, key: Key)
    requires cs != [] && ToKey(cs[|cs| - 1].rarity) == Some(key)
    ensures RarityCount(cs, k) == RarityCount(cs[..|cs| - 1], k) + (if key == k then 1 else 0)
  {
  }

  /** Counting one more `k` in a tally that held `before` of them. */
  lemma CountBumped(d: Dict<int>, k: Key, before: nat)
    requires DistinctKeys(d)
    requires DictGet(d, k) == if before == 0 then None else Some(before)
    ensures DictGet(Put(d, k, CountOf(d, k) + 1), k) == Some(before + 1)
  {
    PutGet(d, k, CountOf(d, k) + 1, k);
  }

  /** The last character adds one to the count of its rarity. */
  lemma TallyStep(cs: seq<CharacterOut>) returns (d: Dict<int>, key: Key)
    requires cs != [] && Tally(cs).Ok?
    ensures Tally(cs[..|cs| - 1]) == Ok(d) && DistinctKeys(d)
    ensures ToKey(cs[|cs| - 1].rarity) == Some(key)
    ensures Tally(cs).value == Put(d, key, CountOf(d, key) + 1)
  {
    d := Tally(cs[..|cs| - 1]).value;
    key := ToKey(cs[|cs| - 1].rarity).value;
  }

  /** The sum of a dictionary's counts. */
  function Total(d: Dict<int>): int
  {
    if d == [] then 0 else Total(d[..|d| - 1]) + d[|d| - 1].1
  }

  lemma {:induction false} TotalUpdate(d: Dict<int>, j: nat, e: (Key, int))
    requires j < |d|
    ensures Total(d[j := e]) == Total(d) - d[j].1 + e.1
  {
    var r := d[j := e];
    assert r[..|r| - 1] == if j == |d| - 1 then d[..|d| - 1] else d[..|d| - 1][j := e];
    if j < |d| - 1 {
      TotalUpdate(d[..|d| - 1], j, e);
    }
  }

  lemma TotalPut(d: Dict<int>, k: Key, v: int)
    ensures Total(Put(d, k, v)) == Total(d) - CountOf(d, k) + v
  {
    match IndexOf(d, k)
    case Some(j) =>
      TotalUpdate(d, j, (k, v));
    case None =>
      assert (d + [(k, v)])[..|d|] == d;
  }

  /** The counts add up to the number of characters tallied. */
  lemma {:induction false} TallyTotal(cs: seq<CharacterOut>)
    requires Tally(cs).Ok?
    ensures Total(Tally(cs).value) == |cs|
  {
    if cs != [] {
      TallyTotal(cs[..|cs| - 1]);
      var d, key := TallyStep(cs);
      TotalPut(d, key, CountOf(d, key) + 1);
    }
  }

  /**
   * `sorted(rarity_stats.items())` succeeds: at most one rarity, or all of
   * them numbers, or all of them strings. Any correct comparison sort must
   * compare two rarities of different kinds otherwise, and that raises.
   */
  predicate Orderable(d: Dict<int>)
  {
    || |d| <= 1
    || (forall i :: 0 <= i < |d| ==> d[i].0.KInt?)
    || (forall i :: 0 <= i < |d| ==> d[i].0.KStr?)
  }

  // The whole run.

  /** How `main` ends. */
  datatype RunResult =
    | NoCharacterTable                 // `return 1` before anything is written
    | Crashed(error: PyError)          // an exception outside every `try`
    | Written(characters: seq<CharacterOut>, total: int, exitCode: int)

  /** `main()`, with the three tables as loaded. */
  function Main(characterTable: Json, skillTable: Json, statTable: Json): (r: RunResult)
    ensures !PyTruthy(characterTable) ==> r == NoCharacterTable
    ensures PyTruthy(characterTable) && CreateLookupTables(skillTable, statTable).Raise? ==>
      r == Crashed(CreateLookupTables(skillTable, statTable).error)
    ensures r.Written? ==> r.total == |r.characters| && (r.exitCode == 0 || r.exitCode == 1)
  {
    if !PyTruthy(characterTable) then NoCharacterTable
    else match CreateLookupTables(skillTable, statTable)
      case Raise(e) => Crashed(e)
      case Ok(tables) => Consolidate(characterTable, tables.0, tables.1)
  }

  /** `main` from `get_visible_base_characters` on. */
  function Consolidate(characterTable: Json, skills: Dict<Fields>, stats: Dict<Fields>): (r: RunResult)
    ensures r != NoCharacterTable
    ensures !characterTable.JObj? ==> r == Crashed(AttributeError)
    ensures r.Written? ==> r.total == |r.characters| && (r.exitCode == 0 || r.exitCode == 1)
  {
    match GetVisibleBaseCharacters(characterTable)
    case Raise(e) => Crashed(e)
    case Ok(base) =>
      BaseFormattable(characterTable);
      match SortCharacters(FormatAll(base, skills, stats))
      case Raise(e) => Crashed(e)
      case Ok(sorted) =>
        var tally := Tally(sorted);
        Written(sorted, |sorted|, if tally.Ok? && Orderable(tally.value) then 0 else 1)
  }

  lemma BaseFormattable(characterTable: Json)
    requires GetVisibleBaseCharacters(characterTable).Ok?
    ensures Formattable(GetVisibleBaseCharacters(characterTable).value)
  {
    var records := Iterate(Get(characterTable.fields, "records", JArr([]))).value;
    VisibleKeysAreResourceIds(records);
  }

  /**
   * A written file holds `total_characters` equal to the number of
   * characters, sorted by `(order, id)` when the keys are numbers, and the
   * characters are exactly the base characters that format.
   */
  lemma WrittenOutput(characterTable: Json, skillTable: Json, statTable: Json)
    requires Main(characterTable, skillTable, statTable).Written?
    ensures var out := Main(characterTable, skillTable, statTable);
      var tables := CreateLookupTables(skillTable, statTable).value;
      var base := GetVisibleBaseCharacters(characterTable).value;
      && Formattable(base)
      && out.total == |out.characters|
      && multiset(out.characters) == multiset(FormatAll(base, tables.0, tables.1))
      && (AllNumeric(out.characters) ==> SortedByKey(out.characters))
  {
    var tables := CreateLookupTables(skillTable, statTable).value;
    var base := GetVisibleBaseCharacters(characterTable).value;
    BaseFormattable(characterTable);
    var formatted := FormatAll(base, tables.0, tables.1);
    if |formatted| > 1 {
      SortSorted(formatted);
    }
  }
}
