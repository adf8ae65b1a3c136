/**
 * The search and filter data of the browser code (public/app.js):
 * `buildSearchIndex`, `matchesFilter`, and the filter ids that
 * `renderFilters` builds as `fieldId::token` and `applyFilters` splits.
 */
module Search {
  import opened Text
  import opened JsonValues
  import opened Normalizers
  import opened Flattening

  /** What an entry adds to the token set: a number as `toString()`, a string as it is. */
  function EntryToken(e: LeafEntry): Option<Json>
  {
    match e.value
    case JNum(n) => Some(JStr(IntToString(n)))
    case JStr(s) => Some(JStr(s))
    case _ => None
  }

  /** `tokens.add(t)`: a `Set` keeps insertion order and ignores a repeat. */
  function AddToken(tokens: seq<Json>, t: Json): seq<Json>
  {
    if t in tokens then tokens else tokens + [t]
  }

  /** The token set after the `entries.forEach` loop. */
  function EntryTokens(es: seq<LeafEntry>): seq<Json>
  {
    if es == [] then []
    else
      var prev := EntryTokens(es[..|es| - 1]);
      match EntryToken(es[|es| - 1])
      case Some(t) => AddToken(prev, t)
      case None => prev
  }

  /** The token set after the `additional.forEach` loop: truthy values only. */
  function ExtraTokens(tokens: seq<Json>, extra: seq<Json>): seq<Json>
  {
    if extra == [] then tokens
    else
      var prev := ExtraTokens(tokens, extra[..|extra| - 1]);
      if JsTruthy(extra[|extra| - 1]) then AddToken(prev, extra[|extra| - 1]) else prev
  }

  /** `Array.from(tokens).map(normalizeString).filter(Boolean)`. */
  function Words(tokens: seq<Json>): seq<string>
  {
    if tokens == [] then []
    else
      var w := NormalizeString(tokens[|tokens| - 1]);
      Words(tokens[..|tokens| - 1]) + (if w == "" then [] else [w])
  }

  /** `buildSearchIndex(raw, entries, additional)`. */
  function SearchText(es: seq<LeafEntry>, extra: seq<Json>): string
  {
    Join(Words(ExtraTokens(EntryTokens(es), extra)), " ")
  }

  /** `buildSearchIndex(raw, entries, additional)`, loop by loop. */
  method BuildSearchIndex(es: seq<LeafEntry>, extra: seq<Json>) returns (text: string)
    ensures text == SearchText(es, extra)
  {
    var tokens := CollectEntryTokens(es);
    tokens := CollectExtraTokens(tokens, extra);
    var words := NormalizeTokens(tokens);
    text := Join(words, " ");
  }

  /** The `entries.forEach` loop. */
  method CollectEntryTokens(es: seq<LeafEntry>) returns (tokens: seq<Json>)
    ensures tokens == EntryTokens(es)
  {
    tokens := [];
    var i := 0;
    while i < |es|
      invariant 0 <= i <= |es|
      invariant tokens == EntryTokens(es[..i])
    {
      assert es[..i + 1][..i] == es[..i];
      var v := es[i].value;
      if v.JNum? {
        tokens := AddToken(tokens, JStr(IntToString(v.n)));
      } else if v.JStr? {
        tokens := AddToken(tokens, v);
      }
      i := i + 1;
    }
    assert es[..|es|] == es;
  }

  /** The `additional.forEach` loop. */
  method CollectExtraTokens(tokens0: seq<Json>, extra: seq<Json>) returns (tokens: seq<Json>)
    ensures tokens == ExtraTokens(tokens0, extra)
  {
    tokens := tokens0;
    var j := 0;
    while j < |extra|
      invariant 0 <= j <= |extra|
      invariant tokens == ExtraTokens(tokens0, extra[..j])
    {
      assert extra[..j + 1][..j] == extra[..j];
      if JsTruthy(extra[j]) {
        tokens := AddToken(tokens, extra[j]);
      }
      j := j + 1;
    }
    assert extra[..|extra|] == extra;
  }

  /** `.map((token) => normalizeString(token)).filter(Boolean)`. */
  method NormalizeTokens(tokens: seq<Json>) returns (words: seq<string>)
    ensures words == Words(tokens)
  {
    words := [];
    var k := 0;
    while k < |tokens|
      invariant 0 <= k <= |tokens|
      invariant words == Words(tokens[..k])
    {
      WordsExtend(tokens, k);
      var w := NormalizeString(tokens[k]);
      if w != "" {
        words := words + [w];
      }
      k := k + 1;
    }
    assert tokens[..|tokens|] == tokens;
  }

  /** One more token adds its normalised form, unless that is empty. */
  lemma WordsExtend(tokens: seq<Json>, k: nat)
    requires k < |tokens|
    ensures var w := NormalizeString(tokens[k]);
      Words(tokens[..k + 1]) == Words(tokens[..k]) + (if w == "" then [] else [w])
  {
    assert tokens[..k + 1][..k] == tokens[..k];
  }

  /** Two non-empty spaced strings joined by one space are spaced. */
  lemma SpacedConcat(a: string, b: string)
    requires a != [] && b != [] && Spaced(a) && Spaced(b)
    ensures Spaced(a + " " + b)
  {
    var s := a + " " + b;
    forall i | 0 <= i < |s| - 1
      ensures !(s[i] == ' ' && s[i + 1] == ' ')
    {
      if i < |a| - 1 {
        assert s[i] == a[i] && s[i + 1] == a[i + 1];
      } else if i == |a| - 1 {
        assert s[i] == a[|a| - 1];
      } else if i == |a| {
        assert s[i + 1] == b[0];
      } else {
        assert s[i] == b[i - |a| - 1] && s[i + 1] == b[i - |a|];
      }
    }
    forall c | c in s
      ensures IsLowerAlnum(c) || c == ' '
    {
      var i :| 0 <= i < |s| && s[i] == c;
      if i < |a| {
        assert a[i] in a;
      } else if i > |a| {
        assert b[i - |a| - 1] in b;
      }
    }
  }

  /** Non-empty spaced words joined by single spaces are spaced, and non-empty if any word is there. */
  lemma {:induction false} SpacedJoin(words: seq<string>)
    requires forall i :: 0 <= i < |words| ==> words[i] != "" && Spaced(words[i])
    ensures Spaced(Join(words, " "))
    ensures words != [] ==> Join(words, " ") != ""
  {
    if |words| > 1 {
      var init := words[..|words| - 1];
      SpacedJoin(init);
      SpacedConcat(Join(init, " "), words[|words| - 1]);
    }
  }

  /** Every word is a non-empty normalised string. */
  lemma {:induction false} WordsSpaced(tokens: seq<Json>)
    ensures forall i :: 0 <= i < |Words(tokens)| ==> Words(tokens)[i] != "" && Spaced(Words(tokens)[i])
  {
    if tokens != [] {
      WordsSpaced(tokens[..|tokens| - 1]);
    }
  }

  /** The search text is `[a-z0-9]` words separated by single spaces. */
  lemma SearchTextShape(es: seq<LeafEntry>, extra: seq<Json>)
    ensures Spaced(SearchText(es, extra))
  {
    WordsSpaced(ExtraTokens(EntryTokens(es), extra));
    SpacedJoin(Words(ExtraTokens(EntryTokens(es), extra)));
  }

  /** The token set holds no value twice. */
  lemma {:induction false} EntryTokensDistinct(es: seq<LeafEntry>)
    ensures forall i, j :: 0 <= i < j < |EntryTokens(es)| ==> EntryTokens(es)[i] != EntryTokens(es)[j]
  {
    if es != [] {
      EntryTokensDistinct(es[..|es| - 1]);
    }
  }

  lemma {:induction false} ExtraTokensDistinct(tokens: seq<Json>, extra: seq<Json>)
    requires forall i, j :: 0 <= i < j < |tokens| ==> tokens[i] != tokens[j]
    ensures forall i, j :: 0 <= i < j < |ExtraTokens(tokens, extra)| ==>
      ExtraTokens(tokens, extra)[i] != ExtraTokens(tokens, extra)[j]
  {
    if extra != [] {
      ExtraTokensDistinct(tokens, extra[..|extra| - 1]);
    }
  }

  /** Every string or number leaf is in the token set. */
  lemma {:induction false} EntryTokenKept(es: seq<LeafEntry>, i: nat)
    requires i < |es| && EntryToken(es[i]).Some?
    ensures EntryToken(es[i]).value in EntryTokens(es)
  {
    var init := es[..|es| - 1];
    if i < |es| - 1 {
      EntryTokenKept(init, i);
      assert init[i] == es[i];
    }
  }

  /** The extras keep the tokens already there, and add every truthy extra. */
  lemma {:induction false} ExtraTokensKeep(tokens: seq<Json>, extra: seq<Json>, t: Json)
    requires t in tokens || (t in extra && JsTruthy(t))
    ensures t in ExtraTokens(tokens, extra)
  {
    if extra != [] {
      var init := extra[..|extra| - 1];
      if t in tokens || t in init {
        ExtraTokensKeep(tokens, init, t);
      }
    }
  }

  /** Every token whose normalised form is non-empty becomes a word. */
  lemma {:induction false} WordsKeep(tokens: seq<Json>, t: Json)
    requires t in tokens && NormalizeString(t) != ""
    ensures NormalizeString(t) in Words(tokens)
  {
    var init := tokens[..|tokens| - 1];
    if t != tokens[|tokens| - 1] {
      assert t in init;
      WordsKeep(init, t);
    }
  }

  lemma WordInSearchText(es: seq<LeafEntry>, extra: seq<Json>, t: Json)
    requires t in ExtraTokens(EntryTokens(es), extra) && NormalizeString(t) != ""
    ensures Contains(SearchText(es, extra), NormalizeString(t))
  {
    var words := Words(ExtraTokens(EntryTokens(es), extra));
    WordsKeep(ExtraTokens(EntryTokens(es), extra), t);
    var k :| 0 <= k < |words| && words[k] == NormalizeString(t);
    JoinContainsPart(words, " ", k);
  }

  /** The normalised form of every string or number leaf occurs in the search text. */
  lemma {:induction false} LeafInSearchText(es: seq<LeafEntry>, extra: seq<Json>, i: nat)
    requires i < |es| && (es[i].value.JNum? || es[i].value.JStr?)
    requires NormalizeString(es[i].value) != ""
    ensures Contains(SearchText(es, extra), NormalizeString(es[i].value))
  {
    var t := EntryToken(es[i]).value;
    EntryTokenKept(es, i);
    ExtraTokensKeep(EntryTokens(es), extra, t);
    EntryTokenText(es[i]);
    WordInSearchText(es, extra, t);
  }

  /** A number or string leaf's token normalises to what the leaf itself does. */
  lemma EntryTokenText(e: LeafEntry)
    requires e.value.JNum? || e.value.JStr?
    ensures NormalizeString(EntryToken(e).value) == NormalizeString(e.value)
  {
    var t := EntryToken(e).value;
    assert JsString(t) == JsString(e.value) && Blank(t) == Blank(e.value);
  }

  /** The normalised form of every truthy extra occurs in the search text. */
  lemma ExtraInSearchText(es: seq<LeafEntry>, extra: seq<Json>, i: nat)
    requires i < |extra| && JsTruthy(extra[i])
    requires NormalizeString(extra[i]) != ""
    ensures Contains(SearchText(es, extra), NormalizeString(extra[i]))
  {
    ExtraTokensKeep(EntryTokens(es), extra, extra[i]);
    WordInSearchText(es, extra, extra[i]);
  }

  /** An entry that yields no token leaves the token set as it is, wherever it stands. */
  lemma {:induction false} EntryTokensSkip(a: seq<LeafEntry>, e: LeafEntry, b: seq<LeafEntry>)
    requires EntryToken(e).None?
    ensures EntryTokens(a + [e] + b) == EntryTokens(a + b)
    decreases |b|
  {
    if b == [] {
      assert a + [e] + b == a + [e] && (a + [e])[..|a|] == a && a + b == a;
    } else {
      var init := b[..|b| - 1];
      var x := b[|b| - 1];
      EntryTokensSkip(a, e, init);
      assert (a + [e] + b)[..|a + [e] + b| - 1] == a + [e] + init;
      assert (a + b)[..|a + b| - 1] == a + init;
      assert (a + [e] + b)[|a + [e] + b| - 1] == x == (a + b)[|a + b| - 1];
    }
  }

  /** A boolean or `null` leaf adds nothing to the search text, wherever it stands. */
  lemma BooleansAndNullsIgnored(a: seq<LeafEntry>, e: LeafEntry, b: seq<LeafEntry>, extra: seq<Json>)
    requires e.value.JBool? || e.value.JNull?
    ensures SearchText(a + [e] + b, extra) == SearchText(a + b, extra)
  {
    EntryTokensSkip(a, e, b);
  }

  /** `matchesFilter(value, expectedToken)`. */
  function MatchesFilter(value: Json, token: string): (r: bool)
    ensures !JsTruthy(value) ==> !r
  {
    if !JsTruthy(value) then false
    else if value.JArr? then SomeItemMatches(value.items, token)
    else Contains(NormalizeString(value), token)
  }

  /** `items.some((item) => normalizeString(item).includes(token))`. */
  function SomeItemMatches(items: seq<Json>, token: string): bool
  {
    items != [] && (Contains(NormalizeString(items[0]), token) || SomeItemMatches(items[1..], token))
  }

  /** An array value matches exactly when one of its items does. */
  lemma {:induction false} SomeItemMatchesIff(items: seq<Json>, token: string)
    ensures SomeItemMatches(items, token) <==>
      exists i :: 0 <= i < |items| && Contains(NormalizeString(items[i]), token)
  {
    if items != [] {
      SomeItemMatchesIff(items[1..], token);
      if exists i :: 0 <= i < |items| && Contains(NormalizeString(items[i]), token) {
        var i :| 0 <= i < |items| && Contains(NormalizeString(items[i]), token);
        if i > 0 {
          assert items[1..][i - 1] == items[i];
        }
      }
    }
  }

  /** The filter id `renderFilters` gives a tag: `${fieldId}::${normalizeString(value)}`. */
  function BuildFilterId(fieldId: string, value: Json): string
  {
    fieldId + "::" + NormalizeString(value)
  }

  /** `s.split('::')`, with `cur` the part read so far. */
  function SplitColons(s: string, cur: string): (r: seq<string>)
    ensures |r| >= 1
  {
    if s == [] then [cur]
    else if |s| >= 2 && s[0] == ':' && s[1] == ':' then [cur] + SplitColons(s[2..], "")
    else SplitColons(s[1..], cur + [s[0]])
  }

  /** `const [fieldKey, valueKey] = filterId.split('::')`; a missing part is `undefined`. */
  function ParseFilterId(id: string): (string, Option<string>)
  {
    var parts := SplitColons(id, "");
    (parts[0], if |parts| > 1 then Some(parts[1]) else None)
  }

  /** A string without `:` is read into the current part whole. */
  lemma {:induction false} SplitPlain(a: string, rest: string, cur: string)
    requires forall c :: c in a ==> c != ':'
    ensures SplitColons(a + rest, cur) == SplitColons(rest, cur + a)
  {
    if a == [] {
      assert a + rest == rest && cur + a == cur;
    } else {
      assert a[0] in a;
      assert (a + rest)[1..] == a[1..] + rest;
      assert forall c :: c in a[1..] ==> c in a;
      SplitPlain(a[1..], rest, cur + [a[0]]);
      assert cur + [a[0]] + a[1..] == cur + a;
    }
  }

  /** `a::b` splits back into `a` and `b` when neither holds a `:`. */
  lemma SplitRoundTrip(a: string, b: string)
    requires forall c :: c in a ==> c != ':'
    requires forall c :: c in b ==> c != ':'
    ensures ParseFilterId(a + "::" + b) == (a, Some(b))
  {
    SplitPlain(a, "::" + b, "");
    assert a + "::" + b == a + ("::" + b);
    assert ("::" + b)[2..] == b;
    SplitPlain(b, "", "");
    assert b + "" == b && "" + b == b && "" + a == a;
  }

  /**
   * Splitting a built filter id recovers the field id and the token, for a
   * field id without `:` (a normalised token never holds one).
   */
  lemma FilterIdRoundTrip(fieldId: string, value: Json)
    requires forall c :: c in fieldId ==> c != ':'
    ensures ParseFilterId(BuildFilterId(fieldId, value)) == (fieldId, Some(NormalizeString(value)))
  {
    var t := NormalizeString(value);
    forall c | c in t
      ensures c != ':'
    {
      assert IsLowerAlnum(c) || c == ' ';
    }
    SplitRoundTrip(fieldId, t);
  }

  /** The value a tag was built from passes that tag's filter. */
  lemma BuiltFilterMatches(value: Json)
    requires JsTruthy(value) && !value.JArr?
    ensures MatchesFilter(value, NormalizeString(value))
  {
    ContainsSelf(NormalizeString(value));
  }

  /** An array passes the filter built from any of its items. */
  lemma BuiltFilterMatchesItem(items: seq<Json>, i: nat)
    requires i < |items|
    ensures MatchesFilter(JArr(items), NormalizeString(items[i]))
  {
    ContainsSelf(NormalizeString(items[i]));
    SomeItemMatchesIff(items, NormalizeString(items[i]));
  }
}
