/**
 * The text canonicalisers of the browser code (public/app.js):
 * `normalizeToken`, `normalizeString` and `normalizeDisplayValue`.
 * Lower-casing is ASCII only and the Unicode diacritic strip is not part
 * of this model: a character outside ASCII is simply not in `[a-z0-9]`.
 */
module Normalizers {
  import opened Text
  import opened JsonValues

  /** The guard `!value && value !== 0` both normalisers start with. */
  predicate Blank(v: Json)
  {
    !JsTruthy(v) && v != JNum(0)
  }

  /** Lower-case `s` and keep only `[a-z0-9]`. */
  function TokenOf(s: string): (r: string)
    ensures forall c :: c in r ==> IsLowerAlnum(c)
  {
    KeepAlnum(Lower(s))
  }

  /** `normalizeToken(value)`. */
  function NormalizeToken(v: Json): (r: string)
    ensures forall c :: c in r ==> IsLowerAlnum(c)
    ensures Blank(v) ==> r == ""
  {
    if Blank(v) then "" else TokenOf(JsString(v))
  }

  /** `[a-z0-9]` words separated by single spaces, without a leading or trailing space. */
  predicate Spaced(s: string)
  {
    && (forall c :: c in s ==> IsLowerAlnum(c) || c == ' ')
    && (s != [] ==> s[0] != ' ' && s[|s| - 1] != ' ')
    && NoDoubled(s, ' ')
  }

  /**
   * `normalizeString(value)`: lower-case, every run of characters outside
   * `[a-z0-9]` becomes one space, then trim. The result is made of
   * `[a-z0-9]` words separated by single spaces.
   */
  function NormalizeString(v: Json): (r: string)
    ensures Spaced(r)
    ensures Blank(v) ==> r == ""
  {
    if Blank(v) then "" else SpacedText(JsString(v))
  }

  /** The rewrite `normalizeString` applies to `String(value)`. */
  function SpacedText(s: string): (r: string)
    ensures Spaced(r)
  {
    TrimWords(SqueezedWords(Lower(s)))
  }

  /** Trim single-spaced `[a-z0-9]` words. */
  function TrimWords(q: string): (r: string)
    requires forall c :: c in q ==> IsLowerAlnum(c) || c == ' '
    requires NoDoubled(q, ' ')
    ensures Spaced(r)
  {
    TrimSpaced(q);
    Trim(q)
  }

  /** Every run of characters outside `[a-z0-9]` of `l` replaced by one space. */
  function SqueezedWords(l: string): (q: string)
    ensures forall c :: c in q ==> IsLowerAlnum(c) || c == ' '
    ensures NoDoubled(q, ' ')
  {
    SqueezeShape(l, IsLowerAlnum, ' ', false);
    Squeeze(l, IsLowerAlnum, ' ', false)
  }

  /** Trimming single-spaced `[a-z0-9]` words leaves them `Spaced`. */
  lemma {:induction false} TrimSpaced(q: string)
    requires forall c :: c in q ==> IsLowerAlnum(c) || c == ' '
    requires NoDoubled(q, ' ')
    ensures Spaced(Trim(q))
  {
    WordCharsAt(q);
    TrimStartWordText(q);
    TrimEndWordText(TrimStart(q));
    WordTextSpaced(Trim(q));
  }

  /** A character of a run of `[a-z0-9]` words. */
  predicate WordChar(c: char)
  {
    IsLowerAlnum(c) || c == ' '
  }

  /** `[a-z0-9]` words and spaces, never two spaces in a row. */
  predicate WordText(q: string)
  {
    (forall i :: 0 <= i < |q| ==> WordChar(q[i])) && NoDoubled(q, ' ')
  }

  lemma {:induction false} WordCharsAt(q: string)
    requires forall c :: c in q ==> IsLowerAlnum(c) || c == ' '
    requires NoDoubled(q, ' ')
    ensures WordText(q)
  {
    forall i | 0 <= i < |q| ensures WordChar(q[i]) {
      assert q[i] in q;
    }
  }

  lemma {:induction false} TrimStartWordText(q: string)
    requires WordText(q)
    ensures WordText(TrimStart(q))
    decreases |q|
  {
    if q != [] && IsWhitespace(q[0]) {
      DropFirstWordText(q);
      TrimStartWordText(q[1..]);
    }
  }

  lemma {:induction false} TrimEndWordText(q: string)
    requires WordText(q)
    ensures WordText(TrimEnd(q))
    decreases |q|
  {
    if q != [] && IsWhitespace(q[|q| - 1]) {
      DropLastWordText(q);
      TrimEndWordText(q[..|q| - 1]);
    }
  }

  lemma DropFirstWordText(q: string)
    requires q != [] && WordText(q)
    ensures WordText(q[1..])
  {
    var t := q[1..];
    forall i | 0 <= i < |t| ensures WordChar(t[i]) {
      assert t[i] == q[i + 1];
    }
    forall i | 0 <= i < |t| - 1 ensures !(t[i] == ' ' && t[i + 1] == ' ') {
      assert t[i] == q[i + 1] && t[i + 1] == q[i + 2];
    }
  }

  lemma DropLastWordText(q: string)
    requires q != [] && WordText(q)
    ensures WordText(q[..|q| - 1])
  {
    var t := q[..|q| - 1];
    forall i | 0 <= i < |t| ensures WordChar(t[i]) {
      assert t[i] == q[i];
    }
    forall i | 0 <= i < |t| - 1 ensures !(t[i] == ' ' && t[i + 1] == ' ') {
      assert t[i] == q[i] && t[i + 1] == q[i + 1];
    }
  }

  /** Word text that neither starts nor ends with white space is `Spaced`. */
  lemma WordTextSpaced(r: string)
    requires WordText(r)
    requires r != [] ==> !IsWhitespace(r[0]) && !IsWhitespace(r[|r| - 1])
    ensures Spaced(r)
  {
    forall c | c in r ensures IsLowerAlnum(c) || c == ' ' {
      var i :| 0 <= i < |r| && r[i] == c;
      assert WordChar(r[i]);
    }
    assert IsWhitespace(' ');
  }

  /** Deleting the spaces from `normalizeString(x)` gives `normalizeToken(x)`. */
  lemma {:induction false} StringWithoutSpacesIsToken(v: Json)
    ensures Without(NormalizeString(v), ' ') == NormalizeToken(v)
  {
    if !Blank(v) {
      TextWithoutSpacesIsToken(JsString(v));
    }
  }

  /** The same for the text of a value that is not blank. */
  lemma {:induction false} TextWithoutSpacesIsToken(s: string)
    ensures Without(SpacedText(s), ' ') == TokenOf(s)
  {
    var l := Lower(s);
    var q := Squeeze(l, IsLowerAlnum, ' ', false);
    assert SpacedText(s) == Trim(q);
    SqueezedSpaceOnly(l);
    TrimOnlySpaces(q);
    SqueezeWithout(l, IsLowerAlnum, ' ', false);
    KeepAlnumIsKeep(l);
  }

  /** Squeezing to `[a-z0-9]` words leaves no white space but plain spaces. */
  lemma {:induction false} SqueezedSpaceOnly(l: string)
    ensures SpaceOnlyText(Squeeze(l, IsLowerAlnum, ' ', false))
  {
    var q := Squeeze(l, IsLowerAlnum, ' ', false);
    forall i | 0 <= i < |q| ensures SpaceOnly(q[i]) {
      assert q[i] in q;
    }
  }

  /** Trimming a string whose only white space is plain spaces removes only spaces. */
  lemma {:induction false} TrimOnlySpaces(q: string)
    requires SpaceOnlyText(q)
    ensures Without(Trim(q), ' ') == Without(q, ' ')
  {
    WithoutTrimStart(q);
    SpaceOnlyAfterTrimStart(q);
    WithoutTrimEnd(TrimStart(q));
  }

  lemma {:induction false} SpaceOnlyAfterTrimStart(q: string)
    requires SpaceOnlyText(q)
    ensures SpaceOnlyText(TrimStart(q))
    decreases |q|
  {
    if q != [] && IsWhitespace(q[0]) {
      DropFirstSpaceOnly(q);
      SpaceOnlyAfterTrimStart(q[1..]);
    }
  }

  /** The only white space `c` can be is a plain space. */
  predicate SpaceOnly(c: char)
  {
    IsWhitespace(c) ==> c == ' '
  }

  /** The only white space in `q` is plain spaces. */
  predicate SpaceOnlyText(q: string)
  {
    forall i :: 0 <= i < |q| ==> SpaceOnly(q[i])
  }

  lemma DropFirstSpaceOnly(q: string)
    requires q != [] && SpaceOnlyText(q)
    ensures SpaceOnlyText(q[1..])
  {
    var t := q[1..];
    forall i | 0 <= i < |t| ensures SpaceOnly(t[i]) {
      assert t[i] == q[i + 1];
    }
  }

  lemma DropLastSpaceOnly(q: string)
    requires q != [] && SpaceOnlyText(q)
    ensures SpaceOnlyText(q[..|q| - 1])
  {
    var t := q[..|q| - 1];
    forall i | 0 <= i < |t| ensures SpaceOnly(t[i]) {
      assert t[i] == q[i];
    }
  }

  lemma {:induction false} WithoutTrimStart(q: string)
    requires SpaceOnlyText(q)
    ensures Without(TrimStart(q), ' ') == Without(q, ' ')
    decreases |q|
  {
    if q != [] && IsWhitespace(q[0]) {
      assert SpaceOnly(q[0]);
      var rest := q[1..];
      DropFirstSpaceOnly(q);
      WithoutTrimStart(rest);
      assert TrimStart(q) == TrimStart(rest);
      assert Without(q, ' ') == Without(rest, ' ');
    }
  }

  lemma {:induction false} WithoutTrimEnd(q: string)
    requires SpaceOnlyText(q)
    ensures Without(TrimEnd(q), ' ') == Without(q, ' ')
    decreases |q|
  {
    if q != [] && IsWhitespace(q[|q| - 1]) {
      assert SpaceOnly(q[|q| - 1]);
      var init := q[..|q| - 1];
      DropLastSpaceOnly(q);
      WithoutTrimEnd(init);
      assert q == init + [' '];
      WithoutAppend(init, [' '], ' ');
    }
  }

  /** `0` is kept as `"0"` by both normalisers; `false` and `null` vanish. */
  lemma ZeroAndFalsyInputs()
    ensures NormalizeToken(JNum(0)) == "0" && NormalizeString(JNum(0)) == "0"
    ensures NormalizeToken(JBool(false)) == "" && NormalizeString(JNull) == ""
  {
    ZeroString();
    OneCharText('0');
  }

  lemma ZeroString()
    ensures JsString(JNum(0)) == "0"
  {
    assert NatToString(0) == [DigitChar(0)];
  }

  /** A one-character `[a-z0-9]` string is its own token and its own normal string. */
  lemma OneCharText(c: char)
    requires IsLowerAlnum(c)
    ensures TokenOf([c]) == [c] && SpacedText([c]) == [c]
  {
    var s := [c];
    assert s[1..] == [];
    assert Lower(s) == s;
    assert KeepAlnum(s) == s;
    assert Squeeze(s, IsLowerAlnum, ' ', false) == s;
    TrimUntouched(s);
  }

  /** `normalizeDisplayValue(value)`: trim, then every white-space run becomes one space. */
  function NormalizeDisplayValue(v: Json): (r: string)
    ensures !JsTruthy(v) ==> r == ""
    ensures forall c :: c in r && IsWhitespace(c) ==> c == ' '
    ensures NoDoubled(r, ' ')
    ensures r != [] ==> !IsWhitespace(r[0]) && !IsWhitespace(r[|r| - 1])
  {
    if !JsTruthy(v) then ""
    else
      var t := Trim(JsString(v));
      SqueezeShape(t, NotWhitespace, ' ', false);
      SqueezeEnds(t, NotWhitespace, ' ');
      Squeeze(t, NotWhitespace, ' ', false)
  }

  /** Squeezing a string whose ends are kept characters keeps those ends. */
  lemma {:induction false} SqueezeEnds(s: string, keep: char -> bool, fill: char)
    requires s != [] ==> keep(s[0]) && keep(s[|s| - 1])
    ensures var r := Squeeze(s, keep, fill, false);
      s != [] ==> r != [] && r[0] == s[0] && r[|r| - 1] == s[|s| - 1]
  {
    if s != [] {
      SqueezeLast(s, keep, fill, false);
    }
  }

  lemma {:induction false} SqueezeLast(s: string, keep: char -> bool, fill: char, inRun: bool)
    requires s != [] && keep(s[|s| - 1])
    ensures var r := Squeeze(s, keep, fill, inRun); r != [] && r[|r| - 1] == s[|s| - 1]
  {
    if |s| > 1 {
      SqueezeLast(s[1..], keep, fill, !keep(s[0]));
      SqueezeLast(s[1..], keep, fill, false);
    }
  }

  lemma {:induction false} KeepAppend(a: string, b: string, keep: char -> bool)
    ensures Keep(a + b, keep) == Keep(a, keep) + Keep(b, keep)
  {
    if a == [] {
      assert a + b == b;
    } else {
      assert (a + b)[0] == a[0] && (a + b)[1..] == a[1..] + b;
      KeepAppend(a[1..], b, keep);
    }
  }

  /** Trimming drops white space only. */
  lemma TrimKeepsText(s: string)
    ensures Keep(Trim(s), NotWhitespace) == Keep(s, NotWhitespace)
  {
    KeepTrimStart(s);
    KeepTrimEnd(TrimStart(s));
  }

  lemma {:induction false} KeepTrimStart(s: string)
    ensures Keep(TrimStart(s), NotWhitespace) == Keep(s, NotWhitespace)
  {
    if s != [] && IsWhitespace(s[0]) {
      KeepTrimStart(s[1..]);
      assert TrimStart(s) == TrimStart(s[1..]);
      assert Keep(s, NotWhitespace) == Keep(s[1..], NotWhitespace) by {
        assert !NotWhitespace(s[0]);
      }
    }
  }

  lemma {:induction false} KeepTrimEnd(s: string)
    ensures Keep(TrimEnd(s), NotWhitespace) == Keep(s, NotWhitespace)
  {
    if s != [] && IsWhitespace(s[|s| - 1]) {
      var init := s[..|s| - 1];
      KeepTrimEnd(init);
      assert s == init + [s[|s| - 1]];
      KeepAppend(init, [s[|s| - 1]], NotWhitespace);
    }
  }

  /** `normalizeDisplayValue` only rewrites white space: every other character survives, in order. */
  lemma DisplayValueKeepsText(v: Json)
    requires JsTruthy(v)
    ensures Without(NormalizeDisplayValue(v), ' ') == Keep(JsString(v), NotWhitespace)
  {
    var t := Trim(JsString(v));
    assert NormalizeDisplayValue(v) == Squeeze(t, NotWhitespace, ' ', false);
    TrimKeepsText(JsString(v));
    SqueezeWithout(t, NotWhitespace, ' ', false);
  }
}
