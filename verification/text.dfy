/**
 * String helpers shared by the JavaScript and Python models: ASCII case
 * mapping, ECMAScript white space, substring tests, decimal rendering,
 * trimming, joining, and a run-squeezing rewrite used by several of the
 * source's regular-expression replacements.
 */
module Text {

  /** ASCII upper-case letter. */
  predicate IsUpper(c: char) { 'A' <= c <= 'Z' }

  predicate IsDigit(c: char) { '0' <= c <= '9' }

  /** The character class `[a-z0-9]`. */
  predicate IsLowerAlnum(c: char) { ('a' <= c <= 'z') || IsDigit(c) }

  /** ASCII `toLowerCase` for one character. */
  function LowerChar(c: char): (r: char)
    ensures IsUpper(c) ==> r as int == c as int + 32
    ensures !IsUpper(c) ==> r == c
  {
    if IsUpper(c) then (c as int + 32) as char else c
  }

  /** `String.prototype.toLowerCase` restricted to ASCII letters. */
  function Lower(s: string): (r: string)
    ensures |r| == |s|
    ensures forall i :: 0 <= i < |s| ==> r[i] == LowerChar(s[i])
  {
    if s == [] then [] else [LowerChar(s[0])] + Lower(s[1..])
  }

  lemma {:induction false} LowerAppend(a: string, b: string)
    ensures Lower(a + b) == Lower(a) + Lower(b)
  {
    assert forall i :: 0 <= i < |a + b| ==> Lower(a + b)[i] == (Lower(a) + Lower(b))[i];
  }

  /** A string without upper-case letters is its own lower case. */
  lemma {:induction false} LowerNoUpper(s: string)
    requires forall i :: 0 <= i < |s| ==> !IsUpper(s[i])
    ensures Lower(s) == s
  {
    if s != [] {
      LowerNoUpper(s[1..]);
    }
  }

  /**
   * ECMAScript WhiteSpace and LineTerminator code points: what `\s` matches
   * and what `String.prototype.trim` strips.
   */
  predicate IsWhitespace(c: char)
  {
    c == '\t' || c == '\n' || c == '\U{B}' || c == '\U{C}' || c == '\r' || c == ' '
    || c == '\U{A0}' || c == '\U{1680}' || ('\U{2000}' <= c <= '\U{200A}')
    || c == '\U{2028}' || c == '\U{2029}' || c == '\U{202F}' || c == '\U{205F}'
    || c == '\U{3000}' || c == '\U{FEFF}'
  }

  predicate NotWhitespace(c: char)
  {
    !IsWhitespace(c)
  }

  predicate StartsWith(s: string, prefix: string)
  {
    |prefix| <= |s| && s[..|prefix|] == prefix
  }

  /** `String.prototype.endsWith`. */
  predicate EndsWith(s: string, suffix: string)
  {
    |suffix| <= |s| && s[|s| - |suffix|..] == suffix
  }

  /** `String.prototype.includes`: `sub` occurs in `s` at some offset. */
  predicate Contains(s: string, sub: string)
    decreases |s|
  {
    StartsWith(s, sub) || (s != [] && Contains(s[1..], sub))
  }

  lemma {:induction false} ContainsAt(s: string, sub: string, i: nat)
    requires i + |sub| <= |s| && s[i..i + |sub|] == sub
    ensures Contains(s, sub)
    decreases i
  {
    if i > 0 {
      assert s[1..][i - 1..i - 1 + |sub|] == sub;
      ContainsAt(s[1..], sub, i - 1);
    }
  }

  /** `sub` occurs in `s` at offset `i`. */
  predicate OccursAt(s: string, sub: string, i: nat)
  {
    i + |sub| <= |s| && s[i..i + |sub|] == sub
  }

  /** An occurrence found by `Contains` has an offset. */
  lemma {:induction false} ContainsIndex(s: string, sub: string)
    requires Contains(s, sub)
    ensures exists i: nat :: OccursAt(s, sub, i)
    decreases |s|
  {
    if StartsWith(s, sub) {
      assert OccursAt(s, sub, 0);
    } else {
      ContainsIndex(s[1..], sub);
      var i: nat :| OccursAt(s[1..], sub, i);
      assert s[i + 1..i + 1 + |sub|] == s[1..][i..i + |sub|];
      assert OccursAt(s, sub, i + 1);
    }
  }

  /** An occurrence in `a` is an occurrence in `a + b`. */
  lemma ContainsPrefix(a: string, b: string, sub: string)
    requires Contains(a, sub)
    ensures Contains(a + b, sub)
  {
    ContainsIndex(a, sub);
    var i: nat :| OccursAt(a, sub, i);
    assert (a + b)[i..i + |sub|] == a[i..i + |sub|];
    ContainsAt(a + b, sub, i);
  }

  lemma ContainsSelf(s: string)
    ensures Contains(s, s)
  {
    assert StartsWith(s, s);
  }

  lemma {:induction false} EndsWithContains(s: string, suffix: string)
    requires EndsWith(s, suffix)
    ensures Contains(s, suffix)
  {
    ContainsAt(s, suffix, |s| - |suffix|);
  }

  lemma {:induction false} ContainsInMiddle(a: string, sub: string, b: string)
    ensures Contains(a + sub + b, sub)
  {
    var s := a + sub + b;
    assert s[|a|..|a| + |sub|] == sub;
    ContainsAt(s, sub, |a|);
  }

  /** A decimal digit for `0 <= d < 10`. */
  function DigitChar(d: nat): (c: char)
    requires d < 10
    ensures IsDigit(c)
  {
    ('0' as int + d) as char
  }

  /** `String(n)` for a non-negative integer: its decimal digits. */
  function NatToString(n: nat): (r: string)
    ensures r != []
    ensures forall c :: c in r ==> IsDigit(c)
    decreases n
  {
    if n < 10 then [DigitChar(n)] else NatToString(n / 10) + [DigitChar(n % 10)]
  }

  /** `String(i)` for an integer. */
  function IntToString(i: int): (r: string)
    ensures r != []
    ensures forall c :: c in r ==> IsDigit(c) || c == '-'
  {
    if i < 0 then "-" + NatToString(-i) else NatToString(i)
  }

  /** `parts.join(sep)`. */
  function Join(parts: seq<string>, sep: string): string
  {
    if parts == [] then ""
    else if |parts| == 1 then parts[0]
    else Join(parts[..|parts| - 1], sep) + sep + parts[|parts| - 1]
  }

  /** Every part occurs in the joined string. */
  lemma {:induction false} JoinContainsPart(parts: seq<string>, sep: string, i: nat)
    requires i < |parts|
    ensures Contains(Join(parts, sep), parts[i])
  {
    if |parts| == 1 {
      ContainsSelf(parts[0]);
    } else {
      var init := parts[..|parts| - 1];
      if i == |parts| - 1 {
        ContainsInMiddle(Join(init, sep) + sep, parts[i], "");
        assert Join(init, sep) + sep + parts[i] + "" == Join(parts, sep);
      } else {
        JoinContainsPart(init, sep, i);
        ContainsPrefix(Join(init, sep), sep + parts[|parts| - 1], parts[i]);
        assert Join(init, sep) + (sep + parts[|parts| - 1]) == Join(parts, sep);
      }
    }
  }

  /** Everything in `s` except the characters `c`. */
  function Without(s: string, c: char): (r: string)
    ensures c !in r
    ensures forall x :: x in r ==> x in s
  {
    if s == [] then [] else (if s[0] == c then [] else [s[0]]) + Without(s[1..], c)
  }

  lemma {:induction false} WithoutAppend(a: string, b: string, c: char)
    ensures Without(a + b, c) == Without(a, c) + Without(b, c)
  {
    if a != [] {
      assert (a + b)[0] == a[0] && (a + b)[1..] == a[1..] + b;
      WithoutAppend(a[1..], b, c);
      assert Without(a + b, c) == (if a[0] == c then [] else [a[0]]) + Without(a[1..] + b, c);
    } else {
      assert a + b == b;
    }
  }

  lemma {:induction false} WithoutAll(s: string, c: char)
    requires forall i :: 0 <= i < |s| ==> s[i] == c
    ensures Without(s, c) == []
  {
    if s != [] {
      WithoutAll(s[1..], c);
    }
  }

  /** `s.trimStart()`. */
  function TrimStart(s: string): (r: string)
    ensures |r| <= |s| && r == s[|s| - |r|..]
    ensures r != [] ==> !IsWhitespace(r[0])
    ensures forall i :: 0 <= i < |s| - |r| ==> IsWhitespace(s[i])
  {
    if s != [] && IsWhitespace(s[0]) then TrimStart(s[1..]) else s
  }

  /** `s.trimEnd()`. */
  function TrimEnd(s: string): (r: string)
    ensures |r| <= |s| && r == s[..|r|]
    ensures r != [] ==> !IsWhitespace(r[|r| - 1])
    ensures forall i :: |r| <= i < |s| ==> IsWhitespace(s[i])
  {
    if s != [] && IsWhitespace(s[|s| - 1]) then TrimEnd(s[..|s| - 1]) else s
  }

  /**
   * `r` is the slice of `s` that starts at `lo`, and everything of `s`
   * outside it is white space.
   */
  predicate TrimmedSlice(s: string, r: string, lo: nat)
  {
    && lo + |r| <= |s| && r == s[lo..lo + |r|]
    && (forall i :: 0 <= i < lo ==> IsWhitespace(s[i]))
    && (forall i :: lo + |r| <= i < |s| ==> IsWhitespace(s[i]))
  }

  /**
   * `s.trim()`: `s` without its leading and trailing white space, which is
   * the slice of `s` that starts after the leading white space.
   */
  function Trim(s: string): (r: string)
    ensures r != [] ==> !IsWhitespace(r[0]) && !IsWhitespace(r[|r| - 1])
    ensures TrimmedSlice(s, r, |s| - |TrimStart(s)|)
  {
    TrimIsSlice(s, TrimStart(s), TrimEnd(TrimStart(s)));
    TrimEnd(TrimStart(s))
  }

  /** Trimming the start, then the end, keeps a slice with white space on either side. */
  lemma TrimIsSlice(s: string, a: string, r: string)
    requires |a| <= |s| && a == s[|s| - |a|..] && forall i :: 0 <= i < |s| - |a| ==> IsWhitespace(s[i])
    requires |r| <= |a| && r == a[..|r|] && forall i :: |r| <= i < |a| ==> IsWhitespace(a[i])
    ensures TrimmedSlice(s, r, |s| - |a|)
  {
    var lo := |s| - |a|;
    assert a == s[lo..];
    assert r == a[..|r|];
    assert r == s[lo..lo + |r|] by {
      forall i | 0 <= i < |r| ensures r[i] == s[lo + i] {
        assert r[i] == a[i] == s[lo + i];
      }
    }
    forall i | lo + |r| <= i < |s| ensures IsWhitespace(s[i]) {
      assert s[i] == a[i - lo];
      assert |r| <= i - lo < |a|;
    }
  }

  /** `s` holds a character other than white space. */
  predicate HasText(s: string)
  {
    exists i :: 0 <= i < |s| && NotWhitespace(s[i])
  }

  /** `s.trim()` is non-empty exactly when `s` holds a character other than white space. */
  lemma HasTextIffTrimmed(s: string)
    ensures HasText(s) <==> Trim(s) != ""
  {
    var r := Trim(s);
    var lo := |s| - |TrimStart(s)|;
    assert TrimmedSlice(s, r, lo);
    if r != "" {
      assert NotWhitespace(s[lo]);
    }
  }

  /** A string that neither starts nor ends with white space is its own trim. */
  lemma TrimUntouched(s: string)
    requires s != [] ==> !IsWhitespace(s[0]) && !IsWhitespace(s[|s| - 1])
    ensures Trim(s) == s
  {
    assert TrimStart(s) == s;
    assert TrimEnd(s) == s;
  }

  /**
   * The rewrite `s.replace(/X+/g, fill)` where X is the class of characters
   * for which `keep` is false: every maximal run of such characters becomes
   * one `fill`. `inRun` says that the character before `s` was already part
   * of a replaced run.
   */
  function Squeeze(s: string, keep: char -> bool, fill: char, inRun: bool): (r: string)
    ensures forall c :: c in r ==> c == fill || (keep(c) && c in s)
  {
    if s == [] then []
    else if keep(s[0]) then [s[0]] + Squeeze(s[1..], keep, fill, false)
    else if inRun then Squeeze(s[1..], keep, fill, true)
    else [fill] + Squeeze(s[1..], keep, fill, true)
  }

  /** Adjacent characters of `s` are never both `c`. */
  predicate NoDoubled(s: string, c: char)
  {
    forall i :: 0 <= i < |s| - 1 ==> !(s[i] == c && s[i + 1] == c)
  }

  /**
   * A squeezed string never holds two fills in a row, and it starts with a
   * fill only when `s` starts with a replaced character outside a run.
   */
  lemma {:induction false} SqueezeShape(s: string, keep: char -> bool, fill: char, inRun: bool)
    requires !keep(fill)
    ensures NoDoubled(Squeeze(s, keep, fill, inRun), fill)
    ensures var r := Squeeze(s, keep, fill, inRun);
      inRun && r != [] ==> r[0] != fill
  {
    if s != [] {
      SqueezeShape(s[1..], keep, fill, keep(s[0]) == false);
      SqueezeShape(s[1..], keep, fill, false);
    }
  }

  /**
   * A string that ends with a kept character is squeezed on its own, and
   * what follows it is squeezed as if from the start.
   */
  lemma {:induction false} SqueezeAppend(a: string, b: string, keep: char -> bool, fill: char, inRun: bool)
    requires a != [] && keep(a[|a| - 1])
    ensures Squeeze(a + b, keep, fill, inRun) == Squeeze(a, keep, fill, inRun) + Squeeze(b, keep, fill, false)
  {
    assert (a + b)[0] == a[0] && (a + b)[1..] == a[1..] + b;
    if |a| > 1 {
      SqueezeAppend(a[1..], b, keep, fill, !keep(a[0]));
    } else {
      assert a[1..] + b == b;
    }
  }

  /** Inside a run, further replaced characters add nothing. */
  lemma {:induction false} SqueezeInRun(w: string, b: string, keep: char -> bool, fill: char)
    requires forall i :: 0 <= i < |w| ==> !keep(w[i])
    ensures Squeeze(w + b, keep, fill, true) == Squeeze(b, keep, fill, true)
  {
    if w != [] {
      assert (w + b)[0] == w[0] && (w + b)[1..] == w[1..] + b;
      SqueezeInRun(w[1..], b, keep, fill);
    } else {
      assert w + b == b;
    }
  }

  /**
   * A maximal run of replaced characters (one followed by a kept
   * character or by the end) becomes exactly one fill.
   */
  lemma SqueezeRun(w: string, b: string, keep: char -> bool, fill: char)
    requires w != [] && forall i :: 0 <= i < |w| ==> !keep(w[i])
    requires b == [] || keep(b[0])
    ensures Squeeze(w + b, keep, fill, false) == [fill] + Squeeze(b, keep, fill, false)
  {
    assert (w + b)[0] == w[0] && (w + b)[1..] == w[1..] + b;
    SqueezeInRun(w[1..], b, keep, fill);
  }

  /**
   * Even when the fill is itself a kept character (`-` in a slug),
   * deleting the fills from both sides shows that squeezing keeps the kept
   * characters in order and adds nothing but fills.
   */
  lemma {:induction false} SqueezeKeepsText(s: string, keep: char -> bool, fill: char, inRun: bool)
    ensures Without(Squeeze(s, keep, fill, inRun), fill) == Without(Keep(s, keep), fill)
  {
    if s != [] {
      var rest := s[1..];
      SqueezeKeepsText(rest, keep, fill, !keep(s[0]));
      WithoutAppend((if keep(s[0]) then [s[0]] else []), Keep(rest, keep), fill);
      if keep(s[0]) {
        WithoutAppend([s[0]], Squeeze(rest, keep, fill, false), fill);
      } else if !inRun {
        WithoutAppend([fill], Squeeze(rest, keep, fill, true), fill);
      }
    }
  }

  /** How many maximal runs of replaced characters `s` holds (one already open when `inRun`). */
  function RunStarts(s: string, keep: char -> bool, inRun: bool): nat
  {
    if s == [] then 0
    else if keep(s[0]) then RunStarts(s[1..], keep, false)
    else (if inRun then 0 else 1) + RunStarts(s[1..], keep, true)
  }

  /** Squeezing emits the kept characters plus exactly one fill per run. */
  lemma {:induction false} SqueezeLength(s: string, keep: char -> bool, fill: char, inRun: bool)
    ensures |Squeeze(s, keep, fill, inRun)| == |Keep(s, keep)| + RunStarts(s, keep, inRun)
  {
    if s != [] {
      SqueezeLength(s[1..], keep, fill, !keep(s[0]));
    }
  }

  /** Deleting the fills from a squeezed string leaves exactly the kept characters. */
  lemma {:induction false} SqueezeWithout(s: string, keep: char -> bool, fill: char, inRun: bool)
    requires !keep(fill)
    ensures Without(Squeeze(s, keep, fill, inRun), fill) == Keep(s, keep)
  {
    if s != [] {
      SqueezeWithout(s[1..], keep, fill, keep(s[0]) == false);
      SqueezeWithout(s[1..], keep, fill, false);
      if keep(s[0]) {
        assert s[0] != fill;
        assert Without([s[0]] + Squeeze(s[1..], keep, fill, false), fill)
            == [s[0]] + Without(Squeeze(s[1..], keep, fill, false), fill);
      } else if !inRun {
        assert Without([fill] + Squeeze(s[1..], keep, fill, true), fill)
            == Without(Squeeze(s[1..], keep, fill, true), fill);
      }
    }
  }

  /** The characters of `s` for which `keep` holds, in order. */
  function Keep(s: string, keep: char -> bool): (r: string)
    ensures forall c :: c in r ==> keep(c) && c in s
  {
    if s == [] then [] else (if keep(s[0]) then [s[0]] else []) + Keep(s[1..], keep)
  }

  /** The characters of `s` in `[a-z0-9]`, in order. */
  function KeepAlnum(s: string): (r: string)
    ensures forall c :: c in r ==> IsLowerAlnum(c) && c in s
  {
    if s == [] then [] else (if IsLowerAlnum(s[0]) then [s[0]] else []) + KeepAlnum(s[1..])
  }

  lemma {:induction false} KeepAlnumIsKeep(s: string)
    ensures KeepAlnum(s) == Keep(s, IsLowerAlnum)
  {
    if s != [] {
      KeepAlnumIsKeep(s[1..]);
    }
  }

  lemma {:induction false} KeepAlnumAppend(a: string, b: string)
    ensures KeepAlnum(a + b) == KeepAlnum(a) + KeepAlnum(b)
  {
    if a == [] {
      assert a + b == b;
    } else {
      assert (a + b)[0] == a[0] && (a + b)[1..] == a[1..] + b;
      KeepAlnumAppend(a[1..], b);
    }
  }
}
