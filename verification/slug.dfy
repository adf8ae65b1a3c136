/**
 * How the scraper (scripts/fetch-characters.mjs) names a character's page:
 * `resolveSlug` picks a non-blank string from the list entry and
 * `cleanupSlug` rewrites it into a slug of `[a-z0-9-]`.
 */
module Slugs {
  import opened Text
  import opened JsonValues
  import opened ObjectGraph
  import opened Picking

  /** A cleaned slug: rewritten text, or a URL whose path is taken apart by the platform. */
  datatype Slug = Plain(s: string) | FromUrl(url: string)

  predicate IsSlugChar(c: char)
  {
    IsLowerAlnum(c) || c == '-'
  }

  /** `.replace(/^characters\//, '')`. */
  function DropCharactersPrefix(s: string): string
  {
    if StartsWith(s, "characters/") then s[11..] else s
  }

  /** `.replace(/[^a-z0-9-]/g, '-')`. */
  function Dashify(s: string): (r: string)
    ensures |r| == |s|
    ensures forall i :: 0 <= i < |s| ==> r[i] == (if IsSlugChar(s[i]) then s[i] else '-')
  {
    seq(|s|, i requires 0 <= i < |s| => if IsSlugChar(s[i]) then s[i] else '-')
  }

  /**
   * `cleanupSlug(value)`: a trimmed value starting with `http` is a URL;
   * anything else is lower-cased, loses a leading `characters/`, has each
   * white-space run turned into one `-` and every other character outside
   * `[a-z0-9-]` turned into `-`.
   */
  function CleanupSlug(value: string): (r: Slug)
    ensures r.FromUrl? <==> StartsWith(Trim(value), "http")
    ensures r.FromUrl? ==> r.url == Trim(value)
    ensures r.Plain? ==> forall c :: c in r.s ==> IsSlugChar(c)
  {
    var trimmed := Trim(value);
    if StartsWith(trimmed, "http") then FromUrl(trimmed)
    else Plain(Dashify(Squeeze(DropCharactersPrefix(Lower(trimmed)), NotWhitespace, '-', false)))
  }

  /** Squeezing a string of kept characters changes nothing. */
  lemma {:induction false} SqueezeAllKept(s: string, keep: char -> bool, fill: char, inRun: bool)
    requires forall i :: 0 <= i < |s| ==> keep(s[i])
    ensures Squeeze(s, keep, fill, inRun) == s
  {
    if s != [] {
      SqueezeAllKept(s[1..], keep, fill, false);
    }
  }

  /** A slug of `[a-z0-9-]` that does not start with `http` is left as it is. */
  lemma SlugIsFixed(s: string)
    requires forall i :: 0 <= i < |s| ==> IsSlugChar(s[i])
    requires !StartsWith(s, "http")
    ensures CleanupSlug(s) == Plain(s)
  {
    SlugIsTrimmed(s);
    CleanupOfTrimmed(s);
  }

  lemma SlugIsTrimmed(s: string)
    requires forall i :: 0 <= i < |s| ==> IsSlugChar(s[i])
    ensures Trim(s) == s
  {
    TrimUntouched(s);
  }

  lemma CleanupOfTrimmed(s: string)
    requires forall i :: 0 <= i < |s| ==> IsSlugChar(s[i])
    requires !StartsWith(s, "http") && Trim(s) == s
    ensures CleanupSlug(s) == Plain(s)
  {
    CleanupTrimmed(s, Trim(s));
  }

  lemma CleanupTrimmed(s: string, trimmed: string)
    requires forall i :: 0 <= i < |s| ==> IsSlugChar(s[i])
    requires !StartsWith(s, "http") && trimmed == s
    ensures Plain(Dashify(Squeeze(DropCharactersPrefix(Lower(trimmed)), NotWhitespace, '-', false))) == Plain(s)
  {
    RewriteFixed(s);
  }

  /** The rewrite of the non-URL branch leaves a string of `[a-z0-9-]` unchanged. */
  lemma RewriteFixed(s: string)
    requires forall i :: 0 <= i < |s| ==> IsSlugChar(s[i])
    ensures Dashify(Squeeze(DropCharactersPrefix(Lower(s)), NotWhitespace, '-', false)) == s
  {
    SlugIsLower(s);
    LoweredRewriteFixed(s);
  }

  lemma SlugIsLower(s: string)
    requires forall i :: 0 <= i < |s| ==> IsSlugChar(s[i])
    ensures Lower(s) == s
  {
    LowerNoUpper(s);
  }

  lemma LoweredRewriteFixed(s: string)
    requires forall i :: 0 <= i < |s| ==> IsSlugChar(s[i])
    requires Lower(s) == s
    ensures Dashify(Squeeze(DropCharactersPrefix(Lower(s)), NotWhitespace, '-', false)) == s
  {
    RestFixed(s, Lower(s));
  }

  lemma RestFixed(s: string, lowered: string)
    requires forall i :: 0 <= i < |s| ==> IsSlugChar(s[i])
    requires lowered == s
    ensures Dashify(Squeeze(DropCharactersPrefix(lowered), NotWhitespace, '-', false)) == s
  {
    NoCharactersPrefix(s);
    SqueezeAllKept(s, NotWhitespace, '-', false);
    DashifySlug(s);
  }

  lemma NoCharactersPrefix(s: string)
    requires forall i :: 0 <= i < |s| ==> IsSlugChar(s[i])
    ensures DropCharactersPrefix(s) == s
  {
    if |s| >= 11 {
      assert s[..11][10] == s[10] && IsSlugChar(s[10]);
      assert s[..11] != "characters/";
    }
  }

  lemma DashifySlug(s: string)
    requires forall i :: 0 <= i < |s| ==> IsSlugChar(s[i])
    ensures Dashify(s) == s
  {
  }

  /** A string cut by a white-space run starts with a word free of white space only if its first part does. */
  lemma NoPrefixAcrossRun(a: string, w: string, b: string, p: string)
    requires w != [] && forall i :: 0 <= i < |w| ==> IsWhitespace(w[i])
    requires forall i :: 0 <= i < |p| ==> NotWhitespace(p[i])
    requires |a| >= |p| ==> !StartsWith(a, p)
    ensures !StartsWith(a + w + b, p)
  {
    var t := a + w + b;
    if |p| <= |t| && |a| < |p| {
      assert t[|a|] == w[0];
      assert t[..|p|][|a|] != p[|a|];
    } else if |a| >= |p| {
      assert t[..|p|] == a[..|p|];
    }
  }

  lemma CharactersHasNoWhitespace()
    ensures forall i :: 0 <= i < |"characters/"| ==> NotWhitespace("characters/"[i])
  {
  }

  /** Two slug words around a white-space run. */
  predicate WordsAroundRun(a: string, w: string, b: string)
  {
    && a != [] && b != [] && w != []
    && (forall i :: 0 <= i < |a| ==> IsSlugChar(a[i]))
    && (forall i :: 0 <= i < |b| ==> IsSlugChar(b[i]))
    && (forall i :: 0 <= i < |w| ==> IsWhitespace(w[i]))
  }

  /**
   * `cleanupSlug` turns a run of white space between two slug words into
   * one `-` and keeps both words as they are.
   */
  lemma CleanupJoinsWithDash(a: string, w: string, b: string)
    requires a != [] && b != [] && w != []
    requires forall i :: 0 <= i < |a| ==> IsSlugChar(a[i])
    requires forall i :: 0 <= i < |b| ==> IsSlugChar(b[i])
    requires forall i :: 0 <= i < |w| ==> IsWhitespace(w[i])
    requires !StartsWith(a, "http")
    ensures CleanupSlug(a + w + b) == Plain(a + "-" + b)
  {
    assert WordsAroundRun(a, w, b);
    RunRewrites(a, w, b);
    RunNotUrl(a, w, b);
    CleanupPlain(a + w + b, a + "-" + b);
  }

  /** Each rewrite step of the non-URL branch, on two slug words around a run. */
  lemma RunRewrites(a: string, w: string, b: string)
    requires WordsAroundRun(a, w, b)
    ensures var t := a + w + b;
      Trim(t) == t && Lower(t) == t && DropCharactersPrefix(t) == t
      && Dashify(Squeeze(t, NotWhitespace, '-', false)) == a + "-" + b
  {
    RunTrimmed(a, w, b);
    RunLower(a, w, b);
    RunNoCharactersPrefix(a, w, b);
    RunSqueezed(a, w, b);
  }

  lemma RunNotUrl(a: string, w: string, b: string)
    requires w != [] && forall i :: 0 <= i < |w| ==> IsWhitespace(w[i])
    requires !StartsWith(a, "http")
    ensures !StartsWith(a + w + b, "http")
  {
    assert forall i :: 0 <= i < |"http"| ==> NotWhitespace("http"[i]);
    NoPrefixAcrossRun(a, w, b, "http");
  }

  /** The non-URL branch, once each rewrite step is known to leave `t` as it is but the last two. */
  lemma CleanupPlain(t: string, x: string)
    requires Trim(t) == t && !StartsWith(t, "http") && Lower(t) == t && DropCharactersPrefix(t) == t
    requires Dashify(Squeeze(t, NotWhitespace, '-', false)) == x
    ensures CleanupSlug(t) == Plain(x)
  {
  }

  lemma RunTrimmed(a: string, w: string, b: string)
    requires WordsAroundRun(a, w, b)
    ensures Trim(a + w + b) == a + w + b
  {
    var t := a + w + b;
    assert t[0] == a[0] && t[|t| - 1] == b[|b| - 1];
    TrimUntouched(t);
  }

  lemma RunLower(a: string, w: string, b: string)
    requires WordsAroundRun(a, w, b)
    ensures Lower(a + w + b) == a + w + b
  {
    var t := a + w + b;
    forall i | 0 <= i < |t| ensures !IsUpper(t[i]) {
      if i < |a| {
        assert t[i] == a[i];
      } else if i < |a| + |w| {
        assert t[i] == w[i - |a|];
      } else {
        assert t[i] == b[i - |a| - |w|];
      }
    }
    LowerNoUpper(t);
  }

  lemma RunNoCharactersPrefix(a: string, w: string, b: string)
    requires WordsAroundRun(a, w, b)
    ensures DropCharactersPrefix(a + w + b) == a + w + b
  {
    CharactersHasNoWhitespace();
    if |a| >= 11 {
      assert a[..11][10] == a[10] && IsSlugChar(a[10]);
    }
    NoPrefixAcrossRun(a, w, b, "characters/");
  }

  lemma RunSqueezed(a: string, w: string, b: string)
    requires WordsAroundRun(a, w, b)
    ensures Dashify(Squeeze(a + w + b, NotWhitespace, '-', false)) == a + "-" + b
  {
    SqueezeWords(a, w, b);
    DashWordsFixed(a, b);
  }

  lemma {:induction false} SqueezeWords(a: string, w: string, b: string)
    requires WordsAroundRun(a, w, b)
    ensures Squeeze(a + w + b, NotWhitespace, '-', false) == a + "-" + b
  {
    assert NotWhitespace(a[|a| - 1]);
    SqueezeAppend(a, w + b, NotWhitespace, '-', false);
    assert a + (w + b) == a + w + b;
    SlugWordKept(a);
    SqueezeRunWord(w, b);
    assert a + ("-" + b) == a + "-" + b;
  }

  lemma SlugWordKept(s: string)
    requires forall i :: 0 <= i < |s| ==> IsSlugChar(s[i])
    ensures Squeeze(s, NotWhitespace, '-', false) == s
  {
    SqueezeAllKept(s, NotWhitespace, '-', false);
  }

  lemma SqueezeRunWord(w: string, b: string)
    requires w != [] && b != []
    requires forall i :: 0 <= i < |w| ==> IsWhitespace(w[i])
    requires forall i :: 0 <= i < |b| ==> IsSlugChar(b[i])
    ensures Squeeze(w + b, NotWhitespace, '-', false) == "-" + b
  {
    assert NotWhitespace(b[0]);
    SqueezeRun(w, b, NotWhitespace, '-');
    SlugWordKept(b);
  }

  lemma DashWordsFixed(a: string, b: string)
    requires forall i :: 0 <= i < |a| ==> IsSlugChar(a[i])
    requires forall i :: 0 <= i < |b| ==> IsSlugChar(b[i])
    ensures Dashify(a + "-" + b) == a + "-" + b
  {
    var t := a + "-" + b;
    forall i | 0 <= i < |t| ensures IsSlugChar(t[i]) {
      if i < |a| {
        assert t[i] == a[i];
      } else if i > |a| {
        assert t[i] == b[i - |a| - 1];
      }
    }
    DashifySlug(t);
  }

  /** Cleaning a cleaned slug again changes nothing, unless it now starts with `http`. */
  lemma CleanupIdempotent(value: string)
    requires CleanupSlug(value).Plain? && !StartsWith(CleanupSlug(value).s, "http")
    ensures CleanupSlug(CleanupSlug(value).s) == CleanupSlug(value)
  {
    var s := CleanupSlug(value).s;
    forall i | 0 <= i < |s| ensures IsSlugChar(s[i]) {
      assert s[i] in s;
    }
    SlugIsFixed(s);
  }

  const SLUG_KEYS: seq<string> := ["slug", "path", "url", "link"]

  /** `typeof value === 'string' && value.trim()`. */
  predicate SlugText(v: Val)
  {
    v.VStr? && HasText(v.s)
  }

  /** The index of the first non-blank string among `vs`. */
  function FirstSlugText(vs: seq<Val>): (r: Option<nat>)
    ensures r.Some? ==> r.value < |vs| && SlugText(vs[r.value])
    ensures r.Some? ==> forall j :: 0 <= j < r.value ==> !SlugText(vs[j])
    ensures r.None? ==> forall j :: 0 <= j < |vs| ==> !SlugText(vs[j])
  {
    FirstSlugTextFrom(vs, 0)
  }

  /** The index of the first usable string of `vs` from `start` on. */
  function FirstSlugTextFrom(vs: seq<Val>, start: nat): (r: Option<nat>)
    requires start <= |vs|
    ensures r.Some? ==> start <= r.value < |vs| && SlugText(vs[r.value])
    ensures r.Some? ==> forall j :: start <= j < r.value ==> !SlugText(vs[j])
    ensures r.None? ==> forall j :: start <= j < |vs| ==> !SlugText(vs[j])
    decreases |vs| - start
  {
    if start == |vs| then None
    else if SlugText(vs[start]) then Some(start)
    else FirstSlugTextFrom(vs, start + 1)
  }

  /** What `pickValue(entry, key)` finds for each of `keys`. */
  function PickEach(h: Heap, entry: Val, keys: seq<string>): (r: seq<Val>)
    ensures |r| == |keys|
  {
    seq(|keys|, i requires 0 <= i < |keys| => PickValue(h, entry, keys[i]))
  }

  /** `pickValue(entry, 'nikkeName') || pickValue(entry, 'name')`. */
  function ByName(h: Heap, entry: Val): (r: Val)
    ensures Truthy(PickValue(h, entry, "nikkeName")) ==> r == PickValue(h, entry, "nikkeName")
    ensures !Truthy(PickValue(h, entry, "nikkeName")) ==> r == PickValue(h, entry, "name")
    ensures Truthy(r) <==> Truthy(PickValue(h, entry, "nikkeName")) || Truthy(PickValue(h, entry, "name"))
  {
    var nikkeName := PickValue(h, entry, "nikkeName");
    if Truthy(nikkeName) then nikkeName else PickValue(h, entry, "name")
  }

  /**
   * The decision of `resolveSlug` once the values under the slug keys
   * (`direct`) and the name (`byName`) are known.
   */
  function SlugFrom(direct: seq<Val>, byName: Val): (r: Option<Slug>)
  {
    var k := FirstSlugText(direct);
    if k.Some? then Some(CleanupSlug(direct[k.value].s))
    else if SlugText(byName) then Some(CleanupSlug(byName.s))
    else None
  }

  /** `resolveSlug(entry)`; `None` is `null`. */
  function ResolveSlug(h: Heap, entry: Val): (r: Option<Slug>)
    ensures !IsObject(h, entry) ==> r.None?
    ensures r.Some? && r.value.Plain? ==> forall c :: c in r.value.s ==> IsSlugChar(c)
  {
    if !IsObject(h, entry) then None
    else SlugFrom(PickEach(h, entry, SLUG_KEYS), ByName(h, entry))
  }

  /** `resolveSlug(entry)`, trying the slug keys in a loop. */
  method ResolveSlugRun(h: Heap, entry: Val) returns (r: Option<Slug>)
    ensures r == ResolveSlug(h, entry)
  {
    if !IsObject(h, entry) {
      return None;
    }
    var found := FirstSlugRun(h, entry, SLUG_KEYS);
    if found.Some? {
      return Some(CleanupSlug(found.value));
    }
    var byName := ByNameRun(h, entry);
    var usable := IsSlugText(byName);
    if usable {
      return Some(CleanupSlug(byName.s));
    }
    return None;
  }

  /** The loop over the slug keys: the first non-blank string found under one of `keys`. */
  method FirstSlugRun(h: Heap, entry: Val, keys: seq<string>) returns (found: Option<string>)
    ensures var k := FirstSlugText(PickEach(h, entry, keys));
      found == if k.Some? then Some(PickEach(h, entry, keys)[k.value].s) else None
  {
    var vs := PickEach(h, entry, keys);
    var i := 0;
    while i < |keys|
      invariant 0 <= i <= |keys|
      invariant NoSlugBefore(vs, i)
    {
      var value := PickValueRun(h, entry, keys[i]);
      assert value == vs[i];
      var usable := IsSlugText(value);
      if usable {
        FirstSlugIs(vs, i);
        return Some(value.s);
      }
      NoSlugStep(vs, i);
      i := i + 1;
    }
    NoSlugText(vs);
    return None;
  }

  /** `typeof value === 'string' && value.trim()`, through the trim itself. */
  method IsSlugText(v: Val) returns (b: bool)
    ensures b == SlugText(v)
  {
    if v.VStr? {
      HasTextIffTrimmed(v.s);
    }
    b := v.VStr? && Trim(v.s) != "";
  }

  /** `pickValue(entry, 'nikkeName') || pickValue(entry, 'name')`. */
  method ByNameRun(h: Heap, entry: Val) returns (v: Val)
    ensures v == ByName(h, entry)
  {
    v := PickValueRun(h, entry, "nikkeName");
    if !Truthy(v) {
      v := PickValueRun(h, entry, "name");
    }
  }

  /** The first non-blank string is at `i` when it is there and nowhere before. */
  /** No value of `vs` before `i` is a non-blank string. */
  predicate NoSlugBefore(vs: seq<Val>, i: nat)
    requires i <= |vs|
  {
    forall j :: 0 <= j < i ==> !SlugText(vs[j])
  }

  lemma NoSlugStep(vs: seq<Val>, i: nat)
    requires i < |vs| && NoSlugBefore(vs, i) && !SlugText(vs[i])
    ensures NoSlugBefore(vs, i + 1)
  {
  }

  lemma FirstSlugIs(vs: seq<Val>, i: nat)
    requires i < |vs| && SlugText(vs[i])
    requires forall j :: 0 <= j < i ==> !SlugText(vs[j])
    ensures FirstSlugText(vs) == Some(i)
  {
  }
  lemma NoSlugText(vs: seq<Val>)
    requires forall j :: 0 <= j < |vs| ==> !SlugText(vs[j])
    ensures FirstSlugText(vs).None?
  {
  }


  /**
   * A slug key holding a non-blank string decides the slug when no earlier
   * slug key does, whatever the names say.
   */
  lemma SlugKeyPrecedence(direct: seq<Val>, byName: Val, i: nat)
    requires i < |direct| && SlugText(direct[i])
    requires forall j :: 0 <= j < i ==> !SlugText(direct[j])
    ensures SlugFrom(direct, byName) == Some(CleanupSlug(direct[i].s))
  {
    FirstSlugIs(direct, i);
  }

  /**
   * A resolved slug is the cleaned form of a non-blank string found under
   * a slug key or by name; there is none exactly when no such string exists.
   */
  lemma SlugSource(direct: seq<Val>, byName: Val)
    ensures SlugFrom(direct, byName).Some? ==>
      exists v :: (v in direct || v == byName) && SlugText(v) && SlugFrom(direct, byName).value == CleanupSlug(v.s)
    ensures SlugFrom(direct, byName).None? <==>
      (forall j :: 0 <= j < |direct| ==> !SlugText(direct[j])) && !SlugText(byName)
  {
    var k := FirstSlugText(direct);
    if k.Some? {
      assert direct[k.value] in direct;
    }
  }
}
