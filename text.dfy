/** Text handling of the crawler: the whitespace normaliser applied to
    `keywords` and to the assembled description
    (`replaceAll("\\s", " ").replaceAll(" {2,}", " ").trim()`), and Spring's
    `StringUtils.hasText`. */
module Text {
  import opened Wrappers
  import opened Strings

  /** The characters of Java's regex class `\s` (without UNICODE_CHARACTER_CLASS):
      space, tab, line feed, vertical tab, form feed, carriage return. */
  predicate IsRegexSpace(c: char) {
    c == ' ' || c == '\t' || c == '\n' || c == '\U{000B}' || c == '\U{000C}' || c == '\r'
  }

  /** `Character.isWhitespace`: the Unicode space, line and paragraph separators
      except the three non-breaking ones, plus U+0009..U+000D and U+001C..U+001F. */
  predicate IsJavaWhitespace(c: char) {
    || ('\U{0009}' <= c <= '\U{000D}')
    || ('\U{001C}' <= c <= '\U{0020}')
    || c == '\U{1680}'
    || ('\U{2000}' <= c <= '\U{2006}')
    || ('\U{2008}' <= c <= '\U{200A}')
    || c == '\U{2028}' || c == '\U{2029}' || c == '\U{205F}' || c == '\U{3000}'
  }

  /** `StringUtils.hasText`: not null, not empty, and some character is not whitespace. */
  predicate HasText(s: Option<string>) {
    s.Some? && exists i :: 0 <= i < |s.value| && !IsJavaWhitespace(s.value[i])
  }

  /** Characters above U+0020: those that `trim` never removes. */
  predicate IsVisible(c: char) {
    c > ' '
  }

  /** The visible characters of `s`, in order. */
  function Visible(s: string): string
  {
    if s == [] then [] else (if IsVisible(s[0]) then [s[0]] else []) + Visible(s[1..])
  }

  lemma {:induction false} VisibleAppend(a: string, b: string)
    ensures Visible(a + b) == Visible(a) + Visible(b)
  {
    if a == [] {
      assert a + b == b;
    } else {
      assert (a + b)[1..] == a[1..] + b;
      VisibleAppend(a[1..], b);
      var h := if IsVisible(a[0]) then [a[0]] else [];
      assert Visible(a + b) == h + (Visible(a[1..]) + Visible(b));
      ConcatAssoc(h, Visible(a[1..]), Visible(b));
    }
  }

  /** A string made only of characters at most U+0020 has no visible part. */
  lemma {:induction false} VisibleOfBlank(s: string)
    requires forall i :: 0 <= i < |s| ==> s[i] <= ' '
    ensures Visible(s) == []
  {
    if s != [] {
      VisibleOfBlank(s[1..]);
    }
  }

  /** The only `\s` character in `s` is the space. */
  predicate OnlySpaces(s: string) {
    forall i :: 0 <= i < |s| ==> !IsRegexSpace(s[i]) || s[i] == ' '
  }

  predicate NoDoubleSpace(s: string) {
    forall i :: 0 <= i < |s| - 1 ==> !(s[i] == ' ' && s[i + 1] == ' ')
  }

  /** Step 1, `replaceAll("\\s", " ")`: every `\s` character becomes a space. */
  function ReplaceWhitespace(s: string): (r: string)
    ensures |r| == |s|
    ensures OnlySpaces(r)
  {
    seq(|s|, i requires 0 <= i < |s| => if IsRegexSpace(s[i]) then ' ' else s[i])
  }

  /** Step 2, `replaceAll(" {2,}", " ")`: every run of two or more spaces becomes
      one space. A space is dropped exactly when the next character is a space too,
      which leaves the last space of each run. */
  function CollapseSpaces(s: string): (r: string)
    ensures |s| > 0 ==> |r| > 0 && r[0] == s[0] && r[|r| - 1] == s[|s| - 1]
    ensures |r| <= |s|
    ensures NoDoubleSpace(r)
  {
    if |s| <= 1 then s
    else if s[0] == ' ' && s[1] == ' ' then CollapseSpaces(s[1..])
    else [s[0]] + CollapseSpaces(s[1..])
  }

  lemma {:induction false} CollapseKeepsOnlySpaces(s: string)
    requires OnlySpaces(s)
    ensures OnlySpaces(CollapseSpaces(s))
  {
    if |s| > 1 {
      CollapseKeepsOnlySpaces(s[1..]);
    }
  }

  /** Text without a run of spaces is left as it is. */
  lemma {:induction false} CollapseFixesSingleSpaces(s: string)
    requires NoDoubleSpace(s)
    ensures CollapseSpaces(s) == s
  {
    if |s| > 1 {
      CollapseFixesSingleSpaces(s[1..]);
      assert [s[0]] + s[1..] == s;
    }
  }

  /** Number of leading characters at most U+0020: where `trim` starts. */
  function LeadingBlanks(s: string): (k: nat)
    ensures k <= |s|
    ensures forall i :: 0 <= i < k ==> s[i] <= ' '
    ensures k < |s| ==> s[k] > ' '
  {
    if s == [] || s[0] > ' ' then 0 else 1 + LeadingBlanks(s[1..])
  }

  /** End of `s` once trailing characters at most U+0020 after position `k` are
      dropped: where `trim` stops. */
  function TrailingEnd(s: string, k: nat): (e: nat)
    requires k <= |s|
    ensures k <= e <= |s|
    ensures forall i :: e <= i < |s| ==> s[i] <= ' '
    ensures e > k ==> s[e - 1] > ' '
  {
    if |s| > k && s[|s| - 1] <= ' ' then TrailingEnd(s[..|s| - 1], k) else |s|
  }

  /** Step 3, `String.trim`: drops every leading and trailing character at most U+0020. */
  function JavaTrim(s: string): (r: string)
    ensures r == [] || (r[0] > ' ' && r[|r| - 1] > ' ')
    ensures OnlySpaces(s) ==> OnlySpaces(r)
    ensures NoDoubleSpace(s) ==> NoDoubleSpace(r)
  {
    var k := LeadingBlanks(s);
    s[k..TrailingEnd(s, k)]
  }

  /** The normaliser written at ColosoCrawler.java lines 163 and 194. */
  function Normalize(s: string): (r: string)
    ensures |r| <= |s|
  {
    JavaTrim(CollapseSpaces(ReplaceWhitespace(s)))
  }

  /** The normal form: no `\s` character but the space, never two spaces in a row,
      and nothing at most U+0020 at either end. */
  predicate IsNormal(t: string) {
    && OnlySpaces(t)
    && NoDoubleSpace(t)
    && (t == [] || (t[0] > ' ' && t[|t| - 1] > ' '))
  }

  lemma ReplaceFixesOnlySpaces(t: string)
    requires OnlySpaces(t)
    ensures ReplaceWhitespace(t) == t
  {
    var r := ReplaceWhitespace(t);
    forall i | 0 <= i < |t| ensures r[i] == t[i] {
    }
  }

  lemma TrimFixesVisibleEnds(t: string)
    requires t == [] || (t[0] > ' ' && t[|t| - 1] > ' ')
    ensures JavaTrim(t) == t
  {
  }

  /** What the normaliser produces is in normal form. */
  lemma NormalizeIsNormal(s: string)
    ensures IsNormal(Normalize(s))
  {
    var c := CollapseSpaces(ReplaceWhitespace(s));
    CollapseKeepsOnlySpaces(ReplaceWhitespace(s));
    assert OnlySpaces(c) && NoDoubleSpace(c);
  }

  /** Text already in normal form is left as it is. */
  lemma NormalizeFixesNormal(t: string)
    requires IsNormal(t)
    ensures Normalize(t) == t
  {
    ReplaceFixesOnlySpaces(t);
    CollapseFixesSingleSpaces(t);
    TrimFixesVisibleEnds(t);
  }

  /** Normalizing twice is normalizing once. */
  lemma NormalizeIdempotent(s: string)
    ensures Normalize(Normalize(s)) == Normalize(s)
  {
    NormalizeIsNormal(s);
    NormalizeFixesNormal(Normalize(s));
  }

  lemma {:induction false} ReplaceKeepsVisible(s: string)
    ensures Visible(ReplaceWhitespace(s)) == Visible(s)
  {
    if s != [] {
      var r := ReplaceWhitespace(s);
      assert r[1..] == ReplaceWhitespace(s[1..]);
      ReplaceKeepsVisible(s[1..]);
    }
  }

  lemma {:induction false} CollapseKeepsVisible(s: string)
    ensures Visible(CollapseSpaces(s)) == Visible(s)
  {
    if |s| > 1 {
      var rest := CollapseSpaces(s[1..]);
      CollapseKeepsVisible(s[1..]);
      if s[0] == ' ' && s[1] == ' ' {
        assert CollapseSpaces(s) == rest;
        assert Visible(s) == Visible(s[1..]);
      } else {
        assert CollapseSpaces(s) == [s[0]] + rest;
        VisibleAppend([s[0]], rest);
        assert ([s[0]] + rest)[1..] == rest;
      }
    }
  }

  lemma TrimKeepsVisible(s: string)
    ensures Visible(JavaTrim(s)) == Visible(s)
  {
    var k := LeadingBlanks(s);
    var e := TrailingEnd(s, k);
    BlankEnds(s, k, e);
    ThreeParts(s, k, e);
    VisibleThree(s[..k], s[k..e], s[e..]);
  }

  lemma ThreeParts(s: string, k: nat, e: nat)
    requires k <= e <= |s|
    ensures s[..k] + s[k..e] + s[e..] == s
  {
  }

  lemma VisibleThree(a: string, b: string, c: string)
    ensures Visible(a + b + c) == Visible(a) + Visible(b) + Visible(c)
  {
    VisibleAppend(a, b);
    VisibleAppend(a + b, c);
  }

  /** What `trim` cuts off holds nothing visible. */
  lemma BlankEnds(s: string, k: nat, e: nat)
    requires k <= e <= |s|
    requires forall i :: 0 <= i < k ==> s[i] <= ' '
    requires forall i :: e <= i < |s| ==> s[i] <= ' '
    ensures Visible(s[..k]) == [] && Visible(s[e..]) == []
  {
    var front, back := s[..k], s[e..];
    assert forall i :: 0 <= i < |front| ==> front[i] == s[i];
    VisibleOfBlank(front);
    assert forall i :: 0 <= i < |back| ==> back[i] == s[e + i];
    VisibleOfBlank(back);
  }

  /** Normalizing only replaces or removes characters at most U+0020: every other
      character survives, in order. */
  lemma NormalizeKeepsVisible(s: string)
    ensures Visible(Normalize(s)) == Visible(s)
  {
    ReplaceKeepsVisible(s);
    CollapseKeepsVisible(ReplaceWhitespace(s));
    TrimKeepsVisible(CollapseSpaces(ReplaceWhitespace(s)));
  }

  /** A character that does not start a run of spaces is kept. */
  lemma CollapseKeepsFirst(c: char, rest: string)
    requires !(c == ' ' && rest != [] && rest[0] == ' ')
    ensures CollapseSpaces([c] + rest) == [c] + CollapseSpaces(rest)
  {
    if rest != [] {
      assert ([c] + rest)[1..] == rest;
    }
  }

  /** `n` spaces. */
  function Spaces(n: nat): (r: string)
    ensures |r| == n
    ensures forall i :: 0 <= i < n ==> r[i] == ' '
  {
    seq(n, _ => ' ')
  }

  /** Step 1 works character by character, so it distributes over `+`. */
  lemma ReplaceAppend(x: string, y: string)
    ensures ReplaceWhitespace(x + y) == ReplaceWhitespace(x) + ReplaceWhitespace(y)
  {
    var s := x + y;
    var r := ReplaceWhitespace(s);
    var t := ReplaceWhitespace(x) + ReplaceWhitespace(y);
    forall i | 0 <= i < |s| ensures r[i] == t[i] {
      if i >= |x| {
        assert s[i] == y[i - |x|];
      }
    }
  }

  /** Step 1 turns a run of `\s` characters into as many spaces. */
  lemma ReplaceOfRun(w: string)
    requires forall i :: 0 <= i < |w| ==> IsRegexSpace(w[i])
    ensures ReplaceWhitespace(w) == Spaces(|w|)
  {
    var r := ReplaceWhitespace(w);
    forall i | 0 <= i < |w| ensures r[i] == Spaces(|w|)[i] {
    }
  }

  /** Step 2 works on each side of a boundary that does not fall inside a run of
      spaces. */
  lemma {:induction false} CollapseSplit(x: string, y: string)
    requires x == [] || y == [] || x[|x| - 1] != ' ' || y[0] != ' '
    ensures CollapseSpaces(x + y) == CollapseSpaces(x) + CollapseSpaces(y)
  {
    if x == [] {
      assert x + y == y;
    } else if |x| == 1 {
      assert x + y == [x[0]] + y;
      CollapseKeepsFirst(x[0], y);
    } else {
      var tail := x[1..];
      assert (x + y)[1..] == tail + y;
      CollapseSplit(tail, y);
      if x[0] == ' ' && x[1] == ' ' {
        assert CollapseSpaces(x + y) == CollapseSpaces(tail + y);
      } else {
        assert CollapseSpaces(x + y) == [x[0]] + CollapseSpaces(tail + y);
        assert CollapseSpaces(x) == [x[0]] + CollapseSpaces(tail);
        ConcatAssoc([x[0]], CollapseSpaces(tail), CollapseSpaces(y));
      }
    }
  }

  /** A run of spaces becomes one space; no run stays no run. */
  lemma {:induction false} CollapseOfSpaces(n: nat)
    ensures CollapseSpaces(Spaces(n)) == if n == 0 then [] else [' ']
  {
    if n == 1 {
      assert Spaces(1) == [' '];
    } else if n >= 2 {
      assert Spaces(n)[1..] == Spaces(n - 1);
      CollapseOfSpaces(n - 1);
    }
  }

  /** The leading spaces of `u`, and what follows them. */
  lemma {:induction false} LeadingSpaces(u: string) returns (m: nat, v: string)
    ensures u == Spaces(m) + v
    ensures v == [] || v[0] != ' '
  {
    if u == [] || u[0] != ' ' {
      m, v := 0, u;
      assert u == Spaces(0) + u;
    } else {
      var k;
      k, v := LeadingSpaces(u[1..]);
      m := k + 1;
      assert Spaces(m) == [' '] + Spaces(k);
      assert u == [' '] + u[1..];
    }
  }

  /** The trailing spaces of `u`, and what comes before them. */
  lemma {:induction false} TrailingSpaces(u: string) returns (v: string, m: nat)
    ensures u == v + Spaces(m)
    ensures v == [] || v[|v| - 1] != ' '
  {
    if u == [] || u[|u| - 1] != ' ' {
      v, m := u, 0;
      assert u == u + Spaces(0);
    } else {
      var init := u[..|u| - 1];
      var k;
      v, k := TrailingSpaces(init);
      m := k + 1;
      assert Spaces(m) == Spaces(k) + [' '];
      assert u == init + [' '];
    }
  }

  /** `trim` in three pieces: blanks, its result, blanks. */
  lemma TrimParts(s: string) returns (p: string, q: string)
    ensures s == p + JavaTrim(s) + q
    ensures forall i :: 0 <= i < |p| ==> p[i] <= ' '
    ensures forall i :: 0 <= i < |q| ==> q[i] <= ' '
  {
    var k := LeadingBlanks(s);
    var e := TrailingEnd(s, k);
    p, q := s[..k], s[e..];
    ThreeParts(s, k, e);
  }

  /** Whatever blanks surround a text with visible ends, `trim` gives that text. */
  lemma TrimUnique(p: string, m: string, q: string)
    requires forall i :: 0 <= i < |p| ==> p[i] <= ' '
    requires forall i :: 0 <= i < |q| ==> q[i] <= ' '
    requires m == [] || (m[0] > ' ' && m[|m| - 1] > ' ')
    ensures JavaTrim(p + m + q) == m
  {
    var s := p + m + q;
    assert forall i :: 0 <= i < |p| ==> s[i] == p[i];
    assert forall i :: |p| + |m| <= i < |s| ==> s[i] == q[i - |p| - |m|];
    var k := LeadingBlanks(s);
    if m != [] {
      assert s[|p|] == m[0];
      assert k == |p|;
      var e := TrailingEnd(s, k);
      assert s[|p| + |m| - 1] == m[|m| - 1];
      assert e == |p| + |m|;
      assert s[k..e] == m;
    }
  }

  /** Blanks in front make no difference to `trim`. */
  lemma TrimBlankFront(b: string, y: string)
    requires forall i :: 0 <= i < |b| ==> b[i] <= ' '
    ensures JavaTrim(b + y) == JavaTrim(y)
  {
    var p, q := TrimParts(y);
    ConcatAssoc(b, p + JavaTrim(y), q);
    ConcatAssoc(b, p, JavaTrim(y));
    TrimUnique(b + p, JavaTrim(y), q);
  }

  /** Blanks at the end make no difference to `trim`. */
  lemma TrimBlankBack(y: string, b: string)
    requires forall i :: 0 <= i < |b| ==> b[i] <= ' '
    ensures JavaTrim(y + b) == JavaTrim(y)
  {
    var p, q := TrimParts(y);
    ConcatAssoc(p + JavaTrim(y), q, b);
    TrimUnique(p, JavaTrim(y), q + b);
  }

  /** `n` spaces and `m` spaces are `n + m` spaces. */
  lemma SpacesAppend(n: nat, m: nat)
    ensures Spaces(n) + Spaces(m) == Spaces(n + m)
  {
  }

  /** A run of spaces in front of a text that does not start with a space leaves,
      after steps 2 and 3, the same as that text alone. */
  lemma TrimCollapseRunThen(k: nat, v: string, s: string)
    requires s == Spaces(k) + v
    requires v == [] || v[0] != ' '
    ensures JavaTrim(CollapseSpaces(s)) == JavaTrim(CollapseSpaces(v))
  {
    CollapseSplit(Spaces(k), v);
    CollapseOfSpaces(k);
    TrimBlankFront(CollapseSpaces(Spaces(k)), CollapseSpaces(v));
  }

  /** The same at the back. */
  lemma TrimCollapseThenRun(v: string, k: nat, s: string)
    requires s == v + Spaces(k)
    requires v == [] || v[|v| - 1] != ' '
    ensures JavaTrim(CollapseSpaces(s)) == JavaTrim(CollapseSpaces(v))
  {
    CollapseSplit(v, Spaces(k));
    CollapseOfSpaces(k);
    TrimBlankBack(CollapseSpaces(v), CollapseSpaces(Spaces(k)));
  }

  /** More spaces in front make no difference to steps 2 and 3. */
  lemma TrimCollapseLeading(n: nat, u: string)
    ensures JavaTrim(CollapseSpaces(Spaces(n) + u)) == JavaTrim(CollapseSpaces(u))
  {
    var m, v := LeadingSpaces(u);
    SpacesAppend(n, m);
    ConcatAssoc(Spaces(n), Spaces(m), v);
    TrimCollapseRunThen(n + m, v, Spaces(n) + u);
    TrimCollapseRunThen(m, v, u);
  }

  /** More spaces at the back make no difference to steps 2 and 3. */
  lemma TrimCollapseTrailing(u: string, n: nat)
    ensures JavaTrim(CollapseSpaces(u + Spaces(n))) == JavaTrim(CollapseSpaces(u))
  {
    var v, m := TrailingSpaces(u);
    SpacesAppend(m, n);
    ConcatAssoc(v, Spaces(m), Spaces(n));
    TrimCollapseThenRun(v, m + n, u + Spaces(n));
    TrimCollapseThenRun(v, m, u);
  }

  /** A leading run of `\s` characters (space, tab, line feed, vertical tab, form
      feed, carriage return) is dropped: the normaliser does not see it. Other
      Java whitespace, such as U+3000, is kept. */
  lemma NormalizeStripsLeading(w: string, t: string)
    requires forall i :: 0 <= i < |w| ==> IsRegexSpace(w[i])
    ensures Normalize(w + t) == Normalize(t)
  {
    ReplaceAppend(w, t);
    ReplaceOfRun(w);
    TrimCollapseLeading(|w|, ReplaceWhitespace(t));
  }

  /** A trailing run of `\s` characters is dropped: the normaliser does not see it. */
  lemma NormalizeStripsTrailing(t: string, w: string)
    requires forall i :: 0 <= i < |w| ==> IsRegexSpace(w[i])
    ensures Normalize(t + w) == Normalize(t)
  {
    ReplaceAppend(t, w);
    ReplaceOfRun(w);
    TrimCollapseTrailing(ReplaceWhitespace(t), |w|);
  }

  /** Step 1 on a word, a run of `\s` characters and a text. */
  lemma ReplaceJoin(a: string, w: string, t: string)
    requires OnlySpaces(a)
    requires forall i :: 0 <= i < |w| ==> IsRegexSpace(w[i])
    ensures ReplaceWhitespace(a + w + t) == a + (Spaces(|w|) + ReplaceWhitespace(t))
  {
    ReplaceAppend(a + w, t);
    ReplaceAppend(a, w);
    ReplaceFixesOnlySpaces(a);
    ReplaceOfRun(w);
  }

  /** Step 2 on a word, a run of spaces and a text that does not start with one. */
  lemma CollapseJoin(a: string, n: nat, u: string)
    requires a != [] && NoDoubleSpace(a) && a[|a| - 1] != ' '
    requires n >= 1 && u != [] && u[0] != ' '
    ensures CollapseSpaces(a + (Spaces(n) + u)) == a + ([' '] + CollapseSpaces(u))
  {
    CollapseSplit(a, Spaces(n) + u);
    CollapseSplit(Spaces(n), u);
    CollapseOfSpaces(n);
    CollapseFixesSingleSpaces(a);
  }

  /** Step 3 on a word, one space and a text that starts visibly. */
  lemma TrimJoin(a: string, c: string)
    requires a != [] && a[0] > ' '
    requires c != [] && c[0] > ' '
    ensures JavaTrim(a + ([' '] + c)) == a + " " + JavaTrim(c)
  {
    assert LeadingBlanks(c) == 0;
    var e := TrailingEnd(c, 0);
    assert e > 0;
    var m, q := c[..e], c[e..];
    assert c == m + q;
    assert a + ([' '] + c) == [] + (a + " " + m) + q;
    TrimUnique([], a + " " + m, q);
  }

  /** After a word in normal form, a run of `\s` characters of any length
      becomes exactly one space, and the rest is normalized on its own. */
  lemma NormalizeJoinsAny(a: string, w: string, t: string)
    requires IsNormal(a) && a != []
    requires w != [] && forall i :: 0 <= i < |w| ==> IsRegexSpace(w[i])
    requires t != [] && t[0] > ' '
    ensures Normalize(a + w + t) == a + " " + Normalize(t)
  {
    ReplaceJoin(a, w, t);
    var u := ReplaceWhitespace(t);
    assert u[0] == t[0];
    CollapseJoin(a, |w|, u);
    TrimJoin(a, CollapseSpaces(u));
  }

  /** Between two non-empty texts in normal form, any run of `\s` characters,
      tabs and line breaks included, becomes exactly one space: the normaliser
      separates words by single spaces and never joins them. */
  lemma NormalizeJoins(a: string, w: string, b: string)
    requires IsNormal(a) && IsNormal(b)
    requires a != [] && b != [] && w != []
    requires forall i :: 0 <= i < |w| ==> IsRegexSpace(w[i])
    ensures Normalize(a + w + b) == a + " " + b
  {
    NormalizeJoinsAny(a, w, b);
    NormalizeFixesNormal(b);
  }

  /** Two words in normal form with whitespace runs before, between and after
      them normalize to the words separated by one space. */
  lemma NormalizePadded(l: string, a: string, w: string, b: string, r: string)
    requires forall i :: 0 <= i < |l| ==> IsRegexSpace(l[i])
    requires forall i :: 0 <= i < |r| ==> IsRegexSpace(r[i])
    requires IsNormal(a) && IsNormal(b)
    requires a != [] && b != [] && w != []
    requires forall i :: 0 <= i < |w| ==> IsRegexSpace(w[i])
    ensures Normalize(l + (a + w + b) + r) == a + " " + b
  {
    NormalizeStripsLeading(l, a + w + b + r);
    assert l + (a + w + b) + r == l + (a + w + b + r);
    NormalizeStripsTrailing(a + w + b, r);
    NormalizeJoins(a, w, b);
  }

  /** The keywords example cut into its runs and words. */
  lemma ExampleParts(s: string) returns (l: string, a: string, w: string, b: string, r: string)
    requires s == "  draw   illustration "
    ensures s == l + (a + w + b) + r
    ensures a == "draw" && b == "illustration"
    ensures forall i :: 0 <= i < |l| ==> IsRegexSpace(l[i])
    ensures forall i :: 0 <= i < |r| ==> IsRegexSpace(r[i])
    ensures w != [] && forall i :: 0 <= i < |w| ==> IsRegexSpace(w[i])
  {
    l, a, w, b, r := "  ", "draw", "   ", "illustration", " ";
  }

  /** The two words of the keywords example are in normal form. */
  lemma ExampleWords(a: string, b: string)
    requires a == "draw" && b == "illustration"
    ensures IsNormal(a) && IsNormal(b)
    ensures a + " " + b == "draw illustration"
  {
  }

  /** The keywords example: spaces around and between words. */
  lemma NormalizeExample(s: string)
    requires s == "  draw   illustration "
    ensures Normalize(s) == "draw illustration"
  {
    var l, a, w, b, r := ExampleParts(s);
    ExampleWords(a, b);
    NormalizePadded(l, a, w, b, r);
  }

}
