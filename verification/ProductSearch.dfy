/**
 Searching products by a piece of their code or name: the search term is escaped, wrapped in wildcards and given
 to the database's case-insensitive pattern match.
 */
module ProductSearch {
  import opened Basics
  import Text

  // ---------------------------------------------------------------------------
  // Pattern matching in the database
  // ---------------------------------------------------------------------------

  /** `%` stands for any text, `_` for any one character, and a backslash makes the next character literal. */
  ghost predicate Like(pattern: string, text: string)
    decreases |pattern|
  {
    if pattern == "" then text == ""
    else if pattern[0] == '%' then exists k | 0 <= k <= |text| :: Like(pattern[1..], text[k..])
    else if pattern[0] == '_' then text != "" && Like(pattern[1..], text[1..])
    else if pattern[0] == '\\' then
      |pattern| > 1 && text != "" && text[0] == pattern[1] && Like(pattern[2..], text[1..])
    else text != "" && text[0] == pattern[0] && Like(pattern[1..], text[1..])
  }

  function Fold(fold: char -> char, s: string): (r: string)
    ensures |r| == |s|
  {
    seq(|s|, i requires 0 <= i < |s| => fold(s[i]))
  }

  /** The case-insensitive match folds the pattern and the text first. */
  ghost predicate ILike(fold: char -> char, pattern: string, text: string) {
    Like(Fold(fold, pattern), Fold(fold, text))
  }

  predicate IsMeta(c: char) {
    c == '\\' || c == '%' || c == '_'
  }

  /** Folding leaves the three special characters alone and turns no other character into one of them. */
  ghost predicate KeepsMeta(fold: char -> char) {
    forall c :: if IsMeta(c) then fold(c) == c else !IsMeta(fold(c))
  }

  // ---------------------------------------------------------------------------
  // Escaping
  // ---------------------------------------------------------------------------

  /** Put a text in place of every occurrence of a character. */
  function Replace(s: string, c: char, replacement: string): string {
    if s == "" then "" else (if s[0] == c then replacement else [s[0]]) + Replace(s[1..], c, replacement)
  }

  /** Three replacements over the whole text, the backslash first. */
  function Escape(s: string): string {
    Replace(Replace(Replace(s, '\\', "\\\\"), '%', "\\%"), '_', "\\_")
  }

  /** One pass that puts a backslash before every special character. */
  function EscapeEach(s: string): string {
    if s == "" then "" else (if IsMeta(s[0]) then ['\\', s[0]] else [s[0]]) + EscapeEach(s[1..])
  }

  lemma {:induction false} ReplaceConcat(a: string, b: string, c: char, replacement: string)
    ensures Replace(a + b, c, replacement) == Replace(a, c, replacement) + Replace(b, c, replacement)
  {
    if a == "" {
      assert a + b == b;
    } else {
      assert (a + b)[1..] == a[1..] + b;
      ReplaceConcat(a[1..], b, c, replacement);
    }
  }

  /** The order of the passes is right: no pass escapes what an earlier one wrote. */
  lemma {:induction false} ThreePassesAreOne(s: string)
    ensures Escape(s) == EscapeEach(s)
  {
    if s != "" {
      ThreePassesAreOne(s[1..]);
      var rest := Replace(s[1..], '\\', "\\\\");
      var head := if s[0] == '\\' then "\\\\" else [s[0]];
      assert Replace(s, '\\', "\\\\") == head + rest;
      ReplaceConcat(head, rest, '%', "\\%");
      ReplaceConcat(Replace(head, '%', "\\%"), Replace(rest, '%', "\\%"), '_', "\\_");
      EscapeOne(s[0]);
    }
  }

  lemma EscapeOne(c: char)
    ensures Replace(Replace(if c == '\\' then "\\\\" else [c], '%', "\\%"), '_', "\\_") ==
            if IsMeta(c) then ['\\', c] else [c]
  {
    ReplaceOne(c, '%', "\\%");
    ReplaceOne(c, '_', "\\_");
    ReplaceTwo('\\', '\\', '%', "\\%");
    ReplaceTwo('\\', '\\', '_', "\\_");
    ReplaceTwo('\\', '%', '_', "\\_");
  }

  lemma ReplaceOne(x: char, c: char, replacement: string)
    ensures Replace([x], c, replacement) == if x == c then replacement else [x]
  {
    assert [x][1..] == "";
  }

  lemma ReplaceTwo(x: char, y: char, c: char, replacement: string)
    ensures Replace([x, y], c, replacement) == (if x == c then replacement else [x]) + if y == c then replacement else [y]
  {
    assert [x, y][1..] == [y];
    ReplaceOne(y, c, replacement);
  }

  /** Two terms with one escaped form are the same term. */
  lemma {:induction false} EscapeIsInjective(a: string, b: string)
    requires Escape(a) == Escape(b)
    ensures a == b
  {
    ThreePassesAreOne(a);
    ThreePassesAreOne(b);
    EscapedLikeMatches(a, "", a);
    EscapedLikeMatches(b, "", a);
    assert EscapeEach(a) + "" == EscapeEach(a) == EscapeEach(b) == EscapeEach(b) + "";
    assert a[..|a|] == a && a[|a|..] == "";
  }

  // ---------------------------------------------------------------------------
  // Escaped text matches itself and nothing else
  // ---------------------------------------------------------------------------

  lemma {:induction false} EscapedLikeMatches(s: string, rest: string, text: string)
    ensures Like(EscapeEach(s) + rest, text) <==> s <= text && Like(rest, text[|s|..])
  {
    var pattern := EscapeEach(s) + rest;
    if s == "" {
      assert pattern == rest && text[0..] == text;
    } else {
      var width := if IsMeta(s[0]) then 2 else 1;
      assert pattern[width..] == EscapeEach(s[1..]) + rest;
      if text != "" {
        EscapedLikeMatches(s[1..], rest, text[1..]);
        if |s| <= |text| {
          assert text[1..][|s| - 1..] == text[|s|..];
        }
        assert s <= text <==> s[0] == text[0] && s[1..] <= text[1..] by {
          if s[0] == text[0] && s[1..] <= text[1..] {
            assert s == [s[0]] + s[1..] && text == [text[0]] + text[1..];
          }
        }
      }
    }
  }

  lemma {:induction false} FoldEscaped(fold: char -> char, s: string)
    requires KeepsMeta(fold)
    ensures Fold(fold, EscapeEach(s)) == EscapeEach(Fold(fold, s))
  {
    if s != "" {
      FoldEscaped(fold, s[1..]);
      assert Fold(fold, s)[1..] == Fold(fold, s[1..]);
      assert IsMeta(fold(s[0])) <==> IsMeta(s[0]);
      var head := if IsMeta(s[0]) then ['\\', s[0]] else [s[0]];
      assert EscapeEach(s) == head + EscapeEach(s[1..]);
      assert Fold(fold, head + EscapeEach(s[1..])) == Fold(fold, head) + Fold(fold, EscapeEach(s[1..]));
      assert IsMeta('\\') && fold('\\') == '\\';
      assert Fold(fold, head) == if IsMeta(s[0]) then ['\\', fold(s[0])] else [fold(s[0])];
    }
  }

  /** The term stands somewhere in the text, up to folding. */
  ghost predicate Contains(fold: char -> char, text: string, term: string) {
    exists i | 0 <= i <= |text| - |term| :: OccursAt(fold, text, term, i)
  }

  predicate OccursAt(fold: char -> char, text: string, term: string, i: nat) {
    i + |term| <= |text| && Fold(fold, text[i..i + |term|]) == Fold(fold, term)
  }

  function Pattern(term: string): string {
    "%" + Escape(term) + "%"
  }

  /** The pattern finds exactly the texts that contain the term, whatever characters the two are made of. */
  lemma PatternFindsSubstrings(fold: char -> char, term: string, text: string)
    requires KeepsMeta(fold)
    ensures ILike(fold, Pattern(term), text) <==> Contains(fold, text, term)
  {
    ThreePassesAreOne(term);
    FoldEscaped(fold, term);
    var t, f := Fold(fold, term), Fold(fold, text);
    assert IsMeta('%') && fold('%') == '%';
    var pattern := Fold(fold, Pattern(term));
    assert pattern == "%" + (EscapeEach(t) + "%") by {
      assert Fold(fold, "%") == "%";
      assert pattern == Fold(fold, "%") + Fold(fold, EscapeEach(term)) + Fold(fold, "%");
    }
    assert pattern[0] == '%' && pattern[1..] == EscapeEach(t) + "%";
    forall k | 0 <= k <= |f|
      ensures Like(EscapeEach(t) + "%", f[k..]) <==> OccursAt(fold, text, term, k)
    {
      EscapedLikeMatches(t, "%", f[k..]);
      if t <= f[k..] {
        AnythingMatches(f[k..][|t|..]);
      }
      FoldedOccurrence(fold, text, term, k);
    }
    if Contains(fold, text, term) {
      var i :| 0 <= i <= |text| - |term| && OccursAt(fold, text, term, i);
      assert 0 <= i <= |f| && Like(pattern[1..], f[i..]);
    }
    if Like(pattern, f) {
      var k :| 0 <= k <= |f| && Like(pattern[1..], f[k..]);
      assert OccursAt(fold, text, term, k);
    }
  }

  lemma AnythingMatches(text: string)
    ensures Like("%", text)
  {
    assert "%"[1..] == "" && text[|text|..] == "";
    assert Like("%"[1..], text[|text|..]);
  }

  lemma FoldedOccurrence(fold: char -> char, text: string, term: string, k: nat)
    requires k <= |text|
    ensures Fold(fold, term) <= Fold(fold, text)[k..] <==> OccursAt(fold, text, term, k)
  {
    if k + |term| <= |text| {
      assert Fold(fold, text[k..k + |term|]) == Fold(fold, text)[k..][..|term|];
    }
  }

  // ---------------------------------------------------------------------------
  // The listing
  // ---------------------------------------------------------------------------

  datatype Product = Product(code: string, name: Option<string>, uploaded: bool)

  function NameOrEmpty(p: Product): string {
    if p.name.Some? then p.name.value else ""
  }

  /** The clauses of the query, built from the optional search term and the optional upload status. */
  ghost predicate Listed(fold: char -> char, q: Option<string>, uploaded: Option<bool>, p: Product) {
    var term := if q.Some? then Text.Strip(q.value) else "";
    && (term != "" ==> ILike(fold, Pattern(term), p.code) || ILike(fold, Pattern(term), NameOrEmpty(p)))
    && (uploaded.Some? ==> p.uploaded == uploaded.value)
  }

  /** A search lists exactly the products whose code or name contains the term; without a term it lists all. */
  lemma ListedIffContained(fold: char -> char, q: Option<string>, uploaded: Option<bool>, p: Product)
    requires KeepsMeta(fold)
    ensures Listed(fold, q, uploaded, p) <==>
            && (uploaded.None? || uploaded.value == p.uploaded)
            && (q.None? || Contains(fold, p.code, Text.Strip(q.value))
                || (p.name.Some? && Contains(fold, p.name.value, Text.Strip(q.value))))
  {
    if q.Some? {
      var term := Text.Strip(q.value);
      PatternFindsSubstrings(fold, term, p.code);
      PatternFindsSubstrings(fold, term, NameOrEmpty(p));
      if term == "" {
        assert OccursAt(fold, p.code, term, 0);
      }
    }
  }
}
