/** The few text operations that imports and product codes rely on. */
module Text {
  import opened Basics

  /** The characters that Python's strip removes. */
  predicate IsSpace(ch: char) {
    var c := ch as int;
    || 9 <= c <= 13 || 28 <= c <= 32 || c == 0x85 || c == 0xA0 || c == 0x1680
    || 0x2000 <= c <= 0x200A || c == 0x2028 || c == 0x2029 || c == 0x202F || c == 0x205F || c == 0x3000
  }

  function StripLeft(s: string): string {
    if s != "" && IsSpace(s[0]) then StripLeft(s[1..]) else s
  }

  function StripRight(s: string): string {
    if s != "" && IsSpace(s[|s| - 1]) then StripRight(s[..|s| - 1]) else s
  }

  function Strip(s: string): string {
    StripRight(StripLeft(s))
  }

  /** The characters of a product code. */
  predicate IsCodeChar(ch: char) {
    'A' <= ch <= 'Z' || 'a' <= ch <= 'z' || '0' <= ch <= '9' || ch == '_' || ch == '-'
  }

  function Upper(ch: char): char {
    if 'a' <= ch <= 'z' then (ch as int - 32) as char else ch
  }

  function UpperAll(s: string): string {
    seq(|s|, i requires 0 <= i < |s| => Upper(s[i]))
  }

  /** The canonical form of a product code, if the text is one. */
  function NormalizeCode(raw: string): Option<string> {
    var stripped := Strip(raw);
    if 1 <= |stripped| <= 64 && forall ch | ch in stripped :: IsCodeChar(ch)
    then Some(UpperAll(stripped))
    else None
  }

  predicate IsCanonicalCode(code: string) {
    1 <= |code| <= 64 && forall ch | ch in code :: IsCodeChar(ch) && !('a' <= ch <= 'z')
  }

  /** A trimmed, non-empty name of at most 120 characters. */
  function NormalizeName(raw: string): Option<string> {
    var name := Strip(raw);
    if 1 <= |name| <= 120 then Some(name) else None
  }

  lemma StripNoSpace(s: string)
    requires forall ch | ch in s :: !IsSpace(ch)
    ensures Strip(s) == s
  {
    if s != "" {
      assert s[0] in s && s[|s| - 1] in s;
    }
  }

  const LOWER := "abcdefghijklmnopqrstuvwxyz"
  const UPPER := "ABCDEFGHIJKLMNOPQRSTUVWXYZ"

  /** The small and the capital form of a letter, by its place in the alphabet. */
  predicate IsLetterPair(small: char, capital: char) {
    exists k | 0 <= k < 26 :: small == LOWER[k] && capital == UPPER[k]
  }

  lemma LetterAt(k: nat)
    requires k < 26
    ensures LOWER[k] as int == 97 + k && UPPER[k] as int == 65 + k
  {
  }

  lemma LetterPairIff(small: char, capital: char)
    ensures IsLetterPair(small, capital) <==> 'a' <= small <= 'z' && capital == Upper(small)
  {
    if IsLetterPair(small, capital) {
      var k: nat :| k < 26 && small == LOWER[k] && capital == UPPER[k];
      LetterAt(k);
    } else if 'a' <= small <= 'z' {
      LetterAt(small as int - 97);
    }
  }

  /** Each letter of the alphabet becomes its own capital, and nothing else changes. */
  lemma UpperIsTheAlphabet(ch: char)
    ensures IsLetterPair(ch, Upper(ch)) || (Upper(ch) == ch && forall capital :: !IsLetterPair(ch, capital))
  {
    forall capital ensures IsLetterPair(ch, capital) <==> 'a' <= ch <= 'z' && capital == Upper(ch) {
      LetterPairIff(ch, capital);
    }
    hide IsLetterPair;
  }

  const DIGITS := "0123456789"

  lemma DigitAt(k: nat)
    requires k < 10
    ensures DIGITS[k] as int == 48 + k
  {
  }

  lemma InAlphabet(ch: char)
    ensures ch in LOWER <==> 'a' <= ch <= 'z'
    ensures ch in UPPER <==> 'A' <= ch <= 'Z'
  {
    if 'a' <= ch <= 'z' {
      LetterAt(ch as int - 97);
      assert LOWER[ch as int - 97] == ch;
    }
    if 'A' <= ch <= 'Z' {
      LetterAt(ch as int - 65);
      assert UPPER[ch as int - 65] == ch;
    }
    if ch in LOWER {
      var k: nat :| k < |LOWER| && LOWER[k] == ch;
      LetterAt(k);
    }
    if ch in UPPER {
      var k: nat :| k < |UPPER| && UPPER[k] == ch;
      LetterAt(k);
    }
  }

  lemma InDigits(ch: char)
    ensures ch in DIGITS <==> '0' <= ch <= '9'
  {
    if '0' <= ch <= '9' {
      DigitAt(ch as int - 48);
      assert DIGITS[ch as int - 48] == ch;
    }
    if ch in DIGITS {
      var k: nat :| k < |DIGITS| && DIGITS[k] == ch;
      DigitAt(k);
    }
  }

  /** Which texts are codes: trimmed, 1 to 64 letters, digits, underscores and hyphens. */
  lemma CodesAreWords(raw: string)
    ensures NormalizeCode(raw).Some?
            <==> && 1 <= |Strip(raw)| <= 64
                 && forall ch | ch in Strip(raw) :: ch in LOWER || ch in UPPER || ch in DIGITS || ch == '_' || ch == '-'
  {
    forall ch ensures IsCodeChar(ch) <==> ch in LOWER || ch in UPPER || ch in DIGITS || ch == '_' || ch == '-' {
      InAlphabet(ch);
      InDigits(ch);
    }
    hide Strip, IsCodeChar, UpperAll;
  }

  /** Two texts have one code exactly when, trimmed, they are the same up to the case of letters. */
  lemma CodesIgnoreCase(a: string, b: string)
    requires NormalizeCode(a).Some? && NormalizeCode(b).Some?
    ensures NormalizeCode(a) == NormalizeCode(b)
            <==> && |Strip(a)| == |Strip(b)|
                 && forall i | 0 <= i < |Strip(a)| :: SameLetter(Strip(a)[i], Strip(b)[i])
  {
    var s, t := Strip(a), Strip(b);
    forall i | 0 <= i < |s| && i < |t| ensures Upper(s[i]) == Upper(t[i]) <==> SameLetter(s[i], t[i]) {
      SameLetterIff(s[i], t[i]);
    }
    if UpperAll(s) == UpperAll(t) {
      assert |s| == |UpperAll(s)| == |t|;
      forall i | 0 <= i < |s| ensures SameLetter(s[i], t[i]) {
        assert UpperAll(s)[i] == UpperAll(t)[i];
      }
    }
    hide Upper, SameLetter;
  }

  /** Equal, or the small and the capital form of one letter. */
  predicate SameLetter(x: char, y: char) {
    x == y || IsLetterPair(x, y) || IsLetterPair(y, x)
  }

  lemma SameLetterIff(x: char, y: char)
    ensures SameLetter(x, y) <==> Upper(x) == Upper(y)
  {
    LetterPairIff(x, y);
    LetterPairIff(y, x);
    hide IsLetterPair;
  }

  lemma {:induction false} StripLeftTrims(s: string)
    ensures StripLeft(s) == "" || !IsSpace(StripLeft(s)[0])
  {
    if s != "" {
      StripLeftTrims(s[1..]);
    }
  }

  lemma {:induction false} StripRightTrims(s: string)
    ensures StripRight(s) <= s && (StripRight(s) == "" || !IsSpace(StripRight(s)[|StripRight(s)| - 1]))
  {
    if s != "" {
      StripRightTrims(s[..|s| - 1]);
    }
  }

  /** Trimming twice is trimming once. */
  lemma StripIsIdempotent(s: string)
    ensures Strip(Strip(s)) == Strip(s)
  {
    StripLeftTrims(s);
    StripRightTrims(StripLeft(s));
    assert Strip(s) != "" ==> Strip(s)[0] == StripLeft(s)[0];
  }

  lemma {:induction false} StripLeftAppends(s: string, ch: char)
    requires IsSpace(ch)
    ensures StripLeft(s + [ch]) == if StripLeft(s) == "" then "" else StripLeft(s) + [ch]
  {
    if s == "" {
      assert s + [ch] == [ch] && [ch][1..] == "";
    } else if IsSpace(s[0]) {
      assert (s + [ch])[1..] == s[1..] + [ch];
      StripLeftAppends(s[1..], ch);
    }
  }

  /** Space around a text does not matter. */
  lemma StripIgnoresSpace(s: string, ch: char)
    requires IsSpace(ch)
    ensures Strip([ch] + s) == Strip(s) && Strip(s + [ch]) == Strip(s)
  {
    assert ([ch] + s)[1..] == s;
    StripLeftAppends(s, ch);
    var t := StripLeft(s);
    assert (t + [ch])[..|t|] == t;
  }

  /** Nothing is left exactly of a text of spaces. */
  lemma {:induction false} BlankIff(s: string)
    ensures Strip(s) == "" <==> forall ch | ch in s :: IsSpace(ch)
  {
    if s != "" {
      if IsSpace(s[0]) {
        BlankIff(s[1..]);
        assert s == [s[0]] + s[1..];
      } else {
        KeepsFirst(s);
        assert s[0] in s;
      }
    }
  }

  lemma {:induction false} KeepsFirst(s: string)
    requires s != "" && !IsSpace(s[0])
    ensures StripRight(s) != ""
  {
    if |s| > 1 {
      KeepsFirst(s[..|s| - 1]);
    }
  }

  /** Python's white space among the ASCII characters. */
  lemma AsciiSpaces(ch: char)
    requires ch as int < 128
    ensures IsSpace(ch)
            <==> ch in {' ', '\t', '\n', '\r', 11 as char, 12 as char, 28 as char, 29 as char, 30 as char, 31 as char}
  {
  }

  /** Normalization yields a canonical code, and canonical codes are exactly its fixed points. */
  lemma NormalizeCodeIsProjection(raw: string)
    ensures NormalizeCode(raw).Some? ==> IsCanonicalCode(NormalizeCode(raw).value)
    ensures IsCanonicalCode(raw) <==> NormalizeCode(raw) == Some(raw)
  {
    if NormalizeCode(raw).Some? {
      var stripped, code := Strip(raw), NormalizeCode(raw).value;
      forall ch | ch in code ensures IsCodeChar(ch) && !('a' <= ch <= 'z') {
        var i :| 0 <= i < |code| && code[i] == ch;
        assert stripped[i] in stripped;
      }
    }
    if IsCanonicalCode(raw) {
      StripNoSpace(raw);
      assert forall i | 0 <= i < |raw| :: raw[i] in raw;
      assert UpperAll(raw) == raw;
    }
  }
}
