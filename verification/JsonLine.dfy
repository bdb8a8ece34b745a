/**
 The text of one JSON object on one line, as the audit log writes it: keys in a fixed order, no spaces, and only quotes,
 backslashes and control characters escaped. Everything else, line separators included, is written as it is.
 */
module JsonLine {
  import opened Basics

  predicate IsWordChar(c: char) {
    '0' <= c <= '9' || 'a' <= c <= 'z' || 'A' <= c <= 'Z' || c == '+' || c == '-' || c == '.'
  }

  /** A number, true, false or null. */
  type Word = w: string | w != "" && forall c | c in w :: IsWordChar(c) witness "0"

  datatype Value = Text(text: string) | Literal(word: Word)

  type Doc = map<string, Value>

  // ---------------------------------------------------------------------------
  // Writing
  // ---------------------------------------------------------------------------

  function HexDigit(n: nat): char
    requires n < 16
  {
    if n < 10 then ('0' as int + n) as char else ('a' as int + n - 10) as char
  }

  function Escaped(c: char): string {
    if c == '"' then "\\\""
    else if c == '\\' then "\\\\"
    else if c == '\n' then "\\n"
    else if c == '\r' then "\\r"
    else if c == '\t' then "\\t"
    else if c as int == 8 then "\\b"
    else if c as int == 12 then "\\f"
    else if c as int < 32 then "\\u00" + [HexDigit(c as int / 16), HexDigit(c as int % 16)]
    else [c]
  }

  function EscapeAll(s: string): string {
    if s == "" then "" else Escaped(s[0]) + EscapeAll(s[1..])
  }

  function Quote(s: string): string {
    "\"" + EscapeAll(s) + "\""
  }

  function ValueText(v: Value): string {
    match v
    case Text(text) => Quote(text)
    case Literal(word) => word
  }

  function FieldText(key: string, v: Value): string {
    Quote(key) + ":" + ValueText(v)
  }

  function FieldsText(keys: seq<string>, doc: Doc): string
    requires forall key | key in keys :: key in doc
  {
    if keys == [] then ""
    else
      FieldText(keys[0], doc[keys[0]]) + if |keys| == 1 then "" else "," + FieldsText(keys[1..], doc)
  }

  /** The keys of every object are listed in some order, which the source sorts. */
  ghost predicate Lists(order: set<string> -> seq<string>) {
    forall keys :: Members(order(keys)) == keys
  }

  ghost function Render(order: set<string> -> seq<string>, doc: Doc): string
    requires Lists(order)
  {
    "{" + FieldsText(Ordered(order, doc), doc) + "}"
  }

  ghost function Ordered(order: set<string> -> seq<string>, doc: Doc): (keys: seq<string>)
    requires Lists(order)
    ensures Members(keys) == doc.Keys && forall key | key in keys :: key in doc
  {
    var keys := order(doc.Keys);
    assert Members(keys) == doc.Keys;
    assert forall key | key in keys :: key in Members(keys);
    keys
  }

  // ---------------------------------------------------------------------------
  // Lines
  // ---------------------------------------------------------------------------

  /** The line boundaries that escaping leaves in a text. */
  predicate IsSeparator(c: char) {
    c as int == 0x85 || c as int == 0x2028 || c as int == 0x2029
  }

  /** Every character at which a text is split into lines. */
  predicate IsBreak(c: char) {
    10 <= c as int <= 13 || 28 <= c as int <= 30 || IsSeparator(c)
  }

  predicate HasSeparator(s: string) {
    exists c | c in s :: IsSeparator(c)
  }

  predicate HasBreak(s: string) {
    exists c | c in s :: IsBreak(c)
  }

  /** Some key or some text of the object holds a separator. */
  predicate BreaksLine(doc: Doc) {
    exists key | key in doc :: HasSeparator(key) || (doc[key].Text? && HasSeparator(doc[key].text))
  }

  function FirstBreak(s: string): (n: nat)
    ensures n <= |s| && (n < |s| ==> IsBreak(s[n])) && forall i | 0 <= i < n :: !IsBreak(s[i])
  {
    if s == "" || IsBreak(s[0]) then 0 else 1 + FirstBreak(s[1..])
  }

  /** A carriage return and the newline after it are one boundary. */
  function BreakLength(s: string, n: nat): nat
    requires n < |s|
  {
    if s[n] == '\r' && n + 1 < |s| && s[n + 1] == '\n' then 2 else 1
  }

  function SplitLines(s: string): seq<string>
    decreases |s|
  {
    var n := FirstBreak(s);
    if s == "" then []
    else if n == |s| then [s]
    else [s[..n]] + SplitLines(s[n + BreakLength(s, n)..])
  }

  lemma FirstBreakIs(s: string, n: nat)
    requires n <= |s| && (n < |s| ==> IsBreak(s[n])) && forall i | 0 <= i < n :: !IsBreak(s[i])
    ensures FirstBreak(s) == n
  {}

  predicate EndsLine(s: string) {
    s == "" || s[|s| - 1] == '\n'
  }

  lemma SameFirstLine(a: string, b: string)
    requires a != "" && EndsLine(a)
    ensures var n := FirstBreak(a);
            && n < |a| && FirstBreak(a + b) == n && BreakLength(a + b, n) == BreakLength(a, n)
            && var next := n + BreakLength(a, n);
               next <= |a| && EndsLine(a[next..]) && (a + b)[next..] == a[next..] + b && (a + b)[..n] == a[..n]
  {
    var n := FirstBreak(a);
    assert IsBreak(a[|a| - 1]);
    FirstBreakIs(a + b, n);
  }

  lemma Regroup(first: string, a: seq<string>, b: seq<string>)
    ensures [first] + (a + b) == ([first] + a) + b
  {}

  lemma SplitOff(s: string)
    requires FirstBreak(s) < |s|
    ensures SplitLines(s) == [s[..FirstBreak(s)]] + SplitLines(s[FirstBreak(s) + BreakLength(s, FirstBreak(s))..])
  {
    hide FirstBreak, BreakLength;
  }

  /** Text that is appended after a finished line is split by itself. */
  lemma {:induction false} SplitAppended(a: string, b: string)
    requires EndsLine(a)
    ensures SplitLines(a + b) == SplitLines(a) + SplitLines(b)
    decreases |a|
  {
    if a == "" {
      assert a + b == b;
    } else {
      hide FirstBreak, BreakLength, EndsLine, SplitLines;
      var n := FirstBreak(a);
      SameFirstLine(a, b);
      var rest := a[n + BreakLength(a, n)..];
      SplitAppended(rest, b);
      SplitOff(a);
      SplitOff(a + b);
      Regroup(a[..n], SplitLines(rest), SplitLines(b));
    }
  }

  /** A text without a boundary is one line; otherwise its first line is a proper piece of it. */
  lemma SplitFinished(s: string)
    requires s != ""
    ensures !HasBreak(s) ==> SplitLines(s + "\n") == [s]
    ensures HasBreak(s) ==> SplitLines(s + "\n") != [] && SplitLines(s + "\n")[0] < s
  {
    var t := s + "\n";
    if HasBreak(s) {
      var n := FirstBreak(s);
      var c :| c in s && IsBreak(c);
      var i :| 0 <= i < |s| && s[i] == c;
      assert n <= i;
      FirstBreakIs(t, n);
      assert t[..n] == s[..n];
    } else {
      assert forall i | 0 <= i < |s| :: s[i] in s;
      FirstBreakIs(t, |s|);
      assert t[|s| + 1..] == "" && t[..|s|] == s;
    }
  }

  // ---------------------------------------------------------------------------
  // What escaping leaves
  // ---------------------------------------------------------------------------

  lemma EscapedKeepsSeparators(c: char)
    ensures HasBreak(Escaped(c)) <==> IsSeparator(c)
  {
    if 32 <= c as int && c != '"' && c != '\\' {
      assert c in [c] && forall x | x in [c] :: x == c;
    } else if c as int < 32 && c as int !in {8, 9, 10, 12, 13} {
      var e := Escaped(c);
      assert e == ['\\', 'u', '0', '0', HexDigit(c as int / 16), HexDigit(c as int % 16)];
      assert forall x | x in e :: !IsBreak(x);
    } else {
      var e := Escaped(c);
      assert |e| == 2 && e == [e[0], e[1]];
      assert forall x | x in e :: x == e[0] || x == e[1];
    }
  }

  lemma BreakOfBoth(a: string, b: string)
    ensures HasBreak(a + b) <==> HasBreak(a) || HasBreak(b)
  {
    assert forall c :: c in a + b <==> c in a || c in b;
  }

  lemma {:induction false} EscapeKeepsSeparators(s: string)
    ensures HasBreak(EscapeAll(s)) <==> HasSeparator(s)
  {
    if s != "" {
      EscapedKeepsSeparators(s[0]);
      EscapeKeepsSeparators(s[1..]);
      BreakOfBoth(Escaped(s[0]), EscapeAll(s[1..]));
      assert forall c :: c in s <==> c == s[0] || c in s[1..];
    }
  }

  lemma QuoteKeepsSeparators(s: string)
    ensures HasBreak(Quote(s)) <==> HasSeparator(s)
  {
    EscapeKeepsSeparators(s);
    BreakOfBoth("\"" + EscapeAll(s), "\"");
    BreakOfBoth("\"", EscapeAll(s));
  }

  predicate FieldBreaks(key: string, v: Value) {
    HasSeparator(key) || (v.Text? && HasSeparator(v.text))
  }

  lemma FieldKeepsSeparators(key: string, v: Value)
    ensures HasBreak(FieldText(key, v)) <==> FieldBreaks(key, v)
  {
    QuoteKeepsSeparators(key);
    BreakOfBoth(Quote(key) + ":", ValueText(v));
    BreakOfBoth(Quote(key), ":");
    match v {
      case Text(text) => QuoteKeepsSeparators(text);
      case Literal(word) => assert forall c | c in word :: IsWordChar(c) && !IsBreak(c);
    }
  }

  lemma {:induction false} FieldsKeepSeparators(keys: seq<string>, doc: Doc)
    requires forall key | key in keys :: key in doc
    ensures HasBreak(FieldsText(keys, doc)) <==> exists key | key in keys :: FieldBreaks(key, doc[key])
  {
    hide FieldBreaks, FieldText, HasBreak;
    if keys == [] {
      NoBreak("");
    } else {
      var first, rest := FieldText(keys[0], doc[keys[0]]), FieldsText(keys[1..], doc);
      FieldKeepsSeparators(keys[0], doc[keys[0]]);
      FieldsKeepSeparators(keys[1..], doc);
      NoBreak(",");
      NoBreak("");
      BreakOfBoth(",", rest);
      BreakOfBoth(first, "," + rest);
      BreakOfBoth(first, "");
      assert forall key :: key in keys <==> key == keys[0] || key in keys[1..];
    }
  }

  lemma NoBreak(s: string)
    requires s == "" || s == "," || s == "{" || s == "}"
    ensures !HasBreak(s)
  {}

  /** The written object holds a line boundary exactly when one of its keys or texts holds a separator. */
  lemma RenderBreaksIff(order: set<string> -> seq<string>, doc: Doc)
    requires Lists(order)
    ensures HasBreak(Render(order, doc)) <==> BreaksLine(doc)
  {
    hide HasBreak, HasSeparator;
    var keys := Ordered(order, doc);
    FieldsKeepSeparators(keys, doc);
    NoBreak("{");
    NoBreak("}");
    BreakOfBoth("{" + FieldsText(keys, doc), "}");
    BreakOfBoth("{", FieldsText(keys, doc));
    assert forall key :: key in doc <==> key in Members(keys);
    assert forall key | key in keys :: key in doc;
    if BreaksLine(doc) {
      var key :| key in doc && (HasSeparator(key) || (doc[key].Text? && HasSeparator(doc[key].text)));
      assert key in keys && FieldBreaks(key, doc[key]);
    }
  }

  // ---------------------------------------------------------------------------
  // A reader
  // ---------------------------------------------------------------------------

  /** A reader of lines takes back what was written, and takes no proper piece of it. */
  ghost predicate Reads(order: set<string> -> seq<string>, parse: string -> Option<Doc>) {
    && Lists(order)
    && (forall doc :: parse(Render(order, doc)) == Some(doc))
    && (forall doc, piece | piece < Render(order, doc) :: parse(piece).None?)
  }

  function HexValue(c: char): Option<nat> {
    if '0' <= c <= '9' then Some(c as int - '0' as int)
    else if 'a' <= c <= 'f' then Some(c as int - 'a' as int + 10)
    else None
  }

  /** The character after a backslash, and what follows it. */
  function ReadEscape(s: string): Option<(char, string)> {
    if s == "" then None
    else if s[0] == '"' || s[0] == '\\' then Some((s[0], s[1..]))
    else if s[0] == 'n' then Some(('\n', s[1..]))
    else if s[0] == 'r' then Some(('\r', s[1..]))
    else if s[0] == 't' then Some(('\t', s[1..]))
    else if s[0] == 'b' then Some((8 as char, s[1..]))
    else if s[0] == 'f' then Some((12 as char, s[1..]))
    else if s[0] == 'u' && |s| >= 5 && s[1] == '0' && s[2] == '0' && HexValue(s[3]).Some? && HexValue(s[4]).Some? then
      Some(((HexValue(s[3]).value * 16 + HexValue(s[4]).value) as char, s[5..]))
    else None
  }

  /** The text up to the closing quote, and what follows it. */
  function ReadText(s: string): (r: Option<(string, string)>)
    ensures r.Some? ==> |r.value.1| < |s|
    decreases |s|
  {
    if s == "" then None
    else if s[0] == '"' then Some(("", s[1..]))
    else if s[0] == '\\' then
      match ReadEscape(s[1..])
      case None => None
      case Some((c, rest)) =>
        (match ReadText(rest)
         case None => None
         case Some((text, after)) => Some(([c] + text, after)))
    else
      match ReadText(s[1..])
      case None => None
      case Some((text, after)) => Some(([s[0]] + text, after))
  }

  function WordLength(s: string): (n: nat)
    ensures n <= |s| && forall c | c in s[..n] :: IsWordChar(c)
  {
    if s == "" || !IsWordChar(s[0]) then 0
    else
      var n := 1 + WordLength(s[1..]);
      assert s[..n] == [s[0]] + s[1..][..n - 1];
      n
  }

  function ReadValue(s: string): (r: Option<(Value, string)>)
    ensures r.Some? ==> |r.value.1| < |s|
  {
    if s == "" then None
    else if s[0] == '"' then
      match ReadText(s[1..])
      case None => None
      case Some((text, after)) => Some((Text(text), after))
    else
      var n := WordLength(s);
      if n == 0 then None else Some((Literal(s[..n]), s[n..]))
  }

  /** One field, without what separates it from the next. */
  function ReadField(s: string): (r: Option<(string, Value, string)>)
    ensures r.Some? ==> |r.value.2| < |s|
  {
    if s == "" || s[0] != '"' then None
    else
      match ReadText(s[1..])
      case None => None
      case Some((key, after)) =>
        if after == "" || after[0] != ':' then None
        else
          match ReadValue(after[1..])
          case None => None
          case Some((v, rest)) => Some((key, v, rest))
  }

  /** Fields up to the closing brace, and what follows it. */
  function ReadFields(s: string): Option<(Doc, string)>
    decreases |s|
  {
    match ReadField(s)
    case None => None
    case Some((key, v, rest)) =>
      if rest == "" then None
      else if rest[0] == '}' then Some((map[key := v], rest[1..]))
      else if rest[0] != ',' then None
      else
        match ReadFields(rest[1..])
        case None => None
        case Some((doc, after)) => Some((map[key := v] + doc, after))
  }

  function ReadObject(s: string): Option<Doc> {
    if s == "{}" then Some(map[])
    else if s == "" || s[0] != '{' then None
    else
      match ReadFields(s[1..])
      case None => None
      case Some((doc, after)) => if after == "" then Some(doc) else None
  }

  lemma EscapeReadsBack(c: char, rest: string)
    ensures (Escaped(c) == [c] && c != '"' && c != '\\')
            || (Escaped(c) != "" && Escaped(c)[0] == '\\' && ReadEscape(Escaped(c)[1..] + rest) == Some((c, rest)))
  {
    var n := c as int;
    if n < 32 && n !in {8, 9, 10, 12, 13} {
      var s := Escaped(c)[1..] + rest;
      assert s == ['u', '0', '0', HexDigit(n / 16), HexDigit(n % 16)] + rest;
      assert s[5..] == rest;
    } else if Escaped(c) != [c] {
      var s := Escaped(c)[1..] + rest;
      assert s[1..] == rest;
    }
  }

  lemma {:induction false} TextReadsBack(text: string, rest: string)
    ensures ReadText(EscapeAll(text) + "\"" + rest) == Some((text, rest))
  {
    hide Escaped, ReadEscape;
    var s := EscapeAll(text) + "\"" + rest;
    if text == "" {
      assert s[1..] == rest;
    } else {
      var tail := EscapeAll(text[1..]) + "\"" + rest;
      TextReadsBack(text[1..], rest);
      assert s == Escaped(text[0]) + tail;
      FirstReadsBack(text[0], tail, text[1..], rest);
      assert text == [text[0]] + text[1..];
    }
  }

  lemma FirstReadsBack(c: char, tail: string, text: string, rest: string)
    requires ReadText(tail) == Some((text, rest))
    ensures ReadText(Escaped(c) + tail) == Some(([c] + text, rest))
  {
    var s := Escaped(c) + tail;
    EscapeReadsBack(c, tail);
    hide Escaped, ReadEscape;
    assert Escaped(c) != "" && s[1..] == Escaped(c)[1..] + tail;
    if Escaped(c) == [c] {
      assert s[1..] == tail;
    }
  }

  lemma {:induction false} WordReadsBack(word: string, rest: string)
    requires (forall c | c in word :: IsWordChar(c)) && (rest == "" || !IsWordChar(rest[0]))
    ensures WordLength(word + rest) == |word|
  {
    if word == "" {
      assert word + rest == rest;
    } else {
      assert (word + rest)[1..] == word[1..] + rest;
      WordReadsBack(word[1..], rest);
    }
  }

  lemma ValueReadsBack(v: Value, rest: string)
    requires rest != "" && !IsWordChar(rest[0])
    ensures ReadValue(ValueText(v) + rest) == Some((v, rest))
  {
    hide ReadText, EscapeAll, WordLength;
    var s := ValueText(v) + rest;
    match v {
      case Text(text) =>
        TextReadsBack(text, rest);
        assert s[1..] == EscapeAll(text) + "\"" + rest;
      case Literal(word) =>
        WordReadsBack(word, rest);
        assert word[0] in word && s[0] == word[0];
        assert s[..|word|] == word && s[|word|..] == rest;
    }
  }

  lemma FieldReadsBack(key: string, v: Value, rest: string)
    requires rest != "" && !IsWordChar(rest[0])
    ensures ReadField(FieldText(key, v) + rest) == Some((key, v, rest))
  {
    hide ReadText, EscapeAll, ReadValue, ValueText;
    var s := FieldText(key, v) + rest;
    var after := ":" + (ValueText(v) + rest);
    TextReadsBack(key, after);
    assert s[1..] == EscapeAll(key) + "\"" + after;
    assert after[1..] == ValueText(v) + rest;
    ValueReadsBack(v, rest);
  }

  lemma {:induction false} FieldsReadBack(keys: seq<string>, doc: Doc, rest: string)
    requires keys != [] && forall key | key in keys :: key in doc
    ensures ReadFields(FieldsText(keys, doc) + "}" + rest) == Some((map key | key in keys :: doc[key], rest))
  {
    hide FieldText, ReadField;
    var key := keys[0];
    var s := FieldsText(keys, doc) + "}" + rest;
    if |keys| == 1 {
      var tail := "}" + rest;
      assert s == FieldText(key, doc[key]) + tail && tail[1..] == rest;
      FieldReadsBack(key, doc[key], tail);
      assert (map k | k in keys :: doc[k]) == map[key := doc[key]];
    } else {
      var next := FieldsText(keys[1..], doc) + "}" + rest;
      var tail := "," + next;
      assert s == FieldText(key, doc[key]) + tail && tail[1..] == next;
      FieldReadsBack(key, doc[key], tail);
      FieldsReadBack(keys[1..], doc, rest);
      assert forall k :: k in keys <==> k == key || k in keys[1..];
      assert (map k | k in keys :: doc[k]) == map[key := doc[key]] + (map k | k in keys[1..] :: doc[k]);
    }
  }

  lemma ObjectReadsBack(order: set<string> -> seq<string>, doc: Doc)
    requires Lists(order)
    ensures ReadObject(Render(order, doc)) == Some(doc)
  {
    hide ReadFields, FieldsText;
    var keys := Ordered(order, doc);
    if keys == [] {
      EmptyText(doc);
      assert doc.Keys == {} && doc == map[];
    } else {
      RenderOpens(order, doc);
      FieldsReadBack(keys, doc, "");
      var s := Render(order, doc);
      assert s[1..] == FieldsText(keys, doc) + "}" + "";
      assert forall key :: key in doc <==> key in Members(keys);
      assert (map key | key in keys :: doc[key]) == doc;
    }
  }

  lemma EmptyText(doc: Doc)
    ensures FieldsText([], doc) == ""
  {}

  lemma RenderOpens(order: set<string> -> seq<string>, doc: Doc)
    requires Lists(order)
    ensures var s := Render(order, doc);
            if Ordered(order, doc) == [] then s == "{}" else |s| > 2 && s[0] == '{' && s[1] == '"'
  {
    var keys := Ordered(order, doc);
    if keys != [] {
      assert FieldsText(keys, doc)[0] == '"';
    }
  }

  // What has been read does not depend on what comes after it.

  lemma EscapeStable(s: string, t: string)
    requires ReadEscape(s).Some?
    ensures ReadEscape(s + t) == Some((ReadEscape(s).value.0, ReadEscape(s).value.1 + t))
  {
    assert (s + t)[1..] == s[1..] + t;
    if |s| >= 5 {
      assert (s + t)[5..] == s[5..] + t;
    }
  }

  lemma {:induction false} TextStable(s: string, t: string)
    requires ReadText(s).Some?
    ensures ReadText(s + t) == Some((ReadText(s).value.0, ReadText(s).value.1 + t))
    decreases |s|
  {
    assert (s + t)[1..] == s[1..] + t;
    if s[0] == '"' {
    } else if s[0] == '\\' {
      EscapeStable(s[1..], t);
      TextStable(ReadEscape(s[1..]).value.1, t);
    } else {
      TextStable(s[1..], t);
    }
  }

  lemma {:induction false} WordStable(s: string, t: string)
    requires WordLength(s) < |s|
    ensures WordLength(s + t) == WordLength(s)
  {
    if IsWordChar(s[0]) {
      assert (s + t)[1..] == s[1..] + t;
      WordStable(s[1..], t);
    }
  }

  lemma ValueStable(s: string, t: string)
    requires ReadValue(s).Some? && ReadValue(s).value.1 != ""
    ensures ReadValue(s + t) == Some((ReadValue(s).value.0, ReadValue(s).value.1 + t))
  {
    hide ReadText;
    if s[0] == '"' {
      assert (s + t)[1..] == s[1..] + t;
      TextStable(s[1..], t);
    } else {
      var n := WordLength(s);
      WordStable(s, t);
      assert (s + t)[..n] == s[..n] && (s + t)[n..] == s[n..] + t;
    }
  }

  lemma FieldStable(s: string, t: string)
    requires ReadField(s).Some? && ReadField(s).value.2 != ""
    ensures ReadField(s + t) == Some((ReadField(s).value.0, ReadField(s).value.1, ReadField(s).value.2 + t))
  {
    hide ReadText, ReadValue;
    assert (s + t)[1..] == s[1..] + t;
    TextStable(s[1..], t);
    var after := ReadText(s[1..]).value.1;
    assert (after + t)[1..] == after[1..] + t;
    ValueStable(after[1..], t);
  }

  lemma {:induction false} FieldsStable(s: string, t: string)
    requires ReadFields(s).Some?
    ensures ReadFields(s + t) == Some((ReadFields(s).value.0, ReadFields(s).value.1 + t))
    decreases |s|
  {
    hide ReadField;
    FieldStable(s, t);
    var rest := ReadField(s).value.2;
    assert (rest + t)[1..] == rest[1..] + t;
    if rest[0] != '}' {
      FieldsStable(rest[1..], t);
    }
  }

  lemma PiecesAreRefused(order: set<string> -> seq<string>, doc: Doc, piece: string)
    requires Lists(order) && piece < Render(order, doc)
    ensures ReadObject(piece).None?
  {
    var whole := Render(order, doc);
    ObjectReadsBack(order, doc);
    RenderOpens(order, doc);
    hide ReadFields;
    if piece != "" {
      var rest := whole[|piece|..];
      assert rest != "" && whole[1..] == piece[1..] + rest;
      if ReadFields(piece[1..]).Some? {
        FieldsStable(piece[1..], rest);
      }
    }
  }

  /** Some order of the keys. */
  ghost function Listing(keys: set<string>): (s: seq<string>)
    ensures Members(s) == keys
  {
    if keys == {} then []
    else
      var key :| key in keys;
      var rest := Listing(keys - {key});
      assert forall x :: x in [key] + rest <==> x == key || x in Members(rest);
      [key] + rest
  }

  /** The two demands on a reader can be met, and so no two objects are written alike. */
  lemma ReadersExist(order: set<string> -> seq<string>)
    requires Lists(order)
    ensures Reads(order, ReadObject)
  {
    forall doc
      ensures ReadObject(Render(order, doc)) == Some(doc)
    {
      ObjectReadsBack(order, doc);
    }
    forall doc, piece | piece < Render(order, doc)
      ensures ReadObject(piece).None?
    {
      PiecesAreRefused(order, doc, piece);
    }
  }
}
