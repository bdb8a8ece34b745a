/**
 The hash-chained operations audit: a file of JSON lines, each carrying the digest of the
 line before it, and an anchor file holding the length and the last digest.

 The log is its text. Verification splits the text into lines and reads each of them; an append writes its line
 character by character, and a crash may keep any part of it.
 */
module AuditChain {
  import opened Basics
  import opened JsonLine

  const EVENT_KEY := "event_sha256"
  const PREVIOUS_KEY := "previous_sha256"

  datatype Anchor = Anchor(count: nat, head: string)

  /** The log file, absent until the first append, and its anchor. */
  datatype Store = Store(log: Option<string>, anchor: Option<Anchor>)

  const EMPTY := Store(None, None)

  /**
   The digest function, the head of an empty chain, the order of keys in a written line, and the reader of a line,
   which takes back what was written and may accept other spellings of an object as well.
   */
  datatype Format = Format(
    digest: Doc -> string, zero: string, order: set<string> -> seq<string>, parse: string -> Option<Doc>)

  ghost predicate Lawful(h: Format) {
    && Reads(h.order, h.parse)
    && !HasSeparator(h.zero) && forall doc :: !HasSeparator(h.digest(doc))
  }

  /** The laws can be met. */
  lemma FormatsExist()
    ensures exists h :: Lawful(h)
  {
    var order: set<string> -> seq<string> := keys => Listing(keys);
    ReadersExist(order);
    assert Lawful(Format(_ => "0", "0", order, ReadObject));
  }

  function Stripped(doc: Doc): Doc {
    doc - {EVENT_KEY}
  }

  /** One event passes: it names the previous digest and carries its own. */
  predicate Links(h: Format, doc: Doc, previous: string) {
    && PREVIOUS_KEY in doc && doc[PREVIOUS_KEY] == Text(previous)
    && EVENT_KEY in doc && doc[EVENT_KEY] == Text(h.digest(Stripped(doc)))
  }

  /** The digest a chain ends with. */
  function Head(h: Format, docs: seq<Doc>): string {
    if docs == [] then h.zero
    else
      var last := docs[|docs| - 1];
      if EVENT_KEY in last && last[EVENT_KEY].Text? then last[EVENT_KEY].text else ""
  }

  predicate Chained(h: Format, docs: seq<Doc>) {
    docs == []
    || (Chained(h, docs[..|docs| - 1]) && Links(h, docs[|docs| - 1], Head(h, docs[..|docs| - 1])))
  }

  /** Every line read, or nothing when one of them is no object. */
  function ParseLines(h: Format, lines: seq<string>): Option<seq<Doc>> {
    if lines == [] then Some([])
    else
      var n := |lines| - 1;
      var before, last := ParseLines(h, lines[..n]), h.parse(lines[n]);
      if before.Some? && last.Some? then Some(before.value + [last.value]) else None
  }

  /** The events of a log that verifies. A missing log reads as empty, whatever the anchor says. */
  function Events(h: Format, s: Store): Option<seq<Doc>> {
    if s.log.None? then Some([])
    else
      match ParseLines(h, SplitLines(s.log.value))
      case None => None
      case Some(docs) =>
        if Chained(h, docs) && s.anchor == Some(Anchor(|docs|, Head(h, docs))) then Some(docs) else None
  }

  // ---------------------------------------------------------------------------
  // An anchor pins down the whole log
  // ---------------------------------------------------------------------------

  /** At this position the two chains carry different documents with one digest. */
  predicate CollideAt(h: Format, a: seq<Doc>, b: seq<Doc>, i: nat)
    requires i < |a| && i < |b|
  {
    Stripped(a[i]) != Stripped(b[i]) && h.digest(Stripped(a[i])) == h.digest(Stripped(b[i]))
  }

  /** Somewhere in the two chains the digest has failed. */
  predicate ChainsCollide(h: Format, a: seq<Doc>, b: seq<Doc>) {
    exists i | 0 <= i < |a| && i < |b| :: CollideAt(h, a, b, i)
  }

  lemma StrippedRestores(a: Doc, b: Doc)
    requires EVENT_KEY in a && EVENT_KEY in b && a[EVENT_KEY] == b[EVENT_KEY] && Stripped(a) == Stripped(b)
    ensures a == b
  {
    assert a == Stripped(a)[EVENT_KEY := a[EVENT_KEY]];
    assert b == Stripped(b)[EVENT_KEY := b[EVENT_KEY]];
  }

  /**
   Two chains of the same length that end in the same digest are the same chain, unless at some position they carry two
   different documents with one digest; such a position exhibits the collision.
   */
  lemma {:induction false} SameHeadSameChain(h: Format, a: seq<Doc>, b: seq<Doc>)
    requires Chained(h, a) && Chained(h, b) && |a| == |b| && Head(h, a) == Head(h, b)
    ensures a == b <==> !ChainsCollide(h, a, b)
  {
    if a != [] && !ChainsCollide(h, a, b) {
      var n := |a| - 1;
      var x, y := a[n], b[n];
      assert !CollideAt(h, a, b, n);
      StrippedRestores(x, y);
      forall i | 0 <= i < n
        ensures !CollideAt(h, a[..n], b[..n], i)
      {
        assert !CollideAt(h, a, b, i);
      }
      SameHeadSameChain(h, a[..n], b[..n]);
      assert a == a[..n] + [a[n]] && b == b[..n] + [b[n]];
    }
  }

  /** Two present logs that verify against one anchor hold the same events, unless the two logs exhibit a collision. */
  lemma AnchorDeterminesLog(h: Format, a: Store, b: Store)
    requires a.log.Some? && b.log.Some? && a.anchor == b.anchor
    requires Events(h, a).Some? && Events(h, b).Some?
    ensures Events(h, a) == Events(h, b) <==> !ChainsCollide(h, Events(h, a).value, Events(h, b).value)
  {
    SameHeadSameChain(h, Events(h, a).value, Events(h, b).value);
  }

  // ---------------------------------------------------------------------------
  // Appending
  // ---------------------------------------------------------------------------

  datatype Write = CreateLog | PutChar(c: char) | PutAnchor(anchor: Anchor)

  function LogOf(s: Store): string {
    if s.log.Some? then s.log.value else ""
  }

  function Perform(s: Store, w: Write): Store {
    match w
    case CreateLog => s.(log := Some(LogOf(s)))
    case PutChar(c) => s.(log := Some(LogOf(s) + [c]))
    case PutAnchor(anchor) => s.(anchor := Some(anchor))
  }

  /** The document without its own digest: the event with the previous digest written over any it had. */
  function BodyOf(h: Format, existing: seq<Doc>, event: Doc): Doc {
    event[PREVIOUS_KEY := Text(Head(h, existing))]
  }

  /** The event that is written. Its digest covers a key of that name that the event already had. */
  function LineOf(h: Format, existing: seq<Doc>, event: Doc): Doc {
    var body := BodyOf(h, existing, event);
    body[EVENT_KEY := Text(h.digest(body))]
  }

  predicate Sensitive(sensitive: string -> bool, event: Doc) {
    exists key | key in event :: sensitive(key)
  }

  /** The line and its end. */
  ghost function LineText(h: Format, existing: seq<Doc>, event: Doc): string
    requires Lists(h.order)
  {
    Render(h.order, LineOf(h, existing, event)) + "\n"
  }

  function NextAnchor(h: Format, existing: seq<Doc>, event: Doc): Anchor {
    Anchor(|existing| + 1, h.digest(BodyOf(h, existing, event)))
  }

  function CharWrites(text: string): seq<Write> {
    seq(|text|, i requires 0 <= i < |text| => PutChar(text[i]))
  }

  ghost function Script(h: Format, sensitive: string -> bool, s: Store, event: Doc): seq<Write>
    requires Lists(h.order)
  {
    var existing := Events(h, s);
    if Sensitive(sensitive, event) || existing.None? then []
    else
      [CreateLog] + CharWrites(LineText(h, existing.value, event)) + [PutAnchor(NextAnchor(h, existing.value, event))]
  }

  function PerformAll(s: Store, ws: seq<Write>): Store {
    if ws == [] then s else Perform(PerformAll(s, ws[..|ws| - 1]), ws[|ws| - 1])
  }

  /** The store after an append that died once `cut` of its writes had happened. */
  ghost function AfterAppend(h: Format, sensitive: string -> bool, s: Store, event: Doc, cut: nat): Store
    requires Lists(h.order)
  {
    var ws := Script(h, sensitive, s, event);
    PerformAll(s, if cut < |ws| then ws[..cut] else ws)
  }

  /** The append made at least one write, and all of them. */
  ghost predicate Completes(h: Format, sensitive: string -> bool, s: Store, event: Doc, cut: nat)
    requires Lists(h.order)
  {
    var ws := Script(h, sensitive, s, event);
    ws != [] && cut >= |ws|
  }

  /** What each cut of an append leaves, written out. */
  function Progress(s: Store, text: string, anchor: Anchor, cut: nat): Store {
    if cut == 0 then s
    else if cut <= |text| + 1 then s.(log := Some(LogOf(s) + text[..cut - 1]))
    else Store(Some(LogOf(s) + text), Some(anchor))
  }

  lemma {:induction false} CharsAreWritten(s: Store, text: string, anchor: Anchor, cut: nat)
    requires cut <= |text| + 2
    ensures PerformAll(s, ([CreateLog] + CharWrites(text) + [PutAnchor(anchor)])[..cut]) == Progress(s, text, anchor, cut)
  {
    var ws := [CreateLog] + CharWrites(text) + [PutAnchor(anchor)];
    if cut > 0 {
      CharsAreWritten(s, text, anchor, cut - 1);
      assert ws[..cut][..cut - 1] == ws[..cut - 1];
      if cut == 1 {
        assert LogOf(s) + text[..0] == LogOf(s);
      } else if cut <= |text| + 1 {
        assert ws[cut - 1] == PutChar(text[cut - 2]);
        assert (LogOf(s) + text[..cut - 2]) + [text[cut - 2]] == LogOf(s) + text[..cut - 1];
      } else if cut == |text| + 2 {
        assert text[..|text|] == text;
      }
    }
  }

  lemma AppendProgress(h: Format, sensitive: string -> bool, s: Store, event: Doc, cut: nat)
    requires Lists(h.order) && !Sensitive(sensitive, event) && Events(h, s).Some?
    ensures var existing := Events(h, s).value;
            AfterAppend(h, sensitive, s, event, cut)
            == Progress(s, LineText(h, existing, event), NextAnchor(h, existing, event), cut)
    ensures |Script(h, sensitive, s, event)| == |LineText(h, Events(h, s).value, event)| + 2
  {
    hide Events, LineText, NextAnchor, Sensitive, Progress, PerformAll;
    var existing := Events(h, s).value;
    var text, anchor := LineText(h, existing, event), NextAnchor(h, existing, event);
    var ws := [CreateLog] + CharWrites(text) + [PutAnchor(anchor)];
    CharsAreWritten(s, text, anchor, if cut < |ws| then cut else |ws|);
    assert ws[..|ws|] == ws;
    ProgressEnds(s, text, anchor, cut);
  }

  lemma ProgressEnds(s: Store, text: string, anchor: Anchor, cut: nat)
    ensures cut > |text| + 2 ==> Progress(s, text, anchor, cut) == Progress(s, text, anchor, |text| + 2)
  {}

  lemma RefusedAppendWritesNothing(h: Format, sensitive: string -> bool, s: Store, event: Doc, cut: nat)
    requires Lists(h.order) && (Events(h, s).None? || Sensitive(sensitive, event))
    ensures AfterAppend(h, sensitive, s, event, cut) == s && !Completes(h, sensitive, s, event, cut)
  {
    assert Script(h, sensitive, s, event) == [];
  }

  // ---------------------------------------------------------------------------
  // Reading what was appended
  // ---------------------------------------------------------------------------

  lemma {:induction false} ParseBoth(h: Format, a: seq<string>, b: seq<string>)
    ensures var x, y := ParseLines(h, a), ParseLines(h, b);
            ParseLines(h, a + b) == if x.Some? && y.Some? then Some(x.value + y.value) else None
  {
    if b == [] {
      assert a + b == a && ParseLines(h, b) == Some([]);
      assert ParseLines(h, a).Some? ==> ParseLines(h, a).value + [] == ParseLines(h, a).value;
    } else {
      var n := |b| - 1;
      assert (a + b)[..|a| + n] == a + b[..n] && (a + b)[|a| + n] == b[n];
      ParseBoth(h, a, b[..n]);
      var x, y := ParseLines(h, a), ParseLines(h, b);
      if x.Some? && y.Some? {
        var before, last := ParseLines(h, b[..n]).value, h.parse(b[n]).value;
        assert (x.value + before) + [last] == x.value + (before + [last]);
      }
    }
  }

  lemma {:induction false} ParseCounts(h: Format, lines: seq<string>)
    requires ParseLines(h, lines).Some?
    ensures |ParseLines(h, lines).value| == |lines|
  {
    if lines != [] {
      ParseCounts(h, lines[..|lines| - 1]);
    }
  }

  lemma {:induction false} UnreadableFirst(h: Format, lines: seq<string>)
    requires lines != [] && h.parse(lines[0]).None?
    ensures ParseLines(h, lines).None?
  {
    if |lines| > 1 {
      UnreadableFirst(h, lines[..|lines| - 1]);
    }
  }

  lemma ParseOne(h: Format, line: string)
    ensures ParseLines(h, [line]) == if h.parse(line).Some? then Some([h.parse(line).value]) else None
  {
    assert [line][..0] == [] && ParseLines(h, []) == Some([]);
    assert h.parse(line).Some? ==> [] + [h.parse(line).value] == [h.parse(line).value];
  }

  lemma EventsRead(h: Format, s: Store)
    requires Events(h, s).Some?
    ensures ParseLines(h, SplitLines(LogOf(s))) == Events(h, s) && Chained(h, Events(h, s).value)
    ensures s.log.Some? ==> s.anchor == Some(Anchor(|Events(h, s).value|, Head(h, Events(h, s).value)))
  {
    if s.log.None? {
      assert SplitLines(LogOf(s)) == [] && ParseLines(h, []) == Some([]);
    }
  }

  /** The line that was written is read back as its event, or, if it broke, not at all. */
  lemma LineReads(h: Format, existing: seq<Doc>, event: Doc)
    requires Lawful(h)
    ensures var line := LineOf(h, existing, event);
            ParseLines(h, SplitLines(LineText(h, existing, event))) == if BreaksLine(line) then None else Some([line])
  {
    hide BreaksLine, LineOf, SplitLines;
    var line := LineOf(h, existing, event);
    var text := Render(h.order, line);
    RenderBreaksIff(h.order, line);
    SplitFinished(text);
    if BreaksLine(line) {
      assert h.parse(SplitLines(text + "\n")[0]).None?;
      UnreadableFirst(h, SplitLines(text + "\n"));
    } else {
      ParseOne(h, text);
      assert h.parse(text) == Some(line);
    }
  }

  predicate Closed(s: Store) {
    EndsLine(LogOf(s))
  }

  /** The event's own keys and texts, without the two keys of the chain. */
  function Content(doc: Doc): Doc {
    doc - {EVENT_KEY, PREVIOUS_KEY}
  }

  lemma LineBreaksIff(h: Format, existing: seq<Doc>, event: Doc)
    requires Lawful(h) && Chained(h, existing)
    ensures BreaksLine(LineOf(h, existing, event)) <==> BreaksLine(Content(event))
  {
    var line, content := LineOf(h, existing, event), Content(event);
    hide Reads;
    HeadHasNoSeparator(h, existing);
    KeysHaveNoSeparator();
    assert forall key | key in content :: key in line && line[key] == content[key];
    assert forall key | key in line && key != EVENT_KEY && key != PREVIOUS_KEY :: key in content && line[key] == content[key];
    assert !HasSeparator(line[PREVIOUS_KEY].text) && !HasSeparator(line[EVENT_KEY].text);
  }

  lemma HeadHasNoSeparator(h: Format, docs: seq<Doc>)
    requires Lawful(h) && Chained(h, docs)
    ensures !HasSeparator(Head(h, docs))
  {
    hide Reads;
  }

  lemma KeysHaveNoSeparator()
    ensures !HasSeparator(EVENT_KEY) && !HasSeparator(PREVIOUS_KEY)
  {}

  /**
   A completed append extends the verified list by exactly the new event if and only if the event brought no digest key
   of its own, up to a collision of the two documents involved, and none of its keys and texts holds a line separator.
   Otherwise the log refuses.
   */
  lemma AppendExtendsIff(h: Format, sensitive: string -> bool, s: Store, event: Doc, cut: nat)
    requires Lawful(h) && Closed(s) && Events(h, s).Some? && Completes(h, sensitive, s, event, cut)
    ensures var existing := Events(h, s).value;
            var body := BodyOf(h, existing, event);
            var after := Events(h, AfterAppend(h, sensitive, s, event, cut));
            && (after == Some(existing + [LineOf(h, existing, event)])
                <==> (EVENT_KEY !in event || h.digest(Stripped(body)) == h.digest(body)) && !BreaksLine(Content(event)))
            && (after.None? || after == Some(existing + [LineOf(h, existing, event)]))
            && (EVENT_KEY in event ==> Stripped(body) != body)
    ensures Closed(AfterAppend(h, sensitive, s, event, cut))
  {
    assert Lists(h.order);
    hide BreaksLine, Reads, ParseLines, SplitLines, Render, Events, Script, Sensitive, Chained, Head, LineOf, BodyOf;
    var existing := Events(h, s).value;
    AppendProgress(h, sensitive, s, event, cut);
    WholeLine(h, s, existing, event, cut);
    EventsRead(h, s);
    AppendedEvents(h, s, event);
    LineBreaksIff(h, existing, event);
    LongerChain(h, existing, event);
  }

  /** The store once the line and its anchor are written. */
  ghost function Appended(h: Format, s: Store, existing: seq<Doc>, event: Doc): Store
    requires Lists(h.order)
  {
    Store(Some(LogOf(s) + LineText(h, existing, event)), Some(NextAnchor(h, existing, event)))
  }

  lemma WholeLine(h: Format, s: Store, existing: seq<Doc>, event: Doc, cut: nat)
    requires Lists(h.order) && cut >= |LineText(h, existing, event)| + 2
    ensures Progress(s, LineText(h, existing, event), NextAnchor(h, existing, event), cut) == Appended(h, s, existing, event)
    ensures Closed(Appended(h, s, existing, event))
  {}

  lemma AppendedEvents(h: Format, s: Store, event: Doc)
    requires Lawful(h) && Closed(s) && Events(h, s).Some?
    ensures var existing := Events(h, s).value;
            var line := LineOf(h, existing, event);
            Events(h, Appended(h, s, existing, event)) ==
            if BreaksLine(line) || !Chained(h, existing + [line]) then None else Some(existing + [line])
  {
    assert Lists(h.order);
    hide BreaksLine, Reads, ParseLines, SplitLines, LineText, LineOf, Chained, Head, EndsLine;
    var existing := Events(h, s).value;
    var line, text := LineOf(h, existing, event), LineText(h, existing, event);
    EventsRead(h, s);
    LineReads(h, existing, event);
    SplitAppended(LogOf(s), text);
    ParseBoth(h, SplitLines(LogOf(s)), SplitLines(text));
    LongerChain(h, existing, event);
  }

  lemma LongerChain(h: Format, existing: seq<Doc>, event: Doc)
    requires Chained(h, existing)
    ensures var line, body := LineOf(h, existing, event), BodyOf(h, existing, event);
            && (Chained(h, existing + [line]) <==> h.digest(Stripped(body)) == h.digest(body))
            && (EVENT_KEY !in event <==> Stripped(body) == body)
            && Head(h, existing + [line]) == h.digest(body)
  {
    var line, body := LineOf(h, existing, event), BodyOf(h, existing, event);
    assert (existing + [line])[..|existing|] == existing;
    assert Stripped(line) == Stripped(body);
    if EVENT_KEY in event {
      assert EVENT_KEY in body && EVENT_KEY !in Stripped(body);
    }
  }

  /** An append that dies after its first character and before its anchor makes every later verification refuse. */
  lemma InterruptedAppendRefuses(h: Format, sensitive: string -> bool, s: Store, event: Doc, cut: nat)
    requires Lists(h.order) && Closed(s) && !Sensitive(sensitive, event) && Events(h, s).Some?
    requires 1 < cut < |Script(h, sensitive, s, event)| && (s.log.None? ==> s.anchor.None?)
    ensures Events(h, AfterAppend(h, sensitive, s, event, cut)).None?
  {
    hide ParseLines, Render, Chained;
    var existing := Events(h, s).value;
    var text := LineText(h, existing, event);
    AppendProgress(h, sensitive, s, event, cut);
    EventsRead(h, s);
    var part := text[..cut - 1];
    SplitAppended(LogOf(s), part);
    assert SplitLines(part) != [];
    var lines := SplitLines(LogOf(s)) + SplitLines(part);
    ParseCounts(h, SplitLines(LogOf(s)));
    if ParseLines(h, lines).Some? {
      ParseCounts(h, lines);
    }
  }

  /** Death right after the file is opened matters only for the very first append. */
  lemma OpenedLogRefusesIff(h: Format, sensitive: string -> bool, s: Store, event: Doc)
    requires Lists(h.order) && !Sensitive(sensitive, event) && Events(h, s).Some? && (s.log.None? ==> s.anchor.None?)
    ensures AfterAppend(h, sensitive, s, event, 1) == s.(log := Some(LogOf(s)))
    ensures Events(h, AfterAppend(h, sensitive, s, event, 1)) == if s.log.None? then None else Events(h, s)
  {
    AppendProgress(h, sensitive, s, event, 1);
    EventsRead(h, s);
    assert LogOf(s) + LineText(h, Events(h, s).value, event)[..0] == LogOf(s);
  }

  // ---------------------------------------------------------------------------
  // Runs
  // ---------------------------------------------------------------------------

  datatype Attempt = Attempt(event: Doc, cut: nat)

  ghost function AfterAppends(h: Format, sensitive: string -> bool, s: Store, attempts: seq<Attempt>): Store
    requires Lists(h.order)
  {
    if attempts == [] then s
    else
      var n := |attempts| - 1;
      AfterAppend(h, sensitive, AfterAppends(h, sensitive, s, attempts[..n]), attempts[n].event, attempts[n].cut)
  }

  /** The events whose append ran to its end, in order. */
  ghost function Recorded(h: Format, sensitive: string -> bool, s: Store, attempts: seq<Attempt>): seq<Doc>
    requires Lists(h.order)
  {
    if attempts == [] then []
    else
      var n := |attempts| - 1;
      Recorded(h, sensitive, s, attempts[..n])
      + if Completes(h, sensitive, AfterAppends(h, sensitive, s, attempts[..n]), attempts[n].event, attempts[n].cut)
        then [attempts[n].event] else []
  }

  predicate SameContent(docs: seq<Doc>, events: seq<Doc>) {
    |docs| == |events| && forall i | 0 <= i < |docs| :: Content(docs[i]) == Content(events[i])
  }

  predicate Tracks(h: Format, s: Store, recorded: seq<Doc>) {
    && (s.log.None? ==> s.anchor.None? && recorded == [])
    && (Events(h, s).Some? ==> SameContent(Events(h, s).value, recorded) && Closed(s))
  }

  lemma AppendTracks(h: Format, sensitive: string -> bool, s: Store, recorded: seq<Doc>, a: Attempt)
    requires Lawful(h) && Tracks(h, s, recorded) && Events(h, s).Some?
    ensures Tracks(h, AfterAppend(h, sensitive, s, a.event, a.cut),
                   recorded + if Completes(h, sensitive, s, a.event, a.cut) then [a.event] else [])
  {
    assert Lists(h.order);
    hide Reads, Script, AfterAppend, Content, BreaksLine, Events, LineOf;
    assert recorded + [] == recorded;
    if Sensitive(sensitive, a.event) {
      RefusedAppendWritesNothing(h, sensitive, s, a.event, a.cut);
    } else {
      var existing := Events(h, s).value;
      AppendProgress(h, sensitive, s, a.event, a.cut);
      if Completes(h, sensitive, s, a.event, a.cut) {
        AppendExtendsIff(h, sensitive, s, a.event, a.cut);
        LineKeepsContent(h, existing, a.event);
      } else if a.cut > 1 {
        InterruptedAppendRefuses(h, sensitive, s, a.event, a.cut);
      } else if a.cut == 1 {
        OpenedLogRefusesIff(h, sensitive, s, a.event);
      }
    }
  }

  lemma LineKeepsContent(h: Format, existing: seq<Doc>, event: Doc)
    ensures Content(LineOf(h, existing, event)) == Content(event)
  {}

  /** A log that does not verify is never written again. */
  lemma {:induction false} RefusalIsPermanent(h: Format, sensitive: string -> bool, s: Store, attempts: seq<Attempt>)
    requires Lists(h.order) && Events(h, s).None?
    ensures AfterAppends(h, sensitive, s, attempts) == s
  {
    if attempts != [] {
      var n := |attempts| - 1;
      RefusalIsPermanent(h, sensitive, s, attempts[..n]);
      RefusedAppendWritesNothing(h, sensitive, s, attempts[n].event, attempts[n].cut);
    }
  }

  /**
   After any run of appends, each cut off anywhere: a log that verifies holds exactly the
   events whose append completed, in order and with nothing added or lost.
   */
  lemma {:induction false} VerifiedLogIsHistory(h: Format, sensitive: string -> bool, attempts: seq<Attempt>)
    requires Lawful(h)
    ensures var s := AfterAppends(h, sensitive, EMPTY, attempts);
            Events(h, s).Some? ==> Tracks(h, s, Recorded(h, sensitive, EMPTY, attempts))
  {
    assert Lists(h.order);
    hide Reads, Tracks, AfterAppend, Completes, Events;
    if attempts == [] {
      EmptyTracks(h);
    } else {
      var n := |attempts| - 1;
      var s, a := AfterAppends(h, sensitive, EMPTY, attempts[..n]), attempts[n];
      VerifiedLogIsHistory(h, sensitive, attempts[..n]);
      if Events(h, s).Some? {
        AppendTracks(h, sensitive, s, Recorded(h, sensitive, EMPTY, attempts[..n]), a);
      } else {
        RefusedAppendWritesNothing(h, sensitive, s, a.event, a.cut);
      }
    }
  }

  lemma EmptyTracks(h: Format)
    ensures Tracks(h, EMPTY, [])
  {}

  /** An operator name with a line separator, and no other fault: the log refuses for good once it was recorded. */
  lemma SeparatorInOperatorRefuses(
    h: Format, sensitive: string -> bool, s: Store, event: Doc, cut: nat, later: seq<Attempt>)
    requires Lawful(h) && Closed(s) && Events(h, s).Some? && Completes(h, sensitive, s, event, cut)
    requires "operator" in event && event["operator"] == Text("a\U{2028}b")
    ensures Events(h, AfterAppends(h, sensitive, AfterAppend(h, sensitive, s, event, cut), later)).None?
  {
    assert Lists(h.order);
    hide Reads, Events, Completes, AfterAppend, LineOf;
    AppendExtendsIff(h, sensitive, s, event, cut);
    var text := "a\U{2028}b";
    assert text[1] in text && IsSeparator(text[1]) && HasSeparator(text);
    assert "operator" in Content(event) && Content(event)["operator"] == Text(text);
    assert BreaksLine(Content(event));
    RefusalIsPermanent(h, sensitive, AfterAppend(h, sensitive, s, event, cut), later);
  }

  /** Deleting the whole log file goes unnoticed: the next append starts a new chain that verifies. */
  lemma MissingLogForgets(h: Format, sensitive: string -> bool, anchor: Option<Anchor>, event: Doc, cut: nat)
    requires Lawful(h) && EVENT_KEY !in event && !BreaksLine(Content(event))
    requires Completes(h, sensitive, Store(None, anchor), event, cut)
    ensures Events(h, AfterAppend(h, sensitive, Store(None, anchor), event, cut)) == Some([LineOf(h, [], event)])
  {
    hide Reads, BreaksLine;
    AppendExtendsIff(h, sensitive, Store(None, anchor), event, cut);
  }

  // ---------------------------------------------------------------------------
  // The verifying loop
  // ---------------------------------------------------------------------------

  /** Walk the lines once, keeping the previous digest, then compare with the anchor. */
  method ReadEvents(h: Format, s: Store) returns (events: Option<seq<Doc>>)
    ensures events == Events(h, s)
  {
    if s.log.None? {
      return Some([]);
    }
    hide SplitLines, ParseLines, Chained, Head;
    var lines := SplitLines(s.log.value);
    var docs: seq<Doc>, previous := [], h.zero;
    NothingRead(h, lines);
    for i := 0 to |lines|
      invariant ParseLines(h, lines[..i]) == Some(docs) && Chained(h, docs) && previous == Head(h, docs)
    {
      var event := h.parse(lines[i]);
      OneMoreLine(h, lines, i, docs);
      if event.None? || !Links(h, event.value, previous) {
        return None;
      }
      docs, previous := docs + [event.value], event.value[EVENT_KEY].text;
    }
    assert lines[..|lines|] == lines;
    if s.anchor != Some(Anchor(|docs|, previous)) {
      return None;
    }
    return Some(docs);
  }

  lemma NothingRead(h: Format, lines: seq<string>)
    ensures ParseLines(h, lines[..0]) == Some([]) && Chained(h, []) && Head(h, []) == h.zero
  {
    assert lines[..0] == [];
  }

  /** The next line either extends what has been read, or nothing after it can make the log verify. */
  lemma OneMoreLine(h: Format, lines: seq<string>, i: nat, docs: seq<Doc>)
    requires i < |lines| && ParseLines(h, lines[..i]) == Some(docs) && Chained(h, docs)
    ensures var event := h.parse(lines[i]);
            if event.Some? && Links(h, event.value, Head(h, docs)) then
              var more := docs + [event.value];
              ParseLines(h, lines[..i + 1]) == Some(more) && Chained(h, more) && Text(Head(h, more)) == event.value[EVENT_KEY]
            else ParseLines(h, lines).Some? ==> !Chained(h, ParseLines(h, lines).value)
  {
    hide SplitLines;
    var event := h.parse(lines[i]);
    assert lines[..i + 1][..i] == lines[..i] && lines[..i + 1] + lines[i + 1..] == lines;
    ParseBoth(h, lines[..i + 1], lines[i + 1..]);
    if event.Some? {
      var more := docs + [event.value];
      assert more[..|docs|] == docs;
      if !Links(h, event.value, Head(h, docs)) {
        BrokenAt(h, more, ParseLines(h, lines[i + 1..]));
      }
    }
  }

  /** A broken prefix breaks the whole chain. */
  lemma BrokenAt(h: Format, docs: seq<Doc>, rest: Option<seq<Doc>>)
    requires !Chained(h, docs)
    ensures rest.Some? ==> !Chained(h, docs + rest.value)
  {
    if rest.Some? {
      LongerBroken(h, docs, rest.value);
    }
  }

  lemma {:induction false} LongerBroken(h: Format, docs: seq<Doc>, rest: seq<Doc>)
    requires !Chained(h, docs)
    ensures !Chained(h, docs + rest)
  {
    if rest == [] {
      assert docs + rest == docs;
    } else {
      assert (docs + rest)[..|docs + rest| - 1] == docs + rest[..|rest| - 1];
      LongerBroken(h, docs, rest[..|rest| - 1]);
    }
  }
}
