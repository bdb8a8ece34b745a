/**
 Where the guarantee of the publication ends, over whole runs: a source file that changes between calls, and a
 remote pair of which a rotation has deleted only the ciphertext.
 */
module CasHazards {
  import opened Basics
  import opened CasPublication

  // ---------------------------------------------------------------------------
  // Properties of every state along a list of writes
  // ---------------------------------------------------------------------------

  predicate Along(p: Slot -> bool, s: Slot, ws: seq<Write>)
    decreases |ws|
  {
    p(s) && (ws == [] || Along(p, Perform(s, ws[0]), ws[1..]))
  }

  lemma AlongFirst(p: Slot -> bool, s: Slot, w: Write, ws: seq<Write>)
    requires p(s) && Along(p, Perform(s, w), ws)
    ensures Along(p, s, [w] + ws)
  {
    assert ([w] + ws)[1..] == ws;
  }

  lemma {:induction false} AlongCut(p: Slot -> bool, s: Slot, ws: seq<Write>, n: nat)
    requires Along(p, s, ws)
    ensures p(Cut(s, ws, n))
    decreases |ws|
  {
    if ws != [] && n > 0 {
      assert ws == [ws[0]] + ws[1..];
      CutFirst(s, ws[0], ws[1..], n);
      AlongCut(p, Perform(s, ws[0]), ws[1..], n - 1);
    } else if ws != [] {
      assert ws[..0] == [];
    }
  }

  lemma AlongRemoval(p: Slot -> bool, s: Slot, metaFirst: bool)
    requires p(s) && p(s.(stagedCipher := None)) && p(s.(stagedMeta := None))
    requires p(s.(stagedCipher := None, stagedMeta := None))
    ensures Along(p, s, RemoveStage(metaFirst))
  {
    var ws := RemoveStage(metaFirst);
    AlongFirst(p, Perform(s, ws[0]), ws[1], []);
    AlongFirst(p, s, ws[0], [ws[1]]);
    assert ws == [ws[0]] + [ws[1]] && [ws[1]] + [] == [ws[1]];
  }

  // ---------------------------------------------------------------------------
  // Runs in which the source may change
  // ---------------------------------------------------------------------------

  /** One call and what the source file holds while it runs. */
  datatype Visit = Visit(source: Item, attempt: Attempt)

  function WorldAt(printOf: Cipher -> Print, v: Visit): World {
    World(printOf, v.source, v.attempt.nonce, v.attempt.metaFirst)
  }

  function AfterVisit(printOf: Cipher -> Print, item: Item, s: Slot, v: Visit): Slot {
    var ws := Call(s, item, WorldAt(printOf, v)).0;
    Cut(s, ws, if v.attempt.crash.Some? then v.attempt.crash.value else |ws|)
  }

  function AfterVisits(printOf: Cipher -> Print, item: Item, s: Slot, visits: seq<Visit>): Slot
    decreases |visits|
  {
    if visits == [] then s else AfterVisits(printOf, item, AfterVisit(printOf, item, s, visits[0]), visits[1..])
  }

  /**
   A call that finds nothing leaves a ciphertext behind: it does not die before its first write, and if the source is
   not what the inventory says, it dies before it has removed that ciphertext again.
   */
  predicate LeavesCiphertext(item: Item, v: Visit) {
    var crash := v.attempt.crash;
    crash != Some(0)
    && (v.source == item || (crash.Some? && crash.value < (if v.attempt.metaFirst then 3 else 2)))
  }

  /** The source that the first such call read. */
  function FirstStagedSource(item: Item, visits: seq<Visit>): Option<Item>
    decreases |visits|
  {
    if visits == [] then None
    else if LeavesCiphertext(item, visits[0]) then Some(visits[0].source)
    else FirstStagedSource(item, visits[1..])
  }

  function MetaOf(printOf: Cipher -> Print, item: Item, c: Cipher): Metadata {
    Metadata(item.size, item.digest, printOf(c))
  }

  /** One ciphertext is in play, and all metadata describe it, whatever it encrypts. */
  predicate InPlay(printOf: Cipher -> Print, item: Item, c: Cipher, s: Slot) {
    && (s.remoteCipher.Some? ==> s.remoteCipher == Some(c))
    && (s.remoteMeta.Some? ==> s.remoteCipher.Some? && s.remoteMeta == Some(MetaOf(printOf, item, c)))
    && (s.stagedCipher.Some? ==> s.stagedCipher == Some(c))
    && (s.stagedMeta.Some? ==> s.stagedMeta == Some(MetaOf(printOf, item, c)))
    && (s.remoteMeta.None? ==> s.stagedCipher.Some? && (s.remoteCipher.Some? ==> s.stagedMeta.Some?))
  }

  lemma UploadKeepsInPlay(printOf: Cipher -> Print, item: Item, c: Cipher, s: Slot, world: World)
    requires InPlay(printOf, item, c, s) && world.printOf == printOf && s.stagedCipher.Some? && s.stagedMeta.Some?
    requires s.remoteMeta.None?
    ensures Along(t => InPlay(printOf, item, c, t), s, Upload(s, c, MetaOf(printOf, item, c), world).0)
  {
    var p := t => InPlay(printOf, item, c, t);
    var m := MetaOf(printOf, item, c);
    var removal := RemoveStage(world.metaFirst);
    var uploaded := Perform(s, UploadCipher(c));
    AlongRemoval(p, Perform(uploaded, UploadMeta(m)), world.metaFirst);
    AlongFirst(p, uploaded, UploadMeta(m), removal);
    if s.remoteCipher.Some? {
      assert uploaded == s && Upload(s, c, m, world).0 == [UploadMeta(m)] + removal;
    } else {
      AlongFirst(p, s, UploadCipher(c), [UploadMeta(m)] + removal);
      assert Upload(s, c, m, world).0 == [UploadCipher(c)] + ([UploadMeta(m)] + removal);
    }
  }

  /** Whatever the source holds and wherever a call dies, the ciphertext in play stays the one in play. */
  lemma VisitKeepsInPlay(printOf: Cipher -> Print, item: Item, c: Cipher, s: Slot, v: Visit)
    requires NeverEmpty(printOf) && InPlay(printOf, item, c, s)
    ensures InPlay(printOf, item, c, AfterVisit(printOf, item, s, v))
  {
    hide Along;
    var p := t => InPlay(printOf, item, c, t);
    var world, m := WorldAt(printOf, v), MetaOf(printOf, item, c);
    var ws := Call(s, item, world).0;
    if s.remoteMeta.Some? {
      AlongRemoval(p, s, world.metaFirst);
    } else if s.stagedMeta.Some? {
      UploadKeepsInPlay(printOf, item, c, s, world);
      assert ws == Upload(s, c, m, world).0;
    } else if v.source == item {
      var staged := Perform(s, StageMeta(m));
      UploadKeepsInPlay(printOf, item, c, staged, world);
      AlongFirst(p, s, StageMeta(m), Upload(staged, c, m, world).0);
      assert ws == [StageMeta(m)] + Upload(staged, c, m, world).0;
    } else {
      AlongNothing(p, s);
    }
    AlongCut(p, s, ws, if v.attempt.crash.Some? then v.attempt.crash.value else |ws|);
  }

  lemma AlongNothing(p: Slot -> bool, s: Slot)
    requires p(s)
    ensures Along(p, s, [])
  {}

  lemma {:induction false} VisitsKeepInPlay(printOf: Cipher -> Print, item: Item, c: Cipher, s: Slot, visits: seq<Visit>)
    requires NeverEmpty(printOf) && InPlay(printOf, item, c, s)
    ensures InPlay(printOf, item, c, AfterVisits(printOf, item, s, visits))
    decreases |visits|
  {
    if visits != [] {
      VisitKeepsInPlay(printOf, item, c, s, visits[0]);
      VisitsKeepInPlay(printOf, item, c, AfterVisit(printOf, item, s, visits[0]), visits[1..]);
    }
  }

  /** A call that finds nothing leaves nothing, or brings its own ciphertext into play. */
  lemma FirstVisit(printOf: Cipher -> Print, item: Item, v: Visit)
    requires NeverEmpty(printOf)
    ensures var t := AfterVisit(printOf, item, NOTHING, v);
            if LeavesCiphertext(item, v)
            then InPlay(printOf, item, Cipher(v.source.size, v.source.digest, v.attempt.nonce), t)
            else t == NOTHING
  {
    var world := WorldAt(printOf, v);
    var c := Cipher(v.source.size, v.source.digest, v.attempt.nonce);
    var p := t => InPlay(printOf, item, c, t);
    var ws := Call(NOTHING, item, world).0;
    var n := if v.attempt.crash.Some? then v.attempt.crash.value else |ws|;
    var staged := Perform(NOTHING, StageCipher(c));
    if v.source == item {
      var m := MetaOf(printOf, item, c);
      var described := Perform(staged, StageMeta(m));
      UploadKeepsInPlay(printOf, item, c, described, world);
      var uploads := Upload(described, c, m, world).0;
      AlongFirst(p, staged, StageMeta(m), uploads);
      assert ws == [StageCipher(c)] + ([StageMeta(m)] + uploads);
      CutFirst(NOTHING, StageCipher(c), [StageMeta(m)] + uploads, n);
      if n > 0 {
        AlongCut(p, staged, [StageMeta(m)] + uploads, n - 1);
      }
    } else {
      var removal := RemoveStage(world.metaFirst);
      assert ws == [StageCipher(c)] + removal && removal == [removal[0]] + ([removal[1]] + []);
      CutFirst(NOTHING, StageCipher(c), removal, n);
      if n > 0 { CutFirst(staged, removal[0], [removal[1]] + [], n - 1); }
      if n > 1 { CutFirst(Perform(staged, removal[0]), removal[1], [], n - 2); }
    }
  }

  /**
   After any calls, with any source in each of them and each cut off anywhere: the published object matches its key
   exactly when the source was right in the first call that left a ciphertext behind. A call with a wrong source leaves
   one exactly when it dies before it has removed it, and every later call adopts it.
   */
  lemma {:induction false} AdoptedCheckpointIff(printOf: Cipher -> Print, item: Item, visits: seq<Visit>)
    requires NeverEmpty(printOf)
    ensures var s := AfterVisits(printOf, item, NOTHING, visits);
            && (s.remoteCipher.Some? || s.stagedCipher.Some? <==> FirstStagedSource(item, visits).Some?)
            && (s.remoteMeta.Some? ==>
                  && s.remoteCipher.Some?
                  && (Matches(printOf, s.remoteCipher.value, s.remoteMeta.value, item)
                      <==> FirstStagedSource(item, visits) == Some(item)))
    decreases |visits|
  {
    if visits != [] {
      var v := visits[0];
      FirstVisit(printOf, item, v);
      if LeavesCiphertext(item, v) {
        var c := Cipher(v.source.size, v.source.digest, v.attempt.nonce);
        VisitsKeepInPlay(printOf, item, c, AfterVisit(printOf, item, NOTHING, v), visits[1..]);
        assert Encrypts(c, item) <==> v.source == item;
      } else {
        AdoptedCheckpointIff(printOf, item, visits[1..]);
      }
    }
  }

  /** It happens: a call dies with a changed source staged, and the next undisturbed call publishes that and succeeds. */
  lemma ChangedSourceIsPublished(printOf: Cipher -> Print, item: Item, wrong: Visit, next: Attempt)
    requires NeverEmpty(printOf) && wrong.source != item && LeavesCiphertext(item, wrong)
    ensures var s := AfterVisit(printOf, item, NOTHING, wrong);
            var t := AfterVisit(printOf, item, s, Visit(item, next.(crash := None)));
            && Call(s, item, WorldOf(printOf, item, next)).1.Published?
            && t.remoteCipher.Some? && t.remoteMeta.Some?
            && !Matches(printOf, t.remoteCipher.value, t.remoteMeta.value, item)
  {
    var s, v := AfterVisit(printOf, item, NOTHING, wrong), Visit(item, next.(crash := None));
    FirstVisit(printOf, item, wrong);
    VisitKeepsInPlay(printOf, item, Cipher(wrong.source.size, wrong.source.digest, wrong.attempt.nonce), s, v);
    UndisturbedVisitPublishes(printOf, item, Cipher(wrong.source.size, wrong.source.digest, wrong.attempt.nonce), s, v);
  }

  lemma UndisturbedVisitPublishes(printOf: Cipher -> Print, item: Item, c: Cipher, s: Slot, v: Visit)
    requires NeverEmpty(printOf) && InPlay(printOf, item, c, s) && v.source == item && v.attempt.crash.None?
    ensures Call(s, item, WorldAt(printOf, v)).1 == Published(printOf(c))
    ensures var t := AfterVisit(printOf, item, s, v); t.remoteCipher.Some? && t.remoteMeta.Some?
  {
    var world, m := WorldAt(printOf, v), MetaOf(printOf, item, c);
    var ws, removal := Call(s, item, world).0, RemoveStage(v.attempt.metaFirst);
    var staging := if s.remoteMeta.None? && s.stagedMeta.None? then [StageMeta(m)] else [];
    var ciphers := if s.remoteCipher.None? then [UploadCipher(c)] else [];
    var metas := if s.remoteMeta.None? then [UploadMeta(m)] else [];
    assert ws == staging + (ciphers + (metas + removal));
    CutWhole(s, ws, |ws|);
    PerformBoth(s, staging, ciphers + (metas + removal));
    var a := PerformAll(s, staging);
    PerformBoth(a, ciphers, metas + removal);
    var b := PerformAll(a, ciphers);
    PerformBoth(b, metas, removal);
    PerformOne(s, StageMeta(m));
    PerformOne(a, UploadCipher(c));
    PerformOne(b, UploadMeta(m));
    PerformTwo(PerformAll(b, metas), removal[0], removal[1]);
  }

  // ---------------------------------------------------------------------------
  // A pair without its ciphertext
  // ---------------------------------------------------------------------------

  /**
   The ciphertext that is uploaded beside the old metadata: the staged one, or else that of the first call that makes
   a write; none if the checkpoint holds metadata alone.
   */
  function Replacement(item: Item, s: Slot, attempts: seq<Attempt>): Option<Cipher>
    decreases |attempts|
  {
    if s.stagedCipher.Some? then s.stagedCipher
    else if s.stagedMeta.Some? || attempts == [] then None
    else if attempts[0].crash != Some(0) then Some(Cipher(item.size, item.digest, attempts[0].nonce))
    else Replacement(item, s, attempts[1..])
  }

  /** The old metadata is still there, and beside it the replacement, which was or is staged. */
  predicate Halved(printOf: Cipher -> Print, item: Item, m: Metadata, c: Cipher, s: Slot) {
    && s.remoteMeta == Some(m)
    && (s.remoteCipher.Some? ==> s.remoteCipher == Some(c))
    && (s.remoteCipher.None? ==>
          && s.stagedCipher == Some(c)
          && (s.stagedMeta.Some? ==> s.stagedMeta == Some(MetaOf(printOf, item, c))))
  }

  lemma UploadKeepsHalved(printOf: Cipher -> Print, item: Item, m: Metadata, c: Cipher, s: Slot, world: World)
    requires Halved(printOf, item, m, c, s) && world.printOf == printOf && s.remoteCipher.None?
    ensures Along(t => Halved(printOf, item, m, c, t), s, Upload(s, c, MetaOf(printOf, item, c), world).0)
  {
    var p := t => Halved(printOf, item, m, c, t);
    var uploaded := Perform(s, UploadCipher(c));
    var rest := if m == MetaOf(printOf, item, c) then RemoveStage(world.metaFirst) else [];
    AlongRemoval(p, uploaded, world.metaFirst);
    AlongFirst(p, s, UploadCipher(c), rest);
    assert Upload(s, c, MetaOf(printOf, item, c), world).0 == [UploadCipher(c)] + rest;
  }

  lemma AttemptKeepsHalved(printOf: Cipher -> Print, item: Item, m: Metadata, c: Cipher, s: Slot, a: Attempt)
    requires NeverEmpty(printOf) && Halved(printOf, item, m, c, s)
    ensures Halved(printOf, item, m, c, AfterVisit(printOf, item, s, Visit(item, a)))
  {
    hide Along;
    var p := t => Halved(printOf, item, m, c, t);
    var world, own := WorldOf(printOf, item, a), MetaOf(printOf, item, c);
    var ws := Call(s, item, world).0;
    if s.remoteCipher.Some? {
      AlongNothing(p, s);
      AlongRemoval(p, s, world.metaFirst);
      assert ws == [] || ws == RemoveStage(world.metaFirst);
    } else if s.stagedMeta.Some? {
      UploadKeepsHalved(printOf, item, m, c, s, world);
      assert ws == Upload(s, c, own, world).0;
    } else {
      var staged := Perform(s, StageMeta(own));
      UploadKeepsHalved(printOf, item, m, c, staged, world);
      AlongFirst(p, s, StageMeta(own), Upload(staged, c, own, world).0);
      assert ws == [StageMeta(own)] + Upload(staged, c, own, world).0;
    }
    AlongCut(p, s, ws, if a.crash.Some? then a.crash.value else |ws|);
  }

  /** The next undisturbed call succeeds exactly when the replacement looks like the ciphertext that was deleted. */
  lemma HalvedCall(printOf: Cipher -> Print, item: Item, m: Metadata, c: Cipher, s: Slot, next: Attempt)
    requires NeverEmpty(printOf) && Halved(printOf, item, m, c, s) && ValidMetadata(m, item)
    ensures Call(s, item, WorldOf(printOf, item, next)).1.Published? <==> printOf(c) == m.cipher
  {}

  /** A call that finds the old metadata and nothing else. */
  lemma FirstHalvedAttempt(printOf: Cipher -> Print, item: Item, m: Metadata, a: Attempt)
    requires NeverEmpty(printOf)
    ensures var s := NOTHING.(remoteMeta := Some(m));
            var t := AfterVisit(printOf, item, s, Visit(item, a));
            if a.crash == Some(0) then t == s
            else Halved(printOf, item, m, Cipher(item.size, item.digest, a.nonce), t)
  {
    var s := NOTHING.(remoteMeta := Some(m));
    var c := Cipher(item.size, item.digest, a.nonce);
    var p := t => Halved(printOf, item, m, c, t);
    var world, own := WorldOf(printOf, item, a), MetaOf(printOf, item, c);
    var ws := Call(s, item, world).0;
    var n := if a.crash.Some? then a.crash.value else |ws|;
    var staged := Perform(s, StageCipher(c));
    var described := Perform(staged, StageMeta(own));
    UploadKeepsHalved(printOf, item, m, c, described, world);
    var uploads := Upload(described, c, own, world).0;
    AlongFirst(p, staged, StageMeta(own), uploads);
    assert ws == [StageCipher(c)] + ([StageMeta(own)] + uploads);
    CutFirst(s, StageCipher(c), [StageMeta(own)] + uploads, n);
    if n > 0 {
      AlongCut(p, staged, [StageMeta(own)] + uploads, n - 1);
    }
  }

  lemma StableVisit(printOf: Cipher -> Print, item: Item, s: Slot, a: Attempt)
    ensures AfterVisit(printOf, item, s, Visit(item, a)) == AfterAttempt(printOf, item, s, a)
  {
    CutWhole(s, Call(s, item, WorldOf(printOf, item, a)).0, |Call(s, item, WorldOf(printOf, item, a)).0|);
  }

  lemma {:induction false} CallsKeepHalved(
    printOf: Cipher -> Print, item: Item, m: Metadata, c: Cipher, s: Slot, attempts: seq<Attempt>)
    requires NeverEmpty(printOf) && Halved(printOf, item, m, c, s)
    ensures Halved(printOf, item, m, c, AfterAttempts(printOf, item, s, attempts))
    decreases |attempts|
  {
    if attempts != [] {
      StableVisit(printOf, item, s, attempts[0]);
      AttemptKeepsHalved(printOf, item, m, c, s, attempts[0]);
      CallsKeepHalved(printOf, item, m, c, AfterAttempt(printOf, item, s, attempts[0]), attempts[1..]);
    }
  }

  lemma {:induction false} HalfBlocks(
    printOf: Cipher -> Print, item: Item, m: Metadata, half: Slot, attempts: seq<Attempt>, next: Attempt)
    requires NeverEmpty(printOf) && ValidMetadata(m, item)
    requires half.remoteMeta == Some(m) && half.remoteCipher.None?
    requires half.stagedCipher.Some? && half.stagedMeta.Some? ==>
               half.stagedMeta == Some(MetaOf(printOf, item, half.stagedCipher.value))
    ensures var c := Replacement(item, half, attempts + [next.(crash := None)]);
            Call(AfterAttempts(printOf, item, half, attempts), item, WorldOf(printOf, item, next)).1.Published?
            <==> c.Some? && printOf(c.value) == m.cipher
    decreases |attempts|
  {
    var all := attempts + [next.(crash := None)];
    if half.stagedCipher.Some? {
      CallsKeepHalved(printOf, item, m, half.stagedCipher.value, half, attempts);
      HalvedCall(printOf, item, m, half.stagedCipher.value, AfterAttempts(printOf, item, half, attempts), next);
    } else if attempts != [] {
      assert all[0] == attempts[0] && all[1..] == attempts[1..] + [next.(crash := None)];
      var t := AfterAttempt(printOf, item, half, attempts[0]);
      StableVisit(printOf, item, half, attempts[0]);
      if half.stagedMeta.Some? {
        assert Call(half, item, WorldOf(printOf, item, attempts[0])).0 == [];
        HalfBlocks(printOf, item, m, half, attempts[1..], next);
      } else {
        FirstHalvedAttempt(printOf, item, m, attempts[0]);
        if attempts[0].crash == Some(0) {
          HalfBlocks(printOf, item, m, half, attempts[1..], next);
        } else {
          var c := Cipher(item.size, item.digest, attempts[0].nonce);
          CallsKeepHalved(printOf, item, m, c, t, attempts[1..]);
          HalvedCall(printOf, item, m, c, AfterAttempts(printOf, item, half, attempts), next);
        }
      }
    }
  }

  /**
   A rotation deletes the ciphertext before the metadata. If it is cut off between the two, then after any calls, each
   cut off anywhere, an undisturbed call for the same content succeeds exactly when the replacement has the deleted
   ciphertext's size and digest.
   */
  lemma HalfDeletedPairBlocks(
    printOf: Cipher -> Print, item: Item, s: Slot, attempts: seq<Attempt>, next: Attempt)
    requires NeverEmpty(printOf) && Consistent(printOf, s, item) && s.remoteCipher.Some? && s.remoteMeta.Some?
    ensures var half := s.(remoteCipher := None);
            var c := Replacement(item, half, attempts + [next.(crash := None)]);
            Call(AfterAttempts(printOf, item, half, attempts), item, WorldOf(printOf, item, next)).1.Published?
            <==> c.Some? && printOf(c.value) == printOf(s.remoteCipher.value)
  {
    HalfBlocks(printOf, item, s.remoteMeta.value, s.(remoteCipher := None), attempts, next);
  }
}
