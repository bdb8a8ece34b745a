/**
 Publication of one content-addressed object: a ciphertext and its metadata, as two
 immutable remote objects, resumed after a crash through a local checkpoint.

 Encryption is randomised, so two encryptions of the same file differ. A call is modelled by
 the list of writes it makes and the answer it gives; a crash keeps a prefix of the writes.
 */
module CasPublication {
  import opened Basics

  /** Size and SHA-256 of a ciphertext. */
  datatype Print = Print(size: int, sha: nat)

  /** A ciphertext: the plaintext it decrypts to, and the randomness it was made with. */
  datatype Cipher = Cipher(plainSize: nat, plainSha: nat, nonce: nat)

  datatype Metadata = Metadata(plainSize: nat, plainSha: nat, cipher: Print)

  /** An inventoried file. The object's key is its digest. */
  datatype Item = Item(size: nat, digest: nat)

  /** Everything stored under one digest: two remote objects and the local checkpoint. */
  datatype Slot = Slot(
    remoteCipher: Option<Cipher>, remoteMeta: Option<Metadata>,
    stagedCipher: Option<Cipher>, stagedMeta: Option<Metadata>)

  datatype Write =
    | StageCipher(c: Cipher)
    | StageMeta(m: Metadata)
    | UploadCipher(c: Cipher)
    | UploadMeta(m: Metadata)
    | DropStagedCipher
    | DropStagedMeta

  datatype Failure =
    | MetadataMismatch
    | CheckpointMismatch
    | CheckpointIncomplete
    | SourceChanged
    | CiphertextConflict
    | MetadataConflict

  datatype Answer = Published(cipher: Print) | Raised(why: Failure)

  /**
   What surrounds a call: the fingerprint function, what the source file holds when it is
   read, the ciphertext the encryptor would produce, and the order in which the checkpoint
   directory is removed.
   */
  datatype World = World(printOf: Cipher -> Print, source: Item, nonce: nat, metaFirst: bool)

  function Perform(s: Slot, w: Write): Slot {
    match w
    case StageCipher(c) => s.(stagedCipher := Some(c))
    case StageMeta(m) => s.(stagedMeta := Some(m))
    case UploadCipher(c) => s.(remoteCipher := Some(c))
    case UploadMeta(m) => s.(remoteMeta := Some(m))
    case DropStagedCipher => s.(stagedCipher := None)
    case DropStagedMeta => s.(stagedMeta := None)
  }

  function PerformAll(s: Slot, ws: seq<Write>): Slot
    decreases |ws|
  {
    if ws == [] then s else PerformAll(Perform(s, ws[0]), ws[1..])
  }

  predicate ValidMetadata(m: Metadata, item: Item) {
    m.plainSize == item.size && m.plainSha == item.digest && m.cipher.size > 0
  }

  function RemoveStage(metaFirst: bool): seq<Write> {
    if metaFirst then [DropStagedMeta, DropStagedCipher] else [DropStagedCipher, DropStagedMeta]
  }

  /** Bring the checkpoint to a staged ciphertext with matching metadata. */
  function Stage(s: Slot, item: Item, world: World): (seq<Write>, Result<(Cipher, Metadata), Failure>) {
    if s.stagedCipher.Some? && s.stagedMeta.Some? then
      var c, m := s.stagedCipher.value, s.stagedMeta.value;
      if !ValidMetadata(m, item) then ([], Err(MetadataMismatch))
      else if world.printOf(c) != m.cipher then ([], Err(CheckpointMismatch))
      else ([], Ok((c, m)))
    else if s.stagedCipher.Some? then
      var c := s.stagedCipher.value;
      if world.source != item then ([], Err(SourceChanged))
      else
        var m := Metadata(item.size, item.digest, world.printOf(c));
        ([StageMeta(m)], Ok((c, m)))
    else if s.stagedMeta.Some? then
      ([], Err(CheckpointIncomplete))
    else
      var c := Cipher(world.source.size, world.source.digest, world.nonce);
      if world.source != item then
        ([StageCipher(c)] + RemoveStage(world.metaFirst), Err(SourceChanged))
      else
        var m := Metadata(item.size, item.digest, world.printOf(c));
        ([StageCipher(c), StageMeta(m)], Ok((c, m)))
  }

  /** Upload what is missing, after checking what is there. */
  function Upload(s: Slot, c: Cipher, m: Metadata, world: World): (seq<Write>, Answer) {
    if s.remoteCipher.Some? && world.printOf(s.remoteCipher.value) != m.cipher then
      ([], Raised(CiphertextConflict))
    else
      var first := if s.remoteCipher.Some? then [] else [UploadCipher(c)];
      if s.remoteMeta.Some? && s.remoteMeta.value != m then
        (first, Raised(MetadataConflict))
      else
        var second := if s.remoteMeta.Some? then [] else [UploadMeta(m)];
        (first + second + RemoveStage(world.metaFirst), Published(m.cipher))
  }

  /** One call: its writes in order, and its answer if no crash intervenes. */
  function Call(s: Slot, item: Item, world: World): (seq<Write>, Answer) {
    if s.remoteCipher.Some? && s.remoteMeta.Some? then
      var m := s.remoteMeta.value;
      if !ValidMetadata(m, item) || world.printOf(s.remoteCipher.value) != m.cipher then
        ([], Raised(MetadataMismatch))
      else
        (RemoveStage(world.metaFirst), Published(m.cipher))
    else
      var (staging, staged) := Stage(s, item, world);
      match staged
      case Err(why) => (staging, Raised(why))
      case Ok((c, m)) =>
        var (uploads, answer) := Upload(s, c, m, world);
        (staging + uploads, answer)
  }

  /** The slot after a call that was cut off once `n` of its writes had happened. */
  function CrashedCall(s: Slot, item: Item, world: World, n: nat): Slot {
    var ws := Call(s, item, world).0;
    PerformAll(s, if n <= |ws| then ws[..n] else ws)
  }

  function FinishedCall(s: Slot, item: Item, world: World): Slot {
    PerformAll(s, Call(s, item, world).0)
  }

  // ---------------------------------------------------------------------------
  // The invariant
  // ---------------------------------------------------------------------------

  predicate Encrypts(c: Cipher, item: Item) {
    c.plainSize == item.size && c.plainSha == item.digest
  }

  predicate Matches(printOf: Cipher -> Print, c: Cipher, m: Metadata, item: Item) {
    ValidMetadata(m, item) && printOf(c) == m.cipher && Encrypts(c, item)
  }

  /**
   Metadata on the remote implies a ciphertext that matches it and decrypts to the content
   the key names; a ciphertext that still lacks metadata is the staged one; and a checkpoint
   is damaged only when it is no longer needed.
   */
  predicate Consistent(printOf: Cipher -> Print, s: Slot, item: Item) {
    && (s.remoteMeta.Some? ==> s.remoteCipher.Some? && Matches(printOf, s.remoteCipher.value, s.remoteMeta.value, item))
    && (s.remoteCipher.Some? && s.remoteMeta.None? ==> s.stagedCipher == s.remoteCipher && s.stagedMeta.Some?)
    && (s.stagedCipher.Some? ==> Encrypts(s.stagedCipher.value, item))
    && (s.stagedCipher.Some? && s.stagedMeta.Some? ==> Matches(printOf, s.stagedCipher.value, s.stagedMeta.value, item))
    && (s.stagedCipher.None? && s.stagedMeta.Some? ==> s.remoteCipher.Some? && s.remoteMeta.Some?)
  }

  const NOTHING := Slot(None, None, None, None)

  /** The world of the guarantee: the source is unchanged and ciphertexts are never empty. */
  ghost predicate Stable(world: World, item: Item) {
    world.source == item && forall c :: world.printOf(c).size > 0
  }

  lemma PerformFirst(s: Slot, w: Write, ws: seq<Write>)
    ensures PerformAll(s, [w] + ws) == PerformAll(Perform(s, w), ws)
  {
    assert ([w] + ws)[1..] == ws;
  }

  lemma PerformOne(s: Slot, w: Write)
    ensures PerformAll(s, [w]) == Perform(s, w)
  {
    assert [w][1..] == [];
  }

  lemma PerformTwo(s: Slot, w: Write, x: Write)
    ensures PerformAll(s, [w, x]) == Perform(Perform(s, w), x)
  {
    assert [w, x][1..] == [x];
    PerformOne(Perform(s, w), x);
  }

  lemma {:induction false} PerformBoth(s: Slot, a: seq<Write>, b: seq<Write>)
    ensures PerformAll(s, a + b) == PerformAll(PerformAll(s, a), b)
    decreases |a|
  {
    if a == [] {
      assert a + b == b;
    } else {
      assert (a + b)[1..] == a[1..] + b;
      PerformBoth(Perform(s, a[0]), a[1..], b);
    }
  }

  /** A state a call that started in `s0` may leave behind. */
  predicate Good(printOf: Cipher -> Print, item: Item, s0: Slot, s: Slot) {
    && Consistent(printOf, s, item)
    && (s0.remoteCipher.Some? ==> s.remoteCipher == s0.remoteCipher)
    && (s0.remoteMeta.Some? ==> s.remoteMeta == s0.remoteMeta)
  }

  /** Every state along a list of writes is good. */
  predicate GoodAlong(printOf: Cipher -> Print, item: Item, s0: Slot, s: Slot, ws: seq<Write>)
    decreases |ws|
  {
    && Good(printOf, item, s0, s)
    && (ws == [] || GoodAlong(printOf, item, s0, Perform(s, ws[0]), ws[1..]))
  }

  lemma {:induction false} GoodAtPrefix(printOf: Cipher -> Print, item: Item, s0: Slot, s: Slot, ws: seq<Write>, n: nat)
    requires GoodAlong(printOf, item, s0, s, ws) && n <= |ws|
    ensures Good(printOf, item, s0, PerformAll(s, ws[..n]))
    decreases n
  {
    if n > 0 {
      assert ws[..n][1..] == ws[1..][..n - 1];
      GoodAtPrefix(printOf, item, s0, Perform(s, ws[0]), ws[1..], n - 1);
    }
  }

  lemma {:induction false} GoodAlongBoth(printOf: Cipher -> Print, item: Item, s0: Slot, s: Slot, a: seq<Write>, b: seq<Write>)
    requires GoodAlong(printOf, item, s0, s, a) && GoodAlong(printOf, item, s0, PerformAll(s, a), b)
    ensures GoodAlong(printOf, item, s0, s, a + b)
    ensures PerformAll(s, a + b) == PerformAll(PerformAll(s, a), b)
    decreases |a|
  {
    if a == [] {
      assert a + b == b;
    } else {
      assert (a + b)[1..] == a[1..] + b;
      GoodAlongBoth(printOf, item, s0, Perform(s, a[0]), a[1..], b);
    }
  }

  lemma GoodOne(printOf: Cipher -> Print, item: Item, s0: Slot, s: Slot, w: Write)
    requires Good(printOf, item, s0, s) && Good(printOf, item, s0, Perform(s, w))
    ensures GoodAlong(printOf, item, s0, s, [w]) && PerformAll(s, [w]) == Perform(s, w)
  {
    assert [w][1..] == [];
  }

  lemma GoodTwo(printOf: Cipher -> Print, item: Item, s0: Slot, s: Slot, w: Write, x: Write)
    requires Good(printOf, item, s0, s) && Good(printOf, item, s0, Perform(s, w))
    requires Good(printOf, item, s0, Perform(Perform(s, w), x))
    ensures GoodAlong(printOf, item, s0, s, [w, x]) && PerformAll(s, [w, x]) == Perform(Perform(s, w), x)
  {
    GoodOne(printOf, item, s0, Perform(s, w), x);
    assert [w, x][1..] == [x];
  }

  lemma RemovalIsGood(s0: Slot, s: Slot, item: Item, world: World)
    requires Good(world.printOf, item, s0, s) && s.remoteCipher.Some? && s.remoteMeta.Some?
    ensures GoodAlong(world.printOf, item, s0, s, RemoveStage(world.metaFirst))
    ensures PerformAll(s, RemoveStage(world.metaFirst)) == s.(stagedCipher := None, stagedMeta := None)
  {
    var ws := RemoveStage(world.metaFirst);
    GoodTwo(world.printOf, item, s0, s, ws[0], ws[1]);
  }

  lemma StagingIsGood(s0: Slot, s: Slot, item: Item, world: World)
    requires Stable(world, item) && Good(world.printOf, item, s0, s)
    requires s.remoteCipher.None? || s.remoteMeta.None?
    ensures Stage(s, item, world).1.Ok?
    ensures var (ws, staged) := Stage(s, item, world);
            && GoodAlong(world.printOf, item, s0, s, ws)
            && PerformAll(s, ws).stagedCipher == Some(staged.value.0)
            && PerformAll(s, ws).stagedMeta == Some(staged.value.1)
            && PerformAll(s, ws).remoteCipher == s.remoteCipher && PerformAll(s, ws).remoteMeta == s.remoteMeta
  {
    var (ws, staged) := Stage(s, item, world);
    if s.stagedCipher.Some? && s.stagedMeta.None? {
      GoodOne(world.printOf, item, s0, s, ws[0]);
    } else if s.stagedCipher.None? {
      GoodTwo(world.printOf, item, s0, s, ws[0], ws[1]);
    }
  }

  lemma UploadIsGood(s0: Slot, s: Slot, c: Cipher, m: Metadata, item: Item, world: World)
    requires Good(world.printOf, item, s0, s) && s.stagedCipher == Some(c) && s.stagedMeta == Some(m)
    requires s.remoteCipher.None? || s.remoteMeta.None?
    ensures Upload(s, c, m, world).1 == Published(m.cipher)
    ensures GoodAlong(world.printOf, item, s0, s, Upload(s, c, m, world).0)
    ensures PerformAll(s, Upload(s, c, m, world).0)
            == s.(remoteCipher := Some(c), remoteMeta := Some(m), stagedCipher := None, stagedMeta := None)
  {
    var removal := RemoveStage(world.metaFirst);
    var t := s.(remoteCipher := Some(c));
    var u := t.(remoteMeta := Some(m));
    RemovalIsGood(s0, u, item, world);
    if s.remoteCipher.Some? {
      GoodOne(world.printOf, item, s0, s, UploadMeta(m));
      GoodAlongBoth(world.printOf, item, s0, s, [UploadMeta(m)], removal);
      assert Upload(s, c, m, world).0 == [UploadMeta(m)] + removal;
    } else {
      GoodTwo(world.printOf, item, s0, s, UploadCipher(c), UploadMeta(m));
      GoodAlongBoth(world.printOf, item, s0, s, [UploadCipher(c), UploadMeta(m)], removal);
      assert Upload(s, c, m, world).0 == [UploadCipher(c), UploadMeta(m)] + removal;
    }
  }

  /** What an undisturbed call does from a consistent slot: it succeeds and leaves a clean slot. */
  lemma CallIsGood(s: Slot, item: Item, world: World)
    requires Stable(world, item) && Consistent(world.printOf, s, item)
    ensures GoodAlong(world.printOf, item, s, s, Call(s, item, world).0)
    ensures var t := FinishedCall(s, item, world);
            && t.remoteCipher.Some? && t.remoteMeta.Some? && t.stagedCipher.None? && t.stagedMeta.None?
            && Call(s, item, world).1 == Published(t.remoteMeta.value.cipher)
  {
    var printOf := world.printOf;
    if s.remoteCipher.Some? && s.remoteMeta.Some? {
      RemovalIsGood(s, s, item, world);
    } else {
      StagingIsGood(s, s, item, world);
      var (staging, staged) := Stage(s, item, world);
      var (c, m) := staged.value;
      var b := PerformAll(s, staging);
      GoodAtPrefix(printOf, item, s, s, staging, |staging|);
      assert staging[..|staging|] == staging;
      UploadIsGood(s, b, c, m, item, world);
      assert Upload(b, c, m, world) == Upload(s, c, m, world);
      GoodAlongBoth(printOf, item, s, s, staging, Upload(s, c, m, world).0);
    }
  }

  /** Every prefix of a call's writes keeps the invariant, and never replaces a remote object. */
  lemma EveryPrefixIsGood(s: Slot, item: Item, world: World, n: nat)
    requires Stable(world, item) && Consistent(world.printOf, s, item)
    ensures Good(world.printOf, item, s, CrashedCall(s, item, world, n))
  {
    var ws := Call(s, item, world).0;
    CallIsGood(s, item, world);
    GoodAtPrefix(world.printOf, item, s, s, ws, if n <= |ws| then n else |ws|);
    assert ws[..|ws|] == ws;
  }

  // ---------------------------------------------------------------------------
  // Runs of calls
  // ---------------------------------------------------------------------------

  /** One call of a run: its randomness, its directory order, and where it crashed, if it did. */
  datatype Attempt = Attempt(nonce: nat, metaFirst: bool, crash: Option<nat>)

  function WorldOf(printOf: Cipher -> Print, item: Item, a: Attempt): World {
    World(printOf, item, a.nonce, a.metaFirst)
  }

  function AfterAttempt(printOf: Cipher -> Print, item: Item, s: Slot, a: Attempt): Slot {
    match a.crash
    case None => FinishedCall(s, item, WorldOf(printOf, item, a))
    case Some(n) => CrashedCall(s, item, WorldOf(printOf, item, a), n)
  }

  function AfterAttempts(printOf: Cipher -> Print, item: Item, s: Slot, attempts: seq<Attempt>): Slot
    decreases |attempts|
  {
    if attempts == [] then s
    else AfterAttempts(printOf, item, AfterAttempt(printOf, item, s, attempts[0]), attempts[1..])
  }

  ghost predicate NeverEmpty(printOf: Cipher -> Print) {
    forall c :: printOf(c).size > 0
  }

  lemma AttemptIsGood(printOf: Cipher -> Print, item: Item, s: Slot, a: Attempt)
    requires NeverEmpty(printOf) && Consistent(printOf, s, item)
    ensures Good(printOf, item, s, AfterAttempt(printOf, item, s, a))
  {
    var world := WorldOf(printOf, item, a);
    var ws := Call(s, item, world).0;
    EveryPrefixIsGood(s, item, world, if a.crash.Some? then a.crash.value else |ws|);
    assert ws[..|ws|] == ws;
  }

  lemma {:induction false} RunIsGood(printOf: Cipher -> Print, item: Item, s: Slot, attempts: seq<Attempt>)
    requires NeverEmpty(printOf) && Consistent(printOf, s, item)
    ensures Good(printOf, item, s, AfterAttempts(printOf, item, s, attempts))
    decreases |attempts|
  {
    if attempts != [] {
      AttemptIsGood(printOf, item, s, attempts[0]);
      RunIsGood(printOf, item, AfterAttempt(printOf, item, s, attempts[0]), attempts[1..]);
    }
  }

  /**
   After any number of calls, each cut off anywhere: metadata on the remote describes the
   ciphertext beside it, and the next undisturbed call succeeds and completes the pair.
   */
  lemma CallsAlwaysRecover(printOf: Cipher -> Print, item: Item, attempts: seq<Attempt>, next: Attempt)
    requires NeverEmpty(printOf)
    ensures var s := AfterAttempts(printOf, item, NOTHING, attempts);
            var t := FinishedCall(s, item, WorldOf(printOf, item, next));
            && (s.remoteMeta.Some? ==>
                  s.remoteCipher.Some? && Matches(printOf, s.remoteCipher.value, s.remoteMeta.value, item))
            && t.remoteCipher.Some? && t.remoteMeta.Some?
            && Matches(printOf, t.remoteCipher.value, t.remoteMeta.value, item)
            && Call(s, item, WorldOf(printOf, item, next)).1 == Published(printOf(t.remoteCipher.value))
  {
    RunIsGood(printOf, item, NOTHING, attempts);
    var s := AfterAttempts(printOf, item, NOTHING, attempts);
    CallIsGood(s, item, WorldOf(printOf, item, next));
    AttemptIsGood(printOf, item, s, next.(crash := None));
  }

  /** The ciphertext that first reached the remote is the one every later call reports. */
  lemma IdentityIsStable(printOf: Cipher -> Print, item: Item, before: seq<Attempt>, after: seq<Attempt>, next: Attempt)
    requires NeverEmpty(printOf)
    requires AfterAttempts(printOf, item, NOTHING, before).remoteCipher.Some?
    ensures var s := AfterAttempts(printOf, item, NOTHING, before);
            var t := AfterAttempts(printOf, item, s, after);
            Call(t, item, WorldOf(printOf, item, next)).1 == Published(printOf(s.remoteCipher.value))
  {
    RunIsGood(printOf, item, NOTHING, before);
    var s := AfterAttempts(printOf, item, NOTHING, before);
    RunIsGood(printOf, item, s, after);
    var t := AfterAttempts(printOf, item, s, after);
    CallIsGood(t, item, WorldOf(printOf, item, next));
    AttemptIsGood(printOf, item, t, next.(crash := None));
  }

  // ---------------------------------------------------------------------------
  // From any slot whatever
  // ---------------------------------------------------------------------------

  /** Remote objects are only created, and metadata only where it describes the ciphertext that is there. */
  predicate WritesSafely(printOf: Cipher -> Print, s: Slot, ws: seq<Write>)
    decreases |ws|
  {
    ws == []
    || (&& (ws[0].UploadCipher? ==> s.remoteCipher.None?)
        && (ws[0].UploadMeta? ==>
              s.remoteMeta.None? && s.remoteCipher.Some? && printOf(s.remoteCipher.value) == ws[0].m.cipher)
        && WritesSafely(printOf, Perform(s, ws[0]), ws[1..]))
  }

  lemma {:induction false} SafeBoth(printOf: Cipher -> Print, s: Slot, a: seq<Write>, b: seq<Write>)
    requires WritesSafely(printOf, s, a) && WritesSafely(printOf, PerformAll(s, a), b)
    ensures WritesSafely(printOf, s, a + b)
    decreases |a|
  {
    if a == [] {
      assert a + b == b;
    } else {
      assert (a + b)[1..] == a[1..] + b;
      SafeBoth(printOf, Perform(s, a[0]), a[1..], b);
    }
  }

  lemma RemovalIsSafe(printOf: Cipher -> Print, s: Slot, metaFirst: bool)
    ensures WritesSafely(printOf, s, RemoveStage(metaFirst))
    ensures var t := PerformAll(s, RemoveStage(metaFirst));
            t.remoteCipher == s.remoteCipher && t.remoteMeta == s.remoteMeta
  {
    var ws := RemoveStage(metaFirst);
    PerformTwo(s, ws[0], ws[1]);
    assert ws[1..] == [ws[1]] && ws[1..][1..] == [];
  }

  lemma StagingIsSafe(s: Slot, item: Item, world: World)
    ensures WritesSafely(world.printOf, s, Stage(s, item, world).0)
    ensures var t := PerformAll(s, Stage(s, item, world).0);
            t.remoteCipher == s.remoteCipher && t.remoteMeta == s.remoteMeta
    ensures Stage(s, item, world).1.Ok? ==>
              world.printOf(Stage(s, item, world).1.value.0) == Stage(s, item, world).1.value.1.cipher
  {
    var ws := Stage(s, item, world).0;
    if |ws| == 1 {
      assert ws == [ws[0]] && ws[1..] == [];
      PerformOne(s, ws[0]);
    } else if |ws| == 2 {
      assert ws == [ws[0], ws[1]] && ws[1..] == [ws[1]] && ws[1..][1..] == [];
      PerformTwo(s, ws[0], ws[1]);
    } else if |ws| == 3 {
      var t := Perform(s, ws[0]);
      assert ws[1..] == RemoveStage(world.metaFirst);
      RemovalIsSafe(world.printOf, t, world.metaFirst);
    }
  }

  lemma UploadIsSafe(s: Slot, c: Cipher, m: Metadata, world: World)
    requires world.printOf(c) == m.cipher
    ensures WritesSafely(world.printOf, s, Upload(s, c, m, world).0)
    ensures var t := PerformAll(s, Upload(s, c, m, world).0);
            Upload(s, c, m, world).1.Published? ==>
              && t.remoteCipher.Some? && t.remoteMeta.Some?
              && world.printOf(t.remoteCipher.value) == t.remoteMeta.value.cipher
              && Upload(s, c, m, world).1 == Published(t.remoteMeta.value.cipher)
  {
    var first := if s.remoteCipher.Some? then [] else [UploadCipher(c)];
    var second := if s.remoteMeta.Some? then [] else [UploadMeta(m)];
    var ws, removal := Upload(s, c, m, world).0, RemoveStage(world.metaFirst);
    PerformOne(s, UploadCipher(c));
    var t := PerformAll(s, first);
    PerformOne(t, UploadMeta(m));
    if ws == first + second + removal {
      var u := PerformAll(t, second);
      RemovalIsSafe(world.printOf, u, world.metaFirst);
      SafeBoth(world.printOf, t, second, removal);
      PerformBoth(t, second, removal);
      SafeBoth(world.printOf, s, first, second + removal);
      PerformBoth(s, first, second + removal);
      assert first + second + removal == first + (second + removal);
    }
  }

  /** A call cut off anywhere keeps what is on the remote, and metadata it added describes the ciphertext beside it. */
  predicate RemoteKept(printOf: Cipher -> Print, s: Slot, t: Slot) {
    && (s.remoteCipher.Some? ==> t.remoteCipher == s.remoteCipher)
    && (s.remoteMeta.Some? ==> t.remoteMeta == s.remoteMeta)
    && (t.remoteMeta.Some? && s.remoteMeta.None? ==>
          t.remoteCipher.Some? && printOf(t.remoteCipher.value) == t.remoteMeta.value.cipher)
  }

  lemma {:induction false} SafeWritesKeep(printOf: Cipher -> Print, s: Slot, ws: seq<Write>, n: nat)
    requires WritesSafely(printOf, s, ws) && n <= |ws|
    ensures RemoteKept(printOf, s, PerformAll(s, ws[..n]))
    decreases n
  {
    if n > 0 {
      assert ws[..n][1..] == ws[1..][..n - 1];
      SafeWritesKeep(printOf, Perform(s, ws[0]), ws[1..], n - 1);
    }
  }

  /**
   From every slot, also those no run leaves, for instance a ciphertext without metadata beside the checkpoint of
   another encryption: a call never replaces a remote object, publishes metadata only when it describes the ciphertext
   that is there, wherever it dies, and succeeds only when the two objects agree, with the fingerprint they agree on.
   */
  lemma MetadataAlwaysDescribes(s: Slot, item: Item, world: World, n: nat)
    ensures RemoteKept(world.printOf, s, CrashedCall(s, item, world, n))
    ensures Call(s, item, world).1.Published? ==>
              var t := FinishedCall(s, item, world);
              && t.remoteCipher.Some? && t.remoteMeta.Some?
              && world.printOf(t.remoteCipher.value) == t.remoteMeta.value.cipher
              && Call(s, item, world).1 == Published(t.remoteMeta.value.cipher)
  {
    var ws := Call(s, item, world).0;
    CallIsSafe(s, item, world);
    SafeWritesKeep(world.printOf, s, ws, if n <= |ws| then n else |ws|);
    assert ws[..|ws|] == ws;
  }

  lemma CallIsSafe(s: Slot, item: Item, world: World)
    ensures WritesSafely(world.printOf, s, Call(s, item, world).0)
    ensures Call(s, item, world).1.Published? ==>
              var t := FinishedCall(s, item, world);
              && t.remoteCipher.Some? && t.remoteMeta.Some?
              && world.printOf(t.remoteCipher.value) == t.remoteMeta.value.cipher
              && Call(s, item, world).1 == Published(t.remoteMeta.value.cipher)
  {
    RemovalIsSafe(world.printOf, s, world.metaFirst);
    if s.remoteCipher.None? || s.remoteMeta.None? {
      StagingIsSafe(s, item, world);
      var (staging, staged) := Stage(s, item, world);
      if staged.Ok? {
        var t := PerformAll(s, staging);
        var (c, m) := staged.value;
        assert Upload(t, c, m, world) == Upload(s, c, m, world);
        UploadIsSafe(t, c, m, world);
        hide Upload, Stage, WritesSafely;
        SafeBoth(world.printOf, s, staging, Upload(s, c, m, world).0);
        PerformBoth(s, staging, Upload(s, c, m, world).0);
      }
    }
  }

  // ---------------------------------------------------------------------------
  // Where the guarantee ends
  // ---------------------------------------------------------------------------

  /** Once the rotation has deleted both, calls succeed exactly when the checkpoint is not half removed. */
  lemma DeletedPairRecoversIff(item: Item, world: World, s: Slot)
    requires Stable(world, item) && Consistent(world.printOf, s, item)
    requires s.remoteCipher.Some? && s.remoteMeta.Some?
    ensures Call(s.(remoteCipher := None, remoteMeta := None), item, world).1.Published?
            <==> !(s.stagedCipher.None? && s.stagedMeta.Some?)
  {
  }

  /** A checkpoint can be left half removed: by a crash while a finished call cleans up. */
  lemma CleanupCanLeaveHalf(item: Item, world: World, s: Slot)
    requires Stable(world, item) && Consistent(world.printOf, s, item) && !world.metaFirst
    requires s.remoteCipher.Some? && s.remoteMeta.Some? && s.stagedMeta.Some?
    ensures var t := CrashedCall(s, item, world, 1);
            t.stagedCipher.None? && t.stagedMeta.Some?
  {
    var ws := Call(s, item, world).0;
    assert ws[..1] == [DropStagedCipher];
    PerformOne(s, DropStagedCipher);
  }

  // ---------------------------------------------------------------------------
  // The publishing method
  // ---------------------------------------------------------------------------

  /** The slot once at most `n` writes of a list have happened. */
  function Cut(s: Slot, ws: seq<Write>, n: nat): Slot {
    PerformAll(s, if n <= |ws| then ws[..n] else ws)
  }

  lemma CutBoth(s: Slot, a: seq<Write>, b: seq<Write>, n: nat)
    ensures Cut(s, a + b, n) == if n < |a| then Cut(s, a, n) else Cut(PerformAll(s, a), b, n - |a|)
  {
    if n < |a| {
      assert (a + b)[..n] == a[..n];
    } else if n <= |a| + |b| {
      assert (a + b)[..n] == a + b[..n - |a|];
      PerformBoth(s, a, b[..n - |a|]);
    } else {
      PerformBoth(s, a, b);
    }
  }

  lemma CutFirst(s: Slot, w: Write, ws: seq<Write>, n: nat)
    ensures Cut(s, [w] + ws, n) == if n == 0 then s else Cut(Perform(s, w), ws, n - 1)
  {
    PerformOne(s, w);
    CutBoth(s, [w], ws, n);
  }

  lemma CutWhole(s: Slot, ws: seq<Write>, n: nat)
    ensures n >= |ws| ==> Cut(s, ws, n) == PerformAll(s, ws)
  {
    assert ws[..|ws|] == ws;
  }

  /**
   One digest's remote objects and checkpoint, with a budget of writes that succeed before
   the process dies.
   */
  class Publisher {
    var slot: Slot
    var budget: nat

    constructor (slot: Slot, budget: nat)
      ensures this.slot == slot && this.budget == budget
    {
      this.slot, this.budget := slot, budget;
    }

    method Write(w: Write) returns (alive: bool)
      modifies this
      ensures alive == (old(budget) > 0)
      ensures budget == if alive then old(budget) - 1 else old(budget)
      ensures slot == if alive then Perform(old(slot), w) else old(slot)
    {
      alive := budget > 0;
      if alive {
        budget, slot := budget - 1, Perform(slot, w);
      }
    }

    /** Remove the checkpoint directory, file by file. */
    method DropStage(metaFirst: bool) returns (alive: bool)
      modifies this
      ensures alive == (old(budget) >= 2) && (alive ==> budget == old(budget) - 2)
      ensures slot == Cut(old(slot), RemoveStage(metaFirst), old(budget))
    {
      var ws := RemoveStage(metaFirst);
      assert ws == [ws[0]] + ([ws[1]] + []);
      CutFirst(slot, ws[0], [ws[1]] + [], budget);
      alive := Write(ws[0]);
      if !alive { return; }
      CutFirst(slot, ws[1], [], budget);
      alive := Write(ws[1]);
    }

    /** Reuse, complete or create the local checkpoint. */
    method StageCheckpoint(item: Item, world: World)
      returns (alive: bool, staged: Result<(Cipher, Metadata), Failure>)
      modifies this
      ensures var (ws, result) := Stage(old(slot), item, world);
              && slot == Cut(old(slot), ws, old(budget)) && alive == (old(budget) >= |ws|)
              && (alive ==> staged == result && budget == old(budget) - |ws| && slot == PerformAll(old(slot), ws))
    {
      alive, staged := true, Err(CheckpointIncomplete);
      CutWhole(slot, Stage(slot, item, world).0, budget);
      if slot.stagedCipher.Some? && slot.stagedMeta.Some? {
        var c, m := slot.stagedCipher.value, slot.stagedMeta.value;
        if !ValidMetadata(m, item) {
          staged := Err(MetadataMismatch);
        } else if world.printOf(c) != m.cipher {
          staged := Err(CheckpointMismatch);
        } else {
          staged := Ok((c, m));
        }
      } else if slot.stagedCipher.Some? {
        var c := slot.stagedCipher.value;
        if world.source != item {
          staged := Err(SourceChanged);
        } else {
          var m := Metadata(item.size, item.digest, world.printOf(c));
          PerformOne(slot, StageMeta(m));
          alive := Write(StageMeta(m));
          staged := Ok((c, m));
        }
      } else if slot.stagedMeta.None? {
        var c := Cipher(world.source.size, world.source.digest, world.nonce);
        if world.source != item {
          CutFirst(slot, StageCipher(c), RemoveStage(world.metaFirst), budget);
          PerformFirst(slot, StageCipher(c), RemoveStage(world.metaFirst));
          alive := Write(StageCipher(c));
          if !alive { return; }
          CutWhole(slot, RemoveStage(world.metaFirst), budget);
          alive := DropStage(world.metaFirst);
          staged := Err(SourceChanged);
        } else {
          var m := Metadata(item.size, item.digest, world.printOf(c));
          assert [StageCipher(c), StageMeta(m)] == [StageCipher(c)] + [StageMeta(m)];
          CutFirst(slot, StageCipher(c), [StageMeta(m)], budget);
          PerformTwo(slot, StageCipher(c), StageMeta(m));
          alive := Write(StageCipher(c));
          if !alive { return; }
          PerformOne(slot, StageMeta(m));
          alive := Write(StageMeta(m));
          staged := Ok((c, m));
        }
      }
    }

    /** Upload whichever of the two objects is missing, then remove the checkpoint. */
    method UploadPair(c: Cipher, m: Metadata, world: World) returns (alive: bool, answer: Answer)
      modifies this
      ensures var (ws, result) := Upload(old(slot), c, m, world);
              && slot == Cut(old(slot), ws, old(budget)) && alive == (old(budget) >= |ws|)
              && (alive ==> answer == result)
    {
      alive, answer := true, Raised(CiphertextConflict);
      var removal := RemoveStage(world.metaFirst);
      if slot.remoteCipher.Some? && world.printOf(slot.remoteCipher.value) != m.cipher {
        return;
      }
      ghost var second: seq<Write> := if slot.remoteMeta.Some? then [] else [UploadMeta(m)];
      ghost var rest := if slot.remoteMeta.Some? && slot.remoteMeta.value != m then [] else second + removal;
      if slot.remoteCipher.None? {
        assert Upload(slot, c, m, world).0 == [UploadCipher(c)] + rest;
        CutFirst(slot, UploadCipher(c), rest, budget);
        alive := Write(UploadCipher(c));
        if !alive { return; }
      } else {
        assert Upload(slot, c, m, world).0 == rest;
      }
      if slot.remoteMeta.Some? {
        if slot.remoteMeta.value != m {
          answer := Raised(MetadataConflict);
          return;
        }
        assert rest == removal;
      } else {
        CutFirst(slot, UploadMeta(m), removal, budget);
        alive := Write(UploadMeta(m));
        if !alive { return; }
      }
      alive := DropStage(world.metaFirst);
      answer := Published(m.cipher);
    }

    /** The whole call. No answer means that the process died on the way. */
    method PublishFileObject(item: Item, world: World) returns (answer: Option<Answer>)
      modifies this
      ensures var (ws, result) := Call(old(slot), item, world);
              && slot == Cut(old(slot), ws, old(budget))
              && answer == if old(budget) >= |ws| then Some(result) else None
    {
      var alive := true;
      CutWhole(slot, Call(slot, item, world).0, budget);
      if slot.remoteCipher.Some? && slot.remoteMeta.Some? {
        var m := slot.remoteMeta.value;
        if !ValidMetadata(m, item) || world.printOf(slot.remoteCipher.value) != m.cipher {
          return Some(Raised(MetadataMismatch));
        }
        alive := DropStage(world.metaFirst);
        return if alive then Some(Published(m.cipher)) else None;
      }
      var staged;
      ghost var before := slot;
      ghost var (staging, _) := Stage(slot, item, world);
      ghost var budget0 := budget;
      alive, staged := StageCheckpoint(item, world);
      if !alive {
        StagingFirst(before, item, world, budget0);
        return None;
      }
      if staged.Err? {
        return Some(Raised(staged.error));
      }
      var (c, m) := staged.value;
      CutBoth(before, staging, Upload(slot, c, m, world).0, budget0);
      StagingSparesRemote(before, item, world);
      var result;
      alive, result := UploadPair(c, m, world);
      answer := if alive then Some(result) else None;
    }
  }

  /** A call that dies while staging has done nothing but staging. */
  lemma StagingFirst(s: Slot, item: Item, world: World, n: nat)
    requires (s.remoteCipher.None? || s.remoteMeta.None?) && n < |Stage(s, item, world).0|
    ensures n < |Call(s, item, world).0|
    ensures Cut(s, Call(s, item, world).0, n) == Cut(s, Stage(s, item, world).0, n)
  {
    var (staging, staged) := Stage(s, item, world);
    if staged.Ok? {
      CutBoth(s, staging, Upload(s, staged.value.0, staged.value.1, world).0, n);
    }
  }

  lemma StagingSparesRemote(s: Slot, item: Item, world: World)
    ensures var t := PerformAll(s, Stage(s, item, world).0);
            t.remoteCipher == s.remoteCipher && t.remoteMeta == s.remoteMeta
    ensures var t := PerformAll(s, Stage(s, item, world).0);
            forall c, m :: Upload(t, c, m, world) == Upload(s, c, m, world)
  {
    var (ws, _) := Stage(s, item, world);
    if |ws| == 1 {
      assert ws == [ws[0]];
      PerformOne(s, ws[0]);
    } else if |ws| == 2 {
      assert ws == [ws[0], ws[1]];
      PerformTwo(s, ws[0], ws[1]);
    } else if |ws| == 3 {
      assert ws == [ws[0]] + [ws[1], ws[2]];
      PerformFirst(s, ws[0], [ws[1], ws[2]]);
      PerformTwo(Perform(s, ws[0]), ws[1], ws[2]);
    }
  }
}
