/**
 Retention rotation: a garbage collector over shared content-addressed backup objects.

 The remote is a value; every journal publication and every deletion is one step of a
 small machine, and a crash may drop the machine between any two steps.
 */
module Retention {
  import opened Basics
  import opened RetentionPolicy

  /** Backup identities have a fixed length, so their text order is a numeric order. */
  type Id = nat

  datatype ObjectKey =
    | ManifestKey(id: Id)
    | DatabaseKey(id: Id)
    | ConfigKey(id: Id)
    | CipherKey(digest: nat, recipient: nat)
    | MetaKey(digest: nat, recipient: nat)

  /** What an authenticated manifest says about its point. */
  datatype Record = Record(id: Id, frozen: int, tags: set<Tag>, keys: seq<ObjectKey>, manifestSha: nat)

  /** The upload-controlled completion marker. */
  datatype Marker = Marker(id: Id, frozen: int, tags: set<Tag>, manifestKey: ObjectKey, keys: seq<ObjectKey>)

  /** A signed restore verification. */
  datatype Proof = Proof(id: Id, manifestSha: nat)

  datatype Remote = Remote(
    complete: map<Id, Marker>,
    deleting: map<Id, Record>,
    verified: map<Id, Proof>,
    manifests: map<Id, Record>,
    data: set<ObjectKey>)

  const EMPTY := Remote(map[], map[], map[], map[], {})

  // ---------------------------------------------------------------------------
  // The checks a rotation makes before it writes anything
  // ---------------------------------------------------------------------------

  /** The record an authenticated manifest of this point may produce. */
  predicate ValidRecord(c: Contract, id: Id, r: Record) {
    && r.id == id
    && r.tags == c.tags(r.frozen)
    && ManifestKey(id) in r.keys && DatabaseKey(id) in r.keys && ConfigKey(id) in r.keys
    && forall k | k in r.keys :: k.ManifestKey? || k.DatabaseKey? || k.ConfigKey? ==> k.id == id
  }

  /** What a completed backup writes is such a record: its own three keys and any content-addressed keys. */
  lemma BackupRecordIsValid(c: Contract, id: Id, frozen: int, shared: seq<ObjectKey>, manifestSha: nat)
    requires forall k | k in shared :: k.CipherKey? || k.MetaKey?
    ensures ValidRecord(c, id,
              Record(id, frozen, c.tags(frozen), [ManifestKey(id), DatabaseKey(id), ConfigKey(id)] + shared, manifestSha))
  {
    var keys := [ManifestKey(id), DatabaseKey(id), ConfigKey(id)] + shared;
    assert keys[0] in keys && keys[1] in keys && keys[2] in keys;
  }

  /** And a record that names another point's keys, lacks one of its own, or has other tags is none. */
  lemma ForeignRecordIsRefused(c: Contract, id: Id, r: Record, other: Id)
    requires ValidRecord(c, id, r) && other != id
    ensures ManifestKey(other) !in r.keys && DatabaseKey(other) !in r.keys && ConfigKey(other) !in r.keys
    ensures r.id == id && r.tags == c.tags(r.frozen)
    ensures ManifestKey(id) in r.keys && DatabaseKey(id) in r.keys && ConfigKey(id) in r.keys
  {
  }

  predicate MarkerAgrees(m: Marker, r: Record) {
    m == Marker(r.id, r.frozen, r.tags, ManifestKey(r.id), r.keys)
  }

  predicate CompletionsValid(c: Contract, s: Remote) {
    forall id | id in s.complete ::
      && id in s.manifests
      && ValidRecord(c, id, s.manifests[id])
      && MarkerAgrees(s.complete[id], s.manifests[id])
  }

  predicate JournalValid(c: Contract, s: Remote, id: Id)
    requires id in s.deleting
  {
    if id in s.manifests
    then ValidRecord(c, id, s.manifests[id]) && s.deleting[id] == s.manifests[id]
    else id !in s.complete && id !in s.verified
  }

  predicate JournalsValid(c: Contract, s: Remote) {
    forall id | id in s.deleting :: JournalValid(c, s, id)
  }

  /** Journals whose manifest is still there, and journals that only wait to be removed. */
  function Journaled(s: Remote): set<Id> {
    set id | id in s.deleting && id in s.manifests
  }

  function Finalizing(s: Remote): set<Id> {
    set id | id in s.deleting && id !in s.manifests
  }

  predicate ProofsBound(s: Remote) {
    forall id | id in s.verified ::
      && id in s.manifests
      && (id in s.complete || id in s.deleting)
      && s.verified[id] == Proof(id, s.manifests[id].manifestSha)
  }

  /** Verified points are compared by freeze time, then by identity. */
  predicate AtLeast(s: Remote, a: Id, b: Id)
    requires a in s.manifests && b in s.manifests
  {
    var x, y := s.manifests[a].frozen, s.manifests[b].frozen;
    x > y || (x == y && a >= b)
  }

  predicate IsNewest(s: Remote, id: Id) {
    && id in s.verified
    && forall other | other in s.verified ::
         id in s.manifests && other in s.manifests && AtLeast(s, id, other)
  }

  predicate IsProtected(s: Remote, p: Option<Id>) {
    match p
    case None => s.verified == map[]
    case Some(id) => IsNewest(s, id)
  }

  predicate ProtectedIntact(s: Remote) {
    forall id | id in s.verified && IsNewest(s, id) :: id !in s.deleting
  }

  predicate JournalsExpired(c: Contract, s: Remote, now: int) {
    forall id | id in Journaled(s) :: c.Expired(s.manifests[id].frozen, now)
  }

  /** A rotation started now would pass all of its own checks. */
  predicate Accepts(c: Contract, s: Remote, now: int) {
    && CompletionsValid(c, s)
    && JournalsValid(c, s)
    && ProofsBound(s)
    && ProtectedIntact(s)
    && JournalsExpired(c, s, now)
  }

  // ---------------------------------------------------------------------------
  // What a rotation decides
  // ---------------------------------------------------------------------------

  /** The sets a rotation computes before its first write. */
  datatype Verdict = Verdict(
    protected: Option<Id>,
    kept: set<Id>,
    dropped: set<Id>,
    journaled: set<Id>,
    finalizing: set<Id>,
    referenced: set<ObjectKey>)
  {
    predicate Doomed(id: Id) {
      id in journaled || id in dropped
    }
  }

  predicate Keeps(c: Contract, s: Remote, now: int, p: Option<Id>, id: Id)
    requires id in s.manifests
  {
    !c.Expired(s.manifests[id].frozen, now) || p == Some(id)
  }

  /** The completed points that carry no journal. */
  function Unjournaled(s: Remote): set<Id> {
    set id | id in s.complete && id in s.manifests && id !in s.deleting
  }

  function KeysOf(s: Remote, ids: set<Id>): set<ObjectKey> {
    set id, k | id in ids && id in s.manifests && k in s.manifests[id].keys :: k
  }

  function Judge(c: Contract, s: Remote, now: int, p: Option<Id>): Verdict {
    var kept := set id | id in Unjournaled(s) && Keeps(c, s, now, p, id);
    Verdict(p, kept, Unjournaled(s) - kept, Journaled(s), Finalizing(s), KeysOf(s, kept))
  }

  // ---------------------------------------------------------------------------
  // Remote operations
  // ---------------------------------------------------------------------------

  datatype Target = CompleteMarker(id: Id) | Object(key: ObjectKey) | VerifiedMarker(id: Id) | Journal(id: Id)

  function Remove(s: Remote, t: Target): Remote {
    match t
    case CompleteMarker(id) => s.(complete := s.complete - {id})
    case VerifiedMarker(id) => s.(verified := s.verified - {id})
    case Journal(id) => s.(deleting := s.deleting - {id})
    case Object(key) =>
      s.(manifests := s.manifests - (if key.ManifestKey? then {key.id} else {}), data := s.data - {key})
  }

  function Publish(s: Remote, r: Record): Remote {
    s.(deleting := s.deleting[r.id := r])
  }

  predicate Present(s: Remote, key: ObjectKey) {
    if key.ManifestKey? then key.id in s.manifests else key in s.data
  }

  predicate PointIntact(s: Remote, id: Id) {
    id in s.complete && id in s.manifests && forall k | k in s.manifests[id].keys :: Present(s, k)
  }

  /** The listings a rotation reads, in whatever order the remote returns them. */
  datatype Order = Order(journals: seq<Id>, dropped: seq<Id>, finals: seq<Id>)

  predicate ListingOf(v: Verdict, o: Order) {
    && Distinct(o.journals) && Members(o.journals) == v.journaled
    && Distinct(o.dropped) && Members(o.dropped) == v.dropped
    && Distinct(o.finals) && Members(o.finals) == v.finalizing
  }

  /** A data key of a doomed point that no kept point names. */
  predicate Unshared(v: Verdict, id: Id, key: ObjectKey) {
    key != ManifestKey(id) && key !in v.referenced
  }

  function UnsharedTargets(v: Verdict, id: Id, keys: seq<ObjectKey>): (ts: seq<Target>)
    ensures forall t | t in ts :: t.Object? && t.key in keys && Unshared(v, id, t.key)
    ensures forall k | k in keys && Unshared(v, id, k) :: Object(k) in ts
  {
    if keys == [] then []
    else if Unshared(v, id, keys[0]) then [Object(keys[0])] + UnsharedTargets(v, id, keys[1..])
    else UnsharedTargets(v, id, keys[1..])
  }

  /** Marker first, then unshared data, the proof, the manifest, and the journal last. */
  function TargetsFor(s: Remote, v: Verdict, id: Id): seq<Target>
    requires id in s.manifests
  {
    [CompleteMarker(id)]
    + UnsharedTargets(v, id, s.manifests[id].keys)
    + (if id in s.verified && v.protected != Some(id) then [VerifiedMarker(id)] else [])
    + (if ManifestKey(id) !in v.referenced then [Object(ManifestKey(id))] else [])
    + [Journal(id)]
  }

  // ---------------------------------------------------------------------------
  // The rotation machine
  // ---------------------------------------------------------------------------

  /**
   A rotation in flight: the remote it read, its verdict, the journals still to publish, the
   doomed points still to open, the target list being worked through, and the bare journals left.
   */
  datatype Rotation = Rotation(
    start: Remote, verdict: Verdict,
    publish: seq<Id>, doomed: seq<Id>, active: seq<Target>, at: nat, finals: seq<Id>)

  function Begin(c: Contract, s: Remote, now: int, p: Option<Id>, o: Order): Rotation {
    Rotation(s, Judge(c, s, now, p), o.dropped, o.journals + o.dropped, [], 0, o.finals)
  }

  predicate Finished(r: Rotation) {
    r.publish == [] && r.at >= |r.active| && r.doomed == [] && r.finals == []
  }

  /** One step: at most one remote operation. */
  function Next(r: Rotation, s: Remote): (Rotation, Remote) {
    if r.publish != [] then
      (r.(publish := r.publish[1..]),
       if r.publish[0] in r.start.manifests then Publish(s, r.start.manifests[r.publish[0]]) else s)
    else if r.at < |r.active| then
      (r.(at := r.at + 1), Remove(s, r.active[r.at]))
    else if r.doomed != [] then
      (r.(doomed := r.doomed[1..], at := 0,
          active := if r.doomed[0] in r.start.manifests
                    then TargetsFor(r.start, r.verdict, r.doomed[0]) else []), s)
    else if r.finals != [] then
      (r.(finals := r.finals[1..]), Remove(s, Journal(r.finals[0])))
    else
      (r, s)
  }

  // ---------------------------------------------------------------------------
  // The invariant of every reachable remote
  // ---------------------------------------------------------------------------

  /** Every key on the remote is named by a live or journaled point, or was left by an unfinished backup. */
  predicate NoLeak(s: Remote, orphans: set<ObjectKey>) {
    && (forall k | k in s.data && k !in orphans ::
          exists id | id in s.manifests :: (id in s.complete || id in s.deleting) && k in s.manifests[id].keys)
    && (forall id | id in s.manifests && ManifestKey(id) !in orphans :: id in s.complete || id in s.deleting)
  }

  predicate Inv(c: Contract, s: Remote, clock: int, orphans: set<ObjectKey>) {
    && Accepts(c, s, clock)
    && (forall id | id in s.complete && id !in s.deleting :: PointIntact(s, id))
    && (forall k | k in s.data :: !k.ManifestKey?)
    && NoLeak(s, orphans)
  }

  /** What is left of the starting remote after some journals and some deletions. */
  function Residue(start: Remote, journaled: set<Id>, done: set<Target>): Remote {
    Remote(
      start.complete - (set id | id in start.complete && CompleteMarker(id) in done),
      (map id | id in start.deleting.Keys + (journaled * start.manifests.Keys) && Journal(id) !in done ::
         if id in journaled && id in start.manifests then start.manifests[id] else start.deleting[id]),
      start.verified - (set id | id in start.verified && VerifiedMarker(id) in done),
      start.manifests - (set id | id in start.manifests && Object(ManifestKey(id)) in done),
      set k | k in start.data && Object(k) !in done)
  }

  /** The marker and every unshared data key of a point are gone. */
  predicate Cleared(s: Remote, v: Verdict, done: set<Target>, id: Id) {
    && CompleteMarker(id) in done
    && id in s.manifests
    && forall k | k in s.manifests[id].keys && Unshared(v, id, k) :: Object(k) in done
  }

  /** The deletion order: no target goes before the ones that must precede it. */
  predicate Admissible(s: Remote, v: Verdict, done: set<Target>, t: Target) {
    match t
    case CompleteMarker(id) => v.Doomed(id)
    case VerifiedMarker(id) => v.Doomed(id) && Cleared(s, v, done, id)
    case Object(ManifestKey(id)) =>
      v.Doomed(id) && Cleared(s, v, done, id) && (id in s.verified ==> VerifiedMarker(id) in done)
    case Object(key) => key !in v.referenced
    case Journal(id) => id in v.finalizing || (v.Doomed(id) && Object(ManifestKey(id)) in done)
  }

  predicate Ordered(s: Remote, v: Verdict, done: set<Target>) {
    forall t | t in done :: Admissible(s, v, done, t)
  }

  /** How far a rotation may have come when it stops. */
  predicate Midway(v: Verdict, s: Remote, journaled: set<Id>, done: set<Target>) {
    && journaled <= v.dropped
    && (done != {} ==> journaled == v.dropped)
    && Ordered(s, v, done)
  }

  /** A point's record carries its identity and names no other point's manifest. */
  predicate OwnRecord(s: Remote, id: Id) {
    && id in s.manifests
    && s.manifests[id].id == id
    && forall k | k in s.manifests[id].keys && k.ManifestKey? :: k.id == id
  }

  /** What the checks guarantee about a verdict. */
  ghost predicate Sound(s: Remote, v: Verdict) {
    && (forall id | id in s.complete :: id in s.manifests && (id in v.kept || v.Doomed(id)))
    && (forall id | id in s.verified :: id in v.kept || v.Doomed(id))
    && (forall id | id in v.kept :: id in s.complete && id in s.manifests && id !in s.deleting && !v.Doomed(id))
    && (forall id :: v.Doomed(id) ==> OwnRecord(s, id) && ManifestKey(id) !in v.referenced)
    && (forall id | id in v.dropped :: id in s.complete && id !in s.deleting)
    && (forall id | id in s.deleting :: id in v.journaled || id in v.finalizing)
    && (forall id | id in v.journaled :: id in s.deleting)
    && (forall id | id in v.finalizing :: id !in s.manifests && id !in s.complete && id !in s.verified)
    && (forall id, k | id in v.kept && k in s.manifests[id].keys :: k in v.referenced)
    && (forall k | k in v.referenced :: exists id | id in v.kept :: k in s.manifests[id].keys)
    && IsProtected(s, v.protected)
    && (v.protected.Some? ==> v.protected.value in v.kept)
  }

  lemma JudgedSoundly(c: Contract, s: Remote, now: int, p: Option<Id>)
    requires Accepts(c, s, now) && IsProtected(s, p)
    ensures Sound(s, Judge(c, s, now, p))
  {
  }

  /** The order between the deletions of one point. */
  lemma DeletionOrder(s: Remote, v: Verdict, done: set<Target>, id: Id)
    requires Ordered(s, v, done)
    ensures CompleteMarker(id) in done ==> v.Doomed(id)
    ensures VerifiedMarker(id) in done ==> v.Doomed(id) && CompleteMarker(id) in done
    ensures Object(ManifestKey(id)) in done ==>
              v.Doomed(id) && CompleteMarker(id) in done && (id in s.verified ==> VerifiedMarker(id) in done)
    ensures Journal(id) in done && id !in v.finalizing ==> v.Doomed(id) && Object(ManifestKey(id)) in done
  {
    assert CompleteMarker(id) in done ==> Admissible(s, v, done, CompleteMarker(id));
    assert VerifiedMarker(id) in done ==> Admissible(s, v, done, VerifiedMarker(id));
    assert Object(ManifestKey(id)) in done ==> Admissible(s, v, done, Object(ManifestKey(id)));
    assert Journal(id) in done ==> Admissible(s, v, done, Journal(id));
  }

  /** Where one point stands in the residue. */
  lemma PointInResidue(s: Remote, v: Verdict, journaled: set<Id>, done: set<Target>, id: Id)
    requires Sound(s, v) && Midway(v, s, journaled, done)
    ensures var t := Residue(s, journaled, done);
            && (id in t.complete ==> id in s.complete && id in t.manifests && t.complete[id] == s.complete[id])
            && (id in t.verified ==> id in s.verified && t.verified[id] == s.verified[id])
            && (id in t.manifests ==> id in s.manifests && t.manifests[id] == s.manifests[id])
            && (id in s.verified && id !in t.manifests ==> id !in t.verified)
            && (id in t.manifests && (id in s.complete || id in s.deleting) ==> id in t.complete || id in t.deleting)
            && (id in t.deleting ==> id in s.deleting || id in v.dropped)
            && (id in t.complete && id !in t.deleting && id !in v.kept ==> done == {})
            && (id in v.kept ==> id in t.complete && id in t.manifests && id !in t.deleting)
  {
    DeletionOrder(s, v, done, id);
  }

  lemma ResidueCompletions(c: Contract, s: Remote, v: Verdict, journaled: set<Id>, done: set<Target>)
    requires Sound(s, v) && Midway(v, s, journaled, done) && CompletionsValid(c, s)
    ensures CompletionsValid(c, Residue(s, journaled, done))
  {
    var t := Residue(s, journaled, done);
    forall id | id in t.complete
      ensures id in t.manifests && ValidRecord(c, id, t.manifests[id]) && MarkerAgrees(t.complete[id], t.manifests[id])
    {
      PointInResidue(s, v, journaled, done, id);
    }
  }

  lemma ResidueJournals(c: Contract, s: Remote, v: Verdict, journaled: set<Id>, done: set<Target>)
    requires Sound(s, v) && Midway(v, s, journaled, done) && JournalsValid(c, s) && CompletionsValid(c, s)
    ensures JournalsValid(c, Residue(s, journaled, done))
  {
    var t := Residue(s, journaled, done);
    forall id | id in t.deleting
      ensures JournalValid(c, t, id)
    {
      PointInResidue(s, v, journaled, done, id);
      DeletionOrder(s, v, done, id);
    }
  }

  lemma ResidueProofs(s: Remote, v: Verdict, journaled: set<Id>, done: set<Target>)
    requires Sound(s, v) && Midway(v, s, journaled, done) && ProofsBound(s)
    ensures ProofsBound(Residue(s, journaled, done))
  {
    var t := Residue(s, journaled, done);
    forall id | id in t.verified
      ensures id in t.manifests && (id in t.complete || id in t.deleting)
              && t.verified[id] == Proof(id, t.manifests[id].manifestSha)
    {
      PointInResidue(s, v, journaled, done, id);
    }
  }

  /** The newest verified point stays the newest, and stays whole. */
  lemma ResidueProtected(s: Remote, v: Verdict, journaled: set<Id>, done: set<Target>)
    requires Sound(s, v) && Midway(v, s, journaled, done)
    ensures IsProtected(Residue(s, journaled, done), v.protected)
    ensures ProtectedIntact(Residue(s, journaled, done))
  {
    var t := Residue(s, journaled, done);
    forall id | id in t.verified ensures id in s.verified && id in t.manifests ==> t.manifests[id] == s.manifests[id] {
      PointInResidue(s, v, journaled, done, id);
    }
    if v.protected.Some? {
      var p := v.protected.value;
      PointInResidue(s, v, journaled, done, p);
      DeletionOrder(s, v, done, p);
      forall id | id in t.verified ensures id in t.manifests && AtLeast(t, p, id) {
        PointInResidue(s, v, journaled, done, id);
        assert AtLeast(s, p, id);
      }
      assert IsNewest(t, p);
      forall id | id in t.verified && IsNewest(t, id) ensures id == p {
        assert AtLeast(t, id, p) && AtLeast(t, p, id);
      }
    }
  }

  lemma ResidueExpired(c: Contract, s: Remote, now: int, p: Option<Id>, journaled: set<Id>, done: set<Target>)
    requires Accepts(c, s, now) && IsProtected(s, p) && Midway(Judge(c, s, now, p), s, journaled, done)
    ensures JournalsExpired(c, Residue(s, journaled, done), now)
  {
    var t, v := Residue(s, journaled, done), Judge(c, s, now, p);
    JudgedSoundly(c, s, now, p);
    forall id | id in Journaled(t) ensures c.Expired(t.manifests[id].frozen, now) {
      PointInResidue(s, v, journaled, done, id);
    }
  }

  lemma ResidueIntact(c: Contract, s: Remote, v: Verdict, journaled: set<Id>, done: set<Target>)
    requires Sound(s, v) && Midway(v, s, journaled, done) && CompletionsValid(c, s)
    requires forall id | id in s.complete && id !in s.deleting :: PointIntact(s, id)
    ensures forall id | id in Residue(s, journaled, done).complete && id !in Residue(s, journaled, done).deleting ::
              PointIntact(Residue(s, journaled, done), id)
  {
    var t := Residue(s, journaled, done);
    forall id | id in t.complete && id !in t.deleting ensures PointIntact(t, id) {
      PointInResidue(s, v, journaled, done, id);
      assert ValidRecord(c, id, s.manifests[id]);
      forall k | k in t.manifests[id].keys ensures Present(t, k) {
        assert Present(s, k);
        if id in v.kept && !k.ManifestKey? {
          assert Object(k) in done ==> Admissible(s, v, done, Object(k));
        }
      }
    }
  }

  lemma ResidueNoLeak(s: Remote, v: Verdict, journaled: set<Id>, done: set<Target>, orphans: set<ObjectKey>)
    requires Sound(s, v) && Midway(v, s, journaled, done) && NoLeak(s, orphans)
    requires forall k | k in s.data :: !k.ManifestKey?
    ensures NoLeak(Residue(s, journaled, done), orphans)
  {
    var t := Residue(s, journaled, done);
    forall id | id in t.manifests && ManifestKey(id) !in orphans ensures id in t.complete || id in t.deleting {
      PointInResidue(s, v, journaled, done, id);
    }
    forall k | k in t.data && k !in orphans
      ensures exists id | id in t.manifests :: (id in t.complete || id in t.deleting) && k in t.manifests[id].keys
    {
      var id :| id in s.manifests && (id in s.complete || id in s.deleting) && k in s.manifests[id].keys;
      PointInResidue(s, v, journaled, done, id);
      if id !in t.manifests {
        assert Admissible(s, v, done, Object(ManifestKey(id)));
        assert k in v.referenced;
        var other :| other in v.kept && k in s.manifests[other].keys;
        PointInResidue(s, v, journaled, done, other);
        assert other in t.manifests;
      }
    }
  }

  /** Wherever a rotation stops, the remote it leaves satisfies the invariant. */
  lemma ResidueInv(c: Contract, s: Remote, now: int, p: Option<Id>, journaled: set<Id>, done: set<Target>,
                   orphans: set<ObjectKey>)
    requires Inv(c, s, now, orphans) && IsProtected(s, p) && Midway(Judge(c, s, now, p), s, journaled, done)
    ensures Inv(c, Residue(s, journaled, done), now, orphans)
  {
    var v := Judge(c, s, now, p);
    JudgedSoundly(c, s, now, p);
    ResidueCompletions(c, s, v, journaled, done);
    ResidueJournals(c, s, v, journaled, done);
    ResidueProofs(s, v, journaled, done);
    ResidueProtected(s, v, journaled, done);
    ResidueExpired(c, s, now, p, journaled, done);
    ResidueIntact(c, s, v, journaled, done);
    ResidueNoLeak(s, v, journaled, done, orphans);
  }

  // ---------------------------------------------------------------------------
  // Every step of a rotation
  // ---------------------------------------------------------------------------

  /** The open target list belongs to one doomed point, and everything before `at` is gone. */
  ghost predicate Opened(r: Rotation, done: set<Target>, id: Id) {
    && r.verdict.Doomed(id) && id in r.start.manifests
    && r.active == TargetsFor(r.start, r.verdict, id)
    && r.at <= |r.active|
    && forall i | 0 <= i < r.at :: r.active[i] in done
  }

  /** Nothing that must be deleted is forgotten. */
  ghost predicate Covered(r: Rotation, done: set<Target>)
    requires r.at <= |r.active|
  {
    && (forall id, t | r.verdict.Doomed(id) && id in r.start.manifests && id !in r.doomed
          && t in TargetsFor(r.start, r.verdict, id) :: t in done || t in r.active[r.at..])
    && (forall id | id in r.verdict.finalizing :: id in r.finals || Journal(id) in done)
  }

  ghost predicate InFlight(r: Rotation, s: Remote, done: set<Target>) {
    && r.at <= |r.active|
    && Sound(r.start, r.verdict)
    && Distinct(r.publish) && Members(r.publish) <= r.verdict.dropped
    && Midway(r.verdict, r.start, r.verdict.dropped - Members(r.publish), done)
    && s == Residue(r.start, r.verdict.dropped - Members(r.publish), done)
    && (r.publish != [] ==> done == {} && r.active == [])
    && (r.active == [] || exists id :: Opened(r, done, id))
    && (forall id | id in r.doomed :: r.verdict.Doomed(id))
    && (forall id | id in r.finals :: id in r.verdict.finalizing)
    && Covered(r, done)
  }

  lemma RemoveFromResidue(start: Remote, journaled: set<Id>, done: set<Target>, t: Target)
    ensures Remove(Residue(start, journaled, done), t) == Residue(start, journaled, done + {t})
  {
    var a, b := Remove(Residue(start, journaled, done), t), Residue(start, journaled, done + {t});
    assert a.complete == b.complete;
    assert a.verified == b.verified;
    assert a.manifests == b.manifests && a.data == b.data;
    RemoveFromJournals(start, journaled, done, t);
  }

  lemma RemoveFromJournals(start: Remote, journaled: set<Id>, done: set<Target>, t: Target)
    ensures Remove(Residue(start, journaled, done), t).deleting == Residue(start, journaled, done + {t}).deleting
  {
  }

  lemma PublishToResidue(start: Remote, journaled: set<Id>, id: Id)
    requires id in start.manifests && start.manifests[id].id == id
    ensures Publish(Residue(start, journaled, {}), start.manifests[id]) == Residue(start, journaled + {id}, {})
  {
    var a, b := Publish(Residue(start, journaled, {}), start.manifests[id]), Residue(start, journaled + {id}, {});
    assert a.deleting == b.deleting;
  }

  /** A target list deletes in the required order. */
  lemma TargetInOrder(s: Remote, v: Verdict, done: set<Target>, id: Id, at: nat)
    requires v.Doomed(id) && OwnRecord(s, id) && v.protected != Some(id) && ManifestKey(id) !in v.referenced
    requires at < |TargetsFor(s, v, id)|
    requires forall i | 0 <= i < at :: TargetsFor(s, v, id)[i] in done
    ensures Admissible(s, v, done, TargetsFor(s, v, id)[at])
  {
    var ts := TargetsFor(s, v, id);
    var unshared := UnsharedTargets(v, id, s.manifests[id].keys);
    var n := 1 + |unshared|;
    var verified := if id in s.verified then [VerifiedMarker(id)] else [];
    assert ts == [CompleteMarker(id)] + unshared + (verified + [Object(ManifestKey(id)), Journal(id)]);
    if 1 <= at < n {
      assert ts[at] == unshared[at - 1];
      assert ts[at] in unshared;
    } else if n <= at {
      assert ts[0] in done;
      forall k | k in s.manifests[id].keys && Unshared(v, id, k) ensures Object(k) in done {
        var i :| 0 <= i < |unshared| && unshared[i] == Object(k);
        assert ts[i + 1] == unshared[i];
        assert ts[i + 1] in done;
      }
      assert Cleared(s, v, done, id);
      assert ts[n..] == verified + [Object(ManifestKey(id)), Journal(id)];
      assert ts[at] == ts[n..][at - n];
      assert forall i | n <= i < at :: ts[i] == ts[n..][i - n];
      assert at == |ts| - 1 ==> ts[at - 1] == ts[n..][|verified|];
      assert id in s.verified && at > n ==> ts[n] == VerifiedMarker(id);
    }
  }

  lemma OrderedGrows(s: Remote, v: Verdict, done: set<Target>, t: Target)
    requires Ordered(s, v, done) && Admissible(s, v, done, t)
    ensures Ordered(s, v, done + {t})
  {
    forall u | u in done + {t} ensures Admissible(s, v, done + {t}, u) {
      assert Admissible(s, v, done, u);
    }
  }

  lemma PublishKeepsInFlight(r: Rotation, s: Remote, done: set<Target>)
    requires InFlight(r, s, done) && r.publish != []
    ensures InFlight(Next(r, s).0, Next(r, s).1, done)
  {
    var (r', s') := Next(r, s);
    var id := r.publish[0];
    var before, after := r.verdict.dropped - Members(r.publish), r.verdict.dropped - Members(r'.publish);
    assert id in Members(r.publish);
    assert Members(r.publish) == {id} + Members(r'.publish);
    assert id !in Members(r'.publish);
    assert after == before + {id};
    PublishToResidue(r.start, before, id);
  }

  lemma DeleteKeepsCovered(r: Rotation, r': Rotation, done: set<Target>)
    requires r.at < |r.active| && Covered(r, done) && r' == r.(at := r.at + 1)
    ensures Covered(r', done + {r.active[r.at]})
  {
    assert forall u | u in r.active[r.at..] :: u == r.active[r.at] || u in r.active[r.at + 1..];
  }

  lemma DeleteIsOrdered(r: Rotation, done: set<Target>, id: Id)
    requires Sound(r.start, r.verdict) && Opened(r, done, id) && r.at < |r.active| && Ordered(r.start, r.verdict, done)
    ensures Ordered(r.start, r.verdict, done + {r.active[r.at]})
  {
    TargetInOrder(r.start, r.verdict, done, id, r.at);
    OrderedGrows(r.start, r.verdict, done, r.active[r.at]);
  }

  lemma DeleteKeepsInFlight(r: Rotation, s: Remote, done: set<Target>)
    requires InFlight(r, s, done) && r.publish == [] && r.at < |r.active|
    ensures InFlight(Next(r, s).0, Next(r, s).1, done + {r.active[r.at]})
  {
    hide Sound, Covered, Ordered, Residue, TargetsFor, Remove;
    var (r', s') := Next(r, s);
    var t := r.active[r.at];
    var id :| Opened(r, done, id);
    DeleteIsOrdered(r, done, id);
    DeleteKeepsCovered(r, r', done);
    RemoveFromResidue(r.start, r.verdict.dropped - Members(r.publish), done, t);
    assert Opened(r', done + {t}, id);
  }

  lemma OpenKeepsInFlight(r: Rotation, s: Remote, done: set<Target>)
    requires InFlight(r, s, done) && r.publish == [] && r.at >= |r.active| && r.doomed != []
    ensures InFlight(Next(r, s).0, Next(r, s).1, done)
  {
    var (r', s') := Next(r, s);
    assert OwnRecord(r.start, r.doomed[0]);
    assert Opened(r', done, r.doomed[0]);
    assert r.active[r.at..] == [];
    assert r'.active[0..] == r'.active;
  }

  lemma FinalizeKeepsInFlight(r: Rotation, s: Remote, done: set<Target>)
    requires InFlight(r, s, done) && r.publish == [] && r.at >= |r.active| && r.doomed == [] && r.finals != []
    ensures InFlight(Next(r, s).0, Next(r, s).1, done + {Journal(r.finals[0])})
  {
    var (r', s') := Next(r, s);
    var t := Journal(r.finals[0]);
    OrderedGrows(r.start, r.verdict, done, t);
    RemoveFromResidue(r.start, r.verdict.dropped - Members(r.publish), done, t);
    if r.active != [] {
      var id :| Opened(r, done, id);
      assert Opened(r', done + {t}, id);
    }
  }

  lemma NextKeepsInFlight(r: Rotation, s: Remote, done: set<Target>) returns (done': set<Target>)
    requires InFlight(r, s, done)
    ensures InFlight(Next(r, s).0, Next(r, s).1, done')
  {
    done' := done;
    if r.publish != [] {
      PublishKeepsInFlight(r, s, done);
    } else if r.at < |r.active| {
      DeleteKeepsInFlight(r, s, done);
      done' := done + {r.active[r.at]};
    } else if r.doomed != [] {
      OpenKeepsInFlight(r, s, done);
    } else if r.finals != [] {
      FinalizeKeepsInFlight(r, s, done);
      done' := done + {Journal(r.finals[0])};
    }
  }
}