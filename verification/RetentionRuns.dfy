/**
 Runs of backups, restore verifications and rotations, with a crash allowed between any
 two remote operations of a rotation.
 */
module RetentionRuns {
  import opened Basics
  import opened RetentionPolicy
  import opened Retention

  // ---------------------------------------------------------------------------
  // One rotation, from its first check to its last deletion
  // ---------------------------------------------------------------------------

  lemma NothingDone(s: Remote)
    ensures Residue(s, {}, {}) == s
  {
    var t := Residue(s, {}, {});
    assert t.complete == s.complete && t.deleting == s.deleting && t.verified == s.verified;
    assert t.manifests == s.manifests && t.data == s.data;
  }

  lemma ListingsCover(s: Remote, v: Verdict, o: Order)
    requires Sound(s, v) && ListingOf(v, o)
    ensures InFlight(Rotation(s, v, o.dropped, o.journals + o.dropped, [], 0, o.finals), s, {})
  {
    hide Sound, TargetsFor, Residue, Distinct;
    var r := Rotation(s, v, o.dropped, o.journals + o.dropped, [], 0, o.finals);
    NothingDone(s);
    assert v.dropped - Members(r.publish) == {};
    forall id ensures v.Doomed(id) <==> id in r.doomed {
      assert id in Members(o.journals) <==> id in o.journals;
      assert id in Members(o.dropped) <==> id in o.dropped;
    }
    forall id ensures id in v.finalizing <==> id in r.finals {
      assert id in Members(o.finals) <==> id in o.finals;
    }
  }

  lemma BeginsInFlight(c: Contract, s: Remote, now: int, p: Option<Id>, o: Order)
    requires Accepts(c, s, now) && IsProtected(s, p) && ListingOf(Judge(c, s, now, p), o)
    ensures InFlight(Begin(c, s, now, p, o), s, {})
  {
    JudgedSoundly(c, s, now, p);
    ListingsCover(s, Judge(c, s, now, p), o);
  }

  /** A rotation that is in flight over a sound starting point. */
  ghost predicate Underway(c: Contract, r: Rotation, s: Remote, now: int, orphans: set<ObjectKey>) {
    && Inv(c, r.start, now, orphans)
    && IsProtected(r.start, r.verdict.protected)
    && r.verdict == Judge(c, r.start, now, r.verdict.protected)
    && exists done :: InFlight(r, s, done)
  }

  lemma UnderwayInv(c: Contract, r: Rotation, s: Remote, now: int, orphans: set<ObjectKey>)
    requires Underway(c, r, s, now, orphans)
    ensures Inv(c, s, now, orphans)
  {
    hide Inv, Sound, Covered;
    var done :| InFlight(r, s, done);
    ResidueInv(c, r.start, now, r.verdict.protected, r.verdict.dropped - Members(r.publish), done, orphans);
  }

  lemma NextUnderway(c: Contract, r: Rotation, s: Remote, now: int, orphans: set<ObjectKey>)
    requires Underway(c, r, s, now, orphans)
    ensures Underway(c, Next(r, s).0, Next(r, s).1, now, orphans)
  {
    hide Inv, InFlight, Judge;
    var done :| InFlight(r, s, done);
    var done' := NextKeepsInFlight(r, s, done);
  }

  /**
   A rotation that ran to its end leaves no journal, exactly the kept points, and, of the
   objects the removed points named, exactly those that a kept point names.
   */
  ghost predicate CleanlyRotated(start: Remote, v: Verdict, s: Remote) {
    && s.deleting == map[]
    && s.complete.Keys == v.kept
    && s.verified.Keys == start.verified.Keys * v.kept
    && (forall id | id in v.kept ::
          PointIntact(s, id) && id in start.manifests && s.manifests[id] == start.manifests[id])
    && (forall id, k | v.Doomed(id) && id in start.manifests && k in start.manifests[id].keys ::
          Present(s, k) <==> exists other | other in v.kept :: other in start.manifests && k in start.manifests[other].keys)
  }

  lemma AllExecuted(r: Rotation, s: Remote, done: set<Target>, id: Id)
    requires InFlight(r, s, done) && Finished(r) && r.verdict.Doomed(id)
    ensures CompleteMarker(id) in done && Journal(id) in done && Object(ManifestKey(id)) in done
    ensures id in r.start.verified ==> VerifiedMarker(id) in done
    ensures forall k | k in r.start.manifests[id].keys && k !in r.verdict.referenced :: Object(k) in done
  {
    hide Residue, Midway;
    var v := r.verdict;
    var ts := TargetsFor(r.start, v, id);
    assert OwnRecord(r.start, id);
    assert r.active[r.at..] == [];
    assert forall t | t in ts :: t in done;
    assert CompleteMarker(id) in ts && Journal(id) in ts && Object(ManifestKey(id)) in ts;
    assert id in r.start.verified ==> VerifiedMarker(id) in ts;
    forall k | k in r.start.manifests[id].keys && k !in v.referenced ensures Object(k) in done {
      if k != ManifestKey(id) {
        assert Unshared(v, id, k);
        assert Object(k) in ts;
      }
    }
  }

  lemma FinishedIsClean(c: Contract, r: Rotation, s: Remote, now: int, orphans: set<ObjectKey>)
    requires Underway(c, r, s, now, orphans) && Finished(r)
    ensures CleanlyRotated(r.start, r.verdict, s)
  {
    var v := r.verdict;
    var done :| InFlight(r, s, done);
    UnderwayInv(c, r, s, now, orphans);
    FinishedSets(r, s, done);
    FinishedKept(c, r, s, now, orphans, done);
    forall id, k | v.Doomed(id) && id in r.start.manifests && k in r.start.manifests[id].keys
      ensures Present(s, k) <==> exists other | other in v.kept :: other in r.start.manifests && k in r.start.manifests[other].keys
    {
      FinishedObject(r, s, done, id, k);
    }
  }

  lemma FinishedSets(r: Rotation, s: Remote, done: set<Target>)
    requires InFlight(r, s, done) && Finished(r)
    ensures s.deleting == map[] && s.complete.Keys == r.verdict.kept
    ensures s.verified.Keys == r.start.verified.Keys * r.verdict.kept
  {
    hide Admissible, TargetsFor;
    var v := r.verdict;
    assert Members(r.publish) == {};
    forall id ensures id !in s.deleting && (id in s.complete <==> id in v.kept) {
      PointInResidue(r.start, v, v.dropped - Members(r.publish), done, id);
      if v.Doomed(id) {
        AllExecuted(r, s, done, id);
      }
    }
    forall id ensures id in s.verified <==> id in r.start.verified && id in v.kept {
      DeletionOrder(r.start, v, done, id);
      if v.Doomed(id) {
        AllExecuted(r, s, done, id);
      }
      if id in s.verified {
        PointInResidue(r.start, v, v.dropped - Members(r.publish), done, id);
      }
    }
  }

  lemma FinishedKept(c: Contract, r: Rotation, s: Remote, now: int, orphans: set<ObjectKey>, done: set<Target>)
    requires Underway(c, r, s, now, orphans) && Finished(r) && InFlight(r, s, done)
    requires Inv(c, s, now, orphans)
    ensures forall id | id in r.verdict.kept ::
              PointIntact(s, id) && id in r.start.manifests && s.manifests[id] == r.start.manifests[id]
  {
    hide Admissible, TargetsFor, Accepts, Judge, Covered;
    forall id | id in r.verdict.kept
      ensures PointIntact(s, id) && id in r.start.manifests && s.manifests[id] == r.start.manifests[id] {
      PointInResidue(r.start, r.verdict, r.verdict.dropped - Members(r.publish), done, id);
    }
  }

  lemma FinishedObject(r: Rotation, s: Remote, done: set<Target>, id: Id, k: ObjectKey)
    requires InFlight(r, s, done) && Finished(r)
    requires r.verdict.Doomed(id) && id in r.start.manifests && k in r.start.manifests[id].keys
    requires forall other | other in r.verdict.kept ::
               PointIntact(s, other) && other in r.start.manifests && s.manifests[other] == r.start.manifests[other]
    ensures Present(s, k) <==> exists other | other in r.verdict.kept :: k in r.start.manifests[other].keys
  {
    hide Admissible, TargetsFor, Covered, Ordered;
    AllExecuted(r, s, done, id);
    if k in r.verdict.referenced {
      var other :| other in r.verdict.kept && k in r.start.manifests[other].keys;
      assert Present(s, k);
    } else {
      assert Object(k) in done;
      assert OwnRecord(r.start, id);
    }
  }

  /** A point that the contract gives a reason to keep, or the newest verified one. */
  ghost predicate Deserving(c: Contract, s: Remote, now: int, id: Id)
    requires id in s.complete
  {
    c.reasons(s.complete[id].frozen, s.complete[id].tags, now) != [] || IsNewest(s, id)
  }

  /** A point keeps its marker, its manifest and, if it had all of them, every object it names. */
  ghost predicate Untouched(s: Remote, t: Remote, id: Id) {
    && id in s.complete && id in t.complete && t.complete[id] == s.complete[id]
    && id in s.manifests && id in t.manifests && t.manifests[id] == s.manifests[id]
    && (id in t.verified <==> id in s.verified)
    && (PointIntact(s, id) ==> PointIntact(t, id))
  }

  /**
   What must become of a point: it stays, untouched, exactly when it was complete, carried no journal and deserves to
   stay. Otherwise its marker, its proof and its manifest are gone.
   */
  ghost predicate RotatedAt(c: Contract, s: Remote, now: int, t: Remote, id: Id) {
    && (id in t.complete <==> id in s.complete && id !in s.deleting && Deserving(c, s, now, id))
    && (id in t.complete ==> Untouched(s, t, id))
    && ((id in s.complete || id in s.deleting) && id !in t.complete ==> id !in t.manifests && id !in t.verified)
  }

  ghost predicate Rotated(c: Contract, s: Remote, now: int, t: Remote) {
    t.deleting == map[] && forall id :: RotatedAt(c, s, now, t, id)
  }

  lemma KeptExactly(c: Contract, s: Remote, now: int, p: Option<Id>, id: Id)
    requires Accepts(c, s, now) && IsProtected(s, p)
    ensures id in Judge(c, s, now, p).kept <==> id in s.complete && id !in s.deleting && Deserving(c, s, now, id)
  {
    if id in s.complete {
      assert ValidRecord(c, id, s.manifests[id]) && MarkerAgrees(s.complete[id], s.manifests[id]);
      if IsNewest(s, id) {
        OnlyOneNewest(s, p, id);
      }
    }
  }

  lemma {:induction false} StepsInFlight(r: Rotation, s: Remote, n: nat) returns (done: set<Target>)
    requires InFlight(r, s, {})
    ensures InFlight(Steps(r, s, n).0, Steps(r, s, n).1, done)
  {
    hide InFlight, Next;
    done := {};
    if n > 0 {
      done := StepsInFlight(r, s, n - 1);
      done := NextKeepsInFlight(Steps(r, s, n - 1).0, Steps(r, s, n - 1).1, done);
    }
  }

  lemma FinishedKeeps(r: Rotation, t: Remote, done: set<Target>, id: Id)
    requires InFlight(r, t, done) && Finished(r) && id in r.verdict.kept
    requires t.verified.Keys == r.start.verified.Keys * r.verdict.kept
    ensures Untouched(r.start, t, id)
  {
    hide TargetsFor, Covered;
    PointInResidue(r.start, r.verdict, r.verdict.dropped - Members(r.publish), done, id);
    if PointIntact(r.start, id) {
      forall k | k in t.manifests[id].keys ensures Present(t, k) {
        assert Present(r.start, k);
        assert Object(k) in done ==> Admissible(r.start, r.verdict, done, Object(k));
      }
    }
  }

  lemma FinishedIsRotated(c: Contract, r: Rotation, t: Remote, done: set<Target>, now: int)
    requires Accepts(c, r.start, now) && IsProtected(r.start, r.verdict.protected)
    requires r.verdict == Judge(c, r.start, now, r.verdict.protected)
    requires InFlight(r, t, done) && Finished(r)
    ensures Rotated(c, r.start, now, t)
  {
    hide InFlight, Accepts, Judge, IsProtected, Finished, RotatedAt;
    FinishedSets(r, t, done);
    forall id ensures RotatedAt(c, r.start, now, t, id) {
      FinishedAt(c, r, t, done, now, id);
    }
  }

  lemma FinishedAt(c: Contract, r: Rotation, t: Remote, done: set<Target>, now: int, id: Id)
    requires Accepts(c, r.start, now) && IsProtected(r.start, r.verdict.protected)
    requires r.verdict == Judge(c, r.start, now, r.verdict.protected)
    requires InFlight(r, t, done) && Finished(r)
    ensures RotatedAt(c, r.start, now, t, id)
  {
    hide InFlight, Accepts, Judge, IsProtected, Finished, Deserving, Untouched;
    FinishedSets(r, t, done);
    KeptExactly(c, r.start, now, r.verdict.protected, id);
    if id in r.verdict.kept {
      FinishedKeeps(r, t, done, id);
    } else if id in r.start.complete || id in r.start.deleting {
      FinishedDrops(r, t, done, id);
    }
  }

  lemma FinishedDrops(r: Rotation, t: Remote, done: set<Target>, id: Id)
    requires InFlight(r, t, done) && Finished(r) && id !in r.verdict.kept
    requires id in r.start.complete || id in r.start.deleting
    ensures id !in t.manifests && id !in t.verified
  {
    hide TargetsFor, Covered, Admissible;
    if r.verdict.Doomed(id) {
      AllExecuted(r, t, done, id);
    }
  }

  /** Any number of steps. */
  function Steps(r: Rotation, s: Remote, n: nat): (Rotation, Remote) {
    if n == 0 then (r, s) else var (r', s') := Steps(r, s, n - 1); Next(r', s')
  }

  lemma {:induction false} StepsUnderway(c: Contract, r: Rotation, s: Remote, n: nat, now: int, orphans: set<ObjectKey>)
    requires Underway(c, r, s, now, orphans)
    ensures Underway(c, Steps(r, s, n).0, Steps(r, s, n).1, now, orphans)
  {
    hide Underway;
    if n > 0 {
      StepsUnderway(c, r, s, n - 1, now, orphans);
      NextUnderway(c, Steps(r, s, n - 1).0, Steps(r, s, n - 1).1, now, orphans);
    }
  }

  lemma {:induction false} StepsKeepStart(r: Rotation, s: Remote, n: nat)
    ensures Steps(r, s, n).0.start == r.start && Steps(r, s, n).0.verdict == r.verdict
  {
    if n > 0 {
      StepsKeepStart(r, s, n - 1);
    }
  }

  /** A rotation stopped after any number of steps is safe, and one that finished is clean. */
  lemma RotationIsSafe(c: Contract, s: Remote, clock: int, now: int, p: Option<Id>, o: Order, n: nat,
                       orphans: set<ObjectKey>)
    requires c.Permanent() && Inv(c, s, clock, orphans) && clock <= now
    requires IsProtected(s, p) && ListingOf(Judge(c, s, now, p), o)
    ensures var (r, t) := Steps(Begin(c, s, now, p, o), s, n);
            && Inv(c, t, now, orphans)
            && (Finished(r) ==> CleanlyRotated(s, Judge(c, s, now, p), t))
  {
    var r0 := Begin(c, s, now, p, o);
    ClockMayAdvance(c, s, clock, now, orphans);
    BeginsInFlight(c, s, now, p, o);
    assert r0.start == s && r0.verdict == Judge(c, s, now, p);
    assert Underway(c, r0, s, now, orphans);
    hide Inv, InFlight, CleanlyRotated, Judge, Next, ListingOf, IsProtected, Steps, Begin, Accepts;
    StepsUnderway(c, r0, s, n, now, orphans);
    StepsKeepStart(r0, s, n);
    var (r, t) := Steps(r0, s, n);
    UnderwayInv(c, r, t, now, orphans);
    if Finished(r) {
      FinishedIsClean(c, r, t, now, orphans);
    }
  }

  // ---------------------------------------------------------------------------
  // Whole runs
  // ---------------------------------------------------------------------------

  /**
   The remote, the latest clock reading a rotation used, the keys that unfinished backups
   left behind, and the rotation in flight, if any. New points and proofs appear only
   between rotations.
   */
  datatype System = System(remote: Remote, clock: int, orphans: set<ObjectKey>, rotation: Option<Rotation>)

  const INITIAL := System(EMPTY, 0, {}, None)

  datatype Event =
    | Upload(keys: set<ObjectKey>)       // a precopy, or a backup that never completes
    | Strand(record: Record)             // a backup that stops after its manifest
    | Complete(record: Record)           // a backup that publishes its completion marker
    | Verify(id: Id)                     // a restore that publishes its proof
    | BeginRotation(now: int, protected: Option<Id>, order: Order)
    | Step
    | Crash

  predicate Unused(s: Remote, id: Id) {
    id !in s.complete && id !in s.deleting && id !in s.verified && id !in s.manifests
  }

  predicate Enabled(c: Contract, sys: System, e: Event) {
    match e
    case Upload(keys) => sys.rotation.None? && forall k | k in keys :: !k.ManifestKey?
    case Strand(record) => sys.rotation.None? && Unused(sys.remote, record.id)
    case Complete(record) => sys.rotation.None? && Unused(sys.remote, record.id) && ValidRecord(c, record.id, record)
    case Verify(id) =>
      sys.rotation.None? && id in sys.remote.complete && id in sys.remote.manifests && id !in sys.remote.deleting
    case BeginRotation(now, p, o) =>
      && sys.rotation.None? && sys.clock <= now
      && IsProtected(sys.remote, p) && ListingOf(Judge(c, sys.remote, now, p), o)
    case Step => sys.rotation.Some?
    case Crash => sys.rotation.Some?
  }

  function DataKeys(keys: seq<ObjectKey>): set<ObjectKey> {
    set k | k in keys && !k.ManifestKey?
  }

  function AddPoint(s: Remote, r: Record): Remote {
    s.(complete := s.complete[r.id := Marker(r.id, r.frozen, r.tags, ManifestKey(r.id), r.keys)],
       manifests := s.manifests[r.id := r],
       data := s.data + DataKeys(r.keys))
  }

  function AddProof(s: Remote, id: Id): Remote
    requires id in s.manifests
  {
    s.(verified := s.verified[id := Proof(id, s.manifests[id].manifestSha)])
  }

  function After(c: Contract, sys: System, e: Event): System
    requires Enabled(c, sys, e)
  {
    match e
    case Upload(keys) => sys.(remote := sys.remote.(data := sys.remote.data + keys), orphans := sys.orphans + keys)
    case Strand(r) =>
      sys.(remote := sys.remote.(manifests := sys.remote.manifests[r.id := r]),
           orphans := sys.orphans + {ManifestKey(r.id)})
    case Complete(r) => sys.(remote := AddPoint(sys.remote, r))
    case Verify(id) => sys.(remote := AddProof(sys.remote, id))
    case BeginRotation(now, p, o) =>
      if Accepts(c, sys.remote, now)
      then sys.(clock := now, rotation := Some(Begin(c, sys.remote, now, p, o)))
      else sys
    case Step =>
      var (r, s) := Next(sys.rotation.value, sys.remote);
      sys.(remote := s, rotation := if Finished(r) then None else Some(r))
    case Crash => sys.(rotation := None)
  }

  predicate Legal(c: Contract, sys: System, es: seq<Event>)
    decreases |es|
  {
    es == [] || (Enabled(c, sys, es[0]) && Legal(c, After(c, sys, es[0]), es[1..]))
  }

  function Exec(c: Contract, sys: System, es: seq<Event>): System
    requires Legal(c, sys, es)
    decreases |es|
  {
    if es == [] then sys else Exec(c, After(c, sys, es[0]), es[1..])
  }

  ghost predicate SystemInv(c: Contract, sys: System) {
    && Inv(c, sys.remote, sys.clock, sys.orphans)
    && (sys.rotation.Some? ==> Underway(c, sys.rotation.value, sys.remote, sys.clock, sys.orphans))
  }

  lemma UploadKeepsInv(c: Contract, s: Remote, clock: int, orphans: set<ObjectKey>, keys: set<ObjectKey>)
    requires Inv(c, s, clock, orphans) && forall k | k in keys :: !k.ManifestKey?
    ensures Inv(c, s.(data := s.data + keys), clock, orphans + keys)
  {
    var t := s.(data := s.data + keys);
    forall id | id in t.complete && id !in t.deleting ensures PointIntact(t, id) {
      assert PointIntact(s, id);
    }
    AcceptsIgnoresData(c, s, t, clock);
  }

  /** The protected point depends only on the proofs and on the manifests they are bound to. */
  lemma SameNewest(s: Remote, t: Remote)
    requires ProofsBound(s) && ProtectedIntact(s) && t.verified == s.verified && t.deleting == s.deleting
    requires forall id | id in s.verified :: id in t.manifests && t.manifests[id] == s.manifests[id]
    ensures ProtectedIntact(t)
  {
    forall id | id in t.verified && IsNewest(t, id) ensures id !in t.deleting {
      forall other | other in s.verified ensures AtLeast(s, id, other) {
        assert AtLeast(t, id, other);
      }
      assert IsNewest(s, id);
    }
  }

  lemma AcceptsIgnoresData(c: Contract, s: Remote, t: Remote, clock: int)
    requires Accepts(c, s, clock) && t == s.(data := t.data)
    ensures Accepts(c, t, clock)
  {
    SameNewest(s, t);
  }

  lemma StrandKeepsInv(c: Contract, s: Remote, clock: int, orphans: set<ObjectKey>, r: Record)
    requires Inv(c, s, clock, orphans) && Unused(s, r.id)
    ensures Inv(c, s.(manifests := s.manifests[r.id := r]), clock, orphans + {ManifestKey(r.id)})
  {
    var t := s.(manifests := s.manifests[r.id := r]);
    AcceptsWithManifest(c, s, t, clock, r);
    forall id | id in t.complete && id !in t.deleting ensures PointIntact(t, id) {
      assert PointIntact(s, id);
    }
  }

  /** A manifest of an unused identity changes no check. */
  lemma AcceptsWithManifest(c: Contract, s: Remote, t: Remote, clock: int, r: Record)
    requires Accepts(c, s, clock) && Unused(s, r.id) && t == s.(manifests := s.manifests[r.id := r])
    ensures Accepts(c, t, clock)
  {
    SameNewest(s, t);
    hide IsNewest, ProtectedIntact, ValidRecord, MarkerAgrees;
    assert CompletionsValid(c, t);
    assert JournalsValid(c, t);
    assert ProofsBound(t);
    assert JournalsExpired(c, t, clock);
  }

  lemma CompleteKeepsInv(c: Contract, s: Remote, clock: int, orphans: set<ObjectKey>, r: Record)
    requires Inv(c, s, clock, orphans) && Unused(s, r.id) && ValidRecord(c, r.id, r)
    ensures Inv(c, AddPoint(s, r), clock, orphans)
  {
    AddedPointIsAccepted(c, s, clock, r);
    AddedPointIsIntact(c, s, r);
    AddedPointLeaksNothing(s, orphans, r);
    hide Accepts, PointIntact, ValidRecord, Unused, NoLeak;
  }

  lemma AddedPointIsAccepted(c: Contract, s: Remote, clock: int, r: Record)
    requires Accepts(c, s, clock) && Unused(s, r.id) && ValidRecord(c, r.id, r)
    ensures Accepts(c, AddPoint(s, r), clock)
  {
    var m, t := s.(manifests := s.manifests[r.id := r]), AddPoint(s, r);
    AcceptsWithManifest(c, s, m, clock, r);
    SameNewest(m, t);
  }

  lemma AddedPointIsIntact(c: Contract, s: Remote, r: Record)
    requires ValidRecord(c, r.id, r) && forall id | id in s.complete && id !in s.deleting :: PointIntact(s, id)
    requires Unused(s, r.id)
    ensures var t := AddPoint(s, r); forall id | id in t.complete && id !in t.deleting :: PointIntact(t, id)
  {
    var t := AddPoint(s, r);
    forall id | id in t.complete && id !in t.deleting ensures PointIntact(t, id) {
      if id != r.id {
        assert PointIntact(s, id);
      }
    }
  }

  lemma AddedPointLeaksNothing(s: Remote, orphans: set<ObjectKey>, r: Record)
    requires NoLeak(s, orphans) && Unused(s, r.id)
    ensures NoLeak(AddPoint(s, r), orphans)
  {
    var t := AddPoint(s, r);
    forall k | k in t.data && k !in orphans
      ensures exists id | id in t.manifests :: (id in t.complete || id in t.deleting) && k in t.manifests[id].keys
    {
      if k !in s.data {
        assert r.id in t.manifests && k in t.manifests[r.id].keys;
      } else {
        var id :| id in s.manifests && (id in s.complete || id in s.deleting) && k in s.manifests[id].keys;
        assert id in t.manifests && k in t.manifests[id].keys;
      }
    }
  }

  lemma VerifyKeepsInv(c: Contract, s: Remote, clock: int, orphans: set<ObjectKey>, id: Id)
    requires Inv(c, s, clock, orphans) && id in s.complete && id in s.manifests && id !in s.deleting
    ensures Inv(c, AddProof(s, id), clock, orphans)
  {
    var t := AddProof(s, id);
    assert ProtectedIntact(t) by {
      forall p | p in t.verified && IsNewest(t, p) ensures p !in t.deleting {
        if p != id {
          forall other | other in s.verified ensures AtLeast(s, p, other) {
            assert AtLeast(t, p, other);
          }
          assert IsNewest(s, p);
        }
      }
    }
    forall other | other in t.complete && other !in t.deleting ensures PointIntact(t, other) {
      assert PointIntact(s, other);
    }
  }

  /** Time passing changes no check. */
  lemma ClockMayAdvance(c: Contract, s: Remote, clock: int, now: int, orphans: set<ObjectKey>)
    requires c.Permanent() && Inv(c, s, clock, orphans) && clock <= now
    ensures Inv(c, s, now, orphans)
  {
  }

  lemma BeginKeepsInv(c: Contract, sys: System, now: int, p: Option<Id>, o: Order)
    requires c.Permanent() && SystemInv(c, sys) && Enabled(c, sys, BeginRotation(now, p, o))
    ensures SystemInv(c, After(c, sys, BeginRotation(now, p, o)))
  {
    ClockMayAdvance(c, sys.remote, sys.clock, now, sys.orphans);
    BeginsInFlight(c, sys.remote, now, p, o);
  }

  lemma EventKeepsInv(c: Contract, sys: System, e: Event)
    requires c.Permanent() && SystemInv(c, sys) && Enabled(c, sys, e)
    ensures SystemInv(c, After(c, sys, e))
  {
    hide Inv, Underway;
    match e
    case Upload(keys) => UploadKeepsInv(c, sys.remote, sys.clock, sys.orphans, keys);
    case Strand(r) => StrandKeepsInv(c, sys.remote, sys.clock, sys.orphans, r);
    case Complete(r) => CompleteKeepsInv(c, sys.remote, sys.clock, sys.orphans, r);
    case Verify(id) => VerifyKeepsInv(c, sys.remote, sys.clock, sys.orphans, id);
    case BeginRotation(now, p, o) => BeginKeepsInv(c, sys, now, p, o);
    case Step =>
      NextUnderway(c, sys.rotation.value, sys.remote, sys.clock, sys.orphans);
      var (r, s) := Next(sys.rotation.value, sys.remote);
      UnderwayInv(c, r, s, sys.clock, sys.orphans);
    case Crash =>
  }

  lemma {:induction false} RunKeepsInv(c: Contract, sys: System, es: seq<Event>)
    requires c.Permanent() && SystemInv(c, sys) && Legal(c, sys, es)
    ensures SystemInv(c, Exec(c, sys, es))
    decreases |es|
  {
    hide SystemInv;
    if es != [] {
      EventKeepsInv(c, sys, es[0]);
      RunKeepsInv(c, After(c, sys, es[0]), es[1..]);
    }
  }

  lemma InitiallySafe(c: Contract)
    ensures SystemInv(c, INITIAL)
  {
  }

  /**
   Such runs exist: a point is completed, proved and kept by a rotation, however old it is; and a point that has expired
   unproved is journaled by the first step of one.
   */
  lemma RunsExist(c: Contract, r: Record, now: int)
    requires ValidRecord(c, r.id, r) && 0 <= now
    ensures var es := [Complete(r), Verify(r.id), BeginRotation(now, Some(r.id), Order([], [], [])), Step];
            Legal(c, INITIAL, es) && r.id in Exec(c, INITIAL, es).remote.complete && Exec(c, INITIAL, es).clock == now
    ensures c.Expired(r.frozen, now) ==>
              var es := [Complete(r), BeginRotation(now, None, Order([], [r.id], [])), Step];
              Legal(c, INITIAL, es) && r.id in Exec(c, INITIAL, es).remote.deleting
  {
    ProvedPointIsKept(c, r, now);
    if c.Expired(r.frozen, now) {
      ExpiredPointIsJournaled(c, r, now);
    }
  }

  lemma Unroll(c: Contract, sys: System, e: Event, es: seq<Event>)
    requires Enabled(c, sys, e) && Legal(c, After(c, sys, e), es)
    ensures Legal(c, sys, [e] + es) && Exec(c, sys, [e] + es) == Exec(c, After(c, sys, e), es)
  {
    assert ([e] + es)[1..] == es;
  }

  lemma CompletedSystem(c: Contract, r: Record)
    requires ValidRecord(c, r.id, r)
    ensures Enabled(c, INITIAL, Complete(r)) && After(c, INITIAL, Complete(r)) == INITIAL.(remote := AddPoint(EMPTY, r))
    ensures Accepts(c, AddPoint(EMPTY, r), 0) && AddPoint(EMPTY, r).manifests == map[r.id := r]
  {
    AddedPointIsAccepted(c, EMPTY, 0, r);
  }

  lemma ProvedPointIsKept(c: Contract, r: Record, now: int)
    requires ValidRecord(c, r.id, r) && 0 <= now
    ensures var es := [Complete(r), Verify(r.id), BeginRotation(now, Some(r.id), Order([], [], [])), Step];
            Legal(c, INITIAL, es) && r.id in Exec(c, INITIAL, es).remote.complete && Exec(c, INITIAL, es).clock == now
  {
    var b := BeginRotation(now, Some(r.id), Order([], [], []));
    var s1 := INITIAL.(remote := AddPoint(EMPTY, r));
    var s2 := s1.(remote := AddProof(s1.remote, r.id));
    CompletedSystem(c, r);
    assert Enabled(c, s1, Verify(r.id)) && After(c, s1, Verify(r.id)) == s2;
    assert IsProtected(s2.remote, Some(r.id));
    assert Unjournaled(s2.remote) == {r.id};
    var v := Judge(c, s2.remote, now, Some(r.id));
    assert v.kept == {r.id} && v.dropped == {} && v.journaled == {} && v.finalizing == {};
    assert ListingOf(v, Order([], [], []));
    assert Accepts(c, s2.remote, now);
    var s3 := After(c, s2, b);
    Unroll(c, s3, Step, []);
    Unroll(c, s2, b, [Step]);
    Unroll(c, s1, Verify(r.id), [b] + [Step]);
    Unroll(c, INITIAL, Complete(r), [Verify(r.id)] + ([b] + [Step]));
    assert [Complete(r)] + ([Verify(r.id)] + ([b] + [Step])) == [Complete(r), Verify(r.id), b, Step];
  }

  lemma ExpiredPointIsJournaled(c: Contract, r: Record, now: int)
    requires ValidRecord(c, r.id, r) && 0 <= now && c.Expired(r.frozen, now)
    ensures var es := [Complete(r), BeginRotation(now, None, Order([], [r.id], [])), Step];
            Legal(c, INITIAL, es) && r.id in Exec(c, INITIAL, es).remote.deleting
  {
    var b := BeginRotation(now, None, Order([], [r.id], []));
    var s1 := INITIAL.(remote := AddPoint(EMPTY, r));
    CompletedSystem(c, r);
    assert Unjournaled(s1.remote) == {r.id};
    var v := Judge(c, s1.remote, now, None);
    assert v.kept == {} && v.dropped == {r.id} && v.journaled == {} && v.finalizing == {};
    assert ListingOf(v, Order([], [r.id], []));
    assert Accepts(c, s1.remote, now);
    var s2 := After(c, s1, b);
    Unroll(c, s2, Step, []);
    Unroll(c, s1, b, [Step]);
    Unroll(c, INITIAL, Complete(r), [b] + [Step]);
    assert [Complete(r)] + ([b] + [Step]) == [Complete(r), b, Step];
  }

  // ---------------------------------------------------------------------------
  // What holds after every run
  // ---------------------------------------------------------------------------

  /**
   Whatever happened, and wherever rotations crashed: every complete, unjournaled point has
   every object it names; the newest verified point is such a point; and no object is leaked.
   */
  lemma EveryRunIsSafe(c: Contract, es: seq<Event>)
    requires c.Permanent() && Legal(c, INITIAL, es)
    ensures var s := Exec(c, INITIAL, es).remote;
            && (forall id | id in s.complete && id !in s.deleting :: PointIntact(s, id))
            && (forall id | IsNewest(s, id) :: id !in s.deleting && PointIntact(s, id))
            && NoLeak(s, Exec(c, INITIAL, es).orphans)
  {
    InitiallySafe(c);
    RunKeepsInv(c, INITIAL, es);
  }

  /** From every state a crashed rotation can leave, the next rotation passes all of its own checks. */
  lemma NextRotationAccepts(c: Contract, es: seq<Event>, now: int)
    requires c.Permanent() && Legal(c, INITIAL, es) && Exec(c, INITIAL, es).clock <= now
    ensures Accepts(c, Exec(c, INITIAL, es).remote, now)
  {
    InitiallySafe(c);
    RunKeepsInv(c, INITIAL, es);
    var sys := Exec(c, INITIAL, es);
    ClockMayAdvance(c, sys.remote, sys.clock, now, sys.orphans);
  }

  /** The last step of a rotation, in any run, leaves the remote cleanly rotated. */
  lemma LastStepIsClean(c: Contract, es: seq<Event>)
    requires c.Permanent() && Legal(c, INITIAL, es) && Exec(c, INITIAL, es).rotation.Some?
    ensures var sys := Exec(c, INITIAL, es);
            var (r, s) := Next(sys.rotation.value, sys.remote);
            Finished(r) ==> CleanlyRotated(r.start, r.verdict, s)
  {
    InitiallySafe(c);
    RunKeepsInv(c, INITIAL, es);
    var sys := Exec(c, INITIAL, es);
    var (r, s) := Next(sys.rotation.value, sys.remote);
    NextUnderway(c, sys.rotation.value, sys.remote, sys.clock, sys.orphans);
    if Finished(r) {
      FinishedIsClean(c, r, s, sys.clock, sys.orphans);
    }
  }

  /** In any run, the last step of a rotation leaves exactly the points that the contract and the newest proof keep. */
  lemma LastStepRemovesTheExpired(c: Contract, es: seq<Event>)
    requires c.Permanent() && Legal(c, INITIAL, es) && Exec(c, INITIAL, es).rotation.Some?
    ensures var sys := Exec(c, INITIAL, es);
            var (r, s) := Next(sys.rotation.value, sys.remote);
            Finished(r) ==> Rotated(c, r.start, sys.clock, s)
  {
    InitiallySafe(c);
    RunKeepsInv(c, INITIAL, es);
    var sys := Exec(c, INITIAL, es);
    var (r, s) := Next(sys.rotation.value, sys.remote);
    NextUnderway(c, sys.rotation.value, sys.remote, sys.clock, sys.orphans);
    if Finished(r) {
      var done :| InFlight(r, s, done);
      hide InFlight, Judge, Next, IsProtected, Rotated, Steps, Enabled, After;
      FinishedIsRotated(c, r, s, done, sys.clock);
    }
  }

  /** No single event journals, deletes or damages the point that is newest verified when it happens. */
  lemma NewestSurvivesEveryEvent(c: Contract, es: seq<Event>, e: Event, id: Id)
    requires c.Permanent() && Legal(c, INITIAL, es)
    requires Enabled(c, Exec(c, INITIAL, es), e) && IsNewest(Exec(c, INITIAL, es).remote, id)
    ensures var s := After(c, Exec(c, INITIAL, es), e).remote;
            id in s.verified && id !in s.deleting && PointIntact(s, id)
  {
    InitiallySafe(c);
    RunKeepsInv(c, INITIAL, es);
    var sys := Exec(c, INITIAL, es);
    EventKeepsInv(c, sys, e);
    NewestNotTouched(c, sys, e, id);
    var s := After(c, sys, e).remote;
    assert Inv(c, s, After(c, sys, e).clock, After(c, sys, e).orphans);
  }

  lemma StepSparesNewest(c: Contract, r: Rotation, s: Remote, now: int, orphans: set<ObjectKey>, id: Id)
    requires Underway(c, r, s, now, orphans) && IsNewest(s, id)
    ensures id in Next(r, s).1.verified && id !in Next(r, s).1.deleting
  {
    NewestIsProtected(c, r, s, now, orphans, id);
    NextKeepsVerdict(r, s);
    NextUnderway(c, r, s, now, orphans);
    ProtectedIsNewest(c, Next(r, s).0, Next(r, s).1, now, orphans);
    hide Underway, Next;
    assert IsNewest(Next(r, s).1, id);
  }

  lemma NextKeepsVerdict(r: Rotation, s: Remote)
    ensures Next(r, s).0.verdict == r.verdict
  {
  }

  lemma OthersSpareNewest(c: Contract, sys: System, e: Event, id: Id)
    requires Enabled(c, sys, e) && !e.Step? && id in sys.remote.verified && id !in sys.remote.deleting
    ensures id in After(c, sys, e).remote.verified && id !in After(c, sys, e).remote.deleting
  {
    hide Judge, Begin, Accepts, ListingOf, IsProtected, ValidRecord;
  }

  lemma NewestIsUnjournaled(c: Contract, s: Remote, clock: int, orphans: set<ObjectKey>, id: Id)
    requires Inv(c, s, clock, orphans) && IsNewest(s, id)
    ensures id in s.verified && id !in s.deleting
  {
    hide NoLeak, PointIntact, CompletionsValid, JournalsValid, ProofsBound, JournalsExpired;
  }

  lemma NewestNotTouched(c: Contract, sys: System, e: Event, id: Id)
    requires Enabled(c, sys, e) && SystemInv(c, sys) && IsNewest(sys.remote, id)
    ensures id in After(c, sys, e).remote.verified && id !in After(c, sys, e).remote.deleting
  {
    hide Inv, Underway, Next, IsNewest, Judge, Begin, Accepts, IsProtected, ListingOf, ValidRecord;
    if e.Step? {
      StepSparesNewest(c, sys.rotation.value, sys.remote, sys.clock, sys.orphans, id);
    } else {
      NewestIsUnjournaled(c, sys.remote, sys.clock, sys.orphans, id);
      OthersSpareNewest(c, sys, e, id);
    }
  }

  /** During a rotation the newest verified point is the one it protects. */
  lemma ProtectedIsNewest(c: Contract, r: Rotation, s: Remote, now: int, orphans: set<ObjectKey>)
    requires Underway(c, r, s, now, orphans)
    ensures IsProtected(s, r.verdict.protected) && ProtectedIntact(s)
  {
    var done :| InFlight(r, s, done);
    ResidueProtected(r.start, r.verdict, r.verdict.dropped - Members(r.publish), done);
  }

  lemma NewestIsProtected(c: Contract, r: Rotation, s: Remote, now: int, orphans: set<ObjectKey>, id: Id)
    requires Underway(c, r, s, now, orphans) && IsNewest(s, id)
    ensures r.verdict.protected == Some(id)
  {
    ProtectedIsNewest(c, r, s, now, orphans);
    hide Underway, InFlight, ProtectedIntact, PointIntact;
    OnlyOneNewest(s, r.verdict.protected, id);
  }

  lemma OnlyOneNewest(s: Remote, p: Option<Id>, id: Id)
    requires IsProtected(s, p) && IsNewest(s, id)
    ensures p == Some(id)
  {
    assert AtLeast(s, id, p.value) && AtLeast(s, p.value, id);
  }

  /** A proof is stored, whatever it says and whenever it arrives. */
  function StoreProof(s: Remote, id: Id, proof: Proof): Remote {
    s.(verified := s.verified[id := proof])
  }

  /**
   What a proof that arrives between rotations does to the next one, also when the point's journal was published and
   its marker or its manifest is gone already: rotation goes on working exactly when the proof is bound to the manifest
   of a point that is complete or journaled, and a journaled point does not become the newest proved one by it.
   */
  lemma ProvingAJournaledPoint(
    c: Contract, s: Remote, clock: int, orphans: set<ObjectKey>, now: int, id: Id, proof: Proof)
    requires c.Permanent() && Inv(c, s, clock, orphans) && clock <= now
    ensures Accepts(c, StoreProof(s, id, proof), now)
            <==> && id in s.manifests && (id in s.complete || id in s.deleting)
                 && proof == Proof(id, s.manifests[id].manifestSha)
                 && (id in s.deleting ==> !IsNewest(StoreProof(s, id, proof), id))
  {
    ClockMayAdvance(c, s, clock, now, orphans);
    var t := StoreProof(s, id, proof);
    if ProofsBound(t) {
      assert id in t.verified && t.verified[id] == proof;
      ProvenIntactIff(s, t, id);
      hide ProtectedIntact, IsNewest, ValidRecord, MarkerAgrees, PointIntact, NoLeak, ProofsBound;
      assert CompletionsValid(c, t) && JournalsValid(c, t) && JournalsExpired(c, t, now);
    } else {
      ProofIsBound(s, id, proof);
    }
  }

  lemma ProofIsBound(s: Remote, id: Id, proof: Proof)
    requires ProofsBound(s)
    ensures ProofsBound(StoreProof(s, id, proof))
            <==> && id in s.manifests && (id in s.complete || id in s.deleting)
                 && proof == Proof(id, s.manifests[id].manifestSha)
  {
    assert id in StoreProof(s, id, proof).verified;
  }

  lemma ProvenIntactIff(s: Remote, t: Remote, id: Id)
    requires ProtectedIntact(s) && ProofsBound(s) && id in t.verified
    requires t == StoreProof(s, id, t.verified[id]) && ProofsBound(t)
    ensures ProtectedIntact(t) <==> (id in s.deleting ==> !IsNewest(t, id))
  {
    if id in s.deleting ==> !IsNewest(t, id) {
      forall p | p in t.verified && IsNewest(t, p) ensures p !in t.deleting {
        if p != id {
          forall other | other in s.verified ensures AtLeast(s, p, other) {
            assert AtLeast(t, p, other);
          }
          assert IsNewest(s, p);
        }
      }
    }
  }

  /** The block lasts until a point that is not journaled is proved to be newer. */
  lemma NewerProofLiftsTheBlock(
    c: Contract, s: Remote, clock: int, orphans: set<ObjectKey>, now: int, id: Id, newer: Id)
    requires c.Permanent() && Inv(c, s, clock, orphans) && clock <= now
    requires id in s.manifests && id in s.deleting && newer in s.manifests && newer in s.complete && newer !in s.deleting
    ensures var t := AddProof(AddProof(s, id), newer); Accepts(c, t, now) <==> !IsNewest(t, id)
  {
    ClockMayAdvance(c, s, clock, now, orphans);
    var t := AddProof(AddProof(s, id), newer);
    TwoProofsIntactIff(s, id, newer);
    hide ProtectedIntact, IsNewest, ValidRecord, MarkerAgrees, PointIntact, NoLeak;
    assert CompletionsValid(c, t) && JournalsValid(c, t) && ProofsBound(t) && JournalsExpired(c, t, now);
  }

  lemma TwoProofsIntactIff(s: Remote, id: Id, newer: Id)
    requires ProtectedIntact(s) && ProofsBound(s)
    requires id in s.manifests && id in s.deleting && newer in s.manifests && newer !in s.deleting
    ensures var t := AddProof(AddProof(s, id), newer); ProtectedIntact(t) <==> !IsNewest(t, id)
  {
    var t := AddProof(AddProof(s, id), newer);
    if !IsNewest(t, id) {
      forall p | p in t.verified && IsNewest(t, p) ensures p !in t.deleting {
        if p != newer {
          assert p != id;
          forall other | other in s.verified ensures AtLeast(s, p, other) {
            assert AtLeast(t, p, other);
          }
          assert IsNewest(s, p);
        }
      }
    }
  }
}
